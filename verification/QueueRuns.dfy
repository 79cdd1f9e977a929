/** What holds over whole runs of the shared queue. */
module QueueRuns {
  import opened QueueProtocol
  import QueueLayout
  import opened QueueSafety
  import opened QueueFifo
  import opened QueueWakeup

  ghost predicate Good(s: State) {
    && Safe(s) && Pairs(s) && Alert(s)
    && (!s.h.torn ==> Fifo(s))
  }

  lemma GoodInit(s: State)
    requires Init(s)
    ensures Good(s)
  {
    assert LiveFrom(s.ring, 0) == [];
    assert forall t :: t in s.threads ==> ThreadOk(s, t);
  }

  lemma GoodStep(s: State, step: Step)
    requires Good(s) && Enabled(s, step)
    ensures Good(Apply(s, step))
  {
    SafeStep(s, step);
    PairsStep(s, step);
    AlertStep(s, step);
    if !Apply(s, step).h.torn {
      TornStays(s, step);
      StepRefinesFifo(s, step);
    }
  }

  lemma TornStays(s: State, step: Step)
    requires Enabled(s, step)
    ensures Apply(s, step).h.torn <==> s.h.torn || (step.Die? && Tearing(s.threads[step.t], s.ring))
  {
  }

  lemma {:induction false} AlwaysGood(states: seq<State>, steps: seq<Step>, i: nat)
    requires Run(states, steps) && i < |states|
    ensures Good(states[i])
  {
    if i == 0 {
      GoodInit(states[0]);
    } else {
      AlwaysGood(states, steps, i - 1);
      assert Follows(states[i - 1], steps[i - 1], states[i]);
      GoodStep(states[i - 1], steps[i - 1]);
    }
  }

  // ----- first in, first out

  predicate TearingDeath(s: State, step: Step) {
    step.Die? && step.t in s.threads && Tearing(s.threads[step.t], s.ring)
  }

  lemma {:induction false} NotTorn(states: seq<State>, steps: seq<Step>, i: nat)
    requires Run(states, steps) && i < |states|
    requires forall j :: 0 <= j < i ==> !TearingDeath(states[j], steps[j])
    ensures !states[i].h.torn
  {
    if 0 < i {
      NotTorn(states, steps, i - 1);
      AlwaysGood(states, steps, i - 1);
      assert Follows(states[i - 1], steps[i - 1], states[i]);
      TornStays(states[i - 1], steps[i - 1]);
    }
  }

  /**
    In every interleaving of any number of callers, deaths included, as long as no owner died
    between an index store and its `cursize` update: whenever the mutex is not held, the three
    indexes agree and the elements taken so far followed by the live slots are the elements
    put in, in order.
   */
  lemma FifoAlways(states: seq<State>, steps: seq<Step>, i: nat)
    requires Run(states, steps) && i < |states|
    requires forall j :: 0 <= j < i ==> !TearingDeath(states[j], steps[j])
    requires !states[i].mutex.Held?
    ensures var s := states[i];
            && Bounded(s.ring)
            && s.ring.tail == (s.ring.head + s.ring.cursize) % s.ring.maxsize
            && Contents(s.h.enq) == Contents(s.h.deq) + LiveFrom(s.ring, s.ring.head)
  {
    AlwaysGood(states, steps, i);
    NotTorn(states, steps, i);
    var s := states[i];
    AroundIsMod(s.ring.head, s.ring.cursize, s.ring.maxsize);
  }

  /** The condition is exact: a death in that gap always breaks the agreement. */
  lemma TearBreaksFifo(s: State, t: ThreadId)
    requires Good(s) && t in s.threads && !s.h.torn && Tearing(s.threads[t], s.ring)
    ensures var s' := Apply(s, Die(t));
            && !s'.mutex.Held? && Bounded(s'.ring)
            && s'.ring.tail != (s'.ring.head + s'.ring.cursize) % s'.ring.maxsize
  {
    assert Here(s, t);
    var s' := Apply(s, Die(t));
    AroundIsMod(s'.ring.head, s'.ring.cursize, s'.ring.maxsize);
  }

  /** At moment `i` the indexes agree and the histories differ by the live slots. */
  ghost predicate FifoAt(s: State) {
    && Bounded(s.ring)
    && s.ring.tail == (s.ring.head + s.ring.cursize) % s.ring.maxsize
    && Contents(s.h.enq) == Contents(s.h.deq) + LiveFrom(s.ring, s.ring.head)
  }

  /** Over runs: the queue is a FIFO at every unheld moment up to `i` exactly when no tearing death precedes `i`. */
  lemma FifoExactly(states: seq<State>, steps: seq<Step>, i: nat)
    requires Run(states, steps) && i < |states|
    ensures (forall k :: 0 <= k <= i && !states[k].mutex.Held? ==> FifoAt(states[k]))
       <==> (forall j :: 0 <= j < i ==> !TearingDeath(states[j], steps[j]))
  {
    if forall j :: 0 <= j < i ==> !TearingDeath(states[j], steps[j]) {
      forall k | 0 <= k <= i && !states[k].mutex.Held? ensures FifoAt(states[k]) { FifoAlways(states, steps, k); }
    } else {
      var j := FirstTear(states, steps, i);
      TearShows(states, steps, j);
    }
  }

  lemma TearShows(states: seq<State>, steps: seq<Step>, j: nat)
    requires Run(states, steps) && j < |steps| && TearingDeath(states[j], steps[j])
    requires forall k :: 0 <= k < j ==> !TearingDeath(states[k], steps[k])
    ensures !states[j + 1].mutex.Held? && !FifoAt(states[j + 1])
  {
    AlwaysGood(states, steps, j);
    NotTorn(states, steps, j);
    assert Follows(states[j], steps[j], states[j + 1]);
    TearStep(states[j], steps[j]);
  }

  lemma TearStep(s: State, step: Step)
    requires Good(s) && !s.h.torn && TearingDeath(s, step)
    ensures !Apply(s, step).mutex.Held? && !FifoAt(Apply(s, step))
  {
    TearBreaksFifo(s, step.t);
    NotFifo(Apply(s, step));
  }

  lemma NotFifo(s: State)
    requires 0 < s.ring.maxsize && s.ring.tail != (s.ring.head + s.ring.cursize) % s.ring.maxsize
    ensures !FifoAt(s)
  {
  }

  lemma {:induction false} FirstTear(states: seq<State>, steps: seq<Step>, i: nat) returns (j: nat)
    requires Run(states, steps) && i < |states|
    requires exists j :: 0 <= j < i && TearingDeath(states[j], steps[j])
    ensures j < i && TearingDeath(states[j], steps[j])
    ensures forall k :: 0 <= k < j ==> !TearingDeath(states[k], steps[k])
  {
    j := 0;
    while !TearingDeath(states[j], steps[j])
      invariant j < i && forall k :: 0 <= k < j ==> !TearingDeath(states[k], steps[k])
      decreases i - j
    {
      j := j + 1;
    }
  }

  // ----- pairs

  /** Unless an owner died between the halves, an `add2` puts its two elements side by side. */
  lemma PairsAlways(states: seq<State>, steps: seq<Step>, i: nat, k: nat)
    requires Run(states, steps) && i < |states| && !states[i].mutex.Held?
    requires k < |states[i].h.enq| && states[i].h.enq[k].role == First
    requires states[i].h.enq[k].id !in states[i].h.orphans
    ensures var enq := states[i].h.enq;
            k + 1 < |enq| && enq[k + 1].role == Second && enq[k + 1].id == enq[k].id
  {
    AlwaysGood(states, steps, i);
    assert Paired(states[i].h.enq, k, Locker(states[i]), states[i].h.orphans);
  }

  // ----- bounds survive crashes

  lemma {:induction false} GeometryFixed(states: seq<State>, steps: seq<Step>, i: nat)
    requires Run(states, steps) && i < |states|
    ensures states[i].ring.maxsize == states[0].ring.maxsize && states[i].ring.elsize == states[0].ring.elsize
  {
    if 0 < i {
      GeometryFixed(states, steps, i - 1);
      AlwaysGood(states, steps, i - 1);
      assert Follows(states[i - 1], steps[i - 1], states[i]);
      GeometryKept(states[i - 1], steps[i - 1]);
    }
  }

  lemma GeometryKept(s: State, step: Step)
    ensures Apply(s, step).ring.maxsize == s.ring.maxsize && Apply(s, step).ring.elsize == s.ring.elsize
  {
  }

  /** Whatever has crashed, at whatever moments the loads happen, a live queue is never refused. */
  lemma AttachNeverRejects(states: seq<State>, steps: seq<Step>, i: nat, j: nat, k: nat, allocation: nat)
    requires Run(states, steps) && i <= j <= k < |states|
    requires var size := QueueLayout.SizeToAlloc(states[0].ring.maxsize, states[0].ring.elsize);
             size.Sized? && size.bytes <= allocation
    ensures QueueLayout.AttachAccepts(allocation, states[i].ring.head, states[j].ring.tail, states[k].ring.cursize,
                                      states[0].ring.maxsize, states[0].ring.elsize)
  {
    BoundsAt(states, steps, i);
    BoundsAt(states, steps, j);
    BoundsAt(states, steps, k);
  }

  /** At every moment the counters are within the capacity the queue was made with. */
  lemma BoundsAt(states: seq<State>, steps: seq<Step>, i: nat)
    requires Run(states, steps) && i < |states|
    ensures var r, max := states[i].ring, states[0].ring.maxsize;
            0 < max && 0 < states[0].ring.elsize && r.head < max && r.tail < max && r.cursize <= max
  {
    AlwaysGood(states, steps, i);
    GeometryFixed(states, steps, i);
  }

  // ----- commit exactness

  predicate SameResult(s: State, s': State, id: CallId) {
    id in s.h.results && id in s'.h.results && s'.h.results[id] == s.h.results[id]
  }

  /** A returned call's identity is never used again. */
  predicate Fresh(s: State, t: ThreadId, id: CallId) {
    t in s.threads && id < s.h.nextId && (Active(s.threads[t]) ==> s.threads[t].call.id != id)
  }

  lemma FreshStep(s: State, step: Step, id: CallId)
    requires Enabled(s, step) && !step.SetEventFds? && Fresh(s, step.t, id) && id in s.h.results
    ensures SameResult(s, Apply(s, step), id)
  {
  }

  lemma ResultsKept(s: State, step: Step, id: CallId)
    requires Safe(s) && Enabled(s, step) && id in s.h.results
    ensures SameResult(s, Apply(s, step), id)
  {
    if !step.SetEventFds? {
      assert ThreadOk(s, step.t);
      assert Settled(s.h, id);
      FreshStep(s, step, id);
    }
  }

  lemma ResultsNext(states: seq<State>, steps: seq<Step>, i: nat, id: CallId)
    requires Run(states, steps) && i < |steps| && id in states[i].h.results
    ensures SameResult(states[i], states[i + 1], id)
  {
    AlwaysGood(states, steps, i);
    assert Follows(states[i], steps[i], states[i + 1]);
    ResultsKept(states[i], steps[i], id);
  }

  lemma {:induction false} ResultsForever(states: seq<State>, steps: seq<Step>, i: nat, j: nat, id: CallId)
    requires Run(states, steps) && i <= j < |states| && id in states[i].h.results
    ensures SameResult(states[i], states[j], id)
    decreases j
  {
    if i < j {
      ResultsForever(states, steps, i, j - 1, id);
      ResultsNext(states, steps, j - 1, id);
    }
  }

  /** `committed` of the API client. */
  predicate Committed(outcome: Outcome, kind: OpKind) {
    (outcome.SignalAfterCommit? || outcome.EventSignalAfterCommit?) && outcome.kind == kind
  }

  /**
    Once a call has returned, at that moment and ever after, the history holds exactly what its
    outcome says: its elements once on success or an after-commit error, nothing otherwise.
   */
  lemma CommitExact(states: seq<State>, steps: seq<Step>, i: nat, j: nat, id: CallId)
    requires Run(states, steps) && i <= j < |states| && id in states[i].h.results
    ensures var (call, outcome) := states[i].h.results[id];
            Exact(call.op, outcome, Contribution(states[j].h.enq, id), Contribution(states[j].h.deq, id))
  {
    ResultsForever(states, steps, i, j, id);
    AlwaysGood(states, steps, j);
    assert Settled(states[j].h, id);
  }

  /** The client frees a request after a failed `add` exactly when no consumer can ever see it. */
  lemma FreedExactlyWhenUnseen(states: seq<State>, steps: seq<Step>, i: nat, j: nat, id: CallId)
    requires Run(states, steps) && i <= j < |states| && id in states[i].h.results
    requires states[i].h.results[id].0.op.Add? && !states[i].h.results[id].1.Added?
    ensures Committed(states[i].h.results[id].1, AddKind) <==> Contribution(states[j].h.enq, id) != []
  {
    CommitExact(states, steps, i, j, id);
  }

  // ----- no lost wake-up

  /** A notification that was due does not reach the condition variable at this step. */
  predicate DropsNotice(s: State, step: Step) {
    && !step.SetEventFds? && step.t in s.threads
    && var pc := s.threads[step.t];
       || (step.Die? && Owes(pc))
       || (step.Signal? && pc.Signalling? && pc.edge
           && (!step.delivered || if Kind(pc.call.op).SubKind? then s.consumerFd else s.producerFd))
  }

  lemma MissedOnlyBy(s: State, step: Step)
    requires Enabled(s, step)
    ensures Apply(s, step).h.missed <==> s.h.missed || DropsNotice(s, step)
  {
  }

  lemma {:induction false} NotMissed(states: seq<State>, steps: seq<Step>, i: nat)
    requires Run(states, steps) && i < |states|
    requires forall j :: 0 <= j < i ==> !DropsNotice(states[j], steps[j])
    ensures !states[i].h.missed
  {
    if 0 < i {
      NotMissed(states, steps, i - 1);
      assert Follows(states[i - 1], steps[i - 1], states[i]);
      MissedOnlyBy(states[i - 1], steps[i - 1]);
    }
  }

  /**
    Notifications are sent only on the empty and full edges, yet with the mutex free an unnotified
    `sub` sleeper means an empty queue and an unnotified `add` sleeper a full one. An `add2` sleeper
    has that guarantee if it fell asleep on a full queue; `PairWakeupExactly` gives its exact condition.
   */
  lemma NoLostWakeup(states: seq<State>, steps: seq<Step>, i: nat, t: ThreadId)
    requires Run(states, steps) && i < |states|
    requires forall j :: 0 <= j < i ==> !DropsNotice(states[j], steps[j])
    requires !states[i].mutex.Held?
    requires t in states[i].threads && states[i].threads[t].Asleep? && !states[i].threads[t].notified
    ensures var s, pc := states[i], states[i].threads[t];
            && (pc.call.op.Sub? ==> s.ring.cursize == 0)
            && (pc.call.op.Add? ==> s.ring.cursize == s.ring.maxsize)
            && (pc.call.op.Add2? && pc.seen == s.ring.maxsize ==> s.ring.cursize == s.ring.maxsize)
            && (pc.call.op.Add2? && pc.seen != s.ring.maxsize ==> pc.seen + 1 == s.ring.maxsize)
  {
    AlwaysGood(states, steps, i);
    NotMissed(states, steps, i);
    assert SleeperOk(states[i].threads[t], Locker(states[i]), states[i].ring);
    SleptInBounds(states, steps, i, t);
  }

  lemma {:induction false} SleptInBounds(states: seq<State>, steps: seq<Step>, i: nat, t: ThreadId)
    requires Run(states, steps) && i < |states| && t in states[i].threads && states[i].threads[t].Asleep?
    ensures states[i].threads[t].seen <= states[i].ring.maxsize
    ensures states[i].threads[t].call.op.Add2? ==> 2 <= states[i].ring.maxsize
  {
    var s, step := states[i - 1], steps[i - 1];
    assert Follows(s, step, states[i]);
    AlwaysGood(states, steps, i - 1);
    GeometryKept(s, step);
    if t in s.threads && s.threads[t].Asleep? {
      SleptInBounds(states, steps, i - 1, t);
    }
    if step.Signal? {
      SleepSignal(s, step, t);
    } else if step.Test? {
      SleepTest(s, step, t);
    } else {
      SleepOther(s, step, t);
    }
  }

  /** A thread that is asleep after a step was asleep before it, or has just measured the queue. */
  ghost predicate Slept(s: State, s': State, t: ThreadId) {
    && t in s.threads && t in s'.threads && s'.threads[t].Asleep?
    && if s.threads[t].Asleep? then
         s'.threads[t].seen == s.threads[t].seen && s'.threads[t].call == s.threads[t].call
       else
         s'.threads[t].seen == s.ring.cursize && (s'.threads[t].call.op.Add2? ==> 2 <= s.ring.maxsize)
  }

  lemma SleepSignal(s: State, step: Step, t: ThreadId)
    requires Enabled(s, step) && step.Signal?
    requires var s' := Apply(s, step); t in s'.threads && s'.threads[t].Asleep?
    ensures Slept(s, Apply(s, step), t)
  {
  }

  lemma SleepTest(s: State, step: Step, t: ThreadId)
    requires Enabled(s, step) && step.Test?
    requires var s' := Apply(s, step); t in s'.threads && s'.threads[t].Asleep?
    ensures Slept(s, Apply(s, step), t)
  {
  }

  lemma SleepOther(s: State, step: Step, t: ThreadId)
    requires Enabled(s, step) && !step.Signal? && !step.Test?
    requires var s' := Apply(s, step); t in s'.threads && s'.threads[t].Asleep?
    ensures Slept(s, Apply(s, step), t)
  {
  }
}
