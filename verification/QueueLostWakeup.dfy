/** The one wake-up the queue does lose: `add2` sleepers one slot short of a full queue. */
module QueueLostWakeup {
  import opened QueueProtocol
  import opened QueueRuns
  import opened QueueSafety
  import opened QueueWakeup

  // A complete uncontended `sub` by thread `u`, one explicit state after each step.

  function TakeCall(s: State): Call { Call(s.h.nextId, Sub(s.ring.elsize), Wait) }

  function Called(s: State): State { s.(h := s.h.(nextId := s.h.nextId + 1)) }

  function Taking(s: State, u: ThreadId, pc: Pc): State { Goto(Called(s), u, pc).(mutex := Held(u)) }

  function AfterRetire(s: State, u: ThreadId, pc: Pc): State {
    Taking(s, u, pc).(
      ring := s.ring.(head := Advance(s.ring.head, s.ring.maxsize), cursize := WrappingDec(s.ring.cursize)),
      h := Called(s).h.(deq := s.h.deq + [Entry(s.h.nextId, SlotAt(s.ring.slots, s.ring.head), Solo)]))
  }

  function TakePath(s: State, u: ThreadId): seq<State> {
    var call := TakeCall(s);
    var e := SlotAt(s.ring.slots, s.ring.head);
    [ s,
      Goto(Called(s), u, Locking(call)),
      Taking(s, u, Testing(call)),
      Taking(s, u, Reading(call, s.ring.head, e, false, Copied)),
      Taking(s, u, Reading(call, s.ring.head, e, false, HeadStored))
        .(ring := s.ring.(head := Advance(s.ring.head, s.ring.maxsize))),
      AfterRetire(s, u, Signalling(call, false, [e])),
      AfterRetire(s, u, Leaving(call, Taken(e))),
      Finish(AfterRetire(s, u, Idle), u, call, Taken(e)).(mutex := Free) ]
  }

  function TakeSteps(s: State, u: ThreadId): seq<Step> {
    [Invoke(u, Sub(s.ring.elsize), Wait), Lock(u, true), Test(u), StoreHead(u), Retire(u), Signal(u, true), Unlock(u)]
  }

  predicate CanTake(s: State, u: ThreadId) {
    Bounded(s.ring) && s.mutex.Free? && u in s.threads && s.threads[u].Idle? && 0 < s.ring.cursize < s.ring.maxsize
  }

  lemma TakeEnters(s: State, u: ThreadId)
    requires CanTake(s, u)
    ensures var p, q := TakePath(s, u), TakeSteps(s, u);
            Follows(p[0], q[0], p[1]) && Follows(p[1], q[1], p[2])
  {
  }

  lemma TakeReads(s: State, u: ThreadId)
    requires CanTake(s, u)
    ensures var p, q := TakePath(s, u), TakeSteps(s, u);
            Follows(p[2], q[2], p[3]) && Follows(p[3], q[3], p[4])
  {
  }

  lemma TakeCommits(s: State, u: ThreadId)
    requires CanTake(s, u)
    ensures var p, q := TakePath(s, u), TakeSteps(s, u);
            Follows(p[4], q[4], p[5])
  {
  }

  lemma TakeLeaves(s: State, u: ThreadId)
    requires CanTake(s, u)
    ensures var p, q := TakePath(s, u), TakeSteps(s, u);
            Follows(p[5], q[5], p[6]) && Follows(p[6], q[6], p[7])
  {
  }

  /**
    Otherwise the wake-up is lost: an `add2` that fell asleep one short of full is still asleep and
    unnotified after any other thread's complete `sub`, with two slots free and the mutex released.
   */
  lemma PairSleeperMissed(s: State, t: ThreadId, u: ThreadId)
    requires CanTake(s, u) && t != u && t in s.threads
    requires s.threads[t].Asleep? && !s.threads[t].notified && s.threads[t].call.op.Add2?
    requires s.ring.cursize + 1 == s.ring.maxsize
    ensures var p, q := TakePath(s, u), TakeSteps(s, u);
            && |p| == |q| + 1 && p[0] == s
            && (forall i :: 0 <= i < |q| ==> Follows(p[i], q[i], p[i + 1]))
            && var s' := p[|q|];
               && s'.mutex.Free? && s'.threads[t] == s.threads[t] && s'.threads[u].Idle?
               && s'.ring.cursize + 2 == s'.ring.maxsize == s.ring.maxsize
  {
    TakeEnters(s, u);
    TakeReads(s, u);
    TakeCommits(s, u);
    TakeLeaves(s, u);
  }

  ghost predicate Chain(states: seq<State>, steps: seq<Step>) {
    |states| == |steps| + 1 && forall i :: 0 <= i < |steps| ==> Follows(states[i], steps[i], states[i + 1])
  }

  // ----- the exact condition

  /** A continuation of `s` that loses no due notification and in which `t` sleeps on untold. */
  ghost predicate SleepsThrough(s: State, t: ThreadId, p: seq<State>, q: seq<Step>) {
    && Chain(p, q) && p[0] == s
    && (forall k :: 0 <= k < |q| ==> !DropsNotice(p[k], q[k]))
    && (forall k :: 0 <= k < |p| ==> Dozing(p[k], t))
  }

  /** While `t` sleeps on, there is never room for a pair when the mutex is free. */
  ghost predicate NeverLeftWithRoom(s: State, t: ThreadId) {
    forall p: seq<State>, q: seq<Step> :: SleepsThrough(s, t, p, q) ==> NoRoom(p)
  }

  ghost predicate NoRoom(p: seq<State>) {
    forall k :: 0 <= k < |p| && !p[k].mutex.Held? ==> p[k].ring.maxsize < p[k].ring.cursize + 2
  }

  lemma {:induction false} BrimmingThrough(s: State, t: ThreadId, p: seq<State>, q: seq<Step>, k: nat)
    requires SleepsThrough(s, t, p, q) && Safe(s) && Brimming(s) && k < |p|
    ensures Safe(p[k]) && Brimming(p[k])
  {
    if 0 < k {
      BrimmingThrough(s, t, p, q, k - 1);
      assert Follows(p[k - 1], q[k - 1], p[k]);
      assert Dozing(p[k - 1], t) && Dozing(p[k], t) && !DropsNotice(p[k - 1], q[k - 1]);
      SafeStep(p[k - 1], q[k - 1]);
      NoticeKept(p[k - 1], q[k - 1], t);
    }
  }

  lemma NoticeKept(s: State, step: Step, t: ThreadId)
    requires Safe(s) && Brimming(s) && Enabled(s, step) && !DropsNotice(s, step)
    requires Dozing(s, t) && Dozing(Apply(s, step), t)
    ensures Brimming(Apply(s, step))
  {
    BrimmingStep(s, step, t);
  }

  /** A full queue is enough: the first `sub` to make room tells every sleeper before it lets go of the mutex. */
  lemma FullIsSafe(s: State, t: ThreadId)
    requires Safe(s) && s.ring.cursize == s.ring.maxsize
    ensures NeverLeftWithRoom(s, t)
  {
    forall p: seq<State>, q: seq<Step> | SleepsThrough(s, t, p, q) ensures NoRoom(p) {
      forall k | 0 <= k < |p| && !p[k].mutex.Held? ensures p[k].ring.maxsize < p[k].ring.cursize + 2 {
        BrimmingThrough(s, t, p, q, k);
      }
    }
  }

  lemma TakeKeepsNotices(s: State, u: ThreadId)
    requires CanTake(s, u)
    ensures var p, q := TakePath(s, u), TakeSteps(s, u);
            |p| == |q| + 1 && forall k :: 0 <= k < |q| ==> !DropsNotice(p[k], q[k])
  {
  }

  lemma TakeLeavesOthers(s: State, t: ThreadId, u: ThreadId)
    requires CanTake(s, u) && t != u && Dozing(s, t)
    ensures forall k :: 0 <= k < |TakePath(s, u)| ==> Dozing(TakePath(s, u)[k], t)
  {
  }

  /** Anything less is not: either there is room already, or the next complete `sub` makes it and tells nobody. */
  lemma LessIsLost(s: State, t: ThreadId, u: ThreadId)
    requires Bounded(s.ring) && s.mutex.Free? && Dozing(s, t) && s.threads[t].call.op.Add2? && 2 <= s.ring.maxsize
    requires u in s.threads && s.threads[u].Idle? && s.ring.cursize < s.ring.maxsize
    ensures !NeverLeftWithRoom(s, t)
  {
    if s.ring.cursize + 2 <= s.ring.maxsize {
      assert SleepsThrough(s, t, [s], []);
      assert ![s][0].mutex.Held? && !NoRoom([s]);
    } else {
      var p, q := TakePath(s, u), TakeSteps(s, u);
      PairSleeperMissed(s, t, u);
      TakeKeepsNotices(s, u);
      TakeLeavesOthers(s, t, u);
      assert SleepsThrough(s, t, p, q);
      assert !p[|q|].mutex.Held? && !NoRoom(p);
    }
  }

  /**
    In every run, whenever the mutex is free, an untold `add2` sleeper is safe exactly when the queue is
    full at that moment, whatever it measured when it fell asleep.
   */
  lemma PairWakeupExactly(states: seq<State>, steps: seq<Step>, i: nat, t: ThreadId, u: ThreadId)
    requires Run(states, steps) && i < |states| && states[i].mutex.Free?
    requires Dozing(states[i], t) && states[i].threads[t].call.op.Add2?
    requires u in states[i].threads && states[i].threads[u].Idle?
    ensures NeverLeftWithRoom(states[i], t) <==> states[i].ring.cursize == states[i].ring.maxsize
  {
    AlwaysGood(states, steps, i);
    SleptInBounds(states, steps, i, t);
    if states[i].ring.cursize == states[i].ring.maxsize {
      FullIsSafe(states[i], t);
    } else {
      LessIsLost(states[i], t, u);
    }
  }

  // ----- and such a state is reached

  lemma ChainJoin(p: seq<State>, q: seq<Step>, p': seq<State>, q': seq<Step>)
    requires Chain(p, q) && Chain(p', q') && p[|q|] == p'[0]
    ensures Chain(p + p'[1..], q + q') && (p + p'[1..])[|q + q'|] == p'[|q'|]
  {
    var states, steps := p + p'[1..], q + q';
    forall i | 0 <= i < |steps| ensures Follows(states[i], steps[i], states[i + 1]) {
      if |q| <= i {
        assert Follows(p'[i - |q|], q'[i - |q|], p'[i - |q| + 1]);
      }
    }
  }

  const ONE: Element := [1]

  /** A two-slot queue of one-byte elements and two threads. */
  const START: State :=
    State(Ring(0, 0, 0, 2, 1, [ONE, ONE]), Free, map[0 := Idle, 1 := Idle], false, false,
          History([], [], map[], 0, false, false, {}))

  /** Thread 0 adds one element and leaves. */
  const ADD_PATH: seq<State> :=
    var call := Call(0, Add(ONE), Wait);
    var s := START;
    var h := s.h.(nextId := 1);
    var mine := (pc: Pc, r: Ring) => State(r, Held(0), map[0 := pc, 1 := Idle], false, false, h);
    var full := s.ring.(tail := 1, cursize := 1);
    var h' := h.(enq := [Entry(0, ONE, Solo)]);
    [ s,
      State(s.ring, Free, map[0 := Locking(call), 1 := Idle], false, false, h),
      mine(Testing(call), s.ring),
      mine(Writing(call, 0, 0, true, Begun), s.ring),
      mine(Writing(call, 0, 0, true, SlotWritten), s.ring),
      mine(Writing(call, 0, 0, true, TailStored), s.ring.(tail := 1)),
      mine(Signalling(call, true, []), full).(h := h'),
      mine(Leaving(call, Added), full).(h := h'),
      State(full, Free, map[0 := Idle, 1 := Idle], false, false, h'.(results := map[0 := (call, Added)])) ]

  const ADD_STEPS: seq<Step> :=
    [Invoke(0, Add(ONE), Wait), Lock(0, true), Test(0), WriteSlot(0), StoreTail(0), Publish(0), Signal(0, true), Unlock(0)]

  lemma AddEnters()
    ensures var p, q := ADD_PATH, ADD_STEPS; Follows(p[0], q[0], p[1]) && Follows(p[1], q[1], p[2])
  {
  }

  lemma AddWrites()
    ensures var p, q := ADD_PATH, ADD_STEPS; Follows(p[2], q[2], p[3]) && Follows(p[3], q[3], p[4])
  {
  }

  lemma AddStores()
    ensures var p, q := ADD_PATH, ADD_STEPS; Follows(p[4], q[4], p[5])
  {
  }

  lemma AddCommits()
    ensures var p, q := ADD_PATH, ADD_STEPS; Follows(p[5], q[5], p[6])
  {
  }

  lemma AddSignals()
    ensures var p, q := ADD_PATH, ADD_STEPS; Follows(p[6], q[6], p[7])
  {
  }

  lemma AddLeaves()
    ensures var p, q := ADD_PATH, ADD_STEPS; Follows(p[7], q[7], p[8])
  {
  }

  lemma AddRuns()
    ensures Chain(ADD_PATH, ADD_STEPS) && Init(START)
  {
    AddEnters();
    AddWrites();
    AddStores();
    AddCommits();
    AddSignals();
    AddLeaves();
  }

  /** Thread 1 calls `add2` and has to sleep with one slot free. */
  const SLEEP_PATH: seq<State> :=
    var call := Call(1, Add2(ONE, ONE), Wait);
    var s := ADD_PATH[8];
    var s' := s.(h := s.h.(nextId := 2));
    [ s,
      s'.(threads := map[0 := Idle, 1 := Locking(call)]),
      s'.(threads := map[0 := Idle, 1 := Testing(call)], mutex := Held(1)),
      s'.(threads := map[0 := Idle, 1 := Asleep(call, 1, false)]) ]

  const SLEEP_STEPS: seq<Step> :=
    [Invoke(1, Add2(ONE, ONE), Wait), Lock(1, true), Test(1)]

  lemma SleepRuns()
    ensures Chain(SLEEP_PATH, SLEEP_STEPS)
  {
    var p, q := SLEEP_PATH, SLEEP_STEPS;
    assert Follows(p[0], q[0], p[1]);
    assert Follows(p[1], q[1], p[2]);
    assert Follows(p[2], q[2], p[3]);
  }

  /** A run without deaths or failed notifications that ends with the queue empty and an `add2` still asleep. */
  lemma PairWakeupIsLost() returns (states: seq<State>, steps: seq<Step>)
    ensures Run(states, steps)
    ensures forall i :: 0 <= i < |steps| ==>
      !steps[i].Die? && (steps[i].Signal? ==> steps[i].delivered) && !steps[i].SetEventFds?
    ensures var s := states[|steps|];
            && s.mutex.Free? && s.ring.cursize == 0 && s.ring.maxsize == 2
            && 1 in s.threads && s.threads[1].Asleep? && !s.threads[1].notified && s.threads[1].call.op.Add2?
  {
    AddRuns();
    SleepRuns();
    ChainJoin(ADD_PATH, ADD_STEPS, SLEEP_PATH, SLEEP_STEPS);
    var s := SLEEP_PATH[3];
    PairSleeperMissed(s, 1, 0);
    states, steps := ADD_PATH + SLEEP_PATH[1..], ADD_STEPS + SLEEP_STEPS;
    ChainJoin(states, steps, TakePath(s, 0), TakeSteps(s, 0));
    states, steps := states + TakePath(s, 0)[1..], steps + TakeSteps(s, 0);
  }

  /** A tearing death is reached too: the adding thread dies between the tail store and the size update. */
  lemma TearIsReached() returns (states: seq<State>, steps: seq<Step>)
    ensures Run(states, steps) && 0 < |steps| && TearingDeath(states[|steps| - 1], steps[|steps| - 1])
    ensures !states[|steps|].mutex.Held? && !FifoAt(states[|steps|])
  {
    AddRuns();
    var p, q := ADD_PATH, ADD_STEPS;
    states, steps := p[..6] + [Apply(p[5], Die(0))], q[..5] + [Die(0)];
    forall i | 0 <= i < |steps| ensures Follows(states[i], steps[i], states[i + 1]) {
      if i < 5 { assert Follows(p[i], q[i], p[i + 1]); }
    }
    AlwaysGood(states, steps, 5);
    TearBreaksFifo(states[5], 0);
  }
}
