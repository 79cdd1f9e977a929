/**
  Who is refused, who waits and who times out, over every run, said in terms of the caller's mode and the
  occupancy alone.
 */
module QueueVerdicts {
  import opened QueueProtocol
  import opened QueueSafety
  import opened QueueRuns

  /** There is what the operation needs: a slot, two slots, or an element. */
  predicate RoomFor(op: Op, cursize: nat, maxsize: nat) {
    match op
    case Add(_) => cursize < maxsize
    case Add2(_, _) => cursize + 2 <= maxsize
    case Sub(_) => 0 < cursize
    case Sub2(_) => 0 < cursize
  }

  /** The caller is prepared to wait, and waiting could ever help. */
  predicate MayWait(call: Call, maxsize: nat) {
    && (call.mode.Wait? || call.mode.TimedWait?)
    && match call.op
       case Add(_) => true
       case Add2(_, _) => 2 <= maxsize
       case Sub(_) => true
       case Sub2(_) => false
  }

  predicate LengthsFit(op: Op, elsize: nat) {
    match op
    case Add(e) => |e| == elsize
    case Add2(f, g) => |f| == elsize && |g| == elsize
    case Sub(room) => room == elsize
    case Sub2(room) => room == elsize
  }

  /** What a call may return, given how it was made. */
  predicate Permitted(call: Call, outcome: Outcome, maxsize: nat, elsize: nat) {
    match outcome
    case QueueFull => (call.op.Add? || call.op.Add2?) && !MayWait(call, maxsize)
    case Empty => (call.op.Sub? || call.op.Sub2?) && !MayWait(call, maxsize)
    case Timeout => call.mode.TimedWait? && MayWait(call, maxsize)
    case WaitFailed => MayWait(call, maxsize)
    case LockBusy => call.mode.Nowait? && !call.op.Sub2?
    case LengthMismatch => !LengthsFit(call.op, elsize)
    case _ => true
  }

  /** A thread waits only if it may and must, is late only if it gave a time, and is refused only for want of room. */
  predicate Justified(pc: Pc, r: Ring) {
    match pc
    case Asleep(call, seen, _) => MayWait(call, r.maxsize) && !RoomFor(call.op, seen, r.maxsize)
    case Spinning(call, seen) => MayWait(call, r.maxsize) && !RoomFor(call.op, seen, r.maxsize)
    case Waking(call, late) => MayWait(call, r.maxsize) && (late ==> call.mode.TimedWait?)
    case Leaving(call, outcome) =>
      && Permitted(call, outcome, r.maxsize, r.elsize)
      && (outcome.QueueFull? || outcome.Empty? ==> !RoomFor(call.op, r.cursize, r.maxsize))
    case _ => true
  }

  predicate Recorded(h: History, id: CallId, r: Ring)
    requires id in h.results
  {
    Permitted(h.results[id].0, h.results[id].1, r.maxsize, r.elsize)
  }

  ghost predicate Verdicts(s: State) {
    && (forall t :: t in s.threads ==> Justified(s.threads[t], s.ring))
    && (forall id :: id in s.h.results ==> Recorded(s.h, id, s.ring))
  }

  // ----- the decision itself

  /** Elements and buffers must be as long as the queue's elements, exactly; anything else is refused at once. */
  lemma InvokeDecides(s: State, t: ThreadId, op: Op, mode: Mode)
    requires t in s.threads && s.threads[t].Idle?
    ensures var call, s' := Call(s.h.nextId, op, mode), Apply(s, Invoke(t, op, mode));
            && s'.ring == s.ring && s'.mutex == s.mutex && s'.h.nextId == s.h.nextId + 1
            && (LengthsFit(op, s.ring.elsize) ==> s'.threads == s.threads[t := Locking(call)] && s'.h.results == s.h.results)
            && (!LengthsFit(op, s.ring.elsize) ==>
                  s'.threads == s.threads[t := Idle] && s'.h.results == s.h.results[call.id := (call, LengthMismatch)])
  {
  }

  /**
    After a commit nothing is announced between the edges. On an edge the announcement goes to the descriptor of
    that side, or else to every sleeper; if it fails, the call reports that it had committed.
   */
  lemma SignalDecides(s: State, t: ThreadId, delivered: bool)
    requires t in s.threads && s.threads[t].Signalling?
    ensures var pc, s' := s.threads[t], Apply(s, Signal(t, delivered));
            var kind := Kind(pc.call.op);
            var descriptor := if pc.call.op.Sub? || pc.call.op.Sub2? then s.consumerFd else s.producerFd;
            var told := pc.edge && !descriptor && delivered;
            && s'.ring == s.ring && s'.mutex == s.mutex
            && s'.threads[t] == Leaving(pc.call, if !pc.edge || delivered then Return(pc)
                                                 else if descriptor then EventSignalAfterCommit(kind)
                                                 else SignalAfterCommit(kind))
            && forall u :: u in s.threads && u != t ==> s'.threads[u] == if told then Notify(s.threads[u]) else s.threads[u]
  {
  }

  /** With room the call goes ahead; without, it waits if it may, and is refused if it may not. */
  lemma TestDecides(s: State, t: ThreadId)
    requires t in s.threads && s.threads[t].Testing? && Bounded(s.ring)
    ensures var call, pc := s.threads[t].call, Apply(s, Test(t)).threads[t];
            && pc.call == call
            && (RoomFor(call.op, s.ring.cursize, s.ring.maxsize) ==>
                  if call.op.Add? || call.op.Add2? then pc.Writing? else pc.Reading?)
            && (!RoomFor(call.op, s.ring.cursize, s.ring.maxsize) && MayWait(call, s.ring.maxsize) ==>
                  && (if s.producerFd then pc.Spinning? else pc.Asleep? && !pc.notified)
                  && pc.seen == s.ring.cursize && Apply(s, Test(t)).mutex.Free?)
            && (!RoomFor(call.op, s.ring.cursize, s.ring.maxsize) && !MayWait(call, s.ring.maxsize) ==>
                  pc == Leaving(call, if call.op.Add? || call.op.Add2? then QueueFull else Empty))
  {
  }

  /**
    A held mutex turns away callers that do not wait, except `sub2`, and keeps everybody else waiting. A free
    one is taken. A dead owner's is given back with an error, and the call has done nothing.
   */
  lemma LockDecides(s: State, t: ThreadId, recovers: bool)
    requires t in s.threads && s.threads[t].Locking?
    ensures var call, s' := s.threads[t].call, Apply(s, Lock(t, recovers));
            && (Enabled(s, Lock(t, recovers)) <==> (!s.mutex.Held? || (call.mode.Nowait? && !call.op.Sub2?)))
            && (s.mutex.Held? && call.mode.Nowait? && !call.op.Sub2? ==> Answered(s, s', t, LockBusy) && s'.mutex == s.mutex)
            && (s.mutex.Free? ==> s'.threads[t] == Testing(call) && s'.mutex == Held(t) && s'.h == s.h)
            && (s.mutex.OwnerDead? ==>
                  if recovers then Answered(s, s', t, OwnerDied) && s'.mutex.Free?
                  else Answered(s, s', t, NotRecoverable) && s'.mutex.Unrecoverable?)
            && (s.mutex.Unrecoverable? ==> Answered(s, s', t, LockFailed) && s'.mutex == s.mutex)
            && s'.ring == s.ring
  {
  }

  /** After a wait: a late caller is told so even if there is room by now, and any other looks again. */
  lemma RelockDecides(s: State, t: ThreadId, recovers: bool)
    requires t in s.threads && s.threads[t].Waking?
    ensures var call, s' := s.threads[t].call, Apply(s, Relock(t, recovers));
            && (Enabled(s, Relock(t, recovers)) <==> !s.mutex.Held?)
            && (s.mutex.Free? ==> s'.mutex == Held(t) && s'.h == s.h)
            && (s.mutex.Free? ==> s'.threads[t] == if s.threads[t].timedOut then Leaving(call, Timeout) else Testing(call))
            && (s.mutex.OwnerDead? ==>
                  if recovers then Answered(s, s', t, OwnerDied) && s'.mutex.Free?
                  else Answered(s, s', t, NotRecoverable) && s'.mutex.Unrecoverable?)
            && (s.mutex.Unrecoverable? ==> Answered(s, s', t, WaitFailed) && s'.mutex == s.mutex)
            && s'.ring == s.ring
  {
  }

  /** The call of thread `t` has returned `outcome`, and that is all that was recorded. */
  predicate Answered(s: State, s': State, t: ThreadId, outcome: Outcome)
    requires t in s.threads && Active(s.threads[t])
  {
    && s'.threads == s.threads[t := Idle]
    && s'.h == s.h.(results := s.h.results[s.threads[t].call.id := (s.threads[t].call, outcome)])
  }

  // ----- every step

  /** A step of thread `t` that leaves the others alone and records at most one result. */
  ghost predicate Acts(s: State, s': State, t: ThreadId) {
    && t in s.threads && s'.threads.Keys == s.threads.Keys
    && s'.ring.maxsize == s.ring.maxsize && s'.ring.elsize == s.ring.elsize
    && (forall u :: u in s.threads && u != t ==> s'.threads[u] == s.threads[u] || s'.threads[u] == Notify(s.threads[u]))
    && (s'.ring.cursize == s.ring.cursize || s.mutex == Held(t))
  }

  lemma OthersJustified(s: State, s': State, t: ThreadId)
    requires Safe(s) && Verdicts(s) && Acts(s, s', t) && Justified(s'.threads[t], s'.ring)
    ensures forall u :: u in s'.threads ==> Justified(s'.threads[u], s'.ring)
  {
    forall u | u in s'.threads && u != t ensures Justified(s'.threads[u], s'.ring) {
      assert ThreadOk(s, u) && Justified(s.threads[u], s.ring);
    }
  }

  ghost predicate NoNewResult(s: State, s': State) { s'.h.results == s.h.results }

  ghost predicate OneResult(s: State, s': State) {
    exists call: Call, outcome: Outcome ::
      s'.h.results == s.h.results[call.id := (call, outcome)]
      && Permitted(call, outcome, s.ring.maxsize, s.ring.elsize)
  }

  /** What a step of thread `t` must show: the thread stays justified, and any result it records is permitted. */
  ghost predicate Sound(s: State, s': State, t: ThreadId) {
    && Acts(s, s', t)
    && Justified(s'.threads[t], s'.ring)
    && (NoNewResult(s, s') || OneResult(s, s'))
  }

  lemma VerdictsFollow(s: State, s': State, t: ThreadId)
    requires Safe(s) && Verdicts(s) && Sound(s, s', t)
    ensures Verdicts(s')
  {
    OthersJustified(s, s', t);
    forall id | id in s'.h.results ensures Recorded(s'.h, id, s'.ring) {
      if id in s.h.results { assert Recorded(s.h, id, s.ring); }
    }
  }

  /** One thread moves on; nothing else that matters here changes. */
  lemma ActorMoves(s: State, s': State, t: ThreadId, pc: Pc)
    requires t in s.threads && s'.threads == s.threads[t := pc] && Justified(pc, s.ring)
    requires s'.ring == s.ring && s'.h.results == s.h.results
    ensures Sound(s, s', t)
  {
  }

  lemma ActorTests(s: State, step: Step)
    requires Enabled(s, step) && step.Test? && Here(s, step.t)
    ensures Sound(s, Apply(s, step), step.t)
  {
    TestDecides(s, step.t);
    ActorMoves(s, Apply(s, step), step.t, Apply(s, step).threads[step.t]);
  }

  lemma ActorWaits(s: State, step: Step)
    requires Enabled(s, step) && (step.WaitFails? || step.Wake?) && Here(s, step.t)
    requires Justified(s.threads[step.t], s.ring)
    ensures Sound(s, Apply(s, step), step.t)
  {
    ActorMoves(s, Apply(s, step), step.t, Apply(s, step).threads[step.t]);
  }

  lemma ActorWorks(s: State, step: Step)
    requires step.Scribble? || step.WriteSlot? || step.StoreTail? || step.Publish? || step.StoreHead? || step.Retire?
    requires Enabled(s, step) && Here(s, step.t)
    ensures Sound(s, Apply(s, step), step.t)
  {
  }

  lemma ActorSignals(s: State, step: Step)
    requires Enabled(s, step) && step.Signal? && Here(s, step.t)
    ensures Sound(s, Apply(s, step), step.t)
  {
    var pc, s' := s.threads[step.t], Apply(s, step);
    if pc.edge && step.delivered && s'.h == s.h {
      SignalWakes(s, step);
    } else {
      ActorMoves(s, s', step.t, s'.threads[step.t]);
    }
  }

  /** The delivered broadcast: every sleeper is told, and only told. */
  lemma SignalWakes(s: State, step: Step)
    requires Enabled(s, step) && step.Signal? && step.delivered && s.threads[step.t].edge && Here(s, step.t)
    requires Apply(s, step).h == s.h
    ensures Sound(s, Apply(s, step), step.t)
  {
  }

  lemma ActorDies(s: State, step: Step)
    requires Enabled(s, step) && step.Die? && Here(s, step.t)
    ensures Sound(s, Apply(s, step), step.t)
  {
  }

  /** One call returns: its thread is idle and its outcome is the only new result. */
  lemma ActorReturns(s: State, s': State, t: ThreadId, call: Call, outcome: Outcome)
    requires t in s.threads && s'.threads == s.threads[t := Idle] && s'.ring == s.ring
    requires s'.h.results == s.h.results[call.id := (call, outcome)]
    requires Permitted(call, outcome, s.ring.maxsize, s.ring.elsize)
    ensures Sound(s, s', t)
  {
  }

  lemma ActorInvokes(s: State, step: Step)
    requires Enabled(s, step) && step.Invoke?
    ensures Sound(s, Apply(s, step), step.t)
  {
    if !LengthsValid(step.op, s.ring.elsize) {
      ActorReturns(s, Apply(s, step), step.t, Call(s.h.nextId, step.op, step.mode), LengthMismatch);
    }
  }

  lemma ActorLocks(s: State, step: Step)
    requires Enabled(s, step) && (step.Lock? || step.LockFails?)
    ensures Sound(s, Apply(s, step), step.t)
  {
    var call, s' := s.threads[step.t].call, Apply(s, step);
    if s'.threads[step.t].Idle? {
      ActorReturns(s, s', step.t, call, s'.h.results[call.id].1);
    } else {
      ActorMoves(s, s', step.t, s'.threads[step.t]);
    }
  }

  lemma ActorRelocks(s: State, step: Step)
    requires Enabled(s, step) && (step.Relock? || step.RelockFails?) && Justified(s.threads[step.t], s.ring)
    ensures Sound(s, Apply(s, step), step.t)
  {
    var call, s' := s.threads[step.t].call, Apply(s, step);
    if s'.threads[step.t].Idle? {
      ActorReturns(s, s', step.t, call, s'.h.results[call.id].1);
    } else {
      ActorMoves(s, s', step.t, s'.threads[step.t]);
    }
  }

  lemma ActorUnlocks(s: State, step: Step)
    requires Enabled(s, step) && step.Unlock? && Justified(s.threads[step.t], s.ring)
    ensures Sound(s, Apply(s, step), step.t)
  {
    var pc, s' := s.threads[step.t], Apply(s, step);
    ActorReturns(s, s', step.t, pc.call, pc.outcome);
  }

  lemma ActorStep(s: State, step: Step)
    requires Enabled(s, step) && !step.SetEventFds? && Here(s, step.t) && Justified(s.threads[step.t], s.ring)
    ensures Sound(s, Apply(s, step), step.t)
  {
    match step
    case Invoke(_, _, _) => ActorInvokes(s, step);
    case Lock(_, _) => ActorLocks(s, step);
    case LockFails(_) => ActorLocks(s, step);
    case Relock(_, _) => ActorRelocks(s, step);
    case RelockFails(_) => ActorRelocks(s, step);
    case Unlock(_) => ActorUnlocks(s, step);
    case Test(_) => ActorTests(s, step);
    case WaitFails(_) => ActorWaits(s, step);
    case Wake(_, _) => ActorWaits(s, step);
    case Signal(_, _) => ActorSignals(s, step);
    case Die(_) => ActorDies(s, step);
    case _ => ActorWorks(s, step);
  }

  lemma VerdictsStep(s: State, step: Step)
    requires Safe(s) && Verdicts(s) && Enabled(s, step)
    ensures Verdicts(Apply(s, step))
  {
    if step.SetEventFds? {
      SameVerdicts(s, Apply(s, step));
    } else {
      assert Here(s, step.t) && Justified(s.threads[step.t], s.ring);
      ActorStep(s, step);
      VerdictsFollow(s, Apply(s, step), step.t);
    }
  }

  lemma SameVerdicts(s: State, s': State)
    requires Verdicts(s) && s'.threads == s.threads && s'.ring == s.ring && s'.h == s.h
    ensures Verdicts(s')
  {
    forall id | id in s'.h.results ensures Recorded(s'.h, id, s'.ring) { assert Recorded(s.h, id, s.ring); }
  }

  // ----- every run

  lemma {:induction false} VerdictsAlways(states: seq<State>, steps: seq<Step>, i: nat)
    requires Run(states, steps) && i < |states|
    ensures Verdicts(states[i])
  {
    if 0 < i {
      VerdictsAlways(states, steps, i - 1);
      AlwaysGood(states, steps, i - 1);
      assert Follows(states[i - 1], steps[i - 1], states[i]);
      VerdictsStep(states[i - 1], steps[i - 1]);
    }
  }

  /**
    Over every run: `QueueFull` and `Empty` go only to callers that do not wait, to `sub2`, and to an `add2`
    that could never fit; `Timeout` only to callers that gave a time, `LockBusy` only to callers that do not wait.
   */
  lemma RefusedOnlyIfUnwilling(states: seq<State>, steps: seq<Step>, i: nat, id: CallId)
    requires Run(states, steps) && i < |states| && id in states[i].h.results
    ensures var (call, outcome) := states[i].h.results[id];
            && (outcome.QueueFull? ==>
                  (call.op.Add? && call.mode.Nowait?)
                  || (call.op.Add2? && (call.mode.Nowait? || states[0].ring.maxsize < 2)))
            && (outcome.Empty? ==> (call.op.Sub? && call.mode.Nowait?) || call.op.Sub2?)
            && (outcome.Timeout? ==> call.mode.TimedWait? && !call.op.Sub2?)
            && (outcome.WaitFailed? ==> !call.mode.Nowait? && !call.op.Sub2?)
            && (outcome.LockBusy? ==> call.mode.Nowait? && !call.op.Sub2?)
            && (outcome.LengthMismatch? ==> !LengthsFit(call.op, states[0].ring.elsize))
  {
    VerdictsAlways(states, steps, i);
    GeometryFixed(states, steps, i);
    assert Recorded(states[i].h, id, states[i].ring);
  }

  /** And nobody who does not wait is ever put to sleep, nor anybody who found room. */
  lemma SleepsOnlyIfWilling(states: seq<State>, steps: seq<Step>, i: nat, t: ThreadId)
    requires Run(states, steps) && i < |states| && t in states[i].threads
    requires states[i].threads[t].Asleep? || states[i].threads[t].Spinning?
    ensures var pc := states[i].threads[t];
            && (pc.call.mode.Wait? || pc.call.mode.TimedWait?) && !pc.call.op.Sub2?
            && !RoomFor(pc.call.op, pc.seen, states[i].ring.maxsize)
  {
    VerdictsAlways(states, steps, i);
    assert Justified(states[i].threads[t], states[i].ring);
  }
}
