/** Callers that are prepared to wait do wait: runs that end with an untold `sub` and an untold `add` asleep. */
module QueueSleepers {
  import opened QueueProtocol
  import opened QueueRuns
  import opened QueueVerdicts
  import opened QueueLostWakeup

  // ----- a call that finds no room

  predicate CanSleep(s: State, u: ThreadId, op: Op, mode: Mode) {
    && Bounded(s.ring) && s.mutex.Free? && !s.producerFd && u in s.threads && s.threads[u].Idle?
    && LengthsFit(op, s.ring.elsize) && !RoomFor(op, s.ring.cursize, s.ring.maxsize)
    && MayWait(Call(s.h.nextId, op, mode), s.ring.maxsize)
  }

  function SleepPath(s: State, u: ThreadId, op: Op, mode: Mode): seq<State> {
    var call := Call(s.h.nextId, op, mode);
    [ s,
      Goto(Called(s), u, Locking(call)),
      Taking(s, u, Testing(call)),
      Goto(Called(s), u, Asleep(call, s.ring.cursize, false)) ]
  }

  function SleepSteps(u: ThreadId, op: Op, mode: Mode): seq<Step> {
    [Invoke(u, op, mode), Lock(u, true), Test(u)]
  }

  lemma SleepEnters(s: State, u: ThreadId, op: Op, mode: Mode)
    requires CanSleep(s, u, op, mode)
    ensures var p, q := SleepPath(s, u, op, mode), SleepSteps(u, op, mode);
            Follows(p[0], q[0], p[1]) && Follows(p[1], q[1], p[2])
  {
  }

  lemma SleepTests(s: State, u: ThreadId, op: Op, mode: Mode)
    requires CanSleep(s, u, op, mode)
    ensures var p, q := SleepPath(s, u, op, mode), SleepSteps(u, op, mode);
            Follows(p[2], q[2], p[3])
  {
  }

  /** From any state with the mutex free: a willing call without room is asleep and untold three steps later. */
  lemma WillingCallSleeps(s: State, u: ThreadId, op: Op, mode: Mode)
    requires CanSleep(s, u, op, mode)
    ensures Chain(SleepPath(s, u, op, mode), SleepSteps(u, op, mode))
    ensures var s' := SleepPath(s, u, op, mode)[3];
            && s'.mutex.Free? && s'.ring == s.ring
            && s'.threads[u] == Asleep(Call(s.h.nextId, op, mode), s.ring.cursize, false)
  {
    SleepEnters(s, u, op, mode);
    SleepTests(s, u, op, mode);
  }

  // ----- a complete uncontended `add` to a queue that is neither empty nor full

  function PutCall(s: State, e: Element): Call { Call(s.h.nextId, Add(e), Wait) }

  function AfterPublish(s: State, u: ThreadId, e: Element, pc: Pc): State {
    Taking(s, u, pc).(
      ring := s.ring.(slots := Put(s.ring.slots, s.ring.tail, e), tail := Advance(s.ring.tail, s.ring.maxsize),
                      cursize := WrappingInc(s.ring.cursize)),
      h := Called(s).h.(enq := s.h.enq + [Entry(s.h.nextId, e, Solo)]))
  }

  function PutPath(s: State, u: ThreadId, e: Element): seq<State> {
    var call := PutCall(s, e);
    var writing := (stage: WriteStage) => Taking(s, u, Writing(call, 0, s.ring.tail, false, stage));
    var r := s.ring.(slots := Put(s.ring.slots, s.ring.tail, e));
    [ s,
      Goto(Called(s), u, Locking(call)),
      Taking(s, u, Testing(call)),
      writing(Begun),
      writing(SlotWritten).(ring := r),
      writing(TailStored).(ring := r.(tail := Advance(s.ring.tail, s.ring.maxsize))),
      AfterPublish(s, u, e, Signalling(call, false, [])),
      AfterPublish(s, u, e, Leaving(call, Added)),
      Finish(AfterPublish(s, u, e, Idle), u, call, Added).(mutex := Free) ]
  }

  function PutSteps(u: ThreadId, e: Element): seq<Step> {
    [Invoke(u, Add(e), Wait), Lock(u, true), Test(u), WriteSlot(u), StoreTail(u), Publish(u), Signal(u, true), Unlock(u)]
  }

  predicate CanPut(s: State, u: ThreadId, e: Element) {
    CanTake(s, u) && |e| == s.ring.elsize
  }

  lemma PutEnters(s: State, u: ThreadId, e: Element)
    requires CanPut(s, u, e)
    ensures var p, q := PutPath(s, u, e), PutSteps(u, e);
            Follows(p[0], q[0], p[1]) && Follows(p[1], q[1], p[2]) && Follows(p[2], q[2], p[3])
  {
  }

  lemma PutWrites(s: State, u: ThreadId, e: Element)
    requires CanPut(s, u, e)
    ensures var p, q := PutPath(s, u, e), PutSteps(u, e);
            Follows(p[3], q[3], p[4]) && Follows(p[4], q[4], p[5])
  {
  }

  lemma PutCommits(s: State, u: ThreadId, e: Element)
    requires CanPut(s, u, e)
    ensures var p, q := PutPath(s, u, e), PutSteps(u, e);
            Follows(p[5], q[5], p[6])
  {
  }

  lemma PutLeaves(s: State, u: ThreadId, e: Element)
    requires CanPut(s, u, e)
    ensures var p, q := PutPath(s, u, e), PutSteps(u, e);
            Follows(p[6], q[6], p[7]) && Follows(p[7], q[7], p[8])
  {
  }

  lemma PutRuns(s: State, u: ThreadId, e: Element)
    requires CanPut(s, u, e)
    ensures Chain(PutPath(s, u, e), PutSteps(u, e))
  {
    PutEnters(s, u, e);
    PutWrites(s, u, e);
    PutCommits(s, u, e);
    PutLeaves(s, u, e);
  }

  lemma PutEnds(s: State, u: ThreadId, e: Element)
    requires CanPut(s, u, e)
    ensures var s' := PutPath(s, u, e)[8];
            && s'.mutex.Free? && s'.threads == s.threads && s'.producerFd == s.producerFd
            && s'.ring.cursize == s.ring.cursize + 1 && s'.ring.maxsize == s.ring.maxsize && s'.ring.elsize == s.ring.elsize
            && Bounded(s'.ring)
  {
  }

  // ----- the runs

  /** The first `sub` on a new queue waits, in either waiting mode. */
  lemma SubSleeperReached(mode: Mode) returns (states: seq<State>, steps: seq<Step>)
    requires mode.Wait? || mode.TimedWait?
    ensures Run(states, steps)
    ensures var s := states[|steps|];
            && s.mutex.Free? && s.ring.cursize == 0
            && 1 in s.threads && s.threads[1].Asleep? && !s.threads[1].notified
            && s.threads[1].call.op.Sub? && s.threads[1].call.mode == mode
  {
    states, steps := SleepPath(START, 1, Sub(1), mode), SleepSteps(1, Sub(1), mode);
    WillingCallSleeps(START, 1, Sub(1), mode);
  }

  /** Two complete `add`s fill the two slots, and the third `add` waits. */
  lemma AddSleeperReached(mode: Mode) returns (states: seq<State>, steps: seq<Step>)
    requires mode.Wait? || mode.TimedWait?
    ensures Run(states, steps)
    ensures var s := states[|steps|];
            && s.mutex.Free? && s.ring.cursize == s.ring.maxsize == 2
            && 1 in s.threads && s.threads[1].Asleep? && !s.threads[1].notified
            && s.threads[1].call.op.Add? && s.threads[1].call.mode == mode
  {
    AddRuns();
    var s := ADD_PATH[8];
    PutRuns(s, 0, ONE);
    PutEnds(s, 0, ONE);
    var p, q := PutPath(s, 0, ONE), PutSteps(0, ONE);
    ChainJoin(ADD_PATH, ADD_STEPS, p, q);
    WillingCallSleeps(p[8], 1, Add(ONE), mode);
    var p', q' := SleepPath(p[8], 1, Add(ONE), mode), SleepSteps(1, Add(ONE), mode);
    ChainJoin(ADD_PATH + p[1..], ADD_STEPS + q, p', q');
    states, steps := (ADD_PATH + p[1..]) + p'[1..], (ADD_STEPS + q) + q';
  }
}
