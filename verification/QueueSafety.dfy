/** Every step keeps the ring bounded, the lock exclusive and every call's effect exact. */
module QueueSafety {
  import opened QueueProtocol

  lemma ContributionAppend(log: seq<Entry>, e: Entry, id: CallId)
    ensures Contribution(log + [e], id) == Contribution(log, id) + if e.id == id then [e.element] else []
  {
    assert (log + [e])[..|log|] == log;
  }

  lemma ContributionsAppend(log: seq<Entry>, e: Entry)
    ensures forall id :: Contribution(log + [e], id) == Contribution(log, id) + if e.id == id then [e.element] else []
  {
    forall id ensures Contribution(log + [e], id) == Contribution(log, id) + if e.id == id then [e.element] else [] {
      ContributionAppend(log, e, id);
    }
  }

  /** A step of thread `t` on behalf of call `own` leaves every other thread and call alone. */
  ghost predicate Local(s: State, s': State, t: ThreadId, own: CallId) {
    && t in s.threads
    && s'.threads.Keys == s.threads.Keys
    && (forall u :: u in s.threads && u != t ==> s'.threads[u] == s.threads[u] || s'.threads[u] == Notify(s.threads[u]))
    && (forall u :: u in s.threads && u != t ==> (s.mutex == Held(u) <==> s'.mutex == Held(u)))
    && s'.ring.elsize == s.ring.elsize
    && s.h.nextId <= s'.h.nextId
    && own < s'.h.nextId
    && (forall id :: id in s'.h.results <==> id in s.h.results || (id == own && own in s'.h.results))
    && (forall id :: id in s.h.results && id != own ==> s'.h.results[id] == s.h.results[id])
    && (forall id :: id != own ==> Contribution(s'.h.enq, id) == Contribution(s.h.enq, id))
    && (forall id :: id != own ==> Contribution(s'.h.deq, id) == Contribution(s.h.deq, id))
  }

  /** What is left to check after a local step: the acting thread, its call and the lock holder. */
  ghost predicate Settles(s': State, t: ThreadId, own: CallId) {
    && RingSettles(s', t)
    && CallSettles(s', t, own)
  }

  ghost predicate RingSettles(s': State, t: ThreadId) {
    && t in s'.threads
    && Bounded(s'.ring)
    && (s'.mutex.Held? ==> s'.mutex.owner in s'.threads)
    && LockerOk(s'.ring, Locker(s'))
  }

  ghost predicate CallSettles(s': State, t: ThreadId, own: CallId) {
    && t in s'.threads
    && ThreadOk(s', t)
    && (Active(s'.threads[t]) ==> s'.threads[t].call.id == own)
    && (own in s'.h.results ==> Settled(s'.h, own))
  }

  /** What the acting thread may rely on. */
  predicate Here(s: State, t: ThreadId) {
    && t in s.threads
    && Bounded(s.ring)
    && (s.mutex.Held? ==> s.mutex.owner in s.threads)
    && LockerOk(s.ring, Locker(s))
    && ThreadOk(s, t)
  }

  predicate Owns(s: State, t: ThreadId, own: CallId)
    requires t in s.threads
  {
    if Active(s.threads[t]) then s.threads[t].call.id == own else own == s.h.nextId
  }

  lemma OthersOk(s: State, s': State, t: ThreadId, own: CallId)
    requires Safe(s) && Local(s, s', t, own) && Owns(s, t, own) && ThreadOk(s', t)
    ensures forall u :: u in s'.threads ==> ThreadOk(s', u)
  {
    forall u | u in s.threads && u != t ensures ThreadOk(s', u) {
      assert ThreadOk(s, u);
    }
  }

  lemma OthersSettled(s: State, s': State, t: ThreadId, own: CallId)
    requires Safe(s) && Local(s, s', t, own) && (own in s'.h.results ==> Settled(s'.h, own))
    ensures forall id :: id in s'.h.results ==> Settled(s'.h, id)
  {
    forall id | id in s'.h.results && id != own ensures Settled(s'.h, id) {
      assert Settled(s.h, id);
    }
  }

  lemma IdsDistinct(s: State, s': State, t: ThreadId, own: CallId)
    requires Safe(s) && Local(s, s', t, own) && Owns(s, t, own)
    requires Active(s'.threads[t]) ==> s'.threads[t].call.id == own
    ensures forall t, u :: t in s'.threads && u in s'.threads && t != u && Active(s'.threads[t]) && Active(s'.threads[u])
                           ==> s'.threads[t].call.id != s'.threads[u].call.id
  {
  }

  lemma SafeLocal(s: State, s': State, t: ThreadId, own: CallId)
    requires Safe(s) && Local(s, s', t, own) && Owns(s, t, own) && Settles(s', t, own)
    ensures Safe(s')
  {
    OthersOk(s, s', t, own);
    OthersSettled(s, s', t, own);
    IdsDistinct(s, s', t, own);
  }

  lemma CallStarts(s: State, t: ThreadId, op: Op, mode: Mode)
    requires Here(s, t) && s.threads[t].Idle? && LengthsValid(op, s.ring.elsize)
    requires s.h.nextId !in s.h.results && Contribution(s.h.enq, s.h.nextId) == [] == Contribution(s.h.deq, s.h.nextId)
    ensures CallSettles(ApplyInvoke(s, t, op, mode), t, s.h.nextId)
  {
  }

  lemma CallRefused(s: State, t: ThreadId, op: Op, mode: Mode)
    requires Here(s, t) && s.threads[t].Idle? && !LengthsValid(op, s.ring.elsize)
    requires s.h.nextId !in s.h.results && Contribution(s.h.enq, s.h.nextId) == [] == Contribution(s.h.deq, s.h.nextId)
    ensures CallSettles(ApplyInvoke(s, t, op, mode), t, s.h.nextId)
  {
  }

  lemma RingInvoke(s: State, t: ThreadId, op: Op, mode: Mode)
    requires Here(s, t) && s.threads[t].Idle?
    ensures RingSettles(ApplyInvoke(s, t, op, mode), t)
  {
  }

  lemma LocalStarts(s: State, t: ThreadId, op: Op, mode: Mode)
    requires t in s.threads && s.threads[t].Idle? && s.h.nextId !in s.h.results && LengthsValid(op, s.ring.elsize)
    ensures Local(s, ApplyInvoke(s, t, op, mode), t, s.h.nextId)
  {
  }

  lemma LocalRefused(s: State, t: ThreadId, op: Op, mode: Mode)
    requires t in s.threads && s.threads[t].Idle? && s.h.nextId !in s.h.results && !LengthsValid(op, s.ring.elsize)
    ensures Local(s, ApplyInvoke(s, t, op, mode), t, s.h.nextId)
  {
  }

  lemma SafeInvoke(s: State, t: ThreadId, op: Op, mode: Mode)
    requires Safe(s) && t in s.threads && s.threads[t].Idle?
    ensures Safe(ApplyInvoke(s, t, op, mode))
  {
    assert Here(s, t);
    assert s.h.nextId !in s.h.results by {
      assert s.h.nextId in s.h.results ==> Settled(s.h, s.h.nextId);
    }
    RingInvoke(s, t, op, mode);
    if LengthsValid(op, s.ring.elsize) {
      CallStarts(s, t, op, mode);
      LocalStarts(s, t, op, mode);
    } else {
      CallRefused(s, t, op, mode);
      LocalRefused(s, t, op, mode);
    }
    SafeLocal(s, ApplyInvoke(s, t, op, mode), t, s.h.nextId);
  }

  lemma RingLock(s: State, t: ThreadId, recovers: bool)
    requires Here(s, t) && s.threads[t].Locking?
    ensures RingSettles(ApplyLock(s, t, s.threads[t].call, recovers), t)
  {
  }

  lemma CallLock(s: State, t: ThreadId, recovers: bool)
    requires Here(s, t) && s.threads[t].Locking?
    ensures CallSettles(ApplyLock(s, t, s.threads[t].call, recovers), t, s.threads[t].call.id)
  {
  }

  lemma LocalLock(s: State, t: ThreadId, recovers: bool)
    requires Here(s, t) && s.threads[t].Locking?
    ensures Local(s, ApplyLock(s, t, s.threads[t].call, recovers), t, s.threads[t].call.id)
  {
  }

  lemma SafeLock(s: State, t: ThreadId, recovers: bool)
    requires Safe(s) && t in s.threads && s.threads[t].Locking?
    ensures Safe(ApplyLock(s, t, s.threads[t].call, recovers))
  {
    assert Here(s, t);
    RingLock(s, t, recovers);
    CallLock(s, t, recovers);
    LocalLock(s, t, recovers);
    SafeLocal(s, ApplyLock(s, t, s.threads[t].call, recovers), t, s.threads[t].call.id);
  }

  lemma RingRelock(s: State, t: ThreadId, recovers: bool)
    requires Here(s, t) && s.threads[t].Waking? && !s.mutex.Held?
    ensures RingSettles(ApplyRelock(s, t, s.threads[t].call, s.threads[t].timedOut, recovers), t)
  {
  }

  lemma CallRelock(s: State, t: ThreadId, recovers: bool)
    requires Here(s, t) && s.threads[t].Waking? && !s.mutex.Held?
    ensures CallSettles(ApplyRelock(s, t, s.threads[t].call, s.threads[t].timedOut, recovers), t, s.threads[t].call.id)
  {
  }

  lemma LocalRelock(s: State, t: ThreadId, recovers: bool)
    requires Here(s, t) && s.threads[t].Waking? && !s.mutex.Held?
    ensures Local(s, ApplyRelock(s, t, s.threads[t].call, s.threads[t].timedOut, recovers), t, s.threads[t].call.id)
  {
  }

  lemma SafeRelock(s: State, t: ThreadId, recovers: bool)
    requires Safe(s) && t in s.threads && s.threads[t].Waking? && !s.mutex.Held?
    ensures Safe(ApplyRelock(s, t, s.threads[t].call, s.threads[t].timedOut, recovers))
  {
    assert Here(s, t);
    RingRelock(s, t, recovers);
    CallRelock(s, t, recovers);
    LocalRelock(s, t, recovers);
    SafeLocal(s, ApplyRelock(s, t, s.threads[t].call, s.threads[t].timedOut, recovers), t, s.threads[t].call.id);
  }

  lemma RingTest(s: State, t: ThreadId)
    requires Here(s, t) && s.threads[t].Testing?
    ensures RingSettles(ApplyTest(s, t, s.threads[t].call), t)
  {
  }

  lemma CallTest(s: State, t: ThreadId)
    requires Here(s, t) && s.threads[t].Testing?
    ensures CallSettles(ApplyTest(s, t, s.threads[t].call), t, s.threads[t].call.id)
  {
  }

  lemma LocalTest(s: State, t: ThreadId)
    requires Here(s, t) && s.threads[t].Testing?
    ensures Local(s, ApplyTest(s, t, s.threads[t].call), t, s.threads[t].call.id)
  {
  }

  lemma SafeTest(s: State, t: ThreadId)
    requires Safe(s) && t in s.threads && s.threads[t].Testing?
    ensures Safe(ApplyTest(s, t, s.threads[t].call))
  {
    assert Here(s, t);
    RingTest(s, t);
    CallTest(s, t);
    LocalTest(s, t);
    SafeLocal(s, ApplyTest(s, t, s.threads[t].call), t, s.threads[t].call.id);
  }

  lemma SettleScribble(s: State, t: ThreadId, bytes: Element)
    requires Here(s, t) && s.threads[t].Writing? && s.threads[t].wstage.Begun? && |bytes| == s.ring.elsize
    ensures Settles(ApplyScribble(s, s.threads[t], bytes), t, s.threads[t].call.id)
  {
  }

  lemma SafeScribble(s: State, t: ThreadId, bytes: Element)
    requires Safe(s) && t in s.threads && s.threads[t].Writing? && s.threads[t].wstage.Begun? && |bytes| == s.ring.elsize
    ensures Safe(ApplyScribble(s, s.threads[t], bytes))
  {
    assert Here(s, t);
    SettleScribble(s, t, bytes);
    SafeLocal(s, ApplyScribble(s, s.threads[t], bytes), t, s.threads[t].call.id);
  }

  lemma SettleWriteSlot(s: State, t: ThreadId)
    requires Here(s, t) && s.threads[t].Writing? && s.threads[t].wstage.Begun?
    ensures Settles(ApplyWriteSlot(s, t, s.threads[t]), t, s.threads[t].call.id)
  {
  }

  lemma SafeWriteSlot(s: State, t: ThreadId)
    requires Safe(s) && t in s.threads && s.threads[t].Writing? && s.threads[t].wstage.Begun?
    ensures Safe(ApplyWriteSlot(s, t, s.threads[t]))
  {
    assert Here(s, t);
    SettleWriteSlot(s, t);
    SafeLocal(s, ApplyWriteSlot(s, t, s.threads[t]), t, s.threads[t].call.id);
  }

  lemma SettleStoreTail(s: State, t: ThreadId)
    requires Here(s, t) && s.threads[t].Writing? && s.threads[t].wstage.SlotWritten?
    ensures Settles(ApplyStoreTail(s, t, s.threads[t]), t, s.threads[t].call.id)
  {
  }

  lemma SafeStoreTail(s: State, t: ThreadId)
    requires Safe(s) && t in s.threads && s.threads[t].Writing? && s.threads[t].wstage.SlotWritten?
    ensures Safe(ApplyStoreTail(s, t, s.threads[t]))
  {
    assert Here(s, t);
    SettleStoreTail(s, t);
    SafeLocal(s, ApplyStoreTail(s, t, s.threads[t]), t, s.threads[t].call.id);
  }

  lemma RingPublish(s: State, t: ThreadId)
    requires Here(s, t) && s.threads[t].Writing? && s.threads[t].wstage.TailStored?
    ensures RingSettles(ApplyPublish(s, t, s.threads[t]), t)
  {
    PublishBounds(s, t);
    PublishLocker(s, t);
  }

  lemma PublishBounds(s: State, t: ThreadId)
    requires Here(s, t) && s.threads[t].Writing?
    ensures var s' := ApplyPublish(s, t, s.threads[t]);
            && Bounded(s'.ring) && s'.ring == s.ring.(cursize := s.ring.cursize + 1)
            && s'.mutex == s.mutex == Held(t) && s'.threads.Keys == s.threads.Keys
  {
  }

  lemma PublishLocker(s: State, t: ThreadId)
    requires Here(s, t) && s.threads[t].Writing? && s.threads[t].wstage.TailStored?
    requires Bounded(ApplyPublish(s, t, s.threads[t]).ring)
    ensures LockerOk(ApplyPublish(s, t, s.threads[t]).ring, ApplyPublish(s, t, s.threads[t]).threads[t])
  {
  }

  /** A publish commits the next element of the call and nothing else. */
  lemma PublishCommits(s: State, t: ThreadId)
    requires t in s.threads && s.threads[t].Writing?
    requires Progress(s.threads[t], Contribution(s.h.enq, s.threads[t].call.id), Contribution(s.h.deq, s.threads[t].call.id))
    ensures var pc, s' := s.threads[t], ApplyPublish(s, t, s.threads[t]);
            && Contribution(s'.h.enq, pc.call.id) == Elements(pc.call.op)[..pc.index + 1]
            && s'.h.deq == s.h.deq
  {
    var pc := s.threads[t];
    var op := pc.call.op;
    ContributionAppend(s.h.enq, Entry(pc.call.id, SlotAt(Elements(op), pc.index), RoleAt(op, pc.index)), pc.call.id);
    assert Elements(op)[..pc.index + 1] == Elements(op)[..pc.index] + [Elements(op)[pc.index]];
  }

  /** Whichever comes next, another element or the signal, what is committed so far fits it. */
  lemma PublishProgress(s: State, t: ThreadId)
    requires t in s.threads && s.threads[t].Writing? && s.threads[t].index < |Elements(s.threads[t].call.op)|
    ensures var pc, next := s.threads[t], ApplyPublish(s, t, s.threads[t]).threads[t];
            && Active(next) && Holding(next) && next.call == pc.call
            && Progress(next, Elements(pc.call.op)[..pc.index + 1], [])
  {
    var op, k := s.threads[t].call.op, s.threads[t].index;
    if k + 1 == |Elements(op)| { assert Elements(op)[..k + 1] == Elements(op); }
  }

  lemma PublishKeeps(s: State, t: ThreadId)
    requires t in s.threads && s.threads[t].Writing?
    ensures var s' := ApplyPublish(s, t, s.threads[t]);
            && t in s'.threads && s'.mutex == s.mutex && s'.ring.elsize == s.ring.elsize
            && s'.h.nextId == s.h.nextId && s'.h.results == s.h.results
  {
  }

  lemma CallPublish(s: State, t: ThreadId)
    requires Here(s, t) && s.threads[t].Writing? && s.threads[t].wstage.TailStored?
    ensures CallSettles(ApplyPublish(s, t, s.threads[t]), t, s.threads[t].call.id)
  {
    PublishCommits(s, t);
    PublishProgress(s, t);
    PublishKeeps(s, t);
  }

  lemma SafePublish(s: State, t: ThreadId)
    requires Safe(s) && t in s.threads && s.threads[t].Writing? && s.threads[t].wstage.TailStored?
    ensures Safe(ApplyPublish(s, t, s.threads[t]))
  {
    assert Here(s, t);
    RingPublish(s, t);
    CallPublish(s, t);
    var pc := s.threads[t];
    var op := pc.call.op;
    ContributionsAppend(s.h.enq, Entry(pc.call.id, Elements(op)[pc.index], RoleAt(op, pc.index)));
    SafeLocal(s, ApplyPublish(s, t, s.threads[t]), t, s.threads[t].call.id);
  }

  lemma SettleStoreHead(s: State, t: ThreadId)
    requires Here(s, t) && s.threads[t].Reading? && s.threads[t].rstage.Copied?
    ensures Settles(ApplyStoreHead(s, t, s.threads[t]), t, s.threads[t].call.id)
  {
  }

  lemma SafeStoreHead(s: State, t: ThreadId)
    requires Safe(s) && t in s.threads && s.threads[t].Reading? && s.threads[t].rstage.Copied?
    ensures Safe(ApplyStoreHead(s, t, s.threads[t]))
  {
    assert Here(s, t);
    SettleStoreHead(s, t);
    SafeLocal(s, ApplyStoreHead(s, t, s.threads[t]), t, s.threads[t].call.id);
  }

  lemma RingRetire(s: State, t: ThreadId)
    requires Here(s, t) && s.threads[t].Reading? && s.threads[t].rstage.HeadStored?
    ensures RingSettles(ApplyRetire(s, t, s.threads[t]), t)
  {
  }

  lemma RetireCommits(s: State, t: ThreadId)
    requires t in s.threads && s.threads[t].Reading?
    requires Progress(s.threads[t], Contribution(s.h.enq, s.threads[t].call.id), Contribution(s.h.deq, s.threads[t].call.id))
    ensures var pc, s' := s.threads[t], ApplyRetire(s, t, s.threads[t]);
            Contribution(s'.h.deq, pc.call.id) == [pc.element] && s'.h.enq == s.h.enq
  {
    ContributionAppend(s.h.deq, Entry(s.threads[t].call.id, s.threads[t].element, Solo), s.threads[t].call.id);
  }

  lemma RetireKeeps(s: State, t: ThreadId)
    requires t in s.threads && s.threads[t].Reading? && Kind(s.threads[t].call.op).SubKind?
    ensures var pc, s' := s.threads[t], ApplyRetire(s, t, s.threads[t]);
            && t in s'.threads && s'.mutex == s.mutex && s'.ring.elsize == s.ring.elsize
            && s'.h.nextId == s.h.nextId && s'.h.results == s.h.results
            && Holding(s'.threads[t]) && Active(s'.threads[t]) && s'.threads[t].call == pc.call
            && Progress(s'.threads[t], [], [pc.element])
  {
  }

  lemma CallRetire(s: State, t: ThreadId)
    requires Here(s, t) && s.threads[t].Reading? && s.threads[t].rstage.HeadStored?
    ensures CallSettles(ApplyRetire(s, t, s.threads[t]), t, s.threads[t].call.id)
  {
    RetireCommits(s, t);
    RetireKeeps(s, t);
  }

  lemma SafeRetire(s: State, t: ThreadId)
    requires Safe(s) && t in s.threads && s.threads[t].Reading? && s.threads[t].rstage.HeadStored?
    ensures Safe(ApplyRetire(s, t, s.threads[t]))
  {
    assert Here(s, t);
    RingRetire(s, t);
    CallRetire(s, t);
    ContributionsAppend(s.h.deq, Entry(s.threads[t].call.id, s.threads[t].element, Solo));
    SafeLocal(s, ApplyRetire(s, t, s.threads[t]), t, s.threads[t].call.id);
  }

  lemma RingSignal(s: State, t: ThreadId, delivered: bool)
    requires Here(s, t) && s.threads[t].Signalling?
    ensures RingSettles(ApplySignal(s, t, s.threads[t], delivered), t)
  {
  }

  /** Whatever the notification does, a committed call leaves with an exact account. */
  lemma SignalExact(pc: Pc, added: seq<Element>, removed: seq<Element>)
    requires pc.Signalling? && Progress(pc, added, removed)
    ensures Exact(pc.call.op, Return(pc), added, removed)
    ensures Exact(pc.call.op, SignalAfterCommit(Kind(pc.call.op)), added, removed)
    ensures Exact(pc.call.op, EventSignalAfterCommit(Kind(pc.call.op)), added, removed)
  {
  }

  lemma SignalLeaves(s: State, t: ThreadId, delivered: bool)
    requires t in s.threads && s.threads[t].Signalling?
    ensures var pc, s' := s.threads[t], ApplySignal(s, t, s.threads[t], delivered);
            var kind := Kind(pc.call.op);
            && t in s'.threads && s'.threads[t].Leaving? && s'.threads[t].call == pc.call
            && s'.threads[t].outcome in {Return(pc), SignalAfterCommit(kind), EventSignalAfterCommit(kind)}
            && s'.mutex == s.mutex && s'.ring == s.ring && s'.h == s.h.(missed := s'.h.missed)
  {
  }

  lemma CallSignal(s: State, t: ThreadId, delivered: bool)
    requires Here(s, t) && s.threads[t].Signalling?
    ensures CallSettles(ApplySignal(s, t, s.threads[t], delivered), t, s.threads[t].call.id)
  {
    var pc := s.threads[t];
    SignalLeaves(s, t, delivered);
    SignalExact(pc, Contribution(s.h.enq, pc.call.id), Contribution(s.h.deq, pc.call.id));
  }

  lemma LocalSignal(s: State, t: ThreadId, delivered: bool)
    requires Here(s, t) && s.threads[t].Signalling?
    ensures Local(s, ApplySignal(s, t, s.threads[t], delivered), t, s.threads[t].call.id)
  {
  }

  lemma SafeSignal(s: State, t: ThreadId, delivered: bool)
    requires Safe(s) && t in s.threads && s.threads[t].Signalling?
    ensures Safe(ApplySignal(s, t, s.threads[t], delivered))
  {
    assert Here(s, t);
    RingSignal(s, t, delivered);
    CallSignal(s, t, delivered);
    LocalSignal(s, t, delivered);
    SafeLocal(s, ApplySignal(s, t, s.threads[t], delivered), t, s.threads[t].call.id);
  }

  lemma SettleFail(s: State, t: ThreadId, outcome: Outcome)
    requires Here(s, t) && (s.threads[t].Locking? || s.threads[t].Waking?) && outcome.LockFailed?
    ensures Settles(Finish(s, t, s.threads[t].call, outcome), t, s.threads[t].call.id)
  {
  }

  lemma SafeFail(s: State, t: ThreadId, outcome: Outcome)
    requires Safe(s) && t in s.threads && (s.threads[t].Locking? || s.threads[t].Waking?) && outcome.LockFailed?
    ensures Safe(Finish(s, t, s.threads[t].call, outcome))
  {
    assert Here(s, t);
    SettleFail(s, t, outcome);
    SafeLocal(s, Finish(s, t, s.threads[t].call, outcome), t, s.threads[t].call.id);
  }

  lemma SettleUnlock(s: State, t: ThreadId)
    requires Here(s, t) && s.threads[t].Leaving?
    ensures Settles(Finish(s, t, s.threads[t].call, s.threads[t].outcome).(mutex := Free), t, s.threads[t].call.id)
  {
  }

  lemma SafeUnlock(s: State, t: ThreadId)
    requires Safe(s) && t in s.threads && s.threads[t].Leaving?
    ensures Safe(Finish(s, t, s.threads[t].call, s.threads[t].outcome).(mutex := Free))
  {
    assert Here(s, t);
    SettleUnlock(s, t);
    SafeLocal(s, Finish(s, t, s.threads[t].call, s.threads[t].outcome).(mutex := Free), t, s.threads[t].call.id);
  }

  lemma SettleWake(s: State, t: ThreadId, late: bool)
    requires Here(s, t) && (s.threads[t].Asleep? || s.threads[t].Spinning?)
    ensures Settles(Goto(s, t, Waking(s.threads[t].call, late)), t, s.threads[t].call.id)
  {
  }

  lemma SafeWake(s: State, t: ThreadId, late: bool)
    requires Safe(s) && t in s.threads && (s.threads[t].Asleep? || s.threads[t].Spinning?)
    ensures Safe(Goto(s, t, Waking(s.threads[t].call, late)))
  {
    assert Here(s, t);
    SettleWake(s, t, late);
    SafeLocal(s, Goto(s, t, Waking(s.threads[t].call, late)), t, s.threads[t].call.id);
  }

  lemma SettleWaitFails(s: State, t: ThreadId)
    requires Here(s, t) && s.threads[t].Testing?
    ensures Settles(Goto(s, t, Leaving(s.threads[t].call, WaitFailed)), t, s.threads[t].call.id)
  {
  }

  lemma SafeWaitFails(s: State, t: ThreadId)
    requires Safe(s) && t in s.threads && s.threads[t].Testing?
    ensures Safe(Goto(s, t, Leaving(s.threads[t].call, WaitFailed)))
  {
    assert Here(s, t);
    SettleWaitFails(s, t);
    SafeLocal(s, Goto(s, t, Leaving(s.threads[t].call, WaitFailed)), t, s.threads[t].call.id);
  }

  lemma SafeDie(s: State, t: ThreadId)
    requires Safe(s) && t in s.threads
    ensures Safe(ApplyDie(s, t, s.threads[t]))
  {
    var s' := ApplyDie(s, t, s.threads[t]);
    forall u | u in s.threads ensures ThreadOk(s', u) {
      assert ThreadOk(s, u) && ThreadOk(s, t);
    }
    forall id | id in s'.h.results ensures Settled(s'.h, id) {
      assert Settled(s.h, id);
    }
  }

  lemma SafeSetEventFds(s: State, producer: bool, consumer: bool)
    requires Safe(s)
    ensures Safe(s.(producerFd := producer, consumerFd := consumer))
  {
    var s' := s.(producerFd := producer, consumerFd := consumer);
    forall u | u in s.threads ensures ThreadOk(s', u) {
      assert ThreadOk(s, u);
    }
  }

  lemma SafeStep(s: State, step: Step)
    requires Safe(s) && Enabled(s, step)
    ensures Safe(Apply(s, step))
  {
    match step
    case SetEventFds(p, c) => SafeSetEventFds(s, p, c);
    case Invoke(t, op, mode) => SafeInvoke(s, t, op, mode);
    case Lock(t, recovers) => SafeLock(s, t, recovers);
    case LockFails(t) => SafeFail(s, t, LockFailed);
    case Test(t) => SafeTest(s, t);
    case WaitFails(t) => SafeWaitFails(s, t);
    case Wake(t, late) => SafeWake(s, t, late);
    case Relock(t, recovers) => SafeRelock(s, t, recovers);
    case RelockFails(t) => SafeFail(s, t, LockFailed);
    case Scribble(t, bytes) => SafeScribble(s, t, bytes);
    case WriteSlot(t) => SafeWriteSlot(s, t);
    case StoreTail(t) => SafeStoreTail(s, t);
    case Publish(t) => SafePublish(s, t);
    case StoreHead(t) => SafeStoreHead(s, t);
    case Retire(t) => SafeRetire(s, t);
    case Signal(t, delivered) => SafeSignal(s, t, delivered);
    case Unlock(t) => SafeUnlock(s, t);
    case Die(t) => SafeDie(s, t);
  }
}
