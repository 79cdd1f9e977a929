/**
  The shared queue as a transition system: any number of threads calling
  `add`, `add2`, `sub` and `sub2` on one ring, interleaved at every shared-memory
  access the code makes, with every wait mode, notification errors, spurious
  wake-ups, timeouts, and owners that die at any point.

  Reads and writes are sequentially consistent steps. The mutex, the condition
  variable and the event descriptors are primitives.
 */
module QueueProtocol {

  type Element = seq<bv8>
  type ThreadId = nat
  type CallId = nat

  datatype Mode = Wait | Nowait | TimedWait

  /** `Sub(room)` and `Sub2(room)` carry the length of the caller's output buffer. */
  datatype Op = Add(element: Element) | Add2(first: Element, second: Element) | Sub(room: nat) | Sub2(room: nat)

  datatype OpKind = AddKind | AddPairKind | SubKind

  datatype Outcome =
    | Added
    | Taken(element: Element)
    | QueueFull
    | Empty
    | LockBusy
    | Timeout
    | LengthMismatch
    | OwnerDied
    | NotRecoverable
    | LockFailed
    | WaitFailed
    | SignalAfterCommit(kind: OpKind)
    | EventSignalAfterCommit(kind: OpKind)

  datatype Call = Call(id: CallId, op: Op, mode: Mode)

  // ----- the ring

  datatype Ring = Ring(head: nat, tail: nat, cursize: nat, maxsize: nat, elsize: nat, slots: seq<Element>)

  predicate Bounded(r: Ring) {
    && 0 < r.maxsize < WORD && 0 < r.elsize
    && |r.slots| == r.maxsize
    && (forall i :: 0 <= i < |r.slots| ==> |r.slots[i]| == r.elsize)
    && r.head < r.maxsize && r.tail < r.maxsize && r.cursize <= r.maxsize
  }

  const WORD: nat := 0x1_0000_0000

  /** `fetch_add` and `fetch_sub` on a `u32`. */
  function WrappingInc(n: nat): nat { (n + 1) % WORD }
  function WrappingDec(n: nat): nat { (n + WORD - 1) % WORD }

  function SlotAt(slots: seq<Element>, i: nat): Element {
    if i < |slots| then slots[i] else []
  }

  function Put(slots: seq<Element>, i: nat, e: Element): seq<Element> {
    if i < |slots| then slots[i := e] else slots
  }

  function Advance(index: nat, maxsize: nat): nat {
    if index + 1 == maxsize then 0 else index + 1
  }

  /** The slot `i` places after `head`, going round. */
  function Around(head: nat, i: nat, maxsize: nat): nat
    requires head < maxsize && i <= maxsize
  {
    if head + i < maxsize then head + i else head + i - maxsize
  }

  function LiveFrom(r: Ring, head: nat): (live: seq<Element>)
    requires Bounded(r) && head < r.maxsize
  {
    seq(r.cursize, i requires 0 <= i < r.cursize => r.slots[Around(head, i, r.maxsize)])
  }

  // ----- threads

  datatype WriteStage = Begun | SlotWritten | TailStored
  datatype ReadStage = Copied | HeadStored

  datatype Pc =
    | Idle
    | Locking(call: Call)                                  // before `acquire`
    | Testing(call: Call)                                  // lock held, at the head of the wait loop
    | Asleep(call: Call, seen: nat, notified: bool)        // in the condition variable, lock released
    | Spinning(call: Call, seen: nat)                      // in `wait_on_event`, lock released
    | Waking(call: Call, timedOut: bool)                   // wants the lock back
    | Writing(call: Call, index: nat, slot: nat, wasEmpty: bool, wstage: WriteStage)
    | Reading(call: Call, slot: nat, element: Element, wasFull: bool, rstage: ReadStage)
    | Signalling(call: Call, edge: bool, got: seq<Element>) // committed, before `signal`
    | Leaving(call: Call, outcome: Outcome)                // lock held, about to drop the guard
    | Dead

  predicate Holding(pc: Pc) {
    pc.Testing? || pc.Writing? || pc.Reading? || pc.Signalling? || pc.Leaving?
  }

  predicate Active(pc: Pc) {
    !pc.Idle? && !pc.Dead?
  }

  datatype Mutex = Free | Held(owner: ThreadId) | OwnerDead | Unrecoverable

  // ----- history

  datatype Role = Solo | First | Second

  datatype Entry = Entry(id: CallId, element: Element, role: Role)

  /**
    `torn`: an owner died between storing an index and adjusting `cursize`.
    `missed`: a notification that was due did not reach the condition variable.
    `orphans`: pair writes whose owner died between the two elements.
   */
  datatype History = History(
    enq: seq<Entry>, deq: seq<Entry>,
    results: map<CallId, (Call, Outcome)>, nextId: CallId,
    torn: bool, missed: bool, orphans: set<CallId>)

  datatype State = State(
    ring: Ring, mutex: Mutex, threads: map<ThreadId, Pc>,
    producerFd: bool, consumerFd: bool, h: History)

  function Elements(op: Op): seq<Element> {
    match op
    case Add(e) => [e]
    case Add2(f, s) => [f, s]
    case _ => []
  }

  function Kind(op: Op): OpKind {
    match op
    case Add(_) => AddKind
    case Add2(_, _) => AddPairKind
    case _ => SubKind
  }

  function RoleAt(op: Op, index: nat): Role {
    if op.Add2? then (if index == 0 then First else Second) else Solo
  }

  predicate LengthsValid(op: Op, elsize: nat) {
    match op
    case Add(e) => |e| == elsize
    case Add2(f, s) => |f| == elsize && |s| == elsize
    case Sub(room) => room == elsize
    case Sub2(room) => room == elsize
  }

  predicate TriesLock(call: Call) {
    call.mode.Nowait? && !call.op.Sub2?
  }

  /** Must the call wait (or give up) at this occupancy? */
  predicate Blocked(op: Op, r: Ring) {
    match op
    case Add(_) => r.cursize == r.maxsize
    case Add2(_, _) => r.maxsize < 2 || r.maxsize - r.cursize < 2
    case Sub(_) => r.cursize == 0
    case Sub2(_) => r.cursize == 0
  }

  predicate GivesUp(call: Call, r: Ring) {
    call.mode.Nowait? || call.op.Sub2? || (call.op.Add2? && r.maxsize < 2)
  }

  function Refusal(op: Op): Outcome {
    if op.Add? || op.Add2? then QueueFull else Empty
  }

  // ----- steps

  datatype Step =
    | Invoke(t: ThreadId, op: Op, mode: Mode)
    | Lock(t: ThreadId, recovers: bool)
    | LockFails(t: ThreadId)
    | Test(t: ThreadId)
    | WaitFails(t: ThreadId)
    | Wake(t: ThreadId, late: bool)
    | Relock(t: ThreadId, recovers: bool)
    | RelockFails(t: ThreadId)
    | Scribble(t: ThreadId, bytes: Element)
    | WriteSlot(t: ThreadId)
    | StoreTail(t: ThreadId)
    | Publish(t: ThreadId)
    | StoreHead(t: ThreadId)
    | Retire(t: ThreadId)
    | Signal(t: ThreadId, delivered: bool)
    | Unlock(t: ThreadId)
    | Die(t: ThreadId)
    | SetEventFds(producer: bool, consumer: bool)

  predicate Enabled(s: State, step: Step) {
    if step.SetEventFds? then true else
    step.t in s.threads && var pc := s.threads[step.t];
    match step
    case Invoke(_, _, _) => pc.Idle?
    case Lock(_, _) => pc.Locking? && (s.mutex.Held? ==> TriesLock(pc.call))
    case LockFails(_) => pc.Locking?
    case Test(_) => pc.Testing?
    case WaitFails(_) => pc.Testing? && Blocked(pc.call.op, s.ring) && !GivesUp(pc.call, s.ring)
    case Wake(_, late) =>
      && (late ==> (pc.Asleep? || pc.Spinning?) && pc.call.mode.TimedWait?)
      && (!late ==> pc.Asleep? || (pc.Spinning? && s.ring.cursize != pc.seen))
    case Relock(_, _) => pc.Waking? && !s.mutex.Held?
    case RelockFails(_) => pc.Waking?
    case Scribble(_, bytes) => pc.Writing? && pc.wstage.Begun? && |bytes| == s.ring.elsize
    case WriteSlot(_) => pc.Writing? && pc.wstage.Begun?
    case StoreTail(_) => pc.Writing? && pc.wstage.SlotWritten?
    case Publish(_) => pc.Writing? && pc.wstage.TailStored?
    case StoreHead(_) => pc.Reading? && pc.rstage.Copied?
    case Retire(_) => pc.Reading? && pc.rstage.HeadStored?
    case Signal(_, _) => pc.Signalling?
    case Unlock(_) => pc.Leaving?
    case Die(_) => !pc.Dead?
  }

  function Goto(s: State, t: ThreadId, pc: Pc): State {
    s.(threads := s.threads[t := pc])
  }

  /** The call returns `outcome` without holding the lock any more. */
  function Finish(s: State, t: ThreadId, call: Call, outcome: Outcome): State {
    Goto(s, t, Idle).(h := s.h.(results := s.h.results[call.id := (call, outcome)]))
  }

  function ApplyInvoke(s: State, t: ThreadId, op: Op, mode: Mode): State {
    var call := Call(s.h.nextId, op, mode);
    var s1 := s.(h := s.h.(nextId := s.h.nextId + 1));
    if LengthsValid(op, s.ring.elsize) then Goto(s1, t, Locking(call))
    else Finish(s1, t, call, LengthMismatch)
  }

  /** `acquire`: a robust mutex whose owner died is made consistent, dropped and reported. */
  function ApplyLock(s: State, t: ThreadId, call: Call, recovers: bool): State {
    match s.mutex
    case Free => Goto(s, t, Testing(call)).(mutex := Held(t))
    case Held(_) => Finish(s, t, call, LockBusy)
    case OwnerDead =>
      if recovers then Finish(s, t, call, OwnerDied).(mutex := Free)
      else Finish(s, t, call, NotRecoverable).(mutex := Unrecoverable)
    case Unrecoverable => Finish(s, t, call, LockFailed)
  }

  function ApplyRelock(s: State, t: ThreadId, call: Call, timedOut: bool, recovers: bool): State {
    match s.mutex
    case OwnerDead =>
      if recovers then Finish(s, t, call, OwnerDied).(mutex := Free)
      else Finish(s, t, call, NotRecoverable).(mutex := Unrecoverable)
    case Unrecoverable => Finish(s, t, call, WaitFailed)
    case _ => Goto(s, t, if timedOut then Leaving(call, Timeout) else Testing(call)).(mutex := Held(t))
  }

  function ApplyTest(s: State, t: ThreadId, call: Call): State {
    var r := s.ring;
    if Blocked(call.op, r) then
      if GivesUp(call, r) then Goto(s, t, Leaving(call, Refusal(call.op)))
      else if s.producerFd then Goto(s, t, Spinning(call, r.cursize)).(mutex := Free)
      else Goto(s, t, Asleep(call, r.cursize, false)).(mutex := Free)
    else if call.op.Add? || call.op.Add2? then
      Goto(s, t, Writing(call, 0, r.tail, r.cursize == 0, Begun))
    else
      Goto(s, t, Reading(call, r.head, SlotAt(r.slots, r.head), r.cursize == r.maxsize, Copied))
  }

  /** The element copy is not atomic: part-way through, the slot may hold any bytes. */
  function ApplyScribble(s: State, pc: Pc, bytes: Element): State
    requires pc.Writing?
  {
    s.(ring := s.ring.(slots := Put(s.ring.slots, pc.slot, bytes)))
  }

  function ApplyWriteSlot(s: State, t: ThreadId, pc: Pc): State
    requires pc.Writing?
  {
    Goto(s, t, pc.(wstage := SlotWritten))
      .(ring := s.ring.(slots := Put(s.ring.slots, pc.slot, SlotAt(Elements(pc.call.op), pc.index))))
  }

  function ApplyStoreTail(s: State, t: ThreadId, pc: Pc): State
    requires pc.Writing?
  {
    Goto(s, t, pc.(wstage := TailStored)).(ring := s.ring.(tail := Advance(pc.slot, s.ring.maxsize)))
  }

  function ApplyStoreHead(s: State, t: ThreadId, pc: Pc): State
    requires pc.Reading?
  {
    Goto(s, t, pc.(rstage := HeadStored)).(ring := s.ring.(head := Advance(pc.slot, s.ring.maxsize)))
  }

  function ApplyPublish(s: State, t: ThreadId, pc: Pc): State
    requires pc.Writing?
  {
    var op := pc.call.op;
    var entry := Entry(pc.call.id, SlotAt(Elements(op), pc.index), RoleAt(op, pc.index));
    var r := s.ring.(cursize := WrappingInc(s.ring.cursize));
    var next := if pc.index + 1 < |Elements(op)|
                then Writing(pc.call, pc.index + 1, r.tail, pc.wasEmpty, Begun)
                else Signalling(pc.call, pc.wasEmpty, []);
    Goto(s, t, next).(ring := r, h := s.h.(enq := s.h.enq + [entry]))
  }

  function ApplyRetire(s: State, t: ThreadId, pc: Pc): State
    requires pc.Reading?
  {
    Goto(s, t, Signalling(pc.call, pc.wasFull, [pc.element]))
      .(ring := s.ring.(cursize := WrappingDec(s.ring.cursize)),
        h := s.h.(deq := s.h.deq + [Entry(pc.call.id, pc.element, Solo)]))
  }

  function Notify(pc: Pc): Pc {
    if pc.Asleep? then pc.(notified := true) else pc
  }

  function Return(pc: Pc): Outcome
    requires pc.Signalling?
  {
    if pc.got == [] then Added else Taken(pc.got[0])
  }

  function ApplySignal(s: State, t: ThreadId, pc: Pc, delivered: bool): State
    requires pc.Signalling?
  {
    var fd := if Kind(pc.call.op).SubKind? then s.consumerFd else s.producerFd;
    if !pc.edge then Goto(s, t, Leaving(pc.call, Return(pc)))
    else if fd then
      Goto(s, t, Leaving(pc.call, if delivered then Return(pc) else EventSignalAfterCommit(Kind(pc.call.op))))
        .(h := s.h.(missed := true))
    else if delivered then
      Goto(s.(threads := map u | u in s.threads :: Notify(s.threads[u])), t, Leaving(pc.call, Return(pc)))
    else
      Goto(s, t, Leaving(pc.call, SignalAfterCommit(Kind(pc.call.op)))).(h := s.h.(missed := true))
  }

  /** Between an index store and the matching `cursize` update the two disagree, if there are two slots. */
  predicate Tearing(pc: Pc, r: Ring) {
    1 < r.maxsize && ((pc.Writing? && pc.wstage.TailStored?) || (pc.Reading? && pc.rstage.HeadStored?))
  }

  /** The owner owes a notification for a transition it has already made. */
  predicate Owes(pc: Pc) {
    (pc.Writing? && 0 < pc.index && pc.wasEmpty) || (pc.Signalling? && pc.edge)
  }

  function ApplyDie(s: State, t: ThreadId, pc: Pc): State {
    if !Holding(pc) then Goto(s, t, Dead)
    else
      Goto(s, t, Dead).(mutex := OwnerDead,
                        h := s.h.(torn := s.h.torn || Tearing(pc, s.ring),
                                  missed := s.h.missed || Owes(pc),
                                  orphans := if pc.Writing? && 0 < pc.index then s.h.orphans + {pc.call.id} else s.h.orphans))
  }

  /** The step's effect; a step that is not enabled does nothing. */
  function Apply(s: State, step: Step): State {
    if !Enabled(s, step) then s else
    match step
    case SetEventFds(p, c) => s.(producerFd := p, consumerFd := c)
    case Invoke(t, op, mode) => ApplyInvoke(s, t, op, mode)
    case Lock(t, recovers) => ApplyLock(s, t, s.threads[t].call, recovers)
    case LockFails(t) => Finish(s, t, s.threads[t].call, LockFailed)
    case Test(t) => ApplyTest(s, t, s.threads[t].call)
    case WaitFails(t) => Goto(s, t, Leaving(s.threads[t].call, WaitFailed))
    case Wake(t, late) => Goto(s, t, Waking(s.threads[t].call, late))
    case Relock(t, recovers) => ApplyRelock(s, t, s.threads[t].call, s.threads[t].timedOut, recovers)
    case RelockFails(t) => Finish(s, t, s.threads[t].call, LockFailed)
    case Scribble(t, bytes) => ApplyScribble(s, s.threads[t], bytes)
    case WriteSlot(t) => ApplyWriteSlot(s, t, s.threads[t])
    case StoreTail(t) => ApplyStoreTail(s, t, s.threads[t])
    case Publish(t) => ApplyPublish(s, t, s.threads[t])
    case StoreHead(t) => ApplyStoreHead(s, t, s.threads[t])
    case Retire(t) => ApplyRetire(s, t, s.threads[t])
    case Signal(t, delivered) => ApplySignal(s, t, s.threads[t], delivered)
    case Unlock(t) => Finish(s, t, s.threads[t].call, s.threads[t].outcome).(mutex := Free)
    case Die(t) => ApplyDie(s, t, s.threads[t])
  }

  ghost predicate Init(s: State) {
    && Bounded(s.ring) && s.ring.head == 0 && s.ring.tail == 0 && s.ring.cursize == 0
    && s.mutex == Free
    && (forall t :: t in s.threads ==> s.threads[t] == Idle)
    && !s.producerFd && !s.consumerFd
    && s.h == History([], [], map[], 0, false, false, {})
  }

  // ----- what a run is

  /** Any finite interleaving: one state more than steps. */
  ghost predicate Run(states: seq<State>, steps: seq<Step>) {
    && |states| == |steps| + 1
    && Init(states[0])
    && (forall i :: 0 <= i < |steps| ==> Follows(states[i], steps[i], states[i + 1]))
  }

  predicate Follows(s: State, step: Step, s': State) {
    Enabled(s, step) && s' == Apply(s, step)
  }

  // ----- the invariant

  function Contribution(log: seq<Entry>, id: CallId): seq<Element> {
    if log == [] then []
    else
      var last := log[|log| - 1];
      Contribution(log[..|log| - 1], id) + if last.id == id then [last.element] else []
  }

  function Contents(log: seq<Entry>): (es: seq<Element>)
    ensures |es| == |log|
  {
    seq(|log|, i requires 0 <= i < |log| => log[i].element)
  }

  predicate AfterCommit(outcome: Outcome) {
    outcome.SignalAfterCommit? || outcome.EventSignalAfterCommit?
  }

  /** What the caller may conclude about the two histories from what its call returned. */
  predicate Exact(op: Op, outcome: Outcome, added: seq<Element>, removed: seq<Element>) {
    && (AfterCommit(outcome) ==> outcome.kind == Kind(op))
    && if op.Add? || op.Add2? then
         && !outcome.Taken?
         && removed == []
         && added == if outcome.Added? || AfterCommit(outcome) then Elements(op) else []
       else
         && !outcome.Added?
         && added == []
         && (outcome.Taken? ==> removed == [outcome.element])
         && (AfterCommit(outcome) ==> |removed| == 1)
         && (!outcome.Taken? && !AfterCommit(outcome) ==> removed == [])
  }

  /** The part of a running call that has been committed so far. */
  predicate Progress(pc: Pc, added: seq<Element>, removed: seq<Element>)
    requires Active(pc)
  {
    match pc
    case Writing(call, index, _, _, _) =>
      index < |Elements(call.op)| && added == Elements(call.op)[..index] && removed == []
    case Signalling(call, _, got) =>
      added == Elements(call.op) && removed == got && |got| == if Kind(call.op).SubKind? then 1 else 0
    case Leaving(call, outcome) => Exact(call.op, outcome, added, removed)
    case _ => added == [] && removed == []
  }

  predicate ThreadOk(s: State, t: ThreadId)
    requires t in s.threads
  {
    var pc := s.threads[t];
    && (Holding(pc) <==> s.mutex == Held(t))
    && (Active(pc) ==>
          && pc.call.id < s.h.nextId && pc.call.id !in s.h.results
          && LengthsValid(pc.call.op, s.ring.elsize)
          && Progress(pc, Contribution(s.h.enq, pc.call.id), Contribution(s.h.deq, pc.call.id)))
  }

  predicate LockerOk(r: Ring, pc: Pc)
    requires Bounded(r)
  {
    && (pc.Writing? ==>
          var es := Elements(pc.call.op);
          && pc.index < |es| && pc.index <= r.cursize && r.cursize + |es| - pc.index <= r.maxsize
          && pc.slot < r.maxsize
          && r.tail == (if pc.wstage.TailStored? then Advance(pc.slot, r.maxsize) else pc.slot)
          && (!pc.wstage.Begun? ==> r.slots[pc.slot] == es[pc.index])
          && (pc.wasEmpty <==> r.cursize == pc.index))
    && (pc.Reading? ==>
          && Kind(pc.call.op).SubKind?
          && 0 < r.cursize && pc.slot < r.maxsize
          && r.head == (if pc.rstage.HeadStored? then Advance(pc.slot, r.maxsize) else pc.slot)
          && pc.element == r.slots[pc.slot]
          && (pc.wasFull <==> r.cursize == r.maxsize))
    && (pc.Signalling? && pc.edge ==>
          if Kind(pc.call.op).SubKind? then r.cursize + 1 == r.maxsize else r.cursize == |Elements(pc.call.op)|)
  }

  /** The thread that holds the lock, or `Idle` when nobody does. */
  function Locker(s: State): Pc {
    if s.mutex.Held? && s.mutex.owner in s.threads then s.threads[s.mutex.owner] else Idle
  }

  function FifoHead(s: State): nat {
    var pc := Locker(s);
    if pc.Reading? && pc.rstage.HeadStored? then pc.slot else s.ring.head
  }

  function FifoTail(s: State): nat {
    var pc := Locker(s);
    if pc.Writing? && pc.wstage.TailStored? then pc.slot else s.ring.tail
  }

  predicate Fifo(s: State)
    requires Bounded(s.ring)
  {
    && FifoHead(s) < s.ring.maxsize
    && FifoTail(s) == Around(FifoHead(s), s.ring.cursize, s.ring.maxsize)
    && Contents(s.h.enq) == Contents(s.h.deq) + LiveFrom(s.ring, FifoHead(s))
  }

  predicate Paired(enq: seq<Entry>, i: nat, locker: Pc, orphans: set<CallId>)
    requires i < |enq|
  {
    && (enq[i].role == First ==>
          || (i + 1 < |enq| && enq[i + 1].role == Second && enq[i + 1].id == enq[i].id)
          || (i + 1 == |enq| && locker.Writing? && locker.index == 1 && locker.call.id == enq[i].id)
          || enq[i].id in orphans)
    && (enq[i].role == Second ==> 0 < i && enq[i - 1].role == First && enq[i - 1].id == enq[i].id)
  }

  /** The locker is about to announce that the queue is no longer empty (or no longer full). */
  predicate OwesConsumers(pc: Pc) {
    (pc.Writing? && pc.wasEmpty) || (pc.Signalling? && pc.edge && !Kind(pc.call.op).SubKind?)
  }

  predicate OwesProducers(pc: Pc) {
    pc.Signalling? && pc.edge && Kind(pc.call.op).SubKind?
  }

  predicate SleeperOk(pc: Pc, locker: Pc, r: Ring) {
    pc.Asleep? && !pc.notified ==>
      match pc.call.op
      case Sub(_) => r.cursize == 0 || OwesConsumers(locker)
      case Add(_) => r.cursize == r.maxsize || OwesProducers(locker)
      case Add2(_, _) =>
        r.maxsize <= pc.seen + 1 && (pc.seen == r.maxsize ==> r.cursize == r.maxsize || OwesProducers(locker))
      case Sub2(_) => false
  }

  predicate Settled(h: History, id: CallId)
    requires id in h.results
  {
    && id < h.nextId
    && Exact(h.results[id].0.op, h.results[id].1, Contribution(h.enq, id), Contribution(h.deq, id))
  }

  ghost predicate Safe(s: State) {
    && Bounded(s.ring)
    && (s.mutex.Held? ==> s.mutex.owner in s.threads)
    && LockerOk(s.ring, Locker(s))
    && (forall t :: t in s.threads ==> ThreadOk(s, t))
    && (forall t, u :: t in s.threads && u in s.threads && t != u && Active(s.threads[t]) && Active(s.threads[u])
                       ==> s.threads[t].call.id != s.threads[u].call.id)
    && (forall id :: id in s.h.results ==> Settled(s.h, id))
    && (forall id :: s.h.nextId <= id ==> Contribution(s.h.enq, id) == [] && Contribution(s.h.deq, id) == [])
  }

}
