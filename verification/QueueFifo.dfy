/**
  The ring refines a bounded first-in first-out queue under every interleaving, and the
  refinement survives every owner death except one that tears an index from `cursize`.
 */
module QueueFifo {
  import opened QueueProtocol
  import opened QueueSafety

  /** The abstract queue: the elements waiting, oldest first. */
  function Waiting(s: State): (q: seq<Element>)
    requires Bounded(s.ring) && FifoHead(s) < s.ring.maxsize
    ensures |q| == s.ring.cursize
  {
    LiveFrom(s.ring, FifoHead(s))
  }

  lemma AroundIsMod(head: nat, i: nat, maxsize: nat)
    requires head < maxsize && i <= maxsize
    ensures Around(head, i, maxsize) == (head + i) % maxsize
  {
    var q := (head + i) / maxsize;
    assert head + i == q * maxsize + (head + i) % maxsize;
    assert 2 <= q ==> 2 * maxsize <= q * maxsize;
  }

  /** A step of the abstract queue: append when there is room, remove the front, or nothing. */
  datatype FifoEvent = Append(e: Element) | Remove(e: Element) | Stutter

  predicate FifoStep(q: seq<Element>, event: FifoEvent, q': seq<Element>, maxsize: nat) {
    match event
    case Append(e) => |q| < maxsize && q' == q + [e]
    case Remove(e) => q != [] && q[0] == e && q' == q[1..]
    case Stutter => q' == q
  }

  /** The abstract event a concrete step stands for. */
  function Event(s: State, step: Step): FifoEvent {
    if !Enabled(s, step) then Stutter
    else match step
      case Publish(t) => Append(SlotAt(Elements(s.threads[t].call.op), s.threads[t].index))
      case Retire(t) => Remove(s.threads[t].element)
      case _ => Stutter
  }

  predicate Refines(s: State, event: FifoEvent, s': State)
    requires Bounded(s.ring) && Fifo(s)
  {
    Bounded(s'.ring) && Fifo(s') && FifoStep(Waiting(s), event, Waiting(s'), s.ring.maxsize)
  }

  lemma FifoSame(s: State, s': State)
    requires Bounded(s.ring) && Fifo(s)
    requires s'.ring == s.ring && s'.h.enq == s.h.enq && s'.h.deq == s.h.deq
    requires FifoHead(s') == FifoHead(s) && FifoTail(s') == FifoTail(s)
    ensures Refines(s, Stutter, s')
  {
  }

  /** Writing at the tail touches no live slot while there is room. */
  lemma FifoSlotWrite(s: State, t: ThreadId, s': State, e: Element)
    requires Here(s, t) && s.threads[t].Writing? && s.threads[t].wstage.Begun? && Fifo(s) && |e| == s.ring.elsize
    requires s'.ring == s.ring.(slots := Put(s.ring.slots, s.threads[t].slot, e))
    requires s'.h == s.h && FifoHead(s') == FifoHead(s) && FifoTail(s') == FifoTail(s)
    ensures Refines(s, Stutter, s')
  {
    assert LiveFrom(s'.ring, FifoHead(s)) == LiveFrom(s.ring, FifoHead(s));
  }

  lemma FifoPublish(s: State, t: ThreadId)
    requires Here(s, t) && s.threads[t].Writing? && s.threads[t].wstage.TailStored? && Fifo(s)
    ensures Refines(s, Append(SlotAt(Elements(s.threads[t].call.op), s.threads[t].index)), ApplyPublish(s, t, s.threads[t]))
  {
    var pc := s.threads[t];
    var s' := ApplyPublish(s, t, pc);
    var head := FifoHead(s);
    assert FifoHead(s') == head == s.ring.head;
    assert LiveFrom(s'.ring, head) == LiveFrom(s.ring, head) + [s.ring.slots[pc.slot]];
    var entry := Entry(pc.call.id, Elements(pc.call.op)[pc.index], RoleAt(pc.call.op, pc.index));
    assert Contents(s.h.enq + [entry]) == Contents(s.h.enq) + [entry.element];
  }

  lemma LiveDrop(r: Ring, slot: nat)
    requires Bounded(r) && slot < r.maxsize && 0 < r.cursize
    ensures LiveFrom(r, slot) == [r.slots[slot]] + LiveFrom(r.(cursize := r.cursize - 1), Advance(slot, r.maxsize))
  {
  }

  lemma FifoRetire(s: State, t: ThreadId)
    requires Here(s, t) && s.threads[t].Reading? && s.threads[t].rstage.HeadStored? && Fifo(s)
    ensures Refines(s, Remove(s.threads[t].element), ApplyRetire(s, t, s.threads[t]))
  {
    var pc := s.threads[t];
    var s' := ApplyRetire(s, t, pc);
    assert FifoHead(s) == pc.slot && FifoHead(s') == s.ring.head == Advance(pc.slot, s.ring.maxsize);
    LiveDrop(s.ring.(head := pc.slot), pc.slot);
    assert Waiting(s) == [pc.element] + Waiting(s');
    var entry := Entry(pc.call.id, pc.element, Solo);
    assert Contents(s.h.deq + [entry]) == Contents(s.h.deq) + [pc.element];
  }

  lemma FifoStoreTail(s: State, t: ThreadId)
    requires Here(s, t) && s.threads[t].Writing? && s.threads[t].wstage.SlotWritten? && Fifo(s)
    ensures Refines(s, Stutter, ApplyStoreTail(s, t, s.threads[t]))
  {
    var s' := ApplyStoreTail(s, t, s.threads[t]);
    assert LiveFrom(s'.ring, FifoHead(s)) == LiveFrom(s.ring, FifoHead(s));
  }

  lemma FifoStoreHead(s: State, t: ThreadId)
    requires Here(s, t) && s.threads[t].Reading? && s.threads[t].rstage.Copied? && Fifo(s)
    ensures Refines(s, Stutter, ApplyStoreHead(s, t, s.threads[t]))
  {
    var s' := ApplyStoreHead(s, t, s.threads[t]);
    assert LiveFrom(s'.ring, FifoHead(s)) == LiveFrom(s.ring, FifoHead(s));
  }

  /** The other steps leave the indexes as the queue's users see them. */
  predicate Quiet(step: Step) {
    && !step.SetEventFds? && !step.Publish? && !step.Retire?
    && !step.Scribble? && !step.WriteSlot? && !step.StoreTail? && !step.StoreHead?
  }

  predicate Outside(step: Step) {
    step.Invoke? || step.Lock? || step.LockFails? || step.Wake? || step.Relock? || step.RelockFails?
  }

  lemma OutsideIndexes(s: State, step: Step)
    requires Enabled(s, step) && Outside(step) && Here(s, step.t)
    ensures var s' := Apply(s, step); FifoHead(s') == FifoHead(s) && FifoTail(s') == FifoTail(s)
  {
  }

  lemma InsideIndexes(s: State, step: Step)
    requires Enabled(s, step) && Quiet(step) && !Outside(step) && Here(s, step.t)
    requires !(step.Die? && Tearing(s.threads[step.t], s.ring))
    ensures var s' := Apply(s, step); FifoHead(s') == FifoHead(s) && FifoTail(s') == FifoTail(s)
  {
  }

  lemma FifoQuiet(s: State, step: Step)
    requires Enabled(s, step) && Quiet(step) && Here(s, step.t) && Fifo(s)
    requires !(step.Die? && Tearing(s.threads[step.t], s.ring))
    ensures Refines(s, Stutter, Apply(s, step))
  {
    if Outside(step) { OutsideIndexes(s, step); } else { InsideIndexes(s, step); }
    FifoSame(s, Apply(s, step));
  }

  lemma FifoStores(s: State, step: Step)
    requires Enabled(s, step) && !step.SetEventFds? && Here(s, step.t) && Fifo(s)
    requires step.Scribble? || step.WriteSlot? || step.StoreTail? || step.StoreHead?
    ensures Refines(s, Stutter, Apply(s, step))
  {
    var t := step.t;
    match step
    case Scribble(_, bytes) => FifoSlotWrite(s, t, Apply(s, step), bytes);
    case WriteSlot(_) => FifoSlotWrite(s, t, Apply(s, step), Elements(s.threads[t].call.op)[s.threads[t].index]);
    case StoreTail(_) => FifoStoreTail(s, t);
    case StoreHead(_) => FifoStoreHead(s, t);
  }

  /** Every step but a tearing death is a step of the bounded queue. */
  lemma StepRefinesFifo(s: State, step: Step)
    requires Safe(s) && Fifo(s) && Enabled(s, step)
    requires !(step.Die? && Tearing(s.threads[step.t], s.ring))
    ensures Refines(s, Event(s, step), Apply(s, step))
  {
    if step.SetEventFds? {
      FifoSame(s, Apply(s, step));
    } else {
      assert Here(s, step.t);
      if step.Publish? {
        FifoPublish(s, step.t);
      } else if step.Retire? {
        FifoRetire(s, step.t);
      } else if Quiet(step) {
        FifoQuiet(s, step);
      } else {
        FifoStores(s, step);
      }
    }
  }
}
