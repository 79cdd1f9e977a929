/**
  The queue in the form the code has it: three counters and one flat byte buffer, changed in place.
  Each method is tied to the slot view the transition system works on.
 */
module QueueStorage {
  import opened QueueProtocol
  import opened QueueRuns
  import QueueLayout

  /** `write_one` as one effect on the slot view. */
  function Written(r: Ring, e: Element): Ring {
    r.(slots := Put(r.slots, r.tail, e), tail := Advance(r.tail, r.maxsize), cursize := WrappingInc(r.cursize))
  }

  /** `sub_nolock`'s effect on a queue that is not empty. */
  function Popped(r: Ring): Ring {
    r.(head := Advance(r.head, r.maxsize), cursize := WrappingDec(r.cursize))
  }

  /** The three micro-steps of the transition system compose to `Written`, the two of a read to `Popped`. */
  lemma MicroStepsCompose(s: State, t: ThreadId, pc: Pc)
    requires pc.Writing? && pc.slot == s.ring.tail
    ensures var s1 := ApplyWriteSlot(s, t, pc);
            var s2 := ApplyStoreTail(s1, t, s1.threads[t]);
            ApplyPublish(s2, t, s2.threads[t]).ring == Written(s.ring, SlotAt(Elements(pc.call.op), pc.index))
  {
  }

  lemma ReadStepsCompose(s: State, t: ThreadId, pc: Pc)
    requires pc.Reading? && pc.slot == s.ring.head
    ensures var s1 := ApplyStoreHead(s, t, pc);
            ApplyRetire(s1, t, s1.threads[t]).ring == Popped(s.ring)
  {
  }

  /** What a caller finds when a wait returns: the queue as other threads left it, or no lock at all. */
  datatype Wakeup = Woken(ring: Ring) | Late(ring: Ring) | Broken(ring: Ring, outcome: Outcome)

  datatype Notice = Reached | CondvarFailed | EventFailed

  predicate WakeupOk(w: Wakeup, maxsize: nat, elsize: nat) {
    && Bounded(w.ring) && w.ring.maxsize == maxsize && w.ring.elsize == elsize
    && (w.Broken? ==> w.outcome.OwnerDied? || w.outcome.NotRecoverable? || w.outcome.WaitFailed? || w.outcome.LockFailed?)
  }

  /** An outcome that says nothing was added and nothing taken. */
  predicate Untouched(outcome: Outcome) { !outcome.Added? && !outcome.Taken? && !AfterCommit(outcome) }

  datatype Failure = None | Some(outcome: Outcome)

  function Noticed(notice: Notice, due: bool, kind: OpKind, done: Outcome): Outcome {
    if !due || notice.Reached? then done
    else if notice.CondvarFailed? then SignalAfterCommit(kind)
    else EventSignalAfterCommit(kind)
  }

  lemma OffsetFits(i: nat, n: nat, size: nat)
    requires i < n
    ensures 0 <= i * size && i * size + size <= n * size
  {
    assert (i + 1) * size <= n * size;
  }

  lemma OffsetsApart(i: nat, j: nat, size: nat)
    requires i != j
    ensures i * size + size <= j * size || j * size + size <= i * size
  {
    if i < j {
      assert (i + 1) * size <= j * size;
    } else {
      assert (j + 1) * size <= i * size;
    }
  }

  function SlotOf(bytes: seq<bv8>, n: nat, size: nat, i: nat): (e: Element)
    requires |bytes| == n * size && i < n
    ensures |e| == size
  {
    OffsetFits(i, n, size);
    bytes[i * size..i * size + size]
  }

  /** Element `i` occupies the `size` bytes from `i * size` on. */
  function SlotsOf(bytes: seq<bv8>, n: nat, size: nat): (slots: seq<Element>)
    requires |bytes| == n * size
  {
    seq(n, i requires 0 <= i < n => SlotOf(bytes, n, size, i))
  }

  lemma SlotsUpdate(bytes: seq<bv8>, bytes': seq<bv8>, n: nat, size: nat, slot: nat, e: Element)
    requires |bytes| == |bytes'| == n * size && slot < n && |e| == size
    requires slot * size + size <= n * size && bytes'[slot * size..slot * size + size] == e
    requires forall b :: 0 <= b < |bytes| && !(slot * size <= b < slot * size + size) ==> bytes'[b] == bytes[b]
    ensures SlotsOf(bytes', n, size) == SlotsOf(bytes, n, size)[slot := e]
  {
    forall i | 0 <= i < n && i != slot ensures SlotOf(bytes', n, size, i) == SlotOf(bytes, n, size, i) {
      OffsetFits(i, n, size);
      OffsetsApart(i, slot, size);
    }
  }

  class SvmQueue {
    const maxsize: nat
    const elsize: nat
    const data: array<bv8>
    var head: nat
    var tail: nat
    var cursize: nat

    ghost predicate Shaped()
      reads this, data
    {
      0 < maxsize < WORD && 0 < elsize && data.Length == maxsize * elsize
    }

    /** The slot view of the flat buffer. */
    ghost function View(): (r: Ring)
      requires Shaped()
      reads this, data
    {
      Ring(head, tail, cursize, maxsize, elsize, SlotsOf(data[..], maxsize, elsize))
    }

    ghost predicate Valid()
      reads this, data
    {
      Shaped() && Bounded(View())
    }

    constructor (nels: nat, elementSize: nat)
      requires 0 < nels < WORD && 0 < elementSize
      ensures Valid() && fresh(data)
      ensures maxsize == nels && elsize == elementSize && head == 0 && tail == 0 && cursize == 0
    {
      maxsize, elsize := nels, elementSize;
      head, tail, cursize := 0, 0, 0;
      data := new bv8[nels * elementSize];
    }

    /** `copy_nonoverlapping` into slot `slot`. */
    method StoreSlot(slot: nat, element: Element)
      requires Shaped() && slot < maxsize && |element| == elsize
      modifies data
      ensures SlotsOf(data[..], maxsize, elsize) == old(SlotsOf(data[..], maxsize, elsize))[slot := element]
    {
      OffsetFits(slot, maxsize, elsize);
      var start := slot * elsize;
      ghost var before := data[..];
      for k := 0 to elsize
        invariant data[start..start + k] == element[..k]
        invariant forall b :: 0 <= b < data.Length && !(start <= b < start + elsize) ==> data[b] == before[b]
      {
        data[start + k] := element[k];
      }
      SlotsUpdate(before, data[..], maxsize, elsize, slot, element);
    }

    method WriteOne(element: Element)
      requires Valid() && |element| == elsize && cursize < maxsize
      modifies this, data
      ensures Valid() && View() == Written(old(View()), element)
    {
      var slot := tail;
      StoreSlot(slot, element);
      var next := slot + 1;
      tail := if next == maxsize then 0 else next;
      cursize := cursize + 1;
    }

    method WritePair(first: Element, second: Element)
      requires Valid() && |first| == elsize == |second| && cursize + 2 <= maxsize
      modifies this, data
      ensures Valid() && View() == Written(Written(old(View()), first), second)
    {
      WriteOne(first);
      WriteOne(second);
    }

    method SubNolock(notice: Notice) returns (outcome: Outcome)
      requires Valid()
      modifies this
      ensures Valid()
      ensures old(cursize) == 0 ==> outcome == Empty && View() == old(View())
      ensures 0 < old(cursize) ==>
                && View() == Popped(old(View()))
                && outcome == Noticed(notice, old(cursize) == maxsize, SubKind, Taken(old(View()).slots[old(head)]))
    {
      if cursize == 0 {
        return Empty;
      }
      OffsetFits(head, maxsize, elsize);
      var element := data[head * elsize..head * elsize + elsize];
      assert element == SlotOf(data[..], maxsize, elsize, head);
      var wasFull := cursize == maxsize;
      var next := head + 1;
      head := if next == maxsize then 0 else next;
      cursize := cursize - 1;
      outcome := Noticed(notice, wasFull, SubKind, Taken(element));
    }

    /** Between giving the lock up and getting it back, other threads may have done anything. */
    method Resume(ring: Ring)
      requires Shaped() && Bounded(ring) && ring.maxsize == maxsize && ring.elsize == elsize
      modifies this, data
      ensures Valid() && View() == ring
    {
      head, tail, cursize := ring.head, ring.tail, ring.cursize;
      for i := 0 to maxsize
        invariant Shaped() && head == ring.head && tail == ring.tail && cursize == ring.cursize
        invariant forall j :: 0 <= j < i ==> SlotsOf(data[..], maxsize, elsize)[j] == ring.slots[j]
      {
        StoreSlot(i, ring.slots[i]);
      }
      assert SlotsOf(data[..], maxsize, elsize) == ring.slots;
    }

    /** The queue a call acted on: the one it found, or the one its last wait left it with. */
    ghost predicate From(base: Ring, found: Ring, script: seq<Wakeup>) {
      base == found || exists i :: 0 <= i < |script| && base == script[i].ring
    }

    /**
      The wait loop of `add_nolock` and `add2_nolock`, with the waits and what they lead to as a
      script: it ends with `room` free slots, or fails and changes nothing.
     */
    method AwaitRoom(room: nat, mode: Mode, script: seq<Wakeup>) returns (failure: Failure, ghost base: Ring)
      requires Valid() && room <= maxsize
      requires forall i :: 0 <= i < |script| ==> WakeupOk(script[i], maxsize, elsize)
      modifies this, data
      ensures Valid() && View() == base && From(base, old(View()), script)
      ensures failure.None? ==> base.cursize + room <= maxsize
      ensures failure.Some? ==> Untouched(failure.outcome) && maxsize < old(cursize) + room
      ensures old(cursize) + room <= maxsize ==> failure.None? && base == old(View())
      ensures mode.Nowait? && maxsize < old(cursize) + room ==> failure == Some(QueueFull) && base == old(View())
      ensures failure == Some(QueueFull) ==> mode.Nowait?
    {
      base := View();
      var waits := 0;
      while maxsize - cursize < room
        invariant waits <= |script| && Valid() && View() == base && From(base, old(View()), script)
        invariant base == old(View()) || (maxsize < old(cursize) + room && !mode.Nowait?)
        decreases |script| - waits
      {
        if mode.Nowait? {
          return Some(QueueFull), base;
        }
        if waits == |script| {
          return Some(WaitFailed), base;
        }
        var wakeup := script[waits];
        Resume(wakeup.ring);
        base := wakeup.ring;
        waits := waits + 1;
        if wakeup.Broken? {
          return Some(wakeup.outcome), base;
        }
        if wakeup.Late? {
          return Some(Timeout), base;
        }
      }
      failure := None;
    }

    /**
      `add_nolock`: it commits exactly once on success or an after-commit error, to the queue found by
      the last wait, and otherwise leaves that queue untouched.
     */
    method AddNolock(element: Element, mode: Mode, script: seq<Wakeup>, notice: Notice)
      returns (outcome: Outcome, ghost base: Ring)
      requires Valid()
      requires forall i :: 0 <= i < |script| ==> WakeupOk(script[i], maxsize, elsize)
      modifies this, data
      ensures Valid() && From(base, old(View()), script)
      ensures if outcome.Added? || Committed(outcome, AddKind)
              then |element| == elsize && base.cursize < maxsize && View() == Written(base, element)
                && outcome == Noticed(notice, base.cursize == 0, AddKind, Added)
              else View() == base && Untouched(outcome)
      ensures |element| != elsize ==> outcome == LengthMismatch
      ensures outcome.QueueFull? ==> old(cursize) == maxsize && mode.Nowait?
      ensures |element| == elsize && old(cursize) < maxsize ==> base == old(View()) && !Untouched(outcome)
    {
      base := View();
      if |element| != elsize {
        return LengthMismatch, base;
      }
      var failure;
      failure, base := AwaitRoom(1, mode, script);
      if failure.Some? {
        return failure.outcome, base;
      }
      var wasEmpty := cursize == 0;
      WriteOne(element);
      outcome := Noticed(notice, wasEmpty, AddKind, Added);
    }

    /** `add2_nolock`: both elements or neither, the first before the second, under one notification. */
    method Add2Nolock(first: Element, second: Element, mode: Mode, script: seq<Wakeup>, notice: Notice)
      returns (outcome: Outcome, ghost base: Ring)
      requires Valid()
      requires forall i :: 0 <= i < |script| ==> WakeupOk(script[i], maxsize, elsize)
      modifies this, data
      ensures Valid() && From(base, old(View()), script)
      ensures if outcome.Added? || Committed(outcome, AddPairKind)
              then |first| == elsize == |second| && base.cursize + 2 <= maxsize
                && View() == Written(Written(base, first), second)
                && outcome == Noticed(notice, base.cursize == 0, AddPairKind, Added)
              else View() == base && Untouched(outcome)
      ensures |first| != elsize || |second| != elsize ==> outcome == LengthMismatch
      ensures |first| == elsize == |second| && maxsize < 2 ==> outcome == QueueFull
      ensures |first| == elsize == |second| && old(cursize) + 2 <= maxsize ==> base == old(View()) && !Untouched(outcome)
    {
      base := View();
      if |first| != elsize || |second| != elsize {
        return LengthMismatch, base;
      }
      if maxsize < 2 {
        return QueueFull, base;
      }
      var failure;
      failure, base := AwaitRoom(2, mode, script);
      if failure.Some? {
        return failure.outcome, base;
      }
      var wasEmpty := cursize == 0;
      WritePair(first, second);
      outcome := Noticed(notice, wasEmpty, AddPairKind, Added);
    }

    /** `sub_into`, once the lock is held: the head element of the queue the last wait left, or nothing. */
    method SubInto(room: nat, mode: Mode, script: seq<Wakeup>, notice: Notice) returns (outcome: Outcome, ghost base: Ring)
      requires Valid()
      requires forall i :: 0 <= i < |script| ==> WakeupOk(script[i], maxsize, elsize)
      modifies this, data
      ensures Valid() && From(base, old(View()), script)
      ensures if outcome.Taken? || Committed(outcome, SubKind)
              then room == elsize && 0 < base.cursize && View() == Popped(base)
                && outcome == Noticed(notice, base.cursize == maxsize, SubKind, Taken(base.slots[base.head]))
              else View() == base && Untouched(outcome)
      ensures room != elsize ==> outcome == LengthMismatch
      ensures outcome.Empty? ==> old(cursize) == 0 && mode.Nowait?
      ensures room == elsize && 0 < old(cursize) ==> base == old(View()) && !Untouched(outcome)
    {
      base := View();
      if room != elsize {
        return LengthMismatch, base;
      }
      var waits := 0;
      while cursize == 0
        invariant waits <= |script| && Valid() && View() == base && From(base, old(View()), script)
        invariant base == old(View()) || (old(cursize) == 0 && !mode.Nowait?)
        decreases |script| - waits
      {
        if mode.Nowait? {
          return Empty, base;
        }
        if waits == |script| {
          return WaitFailed, base;
        }
        var wakeup := script[waits];
        Resume(wakeup.ring);
        base := wakeup.ring;
        waits := waits + 1;
        if wakeup.Broken? {
          return wakeup.outcome, base;
        }
        if wakeup.Late? {
          return Timeout, base;
        }
      }
      outcome := SubNolock(notice);
    }
  }

  datatype Created = Created(queue: SvmQueue) | Refused(why: QueueLayout.Sizing)

  /** `init`: a 32-bit geometry is refused exactly when a dimension is zero; otherwise the queue starts empty. */
  method Init(nels: nat, elsize: nat) returns (r: Created)
    requires nels < QueueLayout.U32_LIMIT && elsize < QueueLayout.U32_LIMIT
    ensures r.Created? <==> nels != 0 && elsize != 0
    ensures nels == 0 ==> r == Refused(QueueLayout.ZeroCapacity)
    ensures nels != 0 && elsize == 0 ==> r == Refused(QueueLayout.ZeroElementSize)
    ensures r.Created? ==>
      && fresh(r.queue) && r.queue.Valid() && r.queue.maxsize == nels && r.queue.elsize == elsize
      && r.queue.head == 0 && r.queue.tail == 0 && r.queue.cursize == 0
  {
    QueueLayout.NeverOverflows(nels, elsize);
    var size := QueueLayout.SizeToAlloc(nels, elsize);
    if !size.Sized? {
      return Refused(size);
    }
    var queue := new SvmQueue(nels, elsize);
    r := Created(queue);
  }
}
