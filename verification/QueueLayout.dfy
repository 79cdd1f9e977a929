/** How many bytes a queue needs, and which geometries are refused. */
module QueueLayout {

  /** The queue object in front of its elements. */
  const QUEUE_BYTES: nat := 120
  const U32_LIMIT: nat := 0x1_0000_0000
  const USIZE_LIMIT: nat := 0x1_0000_0000_0000_0000

  datatype Sizing = Sized(bytes: nat) | ZeroCapacity | ZeroElementSize | LayoutOverflow

  /** `size_to_alloc`, with `validate_config` and both checked operations. */
  function SizeToAlloc(nels: nat, elsize: nat): (r: Sizing) {
    if nels == 0 then ZeroCapacity
    else if elsize == 0 then ZeroElementSize
    else if USIZE_LIMIT <= nels * elsize then LayoutOverflow
    else if USIZE_LIMIT <= QUEUE_BYTES + nels * elsize then LayoutOverflow
    else Sized(QUEUE_BYTES + nels * elsize)
  }

  lemma Grows(a: nat, b: nat, c: nat)
    requires a <= b
    ensures a * c <= b * c && c * a <= c * b
  {
    assert (b - a) * c == b * c - a * c;
  }

  /** The checked operations never fail: two 32-bit factors and the queue object fit a machine word. */
  lemma NeverOverflows(nels: nat, elsize: nat)
    requires nels < U32_LIMIT && elsize < U32_LIMIT
    ensures SizeToAlloc(nels, elsize).Sized? <==> nels != 0 && elsize != 0
    ensures nels != 0 && elsize != 0 ==> SizeToAlloc(nels, elsize) == Sized(120 + nels * elsize)
  {
    var most: nat := U32_LIMIT - 1;
    Grows(nels, most, elsize);
    Grows(elsize, most, most);
    if nels != 0 && elsize != 0 { assert QUEUE_BYTES + most * most < USIZE_LIMIT; }
  }

  /** `attach`: what it checks of an allocation that is said to hold a queue. */
  predicate AttachAccepts(allocation: nat, head: nat, tail: nat, cursize: nat, maxsize: nat, elsize: nat) {
    && QUEUE_BYTES <= allocation
    && !(maxsize == 0 || elsize == 0 || head >= maxsize || tail >= maxsize || cursize > maxsize)
    && maxsize * elsize < USIZE_LIMIT && QUEUE_BYTES + maxsize * elsize < USIZE_LIMIT
    && QUEUE_BYTES + maxsize * elsize <= allocation
  }
}
