/**
  Reads are not indivisible: the bytes of one read may be found in different memories. If those memories
  all have one structure, the bytes put together have it too, because a structure fixes every byte that
  a structural read looks at.
 */
module StatsBytes {
  import opened Bytes
  import opened StatsSegment
  import opened StatsStructure

  /** The memory in which each byte was found. */
  type Sources = nat -> Mem

  function Compose(src: Sources, size: nat): (m: Mem)
    ensures |m| == size
  {
    seq(size, a requires 0 <= a < size => if a < |src(a)| then src(a)[a] else 0)
  }

  ghost predicate Sized(src: Sources, size: nat) { forall a: nat :: |src(a)| == size }

  predicate SameBytes(m: Mem, k: Mem, x: nat, n: nat) {
    x + n <= |m| && x + n <= |k| && m[x..x + n] == k[x..x + n]
  }

  /** Bytes that all the memories share come out of the composition unchanged. */
  lemma Composes(src: Sources, size: nat, x: nat, n: nat)
    requires Sized(src, size) && forall a: nat :: SameBytes(src(a), src(0), x, n)
    ensures SameBytes(Compose(src, size), src(0), x, n)
  {
    var c := Compose(src, size);
    assert SameBytes(src(0), src(0), x, n);
    forall a | x <= a < x + n ensures c[a] == src(0)[a] {
      assert SameBytes(src(a), src(0), x, n);
      assert src(a)[x..x + n][a - x] == src(0)[x..x + n][a - x];
    }
  }

  /** Bytes all found in one memory make up that memory. */
  lemma ComposesOne(src: Sources, m: Mem)
    requires forall a: nat :: src(a) == m
    ensures Compose(src, |m|) == m
  {
  }

  lemma NumberFixesBytes(a: seq<Byte>, b: seq<Byte>)
    requires |a| == |b| && FromLittleEndian(a) == FromLittleEndian(b)
    ensures a == b
  {
    LittleEndianUnique(a);
    LittleEndianUnique(b);
  }

  // ----- one kind of read at a time

  lemma WordAtComposes(src: Sources, size: nat, x: nat)
    requires Sized(src, size) && x + 8 <= size && forall a: nat :: U64At(src(a), x) == U64At(src(0), x)
    ensures U64At(Compose(src, size), x) == U64At(src(0), x)
  {
    forall a: nat ensures SameBytes(src(a), src(0), x, 8) {
      assert U64At(src(a), x) == U64At(src(0), x);
      NumberFixesBytes(src(a)[x..x + 8], src(0)[x..x + 8]);
    }
    Composes(src, size, x, 8);
  }

  lemma ResolveComposes(src: Sources, size: nat, base: nat, p: nat)
    requires Sized(src, size) && forall a: nat :: Resolve(src(a), base, p) == Resolve(src(0), base, p)
    ensures Resolve(Compose(src, size), base, p) == Resolve(src(0), base, p)
  {
    if Resolve(src(0), base, p).Ok? {
      var x := p - base - VECTOR_HEADER_BYTES;
      forall a: nat ensures SameBytes(src(a), src(0), x, 4) {
        assert Resolve(src(a), base, p) == Resolve(src(0), base, p);
        NumberFixesBytes(src(a)[x..x + 4], src(0)[x..x + 4]);
      }
      Composes(src, size, x, 4);
    }
  }

  lemma WordComposes(src: Sources, size: nat, v: Vec, i: nat)
    requires Sized(src, size) && forall a: nat :: ReadWord(v, src(a), i) == ReadWord(v, src(0), i)
    ensures ReadWord(v, Compose(src, size), i) == ReadWord(v, src(0), i)
  {
    if ReadWord(v, src(0), i).Ok? {
      var x := v.data + i * 8;
      forall a: nat ensures SameBytes(src(a), src(0), x, 8) {
        assert ReadWord(v, src(a), i) == ReadWord(v, src(0), i);
        NumberFixesBytes(src(a)[x..x + 8], src(0)[x..x + 8]);
      }
      Composes(src, size, x, 8);
    }
  }

  predicate NoZeros(bytes: seq<Byte>) { forall i :: 0 <= i < |bytes| ==> bytes[i] != 0 }

  /** A text of `n` bytes stands at `x`, ended by a zero or by the end of the memory. */
  predicate TextEnds(m: Mem, x: nat, n: nat) {
    x + n <= |m| && NoZeros(m[x..x + n]) && (x + n < |m| ==> m[x + n] == 0)
  }

  lemma TextEndsThere(m: Mem, x: nat, n: nat)
    requires TextEnds(m, x, n)
    ensures Nul(m[x..]) == n
  {
    var text := m[x..];
    assert forall i :: 0 <= i < n ==> text[i] == m[x..x + n][i];
  }

  lemma RawTextEnds(m: Mem, base: nat, p: nat)
    requires RawText(m, base, p).Ok?
    ensures TextEnds(m, p - base, |RawText(m, base, p).value|)
  {
    var text, raw := m[p - base..], RawText(m, base, p).value;
    assert forall i :: 0 <= i < |raw| ==> raw[i] == text[i];
  }

  lemma TextComposes(src: Sources, size: nat, x: nat, n: nat)
    requires Sized(src, size) && forall a: nat :: SameBytes(src(a), src(0), x, n) && TextEnds(src(a), x, n)
    ensures SameBytes(Compose(src, size), src(0), x, n) && TextEnds(Compose(src, size), x, n)
  {
    Composes(src, size, x, n);
    assert TextEnds(src(0), x, n) && TextEnds(src(x + n), x, n);
  }

  lemma RawTextComposes(src: Sources, size: nat, base: nat, p: nat)
    requires Sized(src, size) && forall a: nat :: RawText(src(a), base, p) == RawText(src(0), base, p)
    ensures RawText(Compose(src, size), base, p) == RawText(src(0), base, p)
  {
    var raw := RawText(src(0), base, p);
    if raw.Ok? {
      var x, n := p - base, |raw.value|;
      forall a: nat ensures SameBytes(src(a), src(0), x, n) && TextEnds(src(a), x, n) {
        assert RawText(src(a), base, p) == raw;
        RawTextEnds(src(a), base, p);
        RawTextBytes(src(a), src(0), base, p);
      }
      TextComposes(src, size, x, n);
      RawTextFromBytes(Compose(src, size), src(0), base, p);
    }
  }

  lemma RawTextBytes(m: Mem, k: Mem, base: nat, p: nat)
    requires RawText(m, base, p).Ok? && RawText(m, base, p) == RawText(k, base, p)
    ensures SameBytes(m, k, p - base, |RawText(k, base, p).value|)
  {
  }

  lemma RawTextFromBytes(c: Mem, m: Mem, base: nat, p: nat)
    requires |c| == |m| && RawText(m, base, p).Ok?
    requires var n := |RawText(m, base, p).value|; SameBytes(c, m, p - base, n) && TextEnds(c, p - base, n)
    ensures RawText(c, base, p) == RawText(m, base, p)
  {
    TextEndsThere(c, p - base, |RawText(m, base, p).value|);
  }

  // ----- entries

  ghost predicate EntriesLike(a: Result<Entry>, b: Result<Entry>) {
    (b.Err? ==> a == b) && (b.Ok? ==> a.Ok? && SameEntry(a.value, b.value))
  }

  /** The fields of an entry, each where it stands. */
  lemma EntryFields(m: Mem, dir: Vec, i: nat)
    requires ReadEntry(dir, m, i).Ok?
    ensures var x, e := dir.data + i * ENTRY_BYTES, ReadEntry(dir, m, i).value;
            && x + ENTRY_BYTES <= |m| && e.kind == FromLittleEndian(m[x..x + 4])
            && e.data == FromLittleEndian(m[x + 8..x + 16]) && e.name == m[x + 16..x + ENTRY_BYTES]
  {
    var x := dir.data + i * ENTRY_BYTES;
    SubSlice(m, x, ENTRY_BYTES, 0, 4);
    SubSlice(m, x, ENTRY_BYTES, 8, 16);
    SubSlice(m, x, ENTRY_BYTES, 16, ENTRY_BYTES);
  }

  lemma ReadableAlike(m: Mem, k: Mem, dir: Vec, i: nat)
    requires |m| == |k|
    ensures ReadEntry(dir, m, i).Err? ==> ReadEntry(dir, k, i) == ReadEntry(dir, m, i)
  {
  }

  /** The bytes of an entry that its reading fixes. */
  lemma EntryBytes(m: Mem, k: Mem, dir: Vec, i: nat)
    requires |m| == |k| && ReadEntry(dir, k, i).Ok? && EntriesLike(ReadEntry(dir, m, i), ReadEntry(dir, k, i))
    ensures var x := dir.data + i * ENTRY_BYTES;
            && SameBytes(m, k, x, 4) && SameBytes(m, k, x + 16, NAME_BYTES)
            && (!IsCell(ReadEntry(dir, k, i).value.kind) ==> SameBytes(m, k, x + 8, 8))
  {
    var x := dir.data + i * ENTRY_BYTES;
    EntryFields(m, dir, i);
    EntryFields(k, dir, i);
    NumberFixesBytes(m[x..x + 4], k[x..x + 4]);
    if !IsCell(ReadEntry(dir, k, i).value.kind) { NumberFixesBytes(m[x + 8..x + 16], k[x + 8..x + 16]); }
  }

  /** And the other way: those bytes fix the reading. */
  lemma EntryFromBytes(c: Mem, m: Mem, dir: Vec, i: nat)
    requires |c| == |m| && ReadEntry(dir, m, i).Ok?
    requires var x := dir.data + i * ENTRY_BYTES;
             && SameBytes(c, m, x, 4) && SameBytes(c, m, x + 16, NAME_BYTES)
             && (!IsCell(ReadEntry(dir, m, i).value.kind) ==> SameBytes(c, m, x + 8, 8))
    ensures EntriesLike(ReadEntry(dir, c, i), ReadEntry(dir, m, i))
  {
    ReadableAlike(c, m, dir, i);
    EntryFields(m, dir, i);
    EntryFields(c, dir, i);
  }

  lemma EntryComposes(src: Sources, size: nat, dir: Vec, i: nat)
    requires Sized(src, size) && forall a: nat :: EntriesLike(ReadEntry(dir, src(a), i), ReadEntry(dir, src(0), i))
    ensures EntriesLike(ReadEntry(dir, Compose(src, size), i), ReadEntry(dir, src(0), i))
  {
    if ReadEntry(dir, src(0), i).Ok? {
      var x := dir.data + i * ENTRY_BYTES;
      var cell := IsCell(ReadEntry(dir, src(0), i).value.kind);
      forall a: nat
        ensures SameBytes(src(a), src(0), x, 4) && SameBytes(src(a), src(0), x + 16, NAME_BYTES)
        ensures !cell ==> SameBytes(src(a), src(0), x + 8, 8)
      {
        assert EntriesLike(ReadEntry(dir, src(a), i), ReadEntry(dir, src(0), i));
        EntryBytes(src(a), src(0), dir, i);
      }
      Composes(src, size, x, 4);
      Composes(src, size, x + 16, NAME_BYTES);
      if !cell { Composes(src, size, x + 8, 8); }
      EntryFromBytes(Compose(src, size), src(0), dir, i);
    }
  }

  // ----- rows, slots and the whole structure

  lemma RowComposes(src: Sources, size: nat, base: nat, kind: nat, outer: Vec, row: nat)
    requires Sized(src, size)
    requires forall a: nat :: RowOf(src(a), base, kind, outer, row) == RowOf(src(0), base, kind, outer, row)
    ensures RowOf(Compose(src, size), base, kind, outer, row) == RowOf(src(0), base, kind, outer, row)
  {
    forall a: nat ensures ReadWord(outer, src(a), row) == ReadWord(outer, src(0), row) {
      assert RowOf(src(a), base, kind, outer, row) == RowOf(src(0), base, kind, outer, row);
    }
    WordComposes(src, size, outer, row);
    var p := ReadWord(outer, src(0), row);
    if p.Ok? && IsCounters(kind) {
      forall a: nat ensures Resolve(src(a), base, p.value) == Resolve(src(0), base, p.value) {
        assert RowOf(src(a), base, kind, outer, row) == RowOf(src(0), base, kind, outer, row);
      }
      ResolveComposes(src, size, base, p.value);
    }
    if p.Ok? && kind == NAME_VECTOR {
      forall a: nat ensures RawText(src(a), base, p.value) == RawText(src(0), base, p.value) {
        assert RowOf(src(a), base, kind, outer, row) == RowOf(src(0), base, kind, outer, row);
      }
      RawTextComposes(src, size, base, p.value);
    }
  }

  /** What the slot of an entry says of the vector behind it. */
  lemma VectorComposes(src: Sources, size: nat, base: nat, kind: nat, data: nat)
    requires Sized(src, size) && IsVector(kind)
    requires forall a: nat :: Resolve(src(a), base, data) == Resolve(src(0), base, data)
    requires forall a: nat ::
      RowsOf(src(a), base, kind, Resolve(src(0), base, data)) == RowsOf(src(0), base, kind, Resolve(src(0), base, data))
    ensures Resolve(Compose(src, size), base, data) == Resolve(src(0), base, data)
    ensures RowsOf(Compose(src, size), base, kind, Resolve(src(0), base, data))
         == RowsOf(src(0), base, kind, Resolve(src(0), base, data))
  {
    ResolveComposes(src, size, base, data);
    var outer := Resolve(src(0), base, data);
    if outer.Ok? {
      forall row | 0 <= row < outer.value.length
        ensures RowOf(Compose(src, size), base, kind, outer.value, row) == RowOf(src(0), base, kind, outer.value, row)
      {
        forall a: nat ensures RowOf(src(a), base, kind, outer.value, row) == RowOf(src(0), base, kind, outer.value, row) {
          assert RowsOf(src(a), base, kind, outer)[row] == RowsOf(src(0), base, kind, outer)[row];
        }
        RowComposes(src, size, base, kind, outer.value, row);
      }
    }
  }

  /** Equal slots come from entries alike, and lead to equal vectors. */
  lemma SlotShows(m: Mem, k: Mem, base: nat, dir: Vec, i: nat)
    requires SlotAt(m, base, dir, i) == SlotAt(k, base, dir, i)
    ensures EntriesLike(ReadEntry(dir, m, i), ReadEntry(dir, k, i))
    ensures ReadEntry(dir, k, i).Ok? && IsVector(ReadEntry(dir, k, i).value.kind) ==>
      var e := ReadEntry(dir, k, i).value;
      var outer := Resolve(k, base, e.data);
      Resolve(m, base, e.data) == outer && RowsOf(m, base, e.kind, outer) == RowsOf(k, base, e.kind, outer)
  {
  }

  lemma SlotFrom(c: Mem, m: Mem, base: nat, dir: Vec, i: nat)
    requires EntriesLike(ReadEntry(dir, c, i), ReadEntry(dir, m, i))
    requires ReadEntry(dir, m, i).Ok? && IsVector(ReadEntry(dir, m, i).value.kind) ==>
      var e := ReadEntry(dir, m, i).value;
      var outer := Resolve(m, base, e.data);
      Resolve(c, base, e.data) == outer && RowsOf(c, base, e.kind, outer) == RowsOf(m, base, e.kind, outer)
    ensures SlotAt(c, base, dir, i) == SlotAt(m, base, dir, i)
  {
  }

  lemma SlotComposes(src: Sources, size: nat, base: nat, dir: Vec, i: nat)
    requires Sized(src, size) && forall a: nat :: SlotAt(src(a), base, dir, i) == SlotAt(src(0), base, dir, i)
    ensures SlotAt(Compose(src, size), base, dir, i) == SlotAt(src(0), base, dir, i)
  {
    var r := ReadEntry(dir, src(0), i);
    forall a: nat ensures EntriesLike(ReadEntry(dir, src(a), i), r) {
      assert SlotAt(src(a), base, dir, i) == SlotAt(src(0), base, dir, i);
      SlotShows(src(a), src(0), base, dir, i);
    }
    EntryComposes(src, size, dir, i);
    if r.Ok? && IsVector(r.value.kind) {
      var outer := Resolve(src(0), base, r.value.data);
      forall a: nat
        ensures Resolve(src(a), base, r.value.data) == outer
        ensures RowsOf(src(a), base, r.value.kind, outer) == RowsOf(src(0), base, r.value.kind, outer)
      {
        assert SlotAt(src(a), base, dir, i) == SlotAt(src(0), base, dir, i);
        SlotShows(src(a), src(0), base, dir, i);
      }
      VectorComposes(src, size, base, r.value.kind, r.value.data);
    }
    SlotFrom(Compose(src, size), src(0), base, dir, i);
  }

  ghost predicate LaidOut(m: Mem, l: Layout) { HEADER_BYTES <= |m| && LayoutOf(m) == l }

  lemma LaidOutShows(m: Mem, l: Layout)
    requires LaidOut(m, l)
    ensures HEADER_BYTES <= |m| == l.size && U64At(m, 0) == l.version && U64At(m, 8) == l.base && U64At(m, 32) == l.pointer
    ensures Resolve(m, l.base, l.pointer) == l.directory
    ensures l.directory.Ok? ==>
      |l.slots| == l.directory.value.length
      && forall i :: 0 <= i < |l.slots| ==> SlotAt(m, l.base, l.directory.value, i) == l.slots[i]
    ensures l.directory.Err? ==> l.slots == []
  {
  }

  lemma LaidOutFrom(c: Mem, l: Layout)
    requires HEADER_BYTES <= |c| == l.size && U64At(c, 0) == l.version && U64At(c, 8) == l.base && U64At(c, 32) == l.pointer
    requires Resolve(c, l.base, l.pointer) == l.directory
    requires l.directory.Ok? ==>
      |l.slots| == l.directory.value.length
      && forall i :: 0 <= i < |l.slots| ==> SlotAt(c, l.base, l.directory.value, i) == l.slots[i]
    requires l.directory.Err? ==> l.slots == []
    ensures LaidOut(c, l)
  {
    assert SlotsOf(c, l.base, l.directory) == l.slots;
  }

  /** Bytes found in memories of one structure make up a memory of that structure. */
  lemma LayoutComposes(src: Sources, l: Layout)
    requires forall a: nat :: LaidOut(src(a), l)
    ensures LaidOut(Compose(src, l.size), l)
  {
    var c := Compose(src, l.size);
    forall a: nat
      ensures HEADER_BYTES <= |src(a)| == l.size && U64At(src(a), 0) == l.version
      ensures U64At(src(a), 8) == l.base && U64At(src(a), 32) == l.pointer
      ensures Resolve(src(a), l.base, l.pointer) == l.directory
    {
      assert LaidOut(src(a), l);
      LaidOutShows(src(a), l);
    }
    LaidOutShows(src(0), l);
    WordAtComposes(src, l.size, 0);
    WordAtComposes(src, l.size, 8);
    WordAtComposes(src, l.size, 32);
    ResolveComposes(src, l.size, l.base, l.pointer);
    if l.directory.Ok? {
      forall i | 0 <= i < |l.slots| ensures SlotAt(c, l.base, l.directory.value, i) == l.slots[i] {
        SlotsAgree(src, l, i);
        SlotComposes(src, l.size, l.base, l.directory.value, i);
      }
    }
    LaidOutFrom(c, l);
  }

  lemma SlotsAgree(src: Sources, l: Layout, i: nat)
    requires (forall a: nat :: LaidOut(src(a), l)) && l.directory.Ok? && i < |l.slots|
    ensures forall a: nat :: SlotAt(src(a), l.base, l.directory.value, i) == l.slots[i]
  {
    forall a: nat ensures SlotAt(src(a), l.base, l.directory.value, i) == l.slots[i] {
      assert LaidOut(src(a), l);
      LaidOutShows(src(a), l);
    }
  }
}
