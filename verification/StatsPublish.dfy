/**
  What a published segment looks like in memory, said without the reader: where the bytes of a
  directory, of each kind of metric and of a link stand. The reader gets back exactly what stands there.
 */
module StatsPublish {
  import opened Bytes
  import opened StatsSegment

  const U32_LIMIT: nat := 0x1_0000_0000
  const U64_LIMIT: nat := 0x1_0000_0000_0000_0000

  predicate Stands(m: Mem, at: nat, bytes: seq<Byte>) {
    at + |bytes| <= |m| && m[at..at + |bytes|] == bytes
  }

  predicate WordStands(m: Mem, at: nat, n: nat) { n < U64_LIMIT && Stands(m, at, LittleEndian(n, 8)) }

  /** A vector's length, in front of its first element. */
  predicate VectorStands(m: Mem, base: nat, p: nat, count: nat) {
    base + 8 <= p && p - base <= |m| && count < U32_LIMIT
    && Stands(m, p - base - 8, LittleEndian(count, 4))
  }

  predicate WordsStand(m: Mem, at: nat, ws: seq<nat>) {
    forall i :: 0 <= i < |ws| ==> WordStands(m, at + i * 8, ws[i])
  }

  predicate CountersStand(m: Mem, at: nat, cs: seq<Counter>) {
    forall i :: 0 <= i < |cs| ==>
      WordStands(m, at + i * 16, cs[i].packets) && WordStands(m, at + i * 16 + 8, cs[i].bytes)
  }

  /** A null pointer publishes an empty row. */
  predicate SimpleRowStands(m: Mem, base: nat, p: nat, row: seq<nat>) {
    if p == 0 then row == [] else VectorStands(m, base, p, |row|) && WordsStand(m, p - base, row)
  }

  predicate CombinedRowStands(m: Mem, base: nat, p: nat, row: seq<Counter>) {
    if p == 0 then row == [] else VectorStands(m, base, p, |row|) && CountersStand(m, p - base, row)
  }

  predicate IsText(text: seq<Byte>) { ValidUtf8(text) && forall i :: 0 <= i < |text| ==> text[i] != 0 }

  predicate NameStands(m: Mem, base: nat, p: nat, name: seq<Byte>) {
    base <= p && IsText(name) && Stands(m, p - base, name + [0])
  }

  /** An outer vector and the pointers in it. */
  predicate OuterStands(m: Mem, base: nat, p: nat, pointers: seq<nat>) {
    VectorStands(m, base, p, |pointers|) && WordsStand(m, p - base, pointers)
  }

  /** The kind and data word under which `v` is published; `pointers` are those of its outer vector. */
  predicate MetricStands(m: Mem, base: nat, kind: nat, data: nat, pointers: seq<nat>, v: Metric) {
    match v
    case Scalar(n) => kind == 1 && data == n
    case Gauge(n) => kind == 9 && data == n
    case Simple(rows) =>
      && kind == 2 && OuterStands(m, base, data, pointers) && |rows| == |pointers|
      && forall i :: 0 <= i < |rows| ==> SimpleRowStands(m, base, pointers[i], rows[i])
    case Combined(rows) =>
      && kind == 3 && OuterStands(m, base, data, pointers) && |rows| == |pointers|
      && forall i :: 0 <= i < |rows| ==> CombinedRowStands(m, base, pointers[i], rows[i])
    case Names(names) =>
      && kind == 4 && OuterStands(m, base, data, pointers) && |names| == |pointers|
      && forall i :: 0 <= i < |names| ==> NameStands(m, base, pointers[i], names[i])
  }

  datatype Slot = Slot(kind: nat, data: nat, name: seq<Byte>)

  function Zeros(n: nat): (z: seq<Byte>) { seq(n, _ => 0) }

  predicate SlotStands(m: Mem, at: nat, s: Slot) {
    && s.kind < U32_LIMIT && IsText(s.name) && |s.name| <= 126
    && Stands(m, at, LittleEndian(s.kind, 4))
    && WordStands(m, at + 8, s.data)
    && Stands(m, at + 16, s.name + Zeros(128 - |s.name|))
  }

  predicate DirectoryStands(m: Mem, dir: Vec, slots: seq<Slot>) {
    |slots| == dir.length && forall i :: 0 <= i < |slots| ==> SlotStands(m, dir.data + i * 144, slots[i])
  }

  // ----- words and vectors

  lemma Powers()
    ensures Pow256(4) == U32_LIMIT && Pow256(8) == U64_LIMIT
  {
    assert Pow256(2) == 256 * Pow256(1) && Pow256(3) == 256 * Pow256(2) && Pow256(4) == 256 * Pow256(3);
    assert Pow256(6) == 256 * Pow256(5) && Pow256(7) == 256 * Pow256(6);
  }

  lemma WordReads(v: Vec, m: Mem, index: nat, n: nat)
    requires index < v.length && WordStands(m, v.data + index * 8, n)
    ensures ReadWord(v, m, index) == Ok(n)
  {
    Powers();
    LittleEndianRoundTrip(n, 8);
  }

  lemma VectorResolves(m: Mem, base: nat, p: nat, count: nat)
    requires VectorStands(m, base, p, count)
    ensures Resolve(m, base, p) == Ok(Vec(p - base, count))
  {
    Powers();
    LittleEndianRoundTrip(count, 4);
  }

  /** Reading the values one by one gathers them all. */
  lemma {:induction false} GatherReads<T>(f: nat -> Result<T>, values: seq<T>, from: nat)
    requires from <= |values| && forall i: nat :: i < |values| ==> f(i) == Ok(values[i])
    ensures Gather(f, |values|, from) == Ok(values[from..])
    decreases |values| - from
  {
    if from < |values| {
      GatherReads(f, values, from + 1);
      assert values[from..] == [values[from]] + values[from + 1..];
    }
  }

  lemma CellsRead(m: Mem, row: nat, v: Vec, ws: seq<nat>)
    requires v.length == |ws| && WordsStand(m, v.data, ws)
    ensures Gather(CellsIn(Frozen(m), row, v), |ws|, 0) == Ok(ws)
  {
    var f := CellsIn(Frozen(m), row, v);
    forall i: nat | i < |ws| ensures f(i) == Ok(ws[i]) { WordReads(v, m, i, ws[i]); }
    GatherReads(f, ws, 0);
  }

  lemma CounterReads(v: Vec, m: Mem, index: nat, c: Counter)
    requires index < v.length
    requires WordStands(m, v.data + index * 16, c.packets) && WordStands(m, v.data + index * 16 + 8, c.bytes)
    ensures ReadCounter(v, m, index) == Ok(c)
  {
    Powers();
    LittleEndianRoundTrip(c.packets, 8);
    LittleEndianRoundTrip(c.bytes, 8);
    var at := v.data + index * 16;
    SubSlice(m, at, 16, 0, 8);
    SubSlice(m, at, 16, 8, 16);
  }

  lemma CountersRead(m: Mem, row: nat, v: Vec, cs: seq<Counter>)
    requires v.length == |cs| && CountersStand(m, v.data, cs)
    ensures Gather(CountersIn(Frozen(m), row, v), |cs|, 0) == Ok(cs)
  {
    var f := CountersIn(Frozen(m), row, v);
    forall i: nat | i < |cs| ensures f(i) == Ok(cs[i]) { CounterReads(v, m, i, cs[i]); }
    GatherReads(f, cs, 0);
  }

  // ----- rows

  lemma SimpleRowReads(m: Mem, base: nat, outer: Vec, i: nat, p: nat, row: seq<nat>)
    requires i < outer.length && WordStands(m, outer.data + i * 8, p) && SimpleRowStands(m, base, p, row)
    ensures SimpleRow(Frozen(m), base, outer, i) == Ok(row)
  {
    WordReads(outer, m, i, p);
    if p != 0 {
      VectorResolves(m, base, p, |row|);
      CellsRead(m, i, Vec(p - base, |row|), row);
    }
  }

  lemma CombinedRowReads(m: Mem, base: nat, outer: Vec, i: nat, p: nat, row: seq<Counter>)
    requires i < outer.length && WordStands(m, outer.data + i * 8, p) && CombinedRowStands(m, base, p, row)
    ensures CombinedRow(Frozen(m), base, outer, i) == Ok(row)
  {
    WordReads(outer, m, i, p);
    if p != 0 {
      VectorResolves(m, base, p, |row|);
      CountersRead(m, i, Vec(p - base, |row|), row);
    }
  }

  lemma NulAt(text: seq<Byte>, n: nat)
    requires n < |text| && text[n] == 0 && forall i :: 0 <= i < n ==> text[i] != 0
    ensures Nul(text) == n
  {
    if Nul(text) < n { assert text[Nul(text)] == 0; }
  }

  lemma TextReads(m: Mem, base: nat, p: nat, name: seq<Byte>)
    requires NameStands(m, base, p, name)
    ensures TextAt(m, m, m, base, p) == Ok(name)
  {
    var at := p - base;
    var text, whole := m[at..], m[at..at + |name| + 1];
    assert forall i :: 0 <= i <= |name| ==> text[i] == whole[i] == (name + [0])[i];
    NulAt(text, |name|);
    assert text[..|name|] == name;
  }

  lemma NameReads(m: Mem, base: nat, outer: Vec, i: nat, p: nat, name: seq<Byte>)
    requires i < outer.length && WordStands(m, outer.data + i * 8, p) && NameStands(m, base, p, name)
    ensures NameAt(Frozen(m), base, outer, i) == Ok(name)
  {
    WordReads(outer, m, i, p);
    TextReads(m, base, p, name);
  }

  lemma SimpleRowsRead(m: Mem, base: nat, outer: Vec, pointers: seq<nat>, rows: seq<seq<nat>>)
    requires outer.length == |rows| == |pointers| && WordsStand(m, outer.data, pointers)
    requires forall i :: 0 <= i < |rows| ==> SimpleRowStands(m, base, pointers[i], rows[i])
    ensures Gather(SimpleRowsIn(Frozen(m), base, outer), |rows|, 0) == Ok(rows)
  {
    var f := SimpleRowsIn(Frozen(m), base, outer);
    forall i: nat | i < |rows| ensures f(i) == Ok(rows[i]) { SimpleRowReads(m, base, outer, i, pointers[i], rows[i]); }
    GatherReads(f, rows, 0);
  }

  lemma CombinedRowsRead(m: Mem, base: nat, outer: Vec, pointers: seq<nat>, rows: seq<seq<Counter>>)
    requires outer.length == |rows| == |pointers| && WordsStand(m, outer.data, pointers)
    requires forall i :: 0 <= i < |rows| ==> CombinedRowStands(m, base, pointers[i], rows[i])
    ensures Gather(CombinedRowsIn(Frozen(m), base, outer), |rows|, 0) == Ok(rows)
  {
    var f := CombinedRowsIn(Frozen(m), base, outer);
    forall i: nat | i < |rows| ensures f(i) == Ok(rows[i]) { CombinedRowReads(m, base, outer, i, pointers[i], rows[i]); }
    GatherReads(f, rows, 0);
  }

  lemma TextsRead(m: Mem, base: nat, outer: Vec, pointers: seq<nat>, names: seq<seq<Byte>>)
    requires outer.length == |names| == |pointers| && WordsStand(m, outer.data, pointers)
    requires forall i :: 0 <= i < |names| ==> NameStands(m, base, pointers[i], names[i])
    ensures Gather(TextsIn(Frozen(m), base, outer), |names|, 0) == Ok(names)
  {
    var f := TextsIn(Frozen(m), base, outer);
    forall i: nat | i < |names| ensures f(i) == Ok(names[i]) { NameReads(m, base, outer, i, pointers[i], names[i]); }
    GatherReads(f, names, 0);
  }

  lemma SimpleTerminal(m: Mem, base: nat, e: Entry, outer: Vec, rows: seq<seq<nat>>)
    requires e.kind == 2 && Resolve(m, base, e.data) == Ok(outer)
    requires Gather(SimpleRowsIn(Frozen(m), base, outer), outer.length, 0) == Ok(rows)
    ensures Terminal(Frozen(m), base, e) == Ok(Simple(rows))
  {
  }

  lemma CombinedTerminal(m: Mem, base: nat, e: Entry, outer: Vec, rows: seq<seq<Counter>>)
    requires e.kind == 3 && Resolve(m, base, e.data) == Ok(outer)
    requires Gather(CombinedRowsIn(Frozen(m), base, outer), outer.length, 0) == Ok(rows)
    ensures Terminal(Frozen(m), base, e) == Ok(Combined(rows))
  {
  }

  lemma NamesTerminal(m: Mem, base: nat, e: Entry, outer: Vec, names: seq<seq<Byte>>)
    requires e.kind == 4 && Resolve(m, base, e.data) == Ok(outer)
    requires Gather(TextsIn(Frozen(m), base, outer), outer.length, 0) == Ok(names)
    ensures Terminal(Frozen(m), base, e) == Ok(Names(names))
  {
  }

  lemma OuterReads(m: Mem, base: nat, p: nat, pointers: seq<nat>)
    requires OuterStands(m, base, p, pointers)
    ensures base <= p && Resolve(m, base, p) == Ok(Vec(p - base, |pointers|))
  {
    VectorResolves(m, base, p, |pointers|);
  }

  lemma SimpleReads(m: Mem, base: nat, e: Entry, pointers: seq<nat>, v: Metric)
    requires MetricStands(m, base, e.kind, e.data, pointers, v) && v.Simple?
    ensures Terminal(Frozen(m), base, e) == Ok(v)
  {
    OuterReads(m, base, e.data, pointers);
    var outer := Vec(e.data - base, |pointers|);
    SimpleRowsRead(m, base, outer, pointers, v.rows);
    SimpleTerminal(m, base, e, outer, v.rows);
  }

  lemma CombinedReads(m: Mem, base: nat, e: Entry, pointers: seq<nat>, v: Metric)
    requires MetricStands(m, base, e.kind, e.data, pointers, v) && v.Combined?
    ensures Terminal(Frozen(m), base, e) == Ok(v)
  {
    OuterReads(m, base, e.data, pointers);
    var outer := Vec(e.data - base, |pointers|);
    CombinedRowsRead(m, base, outer, pointers, v.counters);
    CombinedTerminal(m, base, e, outer, v.counters);
  }

  lemma NamesRead(m: Mem, base: nat, e: Entry, pointers: seq<nat>, v: Metric)
    requires MetricStands(m, base, e.kind, e.data, pointers, v) && v.Names?
    ensures Terminal(Frozen(m), base, e) == Ok(v)
  {
    OuterReads(m, base, e.data, pointers);
    var outer := Vec(e.data - base, |pointers|);
    TextsRead(m, base, outer, pointers, v.names);
    NamesTerminal(m, base, e, outer, v.names);
  }

  lemma TerminalReads(m: Mem, base: nat, e: Entry, pointers: seq<nat>, v: Metric)
    requires MetricStands(m, base, e.kind, e.data, pointers, v)
    ensures Terminal(Frozen(m), base, e) == Ok(v)
  {
    if v.Simple? {
      SimpleReads(m, base, e, pointers, v);
    } else if v.Combined? {
      CombinedReads(m, base, e, pointers, v);
    } else if v.Names? {
      NamesRead(m, base, e, pointers, v);
    } else {
      CellTerminal(m, base, e, v);
    }
  }

  lemma CellTerminal(m: Mem, base: nat, e: Entry, v: Metric)
    requires (v.Scalar? && e.kind == 1 && e.data == v.n) || (v.Gauge? && e.kind == 9 && e.data == v.n)
    ensures Terminal(Frozen(m), base, e) == Ok(v)
  {
  }

  // ----- the directory

  lemma EntryFields(m: Mem, at: nat, s: Slot)
    requires SlotStands(m, at, s) && at + 144 <= |m|
    ensures ParseEntry(m[at..at + 144]) == Entry(s.kind, s.data, s.name + Zeros(128 - |s.name|))
  {
    Powers();
    LittleEndianRoundTrip(s.kind, 4);
    LittleEndianRoundTrip(s.data, 8);
    SubSlice(m, at, 144, 0, 4);
    SubSlice(m, at, 144, 8, 16);
    SubSlice(m, at, 144, 16, 144);
  }

  lemma EntryReads(m: Mem, dir: Vec, slots: seq<Slot>, i: nat)
    requires DirectoryStands(m, dir, slots) && i < |slots|
    ensures ReadEntry(dir, m, i) == Ok(Entry(slots[i].kind, slots[i].data, slots[i].name + Zeros(128 - |slots[i].name|)))
  {
    assert SlotStands(m, dir.data + i * 144, slots[i]);
    EntryFields(m, dir.data + i * 144, slots[i]);
  }

  lemma PaddedName(name: seq<Byte>)
    requires IsText(name) && |name| <= 126
    ensures EntryName(name + Zeros(128 - |name|)) == Ok(name)
  {
    var padded := name + Zeros(128 - |name|);
    NulAt(padded, |name|);
    assert padded[..|name|] == name;
  }

  /** An entry's name field holds a name exactly when it is that name, zero-terminated and zero-padded. */
  lemma NameExactly(field: seq<Byte>, name: seq<Byte>)
    requires |field| == 128
    ensures EntryName(field) == Ok(name) <==> IsText(name) && |name| <= 126 && field == name + Zeros(128 - |name|)
  {
    if EntryName(field) == Ok(name) {
      assert field == name + Zeros(128 - |name|);
    }
    if IsText(name) && |name| <= 126 { PaddedName(name); }
  }

  lemma NamePublished(m: Mem, dir: Vec, slots: seq<Slot>, i: nat)
    requires DirectoryStands(m, dir, slots) && i < |slots|
    ensures PublishedName(dir, m, i) == Ok(slots[i].name)
  {
    EntryReads(m, dir, slots, i);
    assert SlotStands(m, dir.data + i * 144, slots[i]);
    PaddedName(slots[i].name);
  }

  function NamesOf(slots: seq<Slot>): (names: seq<seq<Byte>>) {
    seq(|slots|, i requires 0 <= i < |slots| => slots[i].name)
  }

  /** The reader finds these names. */
  ghost predicate Carries(f: nat -> Result<seq<Byte>>, names: seq<seq<Byte>>) {
    forall i: nat :: i < |names| ==> f(i) == Ok(names[i])
  }

  lemma DirectoryCarries(m: Mem, dir: Vec, slots: seq<Slot>)
    requires DirectoryStands(m, dir, slots)
    ensures Carries(NamesIn(Frozen(m), dir), NamesOf(slots))
  {
    forall i: nat | i < |slots| ensures NamesIn(Frozen(m), dir)(i) == Ok(NamesOf(slots)[i]) {
      NamePublished(m, dir, slots, i);
    }
  }

  /** Every name of the directory is listed, in order. */
  lemma ListingReads(m: Mem, dir: Vec, slots: seq<Slot>)
    requires DirectoryStands(m, dir, slots)
    ensures ListNames(Frozen(m), dir) == Ok(NamesOf(slots))
  {
    DirectoryCarries(m, dir, slots);
    GatherReads(NamesIn(Frozen(m), dir), NamesOf(slots), 0);
  }

  /** The first entry of that name. */
  ghost predicate First(names: seq<seq<Byte>>, name: seq<Byte>, i: nat) {
    i < |names| && names[i] == name && forall j :: 0 <= j < i ==> names[j] != name
  }

  lemma {:induction false} SearchFinds(
    f: nat -> Result<seq<Byte>>, names: seq<seq<Byte>>, name: seq<Byte>, i: nat, from: nat
  )
    requires Carries(f, names) && First(names, name, i) && from <= i
    ensures FindName(f, |names|, name, from) == Ok(Some(i))
    decreases i - from
  {
    if from < i { SearchFinds(f, names, name, i, from + 1); }
  }

  lemma {:induction false} SearchMisses(f: nat -> Result<seq<Byte>>, names: seq<seq<Byte>>, name: seq<Byte>, from: nat)
    requires Carries(f, names) && from <= |names| && name !in names
    ensures FindName(f, |names|, name, from) == Ok(None)
    decreases |names| - from
  {
    if from < |names| { SearchMisses(f, names, name, from + 1); }
  }

  // ----- the results

  lemma EntryDecodes(m: Mem, base: nat, dir: Vec, slots: seq<Slot>, i: nat, pointers: seq<nat>, v: Metric, depth: nat)
    requires DirectoryStands(m, dir, slots) && i < |slots| && depth < 16
    requires MetricStands(m, base, slots[i].kind, slots[i].data, pointers, v)
    ensures DecodeEntry(Frozen(m), base, dir, i, depth) == Ok(v)
  {
    EntryReads(m, dir, slots, i);
    TerminalReads(m, base, ReadEntry(dir, m, i).value, pointers, v);
  }

  /** A published metric is read back under its name. */
  lemma PublishedIsRead(m: Mem, base: nat, dir: Vec, slots: seq<Slot>, i: nat, pointers: seq<nat>, v: Metric)
    requires DirectoryStands(m, dir, slots) && i < |slots| && First(NamesOf(slots), slots[i].name, i)
    requires MetricStands(m, base, slots[i].kind, slots[i].data, pointers, v)
    ensures ReadMetric(Frozen(m), base, dir, slots[i].name) == Ok(v)
  {
    DirectoryCarries(m, dir, slots);
    SearchFinds(NamesIn(Frozen(m), dir), NamesOf(slots), slots[i].name, i, 0);
    EntryDecodes(m, base, dir, slots, i, pointers, v, 0);
  }

  /** A name nobody published is not found. */
  lemma UnpublishedIsMissing(m: Mem, base: nat, dir: Vec, slots: seq<Slot>, name: seq<Byte>)
    requires DirectoryStands(m, dir, slots) && name !in NamesOf(slots)
    ensures ReadMetric(Frozen(m), base, dir, name) == Err("metric not found")
  {
    DirectoryCarries(m, dir, slots);
    SearchMisses(NamesIn(Frozen(m), dir), NamesOf(slots), name, 0);
  }

  lemma LinkFields(e: Entry, target: nat, column: nat)
    requires target < U32_LIMIT && e.data == column * U32_LIMIT + target
    ensures LinkTarget(e) == target && LinkColumn(e) == column
  {
    LinkHalves(target, column);
  }

  lemma LinkDecodes(m: Mem, base: nat, dir: Vec, i: nat, e: Entry, v: Metric)
    requires ReadEntry(dir, m, i) == Ok(e) && e.kind == 6
    requires DecodeEntry(Frozen(m), base, dir, LinkTarget(e), 1) == Ok(v)
    ensures DecodeEntry(Frozen(m), base, dir, i, 0) == Column(v, LinkColumn(e))
  {
  }

  /** A link keeps the target's index in the low half of its data word and the column in the high half. */
  lemma LinkIsRead(
    m: Mem, base: nat, dir: Vec, slots: seq<Slot>, i: nat, target: nat, column: nat, pointers: seq<nat>, v: Metric
  )
    requires DirectoryStands(m, dir, slots) && i < |slots| && First(NamesOf(slots), slots[i].name, i)
    requires slots[i].kind == 6 && target < |slots| && target < U32_LIMIT
    requires slots[i].data == column * U32_LIMIT + target
    requires MetricStands(m, base, slots[target].kind, slots[target].data, pointers, v)
    ensures ReadMetric(Frozen(m), base, dir, slots[i].name) == Column(v, column)
  {
    DirectoryCarries(m, dir, slots);
    SearchFinds(NamesIn(Frozen(m), dir), NamesOf(slots), slots[i].name, i, 0);
    EntryDecodes(m, base, dir, slots, target, pointers, v, 1);
    EntryReads(m, dir, slots, i);
    var e := ReadEntry(dir, m, i).value;
    LinkFields(e, target, column);
    LinkDecodes(m, base, dir, i, e, v);
  }

  lemma LinkHalves(target: nat, column: nat)
    requires target < U32_LIMIT
    ensures (column * U32_LIMIT + target) % U32_LIMIT == target && (column * U32_LIMIT + target) / U32_LIMIT == column
  {
  }
}
