/**
  The structure of a stats segment: everything the writer may change only inside a write section.
  Counter cells, scalar cells, the epoch and the in-progress word are not part of it.

  The main result is that a decode whose reads find different memories, all of one structure, has
  the outcome it would have on any single memory of that structure, up to the cells' contents.
 */
module StatsStructure {
  import opened Bytes
  import opened StatsSegment

  /** What one element of an outer vector leads to. */
  datatype Row = Row(pointer: Result<nat>, head: Result<Vec>, text: Result<seq<Byte>>)

  datatype Slot = Slot(kind: nat, name: seq<Byte>, data: nat, outer: Result<Vec>, rows: seq<Row>)

  datatype Layout = Layout(
    size: nat, version: nat, base: nat, pointer: nat,
    directory: Result<Vec>, slots: seq<Result<Slot>>)

  predicate IsCell(kind: nat) { kind == SCALAR || kind == GAUGE }
  predicate IsCounters(kind: nat) { kind == SIMPLE || kind == COMBINED }
  predicate IsVector(kind: nat) { IsCounters(kind) || kind == NAME_VECTOR }

  function RowOf(m: Mem, base: nat, kind: nat, outer: Vec, row: nat): Row {
    var p := ReadWord(outer, m, row);
    if p.Err? then Row(p, Err(""), Err(""))
    else Row(p,
             if IsCounters(kind) then Resolve(m, base, p.value) else Err(""),
             if kind == NAME_VECTOR then RawText(m, base, p.value) else Err(""))
  }

  function OuterOf(m: Mem, base: nat, kind: nat, data: nat): Result<Vec> {
    if IsVector(kind) then Resolve(m, base, data) else Err("")
  }

  function RowsOf(m: Mem, base: nat, kind: nat, outer: Result<Vec>): (rows: seq<Row>)
    ensures outer.Ok? ==> |rows| == outer.value.length
    ensures outer.Ok? ==> forall i :: 0 <= i < |rows| ==> rows[i] == RowOf(m, base, kind, outer.value, i)
  {
    if outer.Err? then []
    else seq(outer.value.length, i requires 0 <= i => RowOf(m, base, kind, outer.value, i))
  }

  function SlotOf(m: Mem, base: nat, e: Entry): Slot {
    var outer := OuterOf(m, base, e.kind, e.data);
    Slot(e.kind, e.name, if IsCell(e.kind) then 0 else e.data, outer, RowsOf(m, base, e.kind, outer))
  }

  function SlotAt(m: Mem, base: nat, dir: Vec, index: nat): Result<Slot> {
    var e := ReadEntry(dir, m, index);
    if e.Err? then Err(e.error) else Ok(SlotOf(m, base, e.value))
  }

  function SlotsOf(m: Mem, base: nat, dir: Result<Vec>): (slots: seq<Result<Slot>>)
    ensures dir.Ok? ==> |slots| == dir.value.length
    ensures dir.Ok? ==> forall i :: 0 <= i < |slots| ==> slots[i] == SlotAt(m, base, dir.value, i)
  {
    if dir.Err? then []
    else seq(dir.value.length, i requires 0 <= i => SlotAt(m, base, dir.value, i))
  }

  function LayoutOf(m: Mem): (l: Layout)
    requires HEADER_BYTES <= |m|
  {
    var dir := Resolve(m, Base(m), DirectoryPointer(m));
    Layout(|m|, Version(m), Base(m), DirectoryPointer(m), dir, SlotsOf(m, Base(m), dir))
  }

  /** Every read finds a memory with layout `l`. */
  ghost predicate Stable(view: View, l: Layout) {
    forall site :: HEADER_BYTES <= |view(site)| && LayoutOf(view(site)) == l
  }

  /** A value with the contents of its cells erased. */
  datatype Outline =
    | ScalarOutline
    | GaugeOutline
    | SimpleOutline(lengths: seq<nat>)
    | CombinedOutline(lengths: seq<nat>)
    | NamesOutline(names: seq<seq<Byte>>)

  function Lengths<T>(rows: seq<seq<T>>): (lengths: seq<nat>)
    ensures |lengths| == |rows|
    ensures forall i :: 0 <= i < |rows| ==> lengths[i] == |rows[i]|
  {
    seq(|rows|, i requires 0 <= i < |rows| => |rows[i]|)
  }

  function OutlineOf(v: Metric): Outline {
    match v
    case Scalar(_) => ScalarOutline
    case Gauge(_) => GaugeOutline
    case Simple(rows) => SimpleOutline(Lengths(rows))
    case Combined(rows) => CombinedOutline(Lengths(rows))
    case Names(names) => NamesOutline(names)
  }

  /** The same error, or values that differ at most in their cells. */
  ghost predicate Alike(a: Result<Metric>, b: Result<Metric>) {
    if a.Err? then b.Err? && a.error == b.error
    else b.Ok? && OutlineOf(a.value) == OutlineOf(b.value)
  }

  ghost predicate AlikeRows<T>(a: Result<seq<seq<T>>>, b: Result<seq<seq<T>>>) {
    if a.Err? then b.Err? && a.error == b.error
    else b.Ok? && Lengths(a.value) == Lengths(b.value)
  }

  ghost predicate AlikeRow<T>(a: Result<seq<T>>, b: Result<seq<T>>) {
    if a.Err? then b.Err? && a.error == b.error else b.Ok? && |a.value| == |b.value|
  }

  // ----- one read at a time

  /** What layout `l` says of the entry at `index`, in a memory of that layout. */
  lemma EntryShows(m: Mem, l: Layout, dir: Vec, index: nat)
    requires HEADER_BYTES <= |m| && LayoutOf(m) == l && l.directory == Ok(dir)
    ensures index < dir.length ==> l.slots[index] == SlotAt(m, l.base, dir, index)
    ensures |m| == l.size
  {
  }

  /** Equal but for the cell of a scalar or gauge. */
  predicate SameEntry(e: Entry, f: Entry) {
    e.kind == f.kind && e.name == f.name && (!IsCell(e.kind) ==> e.data == f.data)
  }

  /** Two memories of one layout hold, at each index, entries that differ at most in a cell. */
  lemma EntriesAgree(a: Mem, b: Mem, l: Layout, dir: Vec, index: nat)
    requires HEADER_BYTES <= |a| && LayoutOf(a) == l && HEADER_BYTES <= |b| && LayoutOf(b) == l
    requires l.directory == Ok(dir)
    ensures var x, y := ReadEntry(dir, a, index), ReadEntry(dir, b, index);
            (x.Err? ==> y.Err? && x.error == y.error) && (x.Ok? ==> y.Ok? && SameEntry(x.value, y.value))
  {
    EntryShows(a, l, dir, index);
    EntryShows(b, l, dir, index);
  }

  /** The vectors behind an entry agree too. */
  lemma VectorsAgree(a: Mem, b: Mem, l: Layout, dir: Vec, index: nat)
    requires HEADER_BYTES <= |a| && LayoutOf(a) == l && HEADER_BYTES <= |b| && LayoutOf(b) == l
    requires l.directory == Ok(dir)
    requires ReadEntry(dir, a, index).Ok?
    ensures var e := ReadEntry(dir, a, index).value;
            IsVector(e.kind) ==>
              Resolve(a, l.base, e.data) == Resolve(b, l.base, e.data)
              && RowsOf(a, l.base, e.kind, Resolve(a, l.base, e.data))
                 == RowsOf(b, l.base, e.kind, Resolve(a, l.base, e.data))
  {
    EntryShows(a, l, dir, index);
    EntryShows(b, l, dir, index);
    EntriesAgree(a, b, l, dir, index);
  }

  // ----- rows

  /** Wherever a read of these rows lands, it finds what `m` has there. */
  ghost predicate RowsSettled(view: View, m: Mem, base: nat, kind: nat, outer: Vec) {
    forall site, row: nat {:trigger RowOf(view(site), base, kind, outer, row)} :: row < outer.length ==>
      |view(site)| == |m| && RowOf(view(site), base, kind, outer, row) == RowOf(m, base, kind, outer, row)
  }

  lemma RowSettles(view: View, m: Mem, base: nat, kind: nat, outer: Vec, row: nat)
    requires RowsSettled(view, m, base, kind, outer) && row < outer.length && IsCounters(kind)
    ensures RowVector(view, base, outer, row) == RowVector(Frozen(m), base, outer, row)
    ensures forall site :: |view(site)| == |m|
  {
    assert RowOf(view(Pointer(row)), base, kind, outer, row) == RowOf(m, base, kind, outer, row);
    assert RowOf(view(RowHead(row)), base, kind, outer, row) == RowOf(m, base, kind, outer, row);
    forall site ensures |view(site)| == |m| {
      assert RowOf(view(site), base, kind, outer, row) == RowOf(m, base, kind, outer, row);
    }
  }

  ghost predicate FailAlike<T>(a: Result<T>, b: Result<T>) {
    (a.Err? ==> b == a) && (a.Ok? ==> b.Ok?)
  }

  /** Readings that fail alike are gathered alike, and readings that agree are gathered into the same. */
  lemma {:induction false} GatherAlike<T>(f: nat -> Result<T>, g: nat -> Result<T>, length: nat, from: nat)
    requires forall i: nat :: i < length ==> FailAlike(f(i), g(i))
    ensures AlikeRow(Gather(f, length, from), Gather(g, length, from))
    decreases length - from
  {
    if from < length { GatherAlike(f, g, length, from + 1); }
  }

  lemma {:induction false} GatherSame<T>(f: nat -> Result<T>, g: nat -> Result<T>, length: nat, from: nat)
    requires forall i: nat :: i < length ==> f(i) == g(i)
    ensures Gather(f, length, from) == Gather(g, length, from)
    decreases length - from
  {
    if from < length { GatherSame(f, g, length, from + 1); }
  }

  lemma LengthsNext<T>(a: seq<T>, rest: seq<seq<T>>)
    ensures Lengths([a] + rest) == [|a|] + Lengths(rest)
  {
  }

  lemma {:induction false} GatherRowsAlike<T>(
    f: nat -> Result<seq<T>>, g: nat -> Result<seq<T>>, length: nat, from: nat
  )
    requires forall i: nat :: i < length ==> AlikeRow(f(i), g(i))
    ensures AlikeRows(Gather(f, length, from), Gather(g, length, from))
    decreases length - from
  {
    if from < length {
      GatherRowsAlike(f, g, length, from + 1);
      var c, d := Gather(f, length, from + 1), Gather(g, length, from + 1);
      if f(from).Ok? && c.Ok? {
        LengthsNext(f(from).value, c.value);
        LengthsNext(g(from).value, d.value);
      }
    }
  }

  /** Whether a cell can be read depends on the size of the mapping, not on what it holds. */
  lemma ReadWordAlike(v: Vec, a: Mem, b: Mem, i: nat)
    requires |a| == |b|
    ensures FailAlike(ReadWord(v, a, i), ReadWord(v, b, i))
  {
  }

  lemma ReadCounterAlike(v: Vec, a: Mem, b: Mem, i: nat)
    requires |a| == |b|
    ensures FailAlike(ReadCounter(v, a, i), ReadCounter(v, b, i))
  {
  }

  lemma SimpleRowAlike(view: View, m: Mem, base: nat, kind: nat, outer: Vec, row: nat)
    requires RowsSettled(view, m, base, kind, outer) && row < outer.length && IsCounters(kind)
    ensures AlikeRow(SimpleRow(view, base, outer, row), SimpleRow(Frozen(m), base, outer, row))
  {
    RowSettles(view, m, base, kind, outer, row);
    var v := RowVector(view, base, outer, row);
    if v.Ok? && v.value.Some? {
      var f, g := CellsIn(view, row, v.value.value), CellsIn(Frozen(m), row, v.value.value);
      forall i: nat ensures FailAlike(f(i), g(i)) { ReadWordAlike(v.value.value, view(Cell(row, i)), m, i); }
      GatherAlike(f, g, v.value.value.length, 0);
    }
  }

  lemma CombinedRowAlike(view: View, m: Mem, base: nat, kind: nat, outer: Vec, row: nat)
    requires RowsSettled(view, m, base, kind, outer) && row < outer.length && IsCounters(kind)
    ensures AlikeRow(CombinedRow(view, base, outer, row), CombinedRow(Frozen(m), base, outer, row))
  {
    RowSettles(view, m, base, kind, outer, row);
    var v := RowVector(view, base, outer, row);
    if v.Ok? && v.value.Some? {
      var f, g := CountersIn(view, row, v.value.value), CountersIn(Frozen(m), row, v.value.value);
      forall i: nat ensures FailAlike(f(i), g(i)) { ReadCounterAlike(v.value.value, view(Cell(row, i)), m, i); }
      GatherAlike(f, g, v.value.value.length, 0);
    }
  }

  lemma SimpleRowsAlike(view: View, m: Mem, base: nat, kind: nat, outer: Vec)
    requires RowsSettled(view, m, base, kind, outer) && IsCounters(kind)
    ensures AlikeRows(Gather(SimpleRowsIn(view, base, outer), outer.length, 0),
                      Gather(SimpleRowsIn(Frozen(m), base, outer), outer.length, 0))
  {
    var f, g := SimpleRowsIn(view, base, outer), SimpleRowsIn(Frozen(m), base, outer);
    forall i: nat | i < outer.length ensures AlikeRow(f(i), g(i)) { SimpleRowAlike(view, m, base, kind, outer, i); }
    GatherRowsAlike(f, g, outer.length, 0);
  }

  lemma CombinedRowsAlike(view: View, m: Mem, base: nat, kind: nat, outer: Vec)
    requires RowsSettled(view, m, base, kind, outer) && IsCounters(kind)
    ensures AlikeRows(Gather(CombinedRowsIn(view, base, outer), outer.length, 0),
                      Gather(CombinedRowsIn(Frozen(m), base, outer), outer.length, 0))
  {
    var f, g := CombinedRowsIn(view, base, outer), CombinedRowsIn(Frozen(m), base, outer);
    forall i: nat | i < outer.length ensures AlikeRow(f(i), g(i)) { CombinedRowAlike(view, m, base, kind, outer, i); }
    GatherRowsAlike(f, g, outer.length, 0);
  }

  lemma TextSame(scan: Mem, check: Mem, copy: Mem, m: Mem, base: nat, p: nat)
    requires |scan| == |check| == |copy| == |m|
    requires RawText(scan, base, p) == RawText(check, base, p) == RawText(copy, base, p) == RawText(m, base, p)
    ensures TextAt(scan, check, copy, base, p) == TextAt(m, m, m, base, p)
  {
  }

  lemma NameAtSame(view: View, m: Mem, base: nat, outer: Vec, row: nat)
    requires RowsSettled(view, m, base, NAME_VECTOR, outer) && row < outer.length
    ensures NameAt(view, base, outer, row) == NameAt(Frozen(m), base, outer, row)
  {
    assert RowOf(view(Pointer(row)), base, NAME_VECTOR, outer, row) == RowOf(m, base, NAME_VECTOR, outer, row);
    assert RowOf(view(NameScan(row)), base, NAME_VECTOR, outer, row) == RowOf(m, base, NAME_VECTOR, outer, row);
    assert RowOf(view(NameCheck(row)), base, NAME_VECTOR, outer, row) == RowOf(m, base, NAME_VECTOR, outer, row);
    assert RowOf(view(NameCopy(row)), base, NAME_VECTOR, outer, row) == RowOf(m, base, NAME_VECTOR, outer, row);
    var p := ReadWord(outer, m, row);
    if p.Ok? { TextSame(view(NameScan(row)), view(NameCheck(row)), view(NameCopy(row)), m, base, p.value); }
  }

  lemma TextsSame(view: View, m: Mem, base: nat, outer: Vec)
    requires RowsSettled(view, m, base, NAME_VECTOR, outer)
    ensures Gather(TextsIn(view, base, outer), outer.length, 0) == Gather(TextsIn(Frozen(m), base, outer), outer.length, 0)
  {
    var f, g := TextsIn(view, base, outer), TextsIn(Frozen(m), base, outer);
    forall i: nat | i < outer.length ensures f(i) == g(i) { NameAtSame(view, m, base, outer, i); }
    GatherSame(f, g, outer.length, 0);
  }

  // ----- entries and the directory

  /** The entry `e` read from `at`, and `f` at the same index of `m`, decode alike. */
  lemma VectorSettles(view: View, l: Layout, m: Mem, dir: Vec, index: nat, e: Entry)
    requires Stable(view, l) && HEADER_BYTES <= |m| && LayoutOf(m) == l && l.directory == Ok(dir)
    requires ReadEntry(dir, m, index) == Ok(e) && IsVector(e.kind)
    ensures Resolve(view(OuterHead), l.base, e.data) == Resolve(m, l.base, e.data)
    ensures var outer := Resolve(m, l.base, e.data);
            outer.Ok? ==> RowsSettled(view, m, l.base, e.kind, outer.value)
  {
    VectorsAgree(m, view(OuterHead), l, dir, index);
    var outer := Resolve(m, l.base, e.data);
    if outer.Ok? {
      forall site, row: nat | row < outer.value.length
        ensures |view(site)| == |m|
        ensures RowOf(view(site), l.base, e.kind, outer.value, row) == RowOf(m, l.base, e.kind, outer.value, row)
      {
        VectorsAgree(m, view(site), l, dir, index);
        assert RowsOf(m, l.base, e.kind, outer)[row] == RowsOf(view(site), l.base, e.kind, outer)[row];
      }
    }
  }

  lemma TerminalAlike(view: View, l: Layout, m: Mem, dir: Vec, index: nat, e: Entry, f: Entry)
    requires Stable(view, l) && HEADER_BYTES <= |m| && LayoutOf(m) == l && l.directory == Ok(dir)
    requires ReadEntry(dir, m, index) == Ok(f)
    requires e.kind == f.kind && (!IsCell(e.kind) ==> e.data == f.data)
    ensures Alike(Terminal(view, l.base, e), Terminal(Frozen(m), l.base, f))
  {
    if IsVector(e.kind) {
      VectorSettles(view, l, m, dir, index, f);
      var outer := Resolve(m, l.base, e.data);
      if outer.Ok? {
        if e.kind == SIMPLE { SimpleRowsAlike(view, m, l.base, e.kind, outer.value); }
        else if e.kind == COMBINED { CombinedRowsAlike(view, m, l.base, e.kind, outer.value); }
        else { TextsSame(view, m, l.base, outer.value); }
      }
    }
  }

  lemma CropAlike<T>(a: seq<seq<T>>, b: seq<seq<T>>, column: nat)
    requires Lengths(a) == Lengths(b)
    ensures AlikeRows(Crop(a, column), Crop(b, column))
  {
    assert forall i :: 0 <= i < |a| ==> |a[i]| == Lengths(a)[i] == Lengths(b)[i] == |b[i]|;
    var x, y := Crop(a, column), Crop(b, column);
    CropFails(a, column);
    CropFails(b, column);
    if x.Ok? { assert Lengths(x.value) == Lengths(y.value); }
  }

  lemma CropFails<T>(rows: seq<seq<T>>, column: nat)
    ensures Crop(rows, column).Err? ==> Crop(rows, column).error == "element out of bounds"
  {
  }

  lemma ColumnAlike(a: Metric, b: Metric, column: nat)
    requires OutlineOf(a) == OutlineOf(b)
    ensures Alike(Column(a, column), Column(b, column))
  {
    if a.Simple? { CropAlike(a.rows, b.rows, column); }
    if a.Combined? { CropAlike(a.counters, b.counters, column); }
  }

  /** One link of the way, and its end. */
  lemma DecodeLink(view: View, base: nat, dir: Vec, index: nat, depth: nat, e: Entry, t: Result<Metric>)
    requires depth < SYMLINK_LIMIT && ReadEntry(dir, view(Visit(depth)), index) == Ok(e) && e.kind == SYMLINK
    requires DecodeEntry(view, base, dir, LinkTarget(e), depth + 1) == t
    ensures DecodeEntry(view, base, dir, index, depth) == if t.Err? then t else Column(t.value, LinkColumn(e))
  {
  }

  lemma DecodeEnd(view: View, base: nat, dir: Vec, index: nat, depth: nat, e: Entry)
    requires depth < SYMLINK_LIMIT && ReadEntry(dir, view(Visit(depth)), index) == Ok(e) && e.kind != SYMLINK
    ensures DecodeEntry(view, base, dir, index, depth) == Terminal(view, base, e)
  {
  }

  lemma DecodeUnreadable(view: View, base: nat, dir: Vec, index: nat, depth: nat)
    requires depth < SYMLINK_LIMIT && ReadEntry(dir, view(Visit(depth)), index).Err?
    ensures DecodeEntry(view, base, dir, index, depth) == Err(ReadEntry(dir, view(Visit(depth)), index).error)
  {
  }

  lemma LinkAlike(s: Result<Metric>, t: Result<Metric>, column: nat)
    requires Alike(s, t)
    ensures Alike(if s.Err? then s else Column(s.value, column), if t.Err? then t else Column(t.value, column))
  {
    if s.Ok? { ColumnAlike(s.value, t.value, column); }
  }

  /** The same entry, up to its cell. */
  ghost predicate EntryAgrees(x: Result<Entry>, y: Result<Entry>) {
    (x.Err? ==> y == x) && (x.Ok? ==> y.Ok? && SameEntry(x.value, y.value))
  }

  ghost predicate EndAlike(view: View, m: Mem, base: nat, x: Result<Entry>, y: Result<Entry>) {
    x.Ok? && y.Ok? ==> Alike(Terminal(view, base, x.value), Terminal(Frozen(m), base, y.value))
  }

  ghost predicate PathsAlike(view: View, m: Mem, base: nat, dir: Vec, index: nat, depth: nat) {
    Alike(DecodeEntry(view, base, dir, index, depth), DecodeEntry(Frozen(m), base, dir, index, depth))
  }

  /** A link to values that are alike. */
  lemma LinkStep(view: View, m: Mem, base: nat, dir: Vec, index: nat, depth: nat, e: Entry, f: Entry)
    requires depth < SYMLINK_LIMIT && e.kind == SYMLINK && SameEntry(e, f)
    requires ReadEntry(dir, view(Visit(depth)), index) == Ok(e) && ReadEntry(dir, m, index) == Ok(f)
    requires PathsAlike(view, m, base, dir, LinkTarget(e), depth + 1)
    ensures PathsAlike(view, m, base, dir, index, depth)
  {
    var s := DecodeEntry(view, base, dir, LinkTarget(e), depth + 1);
    var t := DecodeEntry(Frozen(m), base, dir, LinkTarget(e), depth + 1);
    DecodeLink(view, base, dir, index, depth, e, s);
    DecodeLink(Frozen(m), base, dir, index, depth, f, t);
    LinkAlike(s, t, LinkColumn(e));
  }

  /** An end of the path, or an entry that cannot be read. */
  lemma EndStep(view: View, m: Mem, base: nat, dir: Vec, index: nat, depth: nat, x: Result<Entry>, y: Result<Entry>)
    requires depth < SYMLINK_LIMIT && EntryAgrees(x, y) && EndAlike(view, m, base, x, y)
    requires ReadEntry(dir, view(Visit(depth)), index) == x && ReadEntry(dir, m, index) == y
    requires x.Ok? ==> x.value.kind != SYMLINK
    ensures PathsAlike(view, m, base, dir, index, depth)
  {
    if x.Err? {
      DecodeUnreadable(view, base, dir, index, depth);
      DecodeUnreadable(Frozen(m), base, dir, index, depth);
    } else {
      DecodeEnd(view, base, dir, index, depth, x.value);
      DecodeEnd(Frozen(m), base, dir, index, depth, y.value);
    }
  }

  lemma LimitStep(view: View, m: Mem, base: nat, dir: Vec, index: nat, depth: nat)
    requires SYMLINK_LIMIT <= depth
    ensures PathsAlike(view, m, base, dir, index, depth)
  {
  }

  /** Wherever an entry is visited, it agrees with what `m` has there, and a path that ends there ends alike. */
  ghost predicate VisitsAgree(view: View, m: Mem, base: nat, dir: Vec) {
    && (forall depth: nat, index: nat :: VisitAgrees(view, m, dir, depth, index))
    && (forall depth: nat, index: nat :: VisitEnd(view, m, base, dir, depth, index))
  }

  ghost predicate VisitAgrees(view: View, m: Mem, dir: Vec, depth: nat, index: nat) {
    EntryAgrees(ReadEntry(dir, view(Visit(depth)), index), ReadEntry(dir, m, index))
  }

  ghost predicate VisitEnd(view: View, m: Mem, base: nat, dir: Vec, depth: nat, index: nat) {
    EndAlike(view, m, base, ReadEntry(dir, view(Visit(depth)), index), ReadEntry(dir, m, index))
  }

  lemma {:induction false} PathAlike(view: View, m: Mem, base: nat, dir: Vec, index: nat, depth: nat)
    requires VisitsAgree(view, m, base, dir)
    ensures PathsAlike(view, m, base, dir, index, depth)
    decreases SYMLINK_LIMIT - depth
  {
    if SYMLINK_LIMIT <= depth {
      LimitStep(view, m, base, dir, index, depth);
    } else {
      var x, y := ReadEntry(dir, view(Visit(depth)), index), ReadEntry(dir, m, index);
      assert VisitAgrees(view, m, dir, depth, index);
      if x.Ok? && x.value.kind == SYMLINK {
        PathAlike(view, m, base, dir, LinkTarget(x.value), depth + 1);
        LinkStep(view, m, base, dir, index, depth, x.value, y.value);
      } else {
        assert VisitEnd(view, m, base, dir, depth, index);
        EndStep(view, m, base, dir, index, depth, x, y);
      }
    }
  }

  lemma DecodeAlike(view: View, l: Layout, m: Mem, dir: Vec, index: nat, depth: nat)
    requires Stable(view, l) && HEADER_BYTES <= |m| && LayoutOf(m) == l && l.directory == Ok(dir)
    ensures Alike(DecodeEntry(view, l.base, dir, index, depth), DecodeEntry(Frozen(m), l.base, dir, index, depth))
  {
    forall d: nat, i: nat ensures VisitAgrees(view, m, dir, d, i) { EntriesAgree(view(Visit(d)), m, l, dir, i); }
    forall d: nat, i: nat ensures VisitEnd(view, m, l.base, dir, d, i) { VisitEnds(view, l, m, dir, d, i); }
    PathAlike(view, m, l.base, dir, index, depth);
  }

  lemma VisitEnds(view: View, l: Layout, m: Mem, dir: Vec, depth: nat, index: nat)
    requires Stable(view, l) && HEADER_BYTES <= |m| && LayoutOf(m) == l && l.directory == Ok(dir)
    ensures EndAlike(view, m, l.base, ReadEntry(dir, view(Visit(depth)), index), ReadEntry(dir, m, index))
  {
    EntriesAgree(view(Visit(depth)), m, l, dir, index);
    var x, y := ReadEntry(dir, view(Visit(depth)), index), ReadEntry(dir, m, index);
    if x.Ok? && y.Ok? { TerminalAlike(view, l, m, dir, index, x.value, y.value); }
  }

  lemma NameSame(a: Mem, b: Mem, l: Layout, dir: Vec, index: nat)
    requires HEADER_BYTES <= |a| && LayoutOf(a) == l && HEADER_BYTES <= |b| && LayoutOf(b) == l
    requires l.directory == Ok(dir)
    ensures PublishedName(dir, a, index) == PublishedName(dir, b, index)
  {
    EntriesAgree(a, b, l, dir, index);
  }

  lemma NamesSettle(view: View, l: Layout, m: Mem, dir: Vec)
    requires Stable(view, l) && HEADER_BYTES <= |m| && LayoutOf(m) == l && l.directory == Ok(dir)
    ensures forall i: nat :: NamesIn(view, dir)(i) == NamesIn(Frozen(m), dir)(i)
  {
    forall i: nat ensures NamesIn(view, dir)(i) == NamesIn(Frozen(m), dir)(i) {
      NameSame(view(Listing(i)), m, l, dir, i);
    }
  }

  lemma {:induction false} FindSame(
    f: nat -> Result<seq<Byte>>, g: nat -> Result<seq<Byte>>, length: nat, name: seq<Byte>, from: nat
  )
    requires forall i: nat :: f(i) == g(i)
    ensures FindName(f, length, name, from) == FindName(g, length, name, from)
    decreases length - from
  {
    if from < length { FindSame(f, g, length, name, from + 1); }
  }

  /** However its reads are spread over memories of one structure, `names` lists what each of them lists. */
  lemma NamesSame(view: View, l: Layout, m: Mem, dir: Vec)
    requires Stable(view, l) && HEADER_BYTES <= |m| && LayoutOf(m) == l && l.directory == Ok(dir)
    ensures ListNames(view, dir) == ListNames(Frozen(m), dir)
  {
    NamesSettle(view, l, m, dir);
    GatherSame(NamesIn(view, dir), NamesIn(Frozen(m), dir), dir.length, 0);
  }

  /** However its reads are spread over memories of one structure, `read` comes out as on each of them. */
  lemma ReadAlike(view: View, l: Layout, m: Mem, dir: Vec, name: seq<Byte>)
    requires Stable(view, l) && HEADER_BYTES <= |m| && LayoutOf(m) == l && l.directory == Ok(dir)
    ensures Alike(ReadMetric(view, l.base, dir, name), ReadMetric(Frozen(m), l.base, dir, name))
  {
    NamesSettle(view, l, m, dir);
    FindSame(NamesIn(view, dir), NamesIn(Frozen(m), dir), dir.length, name, 0);
    var found := FindEntry(view, dir, name);
    if found.Ok? && found.value.Some? { DecodeAlike(view, l, m, dir, found.value.value, 0); }
  }
}
