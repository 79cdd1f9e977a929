/** Where the cells of a decoded value come from: each is one reading of one cell of one entry's vector. */
module StatsCells {
  import opened Bytes
  import opened StatsSegment
  import opened StatsStructure

  /** A reading of the cell at a row and a column. */
  type Cells<!T> = (nat, nat) -> Result<T>

  /** The vector behind a row of slot `k`, as the structure has it. */
  function RowIn(l: Layout, k: nat, row: nat): (v: Result<Vec>) {
    if |l.slots| <= k || l.slots[k].Err? || |l.slots[k].value.rows| <= row then Err("no such row")
    else if l.slots[k].value.rows[row].pointer == Ok(0) then Err("empty row")
    else l.slots[k].value.rows[row].head
  }

  function WordCells(view: View, l: Layout, k: nat): Cells<nat> {
    (row: nat, column: nat) =>
      var v := RowIn(l, k, row);
      if v.Err? then Err(v.error) else ReadWord(v.value, view(Cell(row, column)), column)
  }

  function CounterCells(view: View, l: Layout, k: nat): Cells<Counter> {
    (row: nat, column: nat) =>
      var v := RowIn(l, k, row);
      if v.Err? then Err(v.error) else ReadCounter(v.value, view(Cell(row, column)), column)
  }

  /** Every element is the reading of its own cell, or of the one column a link picked. */
  ghost predicate Traced<T(!new)>(cells: Cells<T>, pick: Option<nat>, rows: seq<seq<T>>) {
    forall i: nat :: i < |rows| ==> TracedRow(cells, pick, i, rows[i])
  }

  ghost predicate TracedRow<T(!new)>(cells: Cells<T>, pick: Option<nat>, i: nat, row: seq<T>) {
    forall c: nat :: c < |row| ==> cells(i, if pick.None? then c else pick.value) == Ok(row[c])
  }

  /** A value of counters whose cells are readings of slot `k`. */
  ghost predicate TracedTo(view: View, l: Layout, k: nat, pick: Option<nat>, v: Metric) {
    match v
    case Simple(rows) => Traced(WordCells(view, l, k), pick, rows)
    case Combined(rows) => Traced(CounterCells(view, l, k), pick, rows)
    case _ => true
  }

  lemma {:induction false} GatherAt<T>(f: nat -> Result<T>, length: nat, from: nat, i: nat)
    requires Gather(f, length, from).Ok? && i < |Gather(f, length, from).value|
    ensures f(from + i) == Ok(Gather(f, length, from).value[i])
    decreases i
  {
    if 0 < i { GatherAt(f, length, from + 1, i - 1); }
  }

  /** Rows of a settled outer vector are the rows of the slot. */
  lemma RowVectorIs(view: View, m: Mem, base: nat, kind: nat, outer: Vec, row: nat)
    requires RowsSettled(view, m, base, kind, outer) && row < outer.length && IsCounters(kind)
    requires RowVector(view, base, outer, row).Ok? && RowVector(view, base, outer, row).value.Some?
    ensures var r := RowOf(m, base, kind, outer, row);
            r.pointer != Ok(0) && r.head == Ok(RowVector(view, base, outer, row).value.value)
  {
    RowSettles(view, m, base, kind, outer, row);
  }

  /** The slot of a readable vector entry: its outer vector and rows. */
  lemma SlotIs(l: Layout, m: Mem, dir: Vec, k: nat, e: Entry)
    requires HEADER_BYTES <= |m| && LayoutOf(m) == l && l.directory == Ok(dir)
    requires ReadEntry(dir, m, k) == Ok(e) && IsCounters(e.kind) && Resolve(m, l.base, e.data).Ok?
    ensures var outer := Resolve(m, l.base, e.data).value;
            && k < |l.slots| && l.slots[k].Ok? && |l.slots[k].value.rows| == outer.length
            && forall row :: 0 <= row < outer.length ==> l.slots[k].value.rows[row] == RowOf(m, l.base, e.kind, outer, row)
  {
    EntryShows(m, l, dir, k);
  }

  lemma RowInIs(view: View, l: Layout, m: Mem, dir: Vec, k: nat, e: Entry, row: nat)
    requires Stable(view, l) && HEADER_BYTES <= |m| && LayoutOf(m) == l && l.directory == Ok(dir)
    requires ReadEntry(dir, m, k) == Ok(e) && IsCounters(e.kind) && Resolve(m, l.base, e.data).Ok?
    requires var outer := Resolve(m, l.base, e.data).value;
             && RowsSettled(view, m, l.base, e.kind, outer) && row < outer.length
             && RowVector(view, l.base, outer, row).Ok? && RowVector(view, l.base, outer, row).value.Some?
    ensures var outer := Resolve(m, l.base, e.data).value;
            RowIn(l, k, row) == Ok(RowVector(view, l.base, outer, row).value.value)
  {
    var outer := Resolve(m, l.base, e.data).value;
    SlotIs(l, m, dir, k, e);
    RowVectorIs(view, m, l.base, e.kind, outer, row);
  }

  /** The rows read are the rows of slot `k`. */
  ghost predicate RowsKnown(view: View, l: Layout, k: nat, outer: Vec) {
    forall row: nat :: row < outer.length ==> RowKnown(view, l, k, outer, row)
  }

  ghost predicate RowKnown(view: View, l: Layout, k: nat, outer: Vec, row: nat) {
    var v := RowVector(view, l.base, outer, row);
    v.Ok? && v.value.Some? ==> RowIn(l, k, row) == Ok(v.value.value)
  }

  lemma RowsAreKnown(view: View, l: Layout, m: Mem, dir: Vec, k: nat, e: Entry)
    requires Stable(view, l) && HEADER_BYTES <= |m| && LayoutOf(m) == l && l.directory == Ok(dir)
    requires ReadEntry(dir, m, k) == Ok(e) && IsCounters(e.kind) && Resolve(m, l.base, e.data).Ok?
    ensures RowsKnown(view, l, k, Resolve(m, l.base, e.data).value)
  {
    VectorSettles(view, l, m, dir, k, e);
    var outer := Resolve(m, l.base, e.data).value;
    forall row: nat | row < outer.length ensures RowKnown(view, l, k, outer, row) {
      var v := RowVector(view, l.base, outer, row);
      if v.Ok? && v.value.Some? { RowInIs(view, l, m, dir, k, e, row); }
    }
  }

  lemma SimpleRowTraced(view: View, l: Layout, k: nat, outer: Vec, i: nat, row: seq<nat>)
    requires RowKnown(view, l, k, outer, i) && SimpleRow(view, l.base, outer, i) == Ok(row)
    ensures TracedRow(WordCells(view, l, k), None, i, row)
  {
    if row != [] {
      var v := RowVector(view, l.base, outer, i).value.value;
      forall c: nat | c < |row| ensures WordCells(view, l, k)(i, c) == Ok(row[c]) {
        GatherAt(CellsIn(view, i, v), v.length, 0, c);
      }
    }
  }

  lemma CombinedRowTraced(view: View, l: Layout, k: nat, outer: Vec, i: nat, row: seq<Counter>)
    requires RowKnown(view, l, k, outer, i) && CombinedRow(view, l.base, outer, i) == Ok(row)
    ensures TracedRow(CounterCells(view, l, k), None, i, row)
  {
    if row != [] {
      var v := RowVector(view, l.base, outer, i).value.value;
      forall c: nat | c < |row| ensures CounterCells(view, l, k)(i, c) == Ok(row[c]) {
        GatherAt(CountersIn(view, i, v), v.length, 0, c);
      }
    }
  }

  lemma SimpleTraced(view: View, l: Layout, k: nat, outer: Vec, rows: seq<seq<nat>>)
    requires RowsKnown(view, l, k, outer) && Gather(SimpleRowsIn(view, l.base, outer), outer.length, 0) == Ok(rows)
    ensures Traced(WordCells(view, l, k), None, rows)
  {
    forall i: nat | i < |rows| ensures TracedRow(WordCells(view, l, k), None, i, rows[i]) {
      GatherAt(SimpleRowsIn(view, l.base, outer), outer.length, 0, i);
      SimpleRowTraced(view, l, k, outer, i, rows[i]);
    }
  }

  lemma CombinedTraced(view: View, l: Layout, k: nat, outer: Vec, rows: seq<seq<Counter>>)
    requires RowsKnown(view, l, k, outer) && Gather(CombinedRowsIn(view, l.base, outer), outer.length, 0) == Ok(rows)
    ensures Traced(CounterCells(view, l, k), None, rows)
  {
    forall i: nat | i < |rows| ensures TracedRow(CounterCells(view, l, k), None, i, rows[i]) {
      GatherAt(CombinedRowsIn(view, l.base, outer), outer.length, 0, i);
      CombinedRowTraced(view, l, k, outer, i, rows[i]);
    }
  }

  lemma TerminalTraced(view: View, l: Layout, dir: Vec, k: nat, depth: nat)
    requires Stable(view, l) && l.directory == Ok(dir)
    requires ReadEntry(dir, view(Visit(depth)), k).Ok?
    requires Terminal(view, l.base, ReadEntry(dir, view(Visit(depth)), k).value).Ok?
    ensures TracedTo(view, l, k, None, Terminal(view, l.base, ReadEntry(dir, view(Visit(depth)), k).value).value)
  {
    var m := view(Visit(depth));
    var e := ReadEntry(dir, m, k).value;
    if IsCounters(e.kind) {
      VectorSettles(view, l, m, dir, k, e);
      RowsAreKnown(view, l, m, dir, k, e);
      var v, outer := Terminal(view, l.base, e).value, Resolve(m, l.base, e.data).value;
      if v.Simple? { SimpleTraced(view, l, k, outer, v.rows); }
      if v.Combined? { CombinedTraced(view, l, k, outer, v.counters); }
    }
  }

  /** Cropping picks one column of what was traced. */
  lemma CropTraced<T(!new)>(cells: Cells<T>, pick: Option<nat>, rows: seq<seq<T>>, column: nat)
    requires Traced(cells, pick, rows) && Crop(rows, column).Ok?
    ensures Traced(cells, Some(if pick.None? then column else pick.value), Crop(rows, column).value)
  {
    var cropped, p := Crop(rows, column).value, Some(if pick.None? then column else pick.value);
    forall i: nat | i < |cropped| ensures TracedRow(cells, p, i, cropped[i]) {
      assert cropped[i] == [rows[i][column]] && TracedRow(cells, pick, i, rows[i]);
    }
  }

  lemma ColumnTraced(view: View, l: Layout, k: nat, pick: Option<nat>, v: Metric, column: nat)
    requires TracedTo(view, l, k, pick, v) && Column(v, column).Ok?
    ensures TracedTo(view, l, k, Some(if pick.None? then column else pick.value), Column(v, column).value)
  {
    match v
    case Simple(rows) => CropTraced(WordCells(view, l, k), pick, rows, column);
    case Combined(rows) => CropTraced(CounterCells(view, l, k), pick, rows, column);
    case _ =>
  }

  lemma {:induction false} DecodeTraced(
    view: View, l: Layout, dir: Vec, index: nat, depth: nat
  ) returns (k: nat, pick: Option<nat>)
    requires Stable(view, l) && l.directory == Ok(dir) && DecodeEntry(view, l.base, dir, index, depth).Ok?
    ensures TracedTo(view, l, k, pick, DecodeEntry(view, l.base, dir, index, depth).value)
    decreases SYMLINK_LIMIT - depth
  {
    var e := ReadableEntry(view, l.base, dir, index, depth);
    if e.kind == SYMLINK {
      var t := DecodeEntry(view, l.base, dir, LinkTarget(e), depth + 1);
      DecodeLink(view, l.base, dir, index, depth, e, t);
      var p: Option<nat>;
      k, p := DecodeTraced(view, l, dir, LinkTarget(e), depth + 1);
      ColumnTraced(view, l, k, p, t.value, LinkColumn(e));
      pick := Some(if p.None? then LinkColumn(e) else p.value);
    } else {
      DecodeEnd(view, l.base, dir, index, depth, e);
      TerminalTraced(view, l, dir, index, depth);
      k, pick := index, None;
    }
  }

  lemma ReadableEntry(view: View, base: nat, dir: Vec, index: nat, depth: nat) returns (e: Entry)
    requires DecodeEntry(view, base, dir, index, depth).Ok?
    ensures depth < SYMLINK_LIMIT && ReadEntry(dir, view(Visit(depth)), index) == Ok(e)
  {
    e := ReadEntry(dir, view(Visit(depth)), index).value;
  }

  /** Every cell of a value that was read is one reading of one cell of the segment's structure. */
  ghost predicate Sourced(view: View, l: Layout, v: Metric) {
    exists k: nat, pick: Option<nat> :: TracedTo(view, l, k, pick, v)
  }

  lemma ReadSourced(view: View, l: Layout, dir: Vec, name: seq<Byte>)
    requires Stable(view, l) && l.directory == Ok(dir) && ReadMetric(view, l.base, dir, name).Ok?
    ensures Sourced(view, l, ReadMetric(view, l.base, dir, name).value)
  {
    var index := FindEntry(view, dir, name).value.value;
    var k, pick := DecodeTraced(view, l, dir, index, 0);
  }
}
