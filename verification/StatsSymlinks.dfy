/**
  Symlinks over an arbitrary directory graph: when a read reports a cycle, and what value it gives
  otherwise.
 */
module StatsSymlinks {
  import opened Bytes
  import opened StatsSegment

  predicate IsLink(m: Mem, dir: Vec, index: nat) {
    var e := ReadEntry(dir, m, index);
    e.Ok? && e.value.kind == 6
  }

  function Target(m: Mem, dir: Vec, index: nat): nat
    requires IsLink(m, dir, index)
  {
    LinkTarget(ReadEntry(dir, m, index).value)
  }

  /** The entry `k` links on; a path that meets something other than a link stays there. */
  function Follow(m: Mem, dir: Vec, index: nat, k: nat): nat
    decreases k
  {
    if k == 0 || !IsLink(m, dir, index) then index else Follow(m, dir, Target(m, dir, index), k - 1)
  }

  /** The first `k` entries on the path are all links. */
  ghost predicate Links(m: Mem, dir: Vec, index: nat, k: nat) {
    forall i: nat :: i < k ==> IsLink(m, dir, Follow(m, dir, index, i))
  }

  /** The columns of the first `k` links, from the entry asked for towards the target. */
  function Columns(m: Mem, dir: Vec, index: nat, k: nat): seq<nat>
    decreases k
  {
    if k == 0 || !IsLink(m, dir, index) then []
    else [LinkColumn(ReadEntry(dir, m, index).value)] + Columns(m, dir, Target(m, dir, index), k - 1)
  }

  /** Crop by every column, the last one first. */
  function CropAll(v: Result<Metric>, columns: seq<nat>): (r: Result<Metric>) {
    if columns == [] then v
    else
      var inner := CropAll(v, columns[1..]);
      if inner.Err? then inner else Column(inner.value, columns[0])
  }

  /** The value of the entry a path ends at. */
  function ValueAt(m: Mem, base: nat, dir: Vec, index: nat): (r: Result<Metric>) {
    var e := ReadEntry(dir, m, index);
    if e.Err? then Err(e.error) else Terminal(Frozen(m), base, e.value)
  }

  /** One link on, the rest of the path is the path from the target. */
  lemma PathFromTarget(m: Mem, dir: Vec, index: nat, k: nat)
    requires IsLink(m, dir, index)
    ensures Links(m, dir, index, k + 1) <==> Links(m, dir, Target(m, dir, index), k)
    ensures Follow(m, dir, index, k + 1) == Follow(m, dir, Target(m, dir, index), k)
  {
    var target := Target(m, dir, index);
    assert forall i: nat :: Follow(m, dir, index, i + 1) == Follow(m, dir, target, i);
    if Links(m, dir, index, k + 1) {
      forall i: nat | i < k ensures IsLink(m, dir, Follow(m, dir, target, i)) {
        assert Follow(m, dir, index, i + 1) == Follow(m, dir, target, i);
      }
    }
    if Links(m, dir, target, k) {
      forall i: nat | i < k + 1 ensures IsLink(m, dir, Follow(m, dir, index, i)) {
        if 0 < i { assert Follow(m, dir, index, i) == Follow(m, dir, target, i - 1); }
      }
    }
  }

  lemma {:induction false} LimitReached(m: Mem, base: nat, dir: Vec, index: nat, depth: nat)
    requires depth <= 16 && Links(m, dir, index, 16 - depth)
    ensures DecodeEntry(Frozen(m), base, dir, index, depth) == Err("symlink cycle")
    decreases 16 - depth
  {
    if depth < 16 {
      assert IsLink(m, dir, Follow(m, dir, index, 0));
      PathFromTarget(m, dir, index, 16 - depth - 1);
      LimitReached(m, base, dir, Target(m, dir, index), depth + 1);
    }
  }

  lemma {:induction false} PathResolves(m: Mem, base: nat, dir: Vec, index: nat, depth: nat, k: nat)
    requires depth + k < 16 && Links(m, dir, index, k) && !IsLink(m, dir, Follow(m, dir, index, k))
    ensures DecodeEntry(Frozen(m), base, dir, index, depth)
         == CropAll(ValueAt(m, base, dir, Follow(m, dir, index, k)), Columns(m, dir, index, k))
    decreases k
  {
    if 0 < k {
      assert IsLink(m, dir, Follow(m, dir, index, 0));
      PathFromTarget(m, dir, index, k - 1);
      var target := Target(m, dir, index);
      PathResolves(m, base, dir, target, depth + 1, k - 1);
      assert Columns(m, dir, index, k)[1..] == Columns(m, dir, target, k - 1);
    }
  }

  /** A path either runs through at least `limit` links or ends after fewer. */
  lemma {:induction false} PathEnds(m: Mem, dir: Vec, index: nat, limit: nat) returns (k: nat)
    ensures k <= limit && Links(m, dir, index, k)
    ensures k < limit ==> !IsLink(m, dir, Follow(m, dir, index, k))
    decreases limit
  {
    k := 0;
    if 0 < limit && IsLink(m, dir, index) {
      var n := PathEnds(m, dir, Target(m, dir, index), limit - 1);
      PathFromTarget(m, dir, index, n);
      k := n + 1;
    }
  }

  // ----- no other failure reads as a cycle

  ghost predicate NoCycle<T>(r: Result<T>) { r.Err? ==> r.error != "symlink cycle" }

  lemma {:induction false} GatherNoCycle<T>(f: nat -> Result<T>, length: nat, from: nat)
    requires forall i: nat :: NoCycle(f(i))
    ensures NoCycle(Gather(f, length, from))
    decreases length - from
  {
    if from < length { GatherNoCycle(f, length, from + 1); }
  }

  lemma RowNoCycle(view: View, base: nat, outer: Vec, row: nat)
    ensures NoCycle(SimpleRow(view, base, outer, row)) && NoCycle(CombinedRow(view, base, outer, row))
  {
    var v := RowVector(view, base, outer, row);
    if v.Ok? && v.value.Some? {
      var f, g := CellsIn(view, row, v.value.value), CountersIn(view, row, v.value.value);
      forall i: nat ensures NoCycle(f(i)) { assert NoCycle(ReadWord(v.value.value, view(Cell(row, i)), i)); }
      forall i: nat ensures NoCycle(g(i)) { assert NoCycle(ReadCounter(v.value.value, view(Cell(row, i)), i)); }
      GatherNoCycle(f, v.value.value.length, 0);
      GatherNoCycle(g, v.value.value.length, 0);
    }
  }

  lemma RowsNoCycle(view: View, base: nat, outer: Vec)
    ensures NoCycle(Gather(SimpleRowsIn(view, base, outer), outer.length, 0))
    ensures NoCycle(Gather(CombinedRowsIn(view, base, outer), outer.length, 0))
    ensures NoCycle(Gather(TextsIn(view, base, outer), outer.length, 0))
  {
    forall row: nat ensures NoCycle(SimpleRow(view, base, outer, row)) && NoCycle(CombinedRow(view, base, outer, row)) {
      RowNoCycle(view, base, outer, row);
    }
    GatherNoCycle(SimpleRowsIn(view, base, outer), outer.length, 0);
    GatherNoCycle(CombinedRowsIn(view, base, outer), outer.length, 0);
    GatherNoCycle(TextsIn(view, base, outer), outer.length, 0);
  }

  lemma ValueNoCycle(m: Mem, base: nat, dir: Vec, index: nat)
    ensures NoCycle(ValueAt(m, base, dir, index))
  {
    var e := ReadEntry(dir, m, index);
    if e.Ok? {
      var outer := Resolve(m, base, e.value.data);
      if outer.Ok? { RowsNoCycle(Frozen(m), base, outer.value); }
    }
  }

  lemma {:induction false} CropNoCycle<T>(rows: seq<seq<T>>, column: nat)
    ensures NoCycle(Crop(rows, column))
  {
    if rows != [] { CropNoCycle(rows[..|rows| - 1], column); }
  }

  lemma {:induction false} CropAllNoCycle(v: Result<Metric>, columns: seq<nat>)
    requires NoCycle(v)
    ensures NoCycle(CropAll(v, columns))
  {
    if columns != [] {
      CropAllNoCycle(v, columns[1..]);
      var inner := CropAll(v, columns[1..]);
      if inner.Ok? && inner.value.Simple? { CropNoCycle(inner.value.rows, columns[0]); }
      if inner.Ok? && inner.value.Combined? { CropNoCycle(inner.value.counters, columns[0]); }
    }
  }

  // ----- the results

  /** A cycle is reported exactly when the first 16 entries on the path are all links. */
  lemma CycleExactly(m: Mem, base: nat, dir: Vec, index: nat)
    ensures DecodeEntry(Frozen(m), base, dir, index, 0) == Err("symlink cycle")
       <==> Links(m, dir, index, 16)
  {
    var k := PathEnds(m, dir, index, 16);
    if k < 16 {
      PathResolves(m, base, dir, index, 0, k);
      ValueNoCycle(m, base, dir, Follow(m, dir, index, k));
      CropAllNoCycle(ValueAt(m, base, dir, Follow(m, dir, index, k)), Columns(m, dir, index, k));
    } else {
      LimitReached(m, base, dir, index, 0);
    }
  }

  /** Otherwise the value is the one at the end of the path, cropped from the target outward. */
  lemma ResolvedValue(m: Mem, base: nat, dir: Vec, index: nat) returns (k: nat)
    requires !Links(m, dir, index, 16)
    ensures k < 16 && Links(m, dir, index, k) && !IsLink(m, dir, Follow(m, dir, index, k))
    ensures DecodeEntry(Frozen(m), base, dir, index, 0)
         == CropAll(ValueAt(m, base, dir, Follow(m, dir, index, k)), Columns(m, dir, index, k))
  {
    k := PathEnds(m, dir, index, 16);
    PathResolves(m, base, dir, index, 0, k);
  }

  /** A path that comes back to an entry consists of links for ever, so a real cycle is always reported. */
  lemma RealCycle(m: Mem, base: nat, dir: Vec, index: nat, i: nat, j: nat)
    requires i < j && Links(m, dir, index, j) && Follow(m, dir, index, i) == Follow(m, dir, index, j)
    ensures DecodeEntry(Frozen(m), base, dir, index, 0) == Err("symlink cycle")
  {
    forall k: nat ensures IsLink(m, dir, Follow(m, dir, index, k)) { Around(m, dir, index, i, j, k); }
    LimitReached(m, base, dir, index, 0);
  }

  lemma {:induction false} Around(m: Mem, dir: Vec, index: nat, i: nat, j: nat, k: nat)
    requires i < j && Links(m, dir, index, j) && Follow(m, dir, index, i) == Follow(m, dir, index, j)
    ensures IsLink(m, dir, Follow(m, dir, index, k))
    decreases k
  {
    if j <= k {
      Around(m, dir, index, i, j, k - (j - i));
      FollowOn(m, dir, index, i, k - j);
      FollowOn(m, dir, index, j, k - j);
    }
  }

  lemma {:induction false} FollowOn(m: Mem, dir: Vec, index: nat, a: nat, b: nat)
    ensures Follow(m, dir, index, a + b) == Follow(m, dir, Follow(m, dir, index, a), b)
    decreases a
  {
    if 0 < a && IsLink(m, dir, index) { FollowOn(m, dir, Target(m, dir, index), a - 1, b); }
  }

  // ----- several crops

  ghost predicate AllZero(columns: seq<nat>) { forall i :: 0 <= i < |columns| ==> columns[i] == 0 }

  /** A value every row of which holds one element. */
  predicate Cropped(v: Metric) {
    match v
    case Simple(rows) => forall i :: 0 <= i < |rows| ==> |rows[i]| == 1
    case Combined(rows) => forall i :: 0 <= i < |rows| ==> |rows[i]| == 1
    case _ => true
  }

  predicate Rowless(v: Metric) {
    match v
    case Simple(rows) => rows == []
    case Combined(rows) => rows == []
    case _ => true
  }

  lemma ColumnCrops(v: Metric, column: nat)
    ensures Column(v, column).Ok? ==>
      Cropped(Column(v, column).value) && (Rowless(Column(v, column).value) <==> Rowless(v))
  {
  }

  /** Cropping a second time changes nothing if it is by column 0, and fails otherwise unless there are no rows. */
  lemma CropAgain(v: Metric, column: nat)
    requires Cropped(v)
    ensures Column(v, column).Ok? <==> column == 0 || Rowless(v)
    ensures Column(v, column).Ok? ==> Column(v, column).value == v
  {
    match v
    case Simple(rows) =>
      var c := Crop(rows, column);
      if c.Ok? { assert forall i :: 0 <= i < |rows| ==> c.value[i] == rows[i]; }
    case Combined(rows) =>
      var c := Crop(rows, column);
      if c.Ok? { assert forall i :: 0 <= i < |rows| ==> c.value[i] == rows[i]; }
    case _ =>
  }

  /**
    Along a chain of links the column of the link next to the target decides; every link before it
    must say column 0, unless there are no rows to crop.
   */
  lemma {:induction false} ChainCrops(v: Metric, columns: seq<nat>)
    requires columns != []
    ensures var last := Column(v, columns[|columns| - 1]);
            var r := CropAll(Ok(v), columns);
            && (r.Ok? <==> last.Ok? && (Rowless(v) || AllZero(columns[..|columns| - 1])))
            && (r.Ok? ==> r == last)
    ensures CropAll(Ok(v), columns).Ok? ==> Cropped(CropAll(Ok(v), columns).value)
  {
    var n := |columns| - 1;
    ColumnCrops(v, columns[n]);
    if n == 0 {
      assert columns[1..] == [];
      assert CropAll(Ok(v), columns[1..]) == Ok(v);
      assert columns[..0] == [];
    } else {
      var rest := columns[1..];
      ChainCrops(v, rest);
      assert columns[..n] == [columns[0]] + rest[..n - 1];
      var inner := CropAll(Ok(v), rest);
      if inner.Ok? { CropAgain(inner.value, columns[0]); }
      if AllZero(columns[..n]) { assert AllZero(rest[..n - 1]); }
      if columns[0] == 0 && AllZero(rest[..n - 1]) { assert AllZero(columns[..n]); }
      if AllZero(columns[..n]) { assert columns[..n][0] == 0; }
    }
  }
}
