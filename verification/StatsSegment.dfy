/**
  The stats segment as a read-only reader sees it: a header, a directory of fixed-size entries, and
  vectors behind published pointers. Nothing here may assume that two reads see the same memory:
  every read names its site, and `view` says which memory that site found.
 */
module StatsSegment {
  import opened Bytes

  type Mem = seq<Byte>

  const VERSION: nat := 2
  const HEADER_BYTES: nat := 40
  const VECTOR_HEADER_BYTES: nat := 8
  const ENTRY_BYTES: nat := 144
  const NAME_BYTES: nat := 128
  const MAX_NAME_LENGTH: nat := 126
  const SYMLINK_LIMIT: nat := 16

  // Directory entry type codes.
  const SCALAR: nat := 1
  const SIMPLE: nat := 2
  const COMBINED: nat := 3
  const NAME_VECTOR: nat := 4
  const SYMLINK: nat := 6
  const GAUGE: nat := 9

  /** One read of one decode; each happens at most once. */
  datatype Site =
    | DirectoryHead            // the directory's vector header
    | Listing(index: nat)      // an entry while searching or listing
    | Visit(depth: nat)        // an entry while following links
    | OuterHead                // a metric's outer vector header
    | Pointer(row: nat)
    | RowHead(row: nat)
    | Cell(row: nat, column: nat)
    | NameScan(row: nat)       // a string is scanned for its end, then validated, then copied
    | NameCheck(row: nat)
    | NameCopy(row: nat)

  type View = Site -> Mem

  /** A mapping nobody writes. */
  function Frozen(m: Mem): View { _ => m }

  function U32At(m: Mem, at: nat): (n: nat)
    requires at + 4 <= |m|
  {
    FromLittleEndian(m[at..at + 4])
  }

  function U64At(m: Mem, at: nat): (n: nat)
    requires at + 8 <= |m|
  {
    FromLittleEndian(m[at..at + 8])
  }

  // ----- vectors

  datatype Vec = Vec(data: nat, length: nat)

  function Resolve(m: Mem, base: nat, published: nat): (r: Result<Vec>)
    ensures r.Ok? ==> base + VECTOR_HEADER_BYTES <= published && r.value.data == published - base <= |m|
  {
    if published < base then Err("pointer before base")
    else if published - base < VECTOR_HEADER_BYTES || |m| < published - base then Err("vector out of bounds")
    else Ok(Vec(published - base, U32At(m, published - base - VECTOR_HEADER_BYTES)))
  }

  /** `element`: overflowing offsets and offsets past the mapping are refused alike. */
  function Element(v: Vec, m: Mem, index: nat, size: nat): (r: Result<Mem>)
    ensures r.Ok? ==> index < v.length && |r.value| == size
  {
    if v.length <= index then Err("element out of bounds")
    else if |m| < v.data + index * size + size then Err("vector out of bounds")
    else Ok(m[v.data + index * size..v.data + index * size + size])
  }

  function ReadWord(v: Vec, m: Mem, index: nat): (r: Result<nat>) {
    var e := Element(v, m, index, 8);
    if e.Err? then Err(e.error) else Ok(FromLittleEndian(e.value))
  }

  // ----- directory entries

  datatype Entry = Entry(kind: nat, data: nat, name: seq<Byte>)

  function ParseEntry(bytes: Mem): Entry
    requires |bytes| == ENTRY_BYTES
  {
    Entry(U32At(bytes, 0), U64At(bytes, 8), bytes[16..])
  }

  function ReadEntry(dir: Vec, m: Mem, index: nat): (r: Result<Entry>)
    ensures r.Ok? ==> |r.value.name| == NAME_BYTES
  {
    var e := Element(dir, m, index, ENTRY_BYTES);
    if e.Err? then Err(e.error) else Ok(ParseEntry(e.value))
  }

  /** The position of the first zero byte, or the length. */
  function Nul(bytes: seq<Byte>): (n: nat)
    ensures n <= |bytes|
    ensures n < |bytes| ==> bytes[n] == 0
    ensures forall i :: 0 <= i < n ==> bytes[i] != 0
  {
    if bytes == [] || bytes[0] == 0 then 0 else 1 + Nul(bytes[1..])
  }

  function EntryName(name: seq<Byte>): (r: Result<seq<Byte>>)
    requires |name| == NAME_BYTES
  {
    var nul := Nul(name);
    if nul == |name| then Err("missing terminator")
    else if MAX_NAME_LENGTH < nul then Err("name too long")
    else if exists i :: nul < i < |name| && name[i] != 0 then Err("padding is not zero")
    else if !ValidUtf8(name[..nul]) then Err("not UTF-8")
    else Ok(name[..nul])
  }

  function LinkTarget(e: Entry): nat { e.data % 0x1_0000_0000 }
  function LinkColumn(e: Entry): nat { e.data / 0x1_0000_0000 }

  // ----- values

  datatype Counter = Counter(packets: nat, bytes: nat)

  datatype Metric =
    | Scalar(n: nat)
    | Gauge(n: nat)
    | Simple(rows: seq<seq<nat>>)
    | Combined(counters: seq<seq<Counter>>)
    | Names(names: seq<seq<Byte>>)

  /** Keep one column of every row. */
  function Crop<T>(rows: seq<seq<T>>, column: nat): (r: Result<seq<seq<T>>>)
    ensures r.Ok? <==> forall i :: 0 <= i < |rows| ==> column < |rows[i]|
    ensures r.Ok? ==> |r.value| == |rows| && forall i :: 0 <= i < |rows| ==> r.value[i] == [rows[i][column]]
  {
    if rows == [] then Ok([])
    else
      var rest := Crop(rows[..|rows| - 1], column);
      var last := rows[|rows| - 1];
      if rest.Err? then rest
      else if |last| <= column then Err("element out of bounds")
      else Ok(rest.value + [[last[column]]])
  }

  function Column(v: Metric, column: nat): (r: Result<Metric>) {
    match v
    case Simple(rows) =>
      var c := Crop(rows, column);
      if c.Err? then Err(c.error) else Ok(Simple(c.value))
    case Combined(rows) =>
      var c := Crop(rows, column);
      if c.Err? then Err(c.error) else Ok(Combined(c.value))
    case _ => Ok(v)
  }

  /** The rows' loop of the code. */
  method CropRows<T>(rows: seq<seq<T>>, column: nat) returns (r: Result<seq<seq<T>>>)
    ensures r.Ok? <==> forall i :: 0 <= i < |rows| ==> column < |rows[i]|
    ensures r.Ok? ==> Crop(rows, column) == r
  {
    var cropped: seq<seq<T>> := [];
    for i := 0 to |rows|
      invariant |cropped| == i
      invariant forall k :: 0 <= k < i ==> column < |rows[k]| && cropped[k] == [rows[k][column]]
    {
      if |rows[i]| <= column {
        return Err("element out of bounds");
      }
      cropped := cropped + [[rows[i][column]]];
    }
    assert Crop(rows, column).Ok? && Crop(rows, column).value == cropped;
    r := Ok(cropped);
  }

  // ----- decoding

  /** One read per index, in order; the first failure ends it. */
  function Gather<T>(read: nat -> Result<T>, length: nat, from: nat): (r: Result<seq<T>>)
    ensures r.Ok? ==> |r.value| == if from <= length then length - from else 0
    decreases length - from
  {
    if length <= from then Ok([])
    else if read(from).Err? then Err(read(from).error)
    else
      var rest := Gather(read, length, from + 1);
      if rest.Err? then rest else Ok([read(from).value] + rest.value)
  }

  /** The loop that the names, the rows and the cells of a row are all pushed by. */
  method PushAll<T>(read: nat -> Result<T>, length: nat) returns (r: Result<seq<T>>)
    ensures r == Gather(read, length, 0)
  {
    var values: seq<T> := [];
    ghost var whole := Gather(read, length, 0);
    assert whole.Ok? ==> [] + whole.value == whole.value;
    for i := 0 to length
      invariant Gather(read, length, 0) == Onto(values, Gather(read, length, i))
    {
      if read(i).Err? {
        return Err(read(i).error);
      }
      OntoNext(values, read, length, i);
      values := values + [read(i).value];
    }
    assert values + [] == values;
    r := Ok(values);
  }

  function Onto<T>(done: seq<T>, rest: Result<seq<T>>): (r: Result<seq<T>>) {
    if rest.Err? then rest else Ok(done + rest.value)
  }

  lemma OntoNext<T>(done: seq<T>, read: nat -> Result<T>, length: nat, i: nat)
    requires i < length && read(i).Ok?
    ensures Onto(done, Gather(read, length, i)) == Onto(done + [read(i).value], Gather(read, length, i + 1))
  {
    var rest := Gather(read, length, i + 1);
    assert rest.Ok? ==> done + ([read(i).value] + rest.value) == (done + [read(i).value]) + rest.value;
  }

  function ReadCounter(v: Vec, m: Mem, index: nat): (r: Result<Counter>) {
    var e := Element(v, m, index, 16);
    if e.Err? then Err(e.error)
    else Ok(Counter(FromLittleEndian(e.value[..8]), FromLittleEndian(e.value[8..])))
  }

  function CellsIn(view: View, row: nat, v: Vec): nat -> Result<nat> {
    (column: nat) => ReadWord(v, view(Cell(row, column)), column)
  }

  function CountersIn(view: View, row: nat, v: Vec): nat -> Result<Counter> {
    (column: nat) => ReadCounter(v, view(Cell(row, column)), column)
  }

  /** `inner_vector`: a null row pointer is an empty row. */
  function RowVector(view: View, base: nat, outer: Vec, row: nat): (r: Result<Option<Vec>>) {
    var p := ReadWord(outer, view(Pointer(row)), row);
    if p.Err? then Err(p.error)
    else if p.value == 0 then Ok(None)
    else
      var v := Resolve(view(RowHead(row)), base, p.value);
      if v.Err? then Err(v.error) else Ok(Some(v.value))
  }

  function SimpleRow(view: View, base: nat, outer: Vec, row: nat): (r: Result<seq<nat>>) {
    var v := RowVector(view, base, outer, row);
    if v.Err? then Err(v.error)
    else if v.value.None? then Ok([])
    else Gather(CellsIn(view, row, v.value.value), v.value.value.length, 0)
  }

  function CombinedRow(view: View, base: nat, outer: Vec, row: nat): (r: Result<seq<Counter>>) {
    var v := RowVector(view, base, outer, row);
    if v.Err? then Err(v.error)
    else if v.value.None? then Ok([])
    else Gather(CountersIn(view, row, v.value.value), v.value.value.length, 0)
  }

  function SimpleRowsIn(view: View, base: nat, outer: Vec): nat -> Result<seq<nat>> {
    (row: nat) => SimpleRow(view, base, outer, row)
  }

  function CombinedRowsIn(view: View, base: nat, outer: Vec): nat -> Result<seq<Counter>> {
    (row: nat) => CombinedRow(view, base, outer, row)
  }

  function Slice(m: Mem, at: nat, count: nat): (bytes: seq<Byte>) {
    if at + count <= |m| then m[at..at + count] else []
  }

  /** The bytes behind a pointer, up to the terminator or the end of the mapping. */
  function RawText(m: Mem, base: nat, published: nat): (r: Result<seq<Byte>>)
    ensures r.Ok? ==> base <= published && published - base + |r.value| <= |m|
    ensures r.Ok? ==> m[published - base..published - base + |r.value|] == r.value
  {
    if published < base then Err("pointer before base")
    else if |m| < published - base then Err("name out of bounds")
    else
      var text := m[published - base..];
      Ok(text[..Nul(text)])
  }

  /**
    The text behind a pointer, scanned, validated and copied from what may be three memories. An offset
    past the mapping, where the code panics, is an error here.
   */
  function TextAt(scan: Mem, check: Mem, copy: Mem, base: nat, published: nat): (r: Result<seq<Byte>>) {
    var raw := RawText(scan, base, published);
    if raw.Err? then raw
    else if published - base + |raw.value| == |scan| then Err("missing terminator")
    else if !ValidUtf8(Slice(check, published - base, |raw.value|)) then Err("not UTF-8")
    else Ok(Slice(copy, published - base, |raw.value|))
  }

  /** One string of a name vector. */
  function NameAt(view: View, base: nat, outer: Vec, row: nat): (r: Result<seq<Byte>>) {
    var p := ReadWord(outer, view(Pointer(row)), row);
    if p.Err? then Err(p.error)
    else TextAt(view(NameScan(row)), view(NameCheck(row)), view(NameCopy(row)), base, p.value)
  }

  function TextsIn(view: View, base: nat, outer: Vec): nat -> Result<seq<Byte>> {
    (row: nat) => NameAt(view, base, outer, row)
  }

  /** The value of an entry that is not a link. */
  function Terminal(view: View, base: nat, e: Entry): (r: Result<Metric>) {
    if e.kind == SCALAR then Ok(Scalar(e.data))
    else if e.kind == GAUGE then Ok(Gauge(e.data))
    else if e.kind == SIMPLE || e.kind == COMBINED || e.kind == NAME_VECTOR then
      var outer := Resolve(view(OuterHead), base, e.data);
      if outer.Err? then Err(outer.error)
      else if e.kind == SIMPLE then
        var rows := Gather(SimpleRowsIn(view, base, outer.value), outer.value.length, 0);
        if rows.Err? then Err(rows.error) else Ok(Simple(rows.value))
      else if e.kind == COMBINED then
        var rows := Gather(CombinedRowsIn(view, base, outer.value), outer.value.length, 0);
        if rows.Err? then Err(rows.error) else Ok(Combined(rows.value))
      else
        var names := Gather(TextsIn(view, base, outer.value), outer.value.length, 0);
        if names.Err? then Err(names.error) else Ok(Names(names.value))
    else Err("unsupported or unknown directory type")
  }

  function DecodeEntry(view: View, base: nat, dir: Vec, index: nat, depth: nat): (r: Result<Metric>)
    decreases SYMLINK_LIMIT - depth
  {
    if SYMLINK_LIMIT <= depth then Err("symlink cycle")
    else
      var e := ReadEntry(dir, view(Visit(depth)), index);
      if e.Err? then Err(e.error)
      else if e.value.kind == SYMLINK then
        var target := DecodeEntry(view, base, dir, LinkTarget(e.value), depth + 1);
        if target.Err? then target else Column(target.value, LinkColumn(e.value))
      else Terminal(view, base, e.value)
  }

  function PublishedName(dir: Vec, m: Mem, index: nat): (r: Result<seq<Byte>>) {
    var e := ReadEntry(dir, m, index);
    if e.Err? then Err(e.error) else EntryName(e.value.name)
  }

  /** The name found at each index, as a search or listing reads it. */
  function NamesIn(view: View, dir: Vec): nat -> Result<seq<Byte>> {
    (i: nat) => PublishedName(dir, view(Listing(i)), i)
  }

  function FindName(published: nat -> Result<seq<Byte>>, length: nat, name: seq<Byte>, from: nat): (r: Result<Option<nat>>)
    decreases length - from
  {
    if length <= from then Ok(None)
    else if published(from).Err? then Err(published(from).error)
    else if published(from).value == name then Ok(Some(from))
    else FindName(published, length, name, from + 1)
  }

  /** `find_entry`: the first entry with that name; an unreadable entry on the way ends the search. */
  function FindEntry(view: View, dir: Vec, name: seq<Byte>): (r: Result<Option<nat>>) {
    FindName(NamesIn(view, dir), dir.length, name, 0)
  }

  function ListNames(view: View, dir: Vec): (r: Result<seq<seq<Byte>>>) {
    Gather(NamesIn(view, dir), dir.length, 0)
  }

  function ReadMetric(view: View, base: nat, dir: Vec, name: seq<Byte>): (r: Result<Metric>) {
    var found := FindEntry(view, dir, name);
    if found.Err? then Err(found.error)
    else if found.value.None? then Err("metric not found")
    else DecodeEntry(view, base, dir, found.value.value, 0)
  }

  // ----- the header

  function Version(m: Mem): nat requires HEADER_BYTES <= |m| { U64At(m, 0) }
  function Base(m: Mem): nat requires HEADER_BYTES <= |m| { U64At(m, 8) }
  function Epoch(m: Mem): nat requires HEADER_BYTES <= |m| { U64At(m, 16) }
  function InProgress(m: Mem): nat requires HEADER_BYTES <= |m| { U64At(m, 24) }
  function DirectoryPointer(m: Mem): nat requires HEADER_BYTES <= |m| { U64At(m, 32) }
}
