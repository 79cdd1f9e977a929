/**
  The `/sys/node` projection: the shape checks that make every column access safe, the lookup of a
  uniquely named node, and its agreement with reading the same counter through an alias.
 */
module NodeProjection {
  import opened Bytes
  import opened StatsSegment
  import opened StatsSymlinks

  type Name = seq<Byte>

  function Ascii(text: string): Name { seq(|text|, i requires 0 <= i < |text| => text[i] as int % 256) }

  datatype NodeCounter = Clocks | Vectors | Calls | Suspends

  function NamesEntry(): Name { Ascii("/sys/node/names") }
  function WorkersEntry(): Name { Ascii("/sys/num_worker_threads") }

  function CounterEntry(c: NodeCounter): Name {
    match c
    case Clocks => Ascii("/sys/node/clocks")
    case Vectors => Ascii("/sys/node/vectors")
    case Calls => Ascii("/sys/node/calls")
    case Suspends => Ascii("/sys/node/suspends")
  }

  // The directory names, byte by byte.

  /** "/sys/node/names". */
  lemma FamilyName()
    ensures NamesEntry() == [47, 115, 121, 115, 47, 110, 111, 100, 101, 47]
                  + [110, 97, 109, 101, 115]
  {
  }

  /** "/sys/node/clocks". */
  lemma ClocksName()
    ensures CounterEntry(Clocks) == [47, 115, 121, 115, 47, 110, 111, 100, 101, 47]
                  + [99, 108, 111, 99, 107, 115]
  {
  }

  /** "/sys/node/vectors". */
  lemma VectorsName()
    ensures CounterEntry(Vectors) == [47, 115, 121, 115, 47, 110, 111, 100, 101, 47]
                  + [118, 101, 99, 116, 111, 114, 115]
  {
  }

  /** "/sys/node/calls". */
  lemma CallsName()
    ensures CounterEntry(Calls) == [47, 115, 121, 115, 47, 110, 111, 100, 101, 47]
                  + [99, 97, 108, 108, 115]
  {
  }

  /** "/sys/node/suspends". */
  lemma SuspendsName()
    ensures CounterEntry(Suspends) == [47, 115, 121, 115, 47, 110, 111, 100, 101, 47]
                  + [115, 117, 115, 112, 101, 110, 100, 115]
  {
  }

  /** "/sys/num_worker_threads". */
  lemma WorkersName()
    ensures WorkersEntry() == [47, 115, 121, 115, 47, 110, 117, 109, 95, 119, 111, 114, 107, 101, 114, 95]
                              + [116, 104, 114, 101, 97, 100, 115]
  {
  }

  datatype NodeStats = NodeStats(
    names: seq<Name>,
    clocks: seq<seq<nat>>, vectors: seq<seq<nat>>, calls: seq<seq<nat>>, suspends: seq<seq<nat>>)
  {
    function Counter(c: NodeCounter): seq<seq<nat>> {
      match c
      case Clocks => clocks
      case Vectors => vectors
      case Calls => calls
      case Suspends => suspends
    }
  }

  /** A reader answers each name with one value; here it answers the same name alike every time. */
  type Reader = Name -> Result<Metric>

  function ReadNames(read: Reader): (r: Result<seq<Name>>) {
    match read(NamesEntry())
    case Ok(Names(names)) => Ok(names)
    case Ok(_) => Err("unexpected metric type")
    case Err(e) => Err(e)
  }

  function CounterOf(read: Reader, c: NodeCounter): (r: Result<seq<seq<nat>>>) {
    match read(CounterEntry(c))
    case Ok(Simple(rows)) => Ok(rows)
    case Ok(_) => Err("unexpected metric type")
    case Err(e) => Err(e)
  }

  function ReadWorkers(read: Reader): (r: Result<nat>) {
    match read(WorkersEntry())
    case Ok(Scalar(n)) => Ok(n)
    case Ok(Gauge(n)) => Ok(n)
    case Ok(_) => Err("unexpected metric type")
    case Err(e) => Err(e)
  }

  /** One row per thread and one column per node, in all four counters. */
  ghost predicate Shaped(s: NodeStats, threads: nat) {
    forall c: NodeCounter ::
      |s.Counter(c)| == threads
      && forall row :: 0 <= row < threads ==> |s.Counter(c)[row]| == |s.names|
  }

  /** What the segment holds, whatever its shape. */
  ghost predicate Gathered(read: Reader, s: NodeStats) {
    read(NamesEntry()) == Ok(Names(s.names)) && forall c: NodeCounter :: read(CounterEntry(c)) == Ok(Simple(s.Counter(c)))
  }

  /** The worker count is published as a scalar or as a gauge. */
  ghost predicate WorkersAre(read: Reader, n: nat) {
    read(WorkersEntry()) == Ok(Scalar(n)) || read(WorkersEntry()) == Ok(Gauge(n))
  }

  method SameColumns(rows: seq<seq<nat>>, columns: nat) returns (ok: bool)
    ensures ok <==> forall row :: 0 <= row < |rows| ==> |rows[row]| == columns
  {
    for row := 0 to |rows|
      invariant forall i :: 0 <= i < row ==> |rows[i]| == columns
    {
      if |rows[row]| != columns {
        return false;
      }
    }
    ok := true;
  }

  const USIZE_MAX: nat := 0xffff_ffff_ffff_ffff

  /** `report` answers, or panics when the thread count plus thread zero does not fit a machine word. */
  datatype Reported = Answered(answer: Result<Option<NodeStats>>) | Panicked

  /** The five entries are there, with their types, and rectangular. */
  ghost predicate Rectangular(listing: Result<seq<Name>>, read: Reader, s: NodeStats) {
    && listing.Ok? && NamesEntry() in listing.value
    && Gathered(read, s) && Shaped(s, |s.clocks|)
  }

  /** `report`: absent without the name vector, and accepted exactly when the shape fits the worker count. */
  method Report(listing: Result<seq<Name>>, read: Reader) returns (r: Reported)
    ensures r == Answered(Ok(None)) <==> listing.Ok? && NamesEntry() !in listing.value
    ensures forall s :: r == Answered(Ok(Some(s))) <==>
      Rectangular(listing, read, s) && 0 < |s.clocks| <= USIZE_MAX && WorkersAre(read, |s.clocks| - 1)
    ensures r == Panicked <==>
      (exists n :: USIZE_MAX <= n && WorkersAre(read, n)) && exists s :: Rectangular(listing, read, s)
  {
    if listing.Err? {
      return Answered(Err(listing.error));
    }
    if NamesEntry() !in listing.value {
      return Answered(Ok(None));
    }
    var names := ReadNames(read);
    if names.Err? { return Answered(Err(names.error)); }
    var clocks := CounterOf(read, Clocks);
    if clocks.Err? { return Answered(Err(clocks.error)); }
    var vectors := CounterOf(read, Vectors);
    if vectors.Err? { return Answered(Err(vectors.error)); }
    var calls := CounterOf(read, Calls);
    if calls.Err? { return Answered(Err(calls.error)); }
    var suspends := CounterOf(read, Suspends);
    if suspends.Err? { return Answered(Err(suspends.error)); }
    var stats := NodeStats(names.value, clocks.value, vectors.value, calls.value, suspends.value);
    assert Gathered(read, stats);
    assert forall s :: Gathered(read, s) ==> s == stats by {
      forall s | Gathered(read, s) ensures s == stats { GatheredOnce(read, s, stats); }
    }
    var shaped := CheckShape(stats);
    if !shaped {
      return Answered(Err("unexpected row or column count"));
    }
    var workers := ReadWorkers(read);
    if workers.Err? { return Answered(Err(workers.error)); }
    WorkersOnce(read, workers.value);
    assert Rectangular(listing, read, stats);
    if USIZE_MAX <= workers.value {
      return Panicked;
    }
    if |stats.clocks| != workers.value + 1 {
      return Answered(Err("worker count mismatch"));
    }
    r := Answered(Ok(Some(stats)));
  }

  lemma WorkersOnce(read: Reader, n: nat)
    requires ReadWorkers(read) == Ok(n)
    ensures WorkersAre(read, n) && forall k :: WorkersAre(read, k) ==> k == n
  {
  }

  lemma GatheredOnce(read: Reader, s: NodeStats, t: NodeStats)
    requires Gathered(read, s) && Gathered(read, t)
    ensures s == t
  {
    assert forall c: NodeCounter :: s.Counter(c) == t.Counter(c);
    assert s.Counter(Clocks) == t.Counter(Clocks) && s.Counter(Vectors) == t.Counter(Vectors);
    assert s.Counter(Calls) == t.Counter(Calls) && s.Counter(Suspends) == t.Counter(Suspends);
  }

  /** The two loops of shape checks. */
  method CheckShape(s: NodeStats) returns (ok: bool)
    ensures ok <==> Shaped(s, |s.clocks|)
  {
    var counters := [Clocks, Vectors, Calls, Suspends];
    assert counters[0] == Clocks && counters[1] == Vectors && counters[2] == Calls && counters[3] == Suspends;
    for i := 0 to |counters|
      invariant forall k :: 0 <= k < i ==> |s.Counter(counters[k])| == |s.clocks|
    {
      if |s.Counter(counters[i])| != |s.clocks| {
        return false;
      }
    }
    for i := 0 to |counters|
      invariant forall k :: 0 <= k < i ==>
        forall row :: 0 <= row < |s.clocks| ==> |s.Counter(counters[k])[row]| == |s.names|
    {
      var same := SameColumns(s.Counter(counters[i]), |s.names|);
      if !same {
        return false;
      }
    }
    forall c: NodeCounter
      ensures |s.Counter(c)| == |s.clocks|
      ensures forall row :: 0 <= row < |s.clocks| ==> |s.Counter(c)[row]| == |s.names|
    {
      var k := match c { case Clocks => 0 case Vectors => 1 case Calls => 2 case Suspends => 3 };
      assert counters[k] == c;
    }
    ok := true;
  }

  // ----- one node

  datatype NodeUsage = NodeUsage(name: Name, clocks: seq<nat>, vectors: seq<nat>, calls: seq<nat>, suspends: seq<nat>)
  {
    function Counter(c: NodeCounter): seq<nat> {
      match c
      case Clocks => clocks
      case Vectors => vectors
      case Calls => calls
      case Suspends => suspends
    }
  }

  function NodeColumn(rows: seq<seq<nat>>, slot: nat): (r: seq<nat>)
    requires forall row :: 0 <= row < |rows| ==> slot < |rows[row]|
  {
    seq(|rows|, row requires 0 <= row < |rows| => rows[row][slot])
  }

  /** The first slot at or after `from` with this name. */
  function NextSlot(names: seq<Name>, name: Name, from: nat): (slot: nat)
    requires from <= |names|
    ensures from <= slot <= |names|
    ensures slot < |names| ==> names[slot] == name
    ensures forall i :: from <= i < slot ==> names[i] != name
    decreases |names| - from
  {
    if from == |names| || names[from] == name then from else NextSlot(names, name, from + 1)
  }

  /** `node`: no column for a name that is absent or published twice. */
  function NodeOf(s: NodeStats, name: Name, threads: nat): (r: Option<NodeUsage>)
    requires Shaped(s, threads)
  {
    var slot := NextSlot(s.names, name, 0);
    if slot == |s.names| then None
    else if NextSlot(s.names, name, slot + 1) < |s.names| then None
    else
      ColumnsInRange(s, threads, slot);
      Some(NodeUsage(name, NodeColumn(s.clocks, slot), NodeColumn(s.vectors, slot),
                     NodeColumn(s.calls, slot), NodeColumn(s.suspends, slot)))
  }

  /** The shape checks keep every column access in range. */
  lemma ColumnsInRange(s: NodeStats, threads: nat, slot: nat)
    requires Shaped(s, threads) && slot < |s.names|
    ensures forall row :: 0 <= row < |s.clocks| ==> slot < |s.clocks[row]|
    ensures forall row :: 0 <= row < |s.vectors| ==> slot < |s.vectors[row]|
    ensures forall row :: 0 <= row < |s.calls| ==> slot < |s.calls[row]|
    ensures forall row :: 0 <= row < |s.suspends| ==> slot < |s.suspends[row]|
  {
    assert s.Counter(Clocks) == s.clocks && s.Counter(Vectors) == s.vectors;
    assert s.Counter(Calls) == s.calls && s.Counter(Suspends) == s.suspends;
  }

  ghost predicate UniqueSlot(names: seq<Name>, name: Name, slot: nat) {
    slot < |names| && forall i :: 0 <= i < |names| ==> (names[i] == name <==> i == slot)
  }

  lemma SlotUnique(names: seq<Name>, name: Name, slot: nat)
    requires UniqueSlot(names, name, slot)
    ensures NextSlot(names, name, 0) == slot && NextSlot(names, name, slot + 1) == |names|
  {
    assert names[slot] == name;
  }

  /** A node is found exactly when its name occupies one slot. */
  lemma NodeExactly(s: NodeStats, name: Name, threads: nat)
    requires Shaped(s, threads)
    ensures NodeOf(s, name, threads).Some? <==> exists slot: nat :: UniqueSlot(s.names, name, slot)
  {
    var first := NextSlot(s.names, name, 0);
    if NodeOf(s, name, threads).Some? {
      assert UniqueSlot(s.names, name, first);
    }
    if slot: nat :| UniqueSlot(s.names, name, slot) {
      SlotUnique(s.names, name, slot);
    }
  }

  /** And then its usage is that slot's column. */
  lemma NodeUsed(s: NodeStats, name: Name, threads: nat, slot: nat, c: NodeCounter)
    requires Shaped(s, threads) && UniqueSlot(s.names, name, slot)
    ensures var node := NodeOf(s, name, threads);
            && node.Some? && node.value.name == name && |node.value.Counter(c)| == threads
            && forall row :: 0 <= row < threads ==> node.value.Counter(c)[row] == s.Counter(c)[row][slot]
  {
    SlotUnique(s.names, name, slot);
    ColumnsInRange(s, threads, slot);
    assert |s.Counter(c)| == threads;
  }

  // ----- agreement with the alias

  function Flatten(rows: seq<seq<nat>>): (r: seq<nat>) {
    if rows == [] then [] else rows[0] + Flatten(rows[1..])
  }

  lemma {:induction false} FlattenColumn(rows: seq<seq<nat>>, slot: nat)
    requires forall row :: 0 <= row < |rows| ==> slot < |rows[row]|
    ensures Crop(rows, slot).Ok? && Flatten(Crop(rows, slot).value) == NodeColumn(rows, slot)
    decreases |rows|
  {
    var cropped := Crop(rows, slot).value;
    if rows != [] {
      FlattenColumn(rows[1..], slot);
      assert cropped[1..] == Crop(rows[1..], slot).value;
      assert NodeColumn(rows, slot) == [rows[0][slot]] + NodeColumn(rows[1..], slot);
    }
  }

  /**
    Reading through a link crops what the target reads as, unless the target is itself a chain of
    links so long that the one more goes over the limit.
   */
  lemma LinkReads(m: Mem, base: nat, dir: Vec, link: nat)
    requires IsLink(m, dir, link)
    requires DecodeEntry(Frozen(m), base, dir, Target(m, dir, link), 0).Ok?
    ensures DecodeEntry(Frozen(m), base, dir, link, 0)
         == if Links(m, dir, Target(m, dir, link), 15) then Err("symlink cycle")
            else Column(DecodeEntry(Frozen(m), base, dir, Target(m, dir, link), 0).value,
                        LinkColumn(ReadEntry(dir, m, link).value))
  {
    var target := Target(m, dir, link);
    PathFromTarget(m, dir, link, 15);
    if Links(m, dir, target, 15) {
      LimitReached(m, base, dir, link, 0);
    } else {
      var k := PathEnds(m, dir, target, 15);
      PathResolves(m, base, dir, target, 0, k);
      PathResolves(m, base, dir, target, 1, k);
    }
  }

  /** The reader of one unchanging segment. */
  function SegmentReader(m: Mem, base: nat, dir: Vec): Reader {
    (name: Name) => ReadMetric(Frozen(m), base, dir, name)
  }

  /**
    For an accepted report and a uniquely named node, the node's counter equals the flattened value
    of any alias that links to the counter's entry with the node's slot as its column.
   */
  lemma AliasAgrees(
    m: Mem, base: nat, dir: Vec, s: NodeStats, threads: nat, name: Name, slot: nat, c: NodeCounter,
    alias: Name, at: nat, counter: nat
  )
    requires Gathered(SegmentReader(m, base, dir), s) && Shaped(s, threads) && UniqueSlot(s.names, name, slot)
    requires FindEntry(Frozen(m), dir, CounterEntry(c)) == Ok(Some(counter))
    requires FindEntry(Frozen(m), dir, alias) == Ok(Some(at))
    requires IsLink(m, dir, at) && Target(m, dir, at) == counter
    requires LinkColumn(ReadEntry(dir, m, at).value) == slot
    requires !Links(m, dir, counter, 15)
    ensures NodeOf(s, name, threads).Some?
    ensures var read := ReadMetric(Frozen(m), base, dir, alias);
            read.Ok? && read.value.Simple? && Flatten(read.value.rows) == NodeOf(s, name, threads).value.Counter(c)
  {
    NodeUsed(s, name, threads, slot, c);
    var read := SegmentReader(m, base, dir);
    assert CounterOf(read, c) == Ok(s.Counter(c));
    assert read(CounterEntry(c)) == Ok(Simple(s.Counter(c)));
    LinkReads(m, base, dir, at);
    var rows := s.Counter(c);
    assert forall row :: 0 <= row < |rows| ==> slot < |rows[row]|;
    FlattenColumn(rows, slot);
    assert NodeColumn(rows, slot) == NodeOf(s, name, threads).value.Counter(c);
  }
}
