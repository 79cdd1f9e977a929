/**
  The optimistic reader. A writer publishes a segment that keeps changing; the reader copies the
  header, decodes, copies the header again, and accepts only when both copies show no write in
  progress and the same epoch. A run gives the segment at every moment; a timing says at which
  moments the reads of one attempt happened.
 */
module StatsReader {
  import opened Bytes
  import opened StatsSegment
  import opened StatsStructure
  import opened StatsBytes
  import opened StatsCells

  const RETRY_LIMIT: nat := 16
  const EPOCHS: nat := 0x1_0000_0000_0000_0000

  // ----- the writer

  datatype Phase = Idle | Writing(bumped: bool)

  /** `epoch` counts all bumps, and the header holds it modulo 2^64; `layout` is the structure of `mem`. */
  datatype World = World(mem: Mem, phase: Phase, epoch: nat, layout: Layout)

  type Run = nat -> World

  predicate Published(w: World) {
    HEADER_BYTES <= |w.mem|
    && Epoch(w.mem) == w.epoch % EPOCHS
    && (InProgress(w.mem) != 0 <==> w.phase.Writing?)
    && LayoutOf(w.mem) == w.layout
  }

  /**
    Inside a write section anything may change, and the epoch must be bumped before the section
    ends. Outside one, only cells (and bytes no reader interprets) may change.
   */
  predicate WriterStep(v: World, w: World) {
    match v.phase
    case Idle => w.epoch == v.epoch && w.layout == v.layout && (w.phase == Idle || w.phase == Writing(false))
    case Writing(bumped) =>
      || (w.epoch == v.epoch && w.phase == v.phase)
      || (w.epoch == v.epoch + 1 && w.phase == Writing(true))
      || (w.epoch == v.epoch && bumped && w.phase == Idle && w.layout == v.layout)
  }

  predicate StepAt(run: Run, t: nat) { WriterStep(run(t), run(t + 1)) }

  ghost predicate Steps(run: Run) { forall t: nat :: StepAt(run, t) }

  ghost predicate Protocol(run: Run) {
    Steps(run) && forall t: nat :: Published(run(t))
  }

  /** No write section touches the moments from `i` to `j`, and they share one structure. */
  ghost predicate Quiet(run: Run, i: nat, j: nat) {
    forall t: nat :: i <= t <= j ==> run(t).phase.Idle? && run(t).layout == run(i).layout
  }

  /** Seen from an idle moment, the run is still quiet, or it is writing, or the epoch has moved on. */
  lemma {:induction false} Since(run: Run, i: nat, j: nat)
    requires Steps(run) && i <= j && run(i).phase.Idle?
    ensures run(i).epoch <= run(j).epoch
    ensures run(j).phase == Writing(true) ==> run(i).epoch < run(j).epoch
    ensures run(j).phase.Idle? && run(i).epoch == run(j).epoch ==> Quiet(run, i, j)
    ensures Quiet(run, i, j) ==> run(i).epoch == run(j).epoch
    decreases j - i
  {
    if i < j {
      Since(run, i, j - 1);
      assert StepAt(run, j - 1);
      assert Quiet(run, i, j) ==> Quiet(run, i, j - 1);
    }
  }

  /** Between idle moments, an unmoved epoch and a quiet run are the same thing. */
  lemma QuietExactly(run: Run, i: nat, j: nat)
    requires Steps(run) && i <= j && run(i).phase.Idle? && run(j).phase.Idle?
    ensures Quiet(run, i, j) <==> run(i).epoch == run(j).epoch
  {
    Since(run, i, j);
  }

  // ----- one attempt

  /** The header copies are made at `start` and `end`; in between, every byte of every read has its own moment. */
  datatype Timing = Timing(start: nat, end: nat, clock: (Site, nat) -> nat)

  ghost predicate Ordered(w: Timing) {
    w.start <= w.end && forall site, a: nat :: w.start <= w.clock(site, a) <= w.end
  }

  function SourcesOf(run: Run, w: Timing, site: Site): Sources { (a: nat) => run(w.clock(site, a)).mem }

  /** What a read finds, put together from bytes of different moments. */
  function ViewOf(run: Run, w: Timing): View {
    site => Compose(SourcesOf(run, w, site), |run(w.start).mem|)
  }

  /** The two header copies let the attempt through. */
  predicate Admitted(run: Run, w: Timing)
    requires HEADER_BYTES <= |run(w.start).mem| && HEADER_BYTES <= |run(w.end).mem|
  {
    && InProgress(run(w.start).mem) == 0 && InProgress(run(w.end).mem) == 0
    && Epoch(run(w.start).mem) == Epoch(run(w.end).mem)
  }

  /** Fewer than 2^64 bumps during the attempt. */
  predicate Unwrapped(run: Run, w: Timing) { run(w.end).epoch < run(w.start).epoch + EPOCHS }

  /** The header check admits an attempt that overlapped a write only if the epoch wrapped all the way. */
  lemma AdmittedExactly(run: Run, w: Timing)
    requires Protocol(run) && Ordered(w) && Admitted(run, w)
    ensures Quiet(run, w.start, w.end) <==> Unwrapped(run, w)
  {
    assert Published(run(w.start)) && Published(run(w.end));
    Since(run, w.start, w.end);
    var gap := run(w.end).epoch - run(w.start).epoch;
    assert gap % EPOCHS == 0;
    if Unwrapped(run, w) { assert gap == 0; }
  }

  /** Some moment of the attempt lies in a write section. */
  ghost predicate Overlapped(run: Run, w: Timing) {
    exists t: nat :: w.start <= t <= w.end && run(t).phase.Writing?
  }

  /** The header check refuses only attempts that overlapped a write. */
  lemma RefusedOverlaps(run: Run, w: Timing)
    requires Protocol(run) && Ordered(w) && !Admitted(run, w)
    ensures Overlapped(run, w)
  {
    assert Published(run(w.start)) && Published(run(w.end));
    if run(w.start).phase.Idle? && run(w.end).phase.Idle? {
      Since(run, w.start, w.end);
      Restless(run, w.start, w.end);
    } else if run(w.start).phase.Writing? {
      assert run(w.start).phase.Writing?;
    } else {
      assert run(w.end).phase.Writing?;
    }
  }

  lemma {:induction false} Restless(run: Run, i: nat, j: nat)
    requires Steps(run) && i <= j && run(i).epoch != run(j).epoch
    ensures exists t: nat :: i <= t <= j && run(t).phase.Writing?
    decreases j - i
  {
    assert StepAt(run, j - 1);
    if run(j - 1).phase.Writing? {
      assert i <= j - 1 <= j;
    } else {
      Restless(run, i, j - 1);
      var t: nat :| i <= t <= j - 1 && run(t).phase.Writing?;
    }
  }

  // ----- what the header says, byte by byte

  /** The `i`-th word of the header, least significant byte first. */
  function WordOf(m: Mem, i: nat): nat
    requires 8 * i + 8 <= |m|
  {
    var at := 8 * i;
    At(m, at) + 256 * (At(m, at + 1) + 256 * (At(m, at + 2) + 256 * (At(m, at + 3) + 256 * (
    At(m, at + 4) + 256 * (At(m, at + 5) + 256 * (At(m, at + 6) + 256 * At(m, at + 7)))))))
  }

  lemma OneByteOn(m: Mem, i: nat, end: nat)
    requires i < end <= |m|
    ensures FromLittleEndian(m[i..end]) == m[i] + 256 * FromLittleEndian(m[i + 1..end])
  {
    assert m[i..end][1..] == m[i + 1..end];
  }

  lemma WordByBytes(m: Mem, i: nat)
    requires 8 * i + 8 <= |m|
    ensures U64At(m, 8 * i) == WordOf(m, i)
  {
    var at := 8 * i;
    OneByteOn(m, at, at + 8);
    OneByteOn(m, at + 1, at + 8);
    OneByteOn(m, at + 2, at + 8);
    OneByteOn(m, at + 3, at + 8);
    OneByteOn(m, at + 4, at + 8);
    OneByteOn(m, at + 5, at + 8);
    OneByteOn(m, at + 6, at + 8);
    OneByteOn(m, at + 7, at + 8);
    assert m[at + 8..at + 8] == [];
  }

  /** The five words are version, base, epoch, write in progress and directory pointer. */
  lemma HeaderWords(m: Mem)
    requires 40 <= |m|
    ensures Version(m) == WordOf(m, 0) && Base(m) == WordOf(m, 1) && Epoch(m) == WordOf(m, 2)
    ensures InProgress(m) == WordOf(m, 3) && DirectoryPointer(m) == WordOf(m, 4)
  {
    WordByBytes(m, 0);
    WordByBytes(m, 1);
    WordByBytes(m, 2);
    WordByBytes(m, 3);
    WordByBytes(m, 4);
  }

  /** A header can be read, and is of the version the reader knows. */
  predicate Usable(m: Mem) { 40 <= |m| && WordOf(m, 0) == 2 }

  predicate Busy(m: Mem)
    requires 40 <= |m|
  {
    WordOf(m, 3) != 0
  }

  // ----- the retry loop

  datatype Outcome<+T> = Found(value: T) | Failed(error: string) | Exhausted

  /** What the attempt decodes, or why the directory or the decode refuses. */
  function Decoded<T>(run: Run, w: Timing, decode: (View, nat, Vec) -> Result<T>): Result<T>
    requires 40 <= |run(w.start).mem|
  {
    var m := run(w.start).mem;
    var dir := Resolve(ViewOf(run, w)(DirectoryHead), WordOf(m, 1), WordOf(m, 4));
    if dir.Err? then Err(dir.error) else decode(ViewOf(run, w), WordOf(m, 1), dir.value)
  }

  /** The closing header (long enough, right version) shows a write in progress or another epoch. */
  predicate Overtaken(m: Mem, n: Mem)
    requires 40 <= |m|
  {
    Usable(n) && (Busy(n) || WordOf(n, 2) != WordOf(m, 2))
  }

  /** The header check refuses the attempt: at the start, or after a successful decode. */
  predicate MustRepeat<T>(run: Run, w: Timing, decode: (View, nat, Vec) -> Result<T>) {
    var m, n := run(w.start).mem, run(w.end).mem;
    Usable(m) && (Busy(m) || (Decoded(run, w, decode).Ok? && Overtaken(m, n)))
  }

  /** `value` is what `decode` made of the reads of an attempt between two idle headers of one epoch. */
  predicate Accepted<T(==)>(run: Run, w: Timing, decode: (View, nat, Vec) -> Result<T>, value: T) {
    var m, n := run(w.start).mem, run(w.end).mem;
    && Usable(m) && Usable(n) && !Busy(m) && !Busy(n) && WordOf(m, 2) == WordOf(n, 2)
    && Decoded(run, w, decode) == Ok(value)
  }

  predicate HeaderError(m: Mem, error: string) {
    (|m| < 40 && error == "invalid mapping") || (40 <= |m| && WordOf(m, 0) != 2 && error == "version mismatch")
  }

  /**
    The errors that end the loop: an unusable opening header; behind an idle opening header, an
    unresolvable directory or a refused decode; after a decode, an unusable closing header.
   */
  predicate FailsWith<T>(run: Run, w: Timing, decode: (View, nat, Vec) -> Result<T>, error: string) {
    var m, n := run(w.start).mem, run(w.end).mem;
    || HeaderError(m, error)
    || (Usable(m) && !Busy(m)
        && if Decoded(run, w, decode).Err? then Decoded(run, w, decode).error == error else HeaderError(n, error))
  }

  /** An attempt is repeated, accepted with one value, or ended with one error. */
  lemma OneVerdict<T(!new)>(run: Run, w: Timing, decode: (View, nat, Vec) -> Result<T>)
    ensures MustRepeat(run, w, decode) ==> forall value :: !Accepted(run, w, decode, value)
    ensures MustRepeat(run, w, decode) ==> forall error :: !FailsWith(run, w, decode, error)
    ensures forall value, error :: !(Accepted(run, w, decode, value) && FailsWith(run, w, decode, error))
    ensures MustRepeat(run, w, decode) || (exists value :: Accepted(run, w, decode, value))
            || (exists error :: FailsWith(run, w, decode, error))
  {
    var m, n := run(w.start).mem, run(w.end).mem;
    if !MustRepeat(run, w, decode) {
      if |m| < 40 || (Usable(m) && Decoded(run, w, decode).Ok? && |n| < 40) {
        assert FailsWith(run, w, decode, "invalid mapping");
      } else if !Usable(m) || (Decoded(run, w, decode).Ok? && !Usable(n)) {
        assert FailsWith(run, w, decode, "version mismatch");
      } else if Decoded(run, w, decode).Err? {
        assert FailsWith(run, w, decode, Decoded(run, w, decode).error);
      } else {
        assert Accepted(run, w, decode, Decoded(run, w, decode).value);
      }
    }
  }

  /** Under the protocol both are verdicts of the header check. */
  lemma VerdictsMean<T(!new)>(run: Run, w: Timing, decode: (View, nat, Vec) -> Result<T>)
    requires Protocol(run)
    ensures MustRepeat(run, w, decode) ==> !Admitted(run, w)
    ensures (exists value :: Accepted(run, w, decode, value)) ==> Admitted(run, w)
  {
    assert Published(run(w.start)) && Published(run(w.end));
    HeaderWords(run(w.start).mem);
    HeaderWords(run(w.end).mem);
  }

  /** The first `k` attempts all had to be repeated. */
  ghost predicate Repeated<T(!new)>(run: Run, schedule: nat -> Timing, decode: (View, nat, Vec) -> Result<T>, k: nat)
  {
    forall i: nat :: i < k ==> MustRepeat(run, schedule(i), decode)
  }

  /** Attempt `k` is within the limit, is reached, and is accepted. */
  ghost predicate Succeeds<T(!new)>(
    run: Run, schedule: nat -> Timing, decode: (View, nat, Vec) -> Result<T>, k: nat, value: T
  )
  {
    k < 16 && Repeated(run, schedule, decode, k) && Accepted(run, schedule(k), decode, value)
  }

  /** Attempt `k` is within the limit, is reached, and ends the loop with an error. */
  ghost predicate Breaks<T(!new)>(
    run: Run, schedule: nat -> Timing, decode: (View, nat, Vec) -> Result<T>, k: nat, error: string
  )
  {
    k < 16 && Repeated(run, schedule, decode, k) && FailsWith(run, schedule(k), decode, error)
  }

  /** The outcome in terms of the attempts' headers and decodes; at most one `k` can decide it. */
  ghost predicate Decides<T(!new)>(
    run: Run, schedule: nat -> Timing, decode: (View, nat, Vec) -> Result<T>, r: Outcome<T>
  )
  {
    && (forall value :: r == Found(value) <==> exists k: nat :: Succeeds(run, schedule, decode, k, value))
    && (forall error :: r == Failed(error) <==> exists k: nat :: Breaks(run, schedule, decode, k, error))
    && (r.Exhausted? <==> Repeated(run, schedule, decode, 16))
  }

  ghost predicate Scheduled(schedule: nat -> Timing) {
    forall k: nat :: k < RETRY_LIMIT ==> Ordered(schedule(k))
  }

  /** Two attempts that are both reached and both not repeated are one attempt. */
  lemma OneDecides<T(!new)>(run: Run, schedule: nat -> Timing, decode: (View, nat, Vec) -> Result<T>, k: nat)
    requires k < 16 && Repeated(run, schedule, decode, k) && !MustRepeat(run, schedule(k), decode)
    ensures !Repeated(run, schedule, decode, 16)
    ensures forall i: nat, value :: Succeeds(run, schedule, decode, i, value) ==> i == k
    ensures forall i: nat, error :: Breaks(run, schedule, decode, i, error) ==> i == k
  {
    forall i: nat, value | Succeeds(run, schedule, decode, i, value) ensures i == k {
      OneVerdict(run, schedule(i), decode);
    }
    forall i: nat, error | Breaks(run, schedule, decode, i, error) ensures i == k {
      OneVerdict(run, schedule(i), decode);
    }
  }

  lemma FoundDecides<T(!new)>(
    run: Run, schedule: nat -> Timing, decode: (View, nat, Vec) -> Result<T>, k: nat, value: T
  )
    requires Succeeds(run, schedule, decode, k, value)
    ensures Decides(run, schedule, decode, Found(value))
  {
    OneVerdict(run, schedule(k), decode);
    OneDecides(run, schedule, decode, k);
  }

  lemma FailedDecides<T(!new)>(
    run: Run, schedule: nat -> Timing, decode: (View, nat, Vec) -> Result<T>, k: nat, error: string
  )
    requires Breaks(run, schedule, decode, k, error)
    ensures Decides(run, schedule, decode, Failed(error))
  {
    OneVerdict(run, schedule(k), decode);
    OneDecides(run, schedule, decode, k);
  }

  lemma ExhaustedDecides<T(!new)>(run: Run, schedule: nat -> Timing, decode: (View, nat, Vec) -> Result<T>)
    requires Repeated(run, schedule, decode, 16)
    ensures Decides(run, schedule, decode, Exhausted)
  {
    forall k: nat, value ensures !Succeeds(run, schedule, decode, k, value) { OneVerdict(run, schedule(k), decode); }
    forall k: nat, error ensures !Breaks(run, schedule, decode, k, error) { OneVerdict(run, schedule(k), decode); }
  }

  /** The body of the retry loop: nothing when the attempt must be repeated. */
  method Attempt<T(!new)>(run: Run, w: Timing, decode: (View, nat, Vec) -> Result<T>) returns (r: Option<Result<T>>)
    ensures r.None? <==> MustRepeat(run, w, decode)
    ensures forall value :: r == Some(Ok(value)) <==> Accepted(run, w, decode, value)
    ensures forall error :: r == Some(Err(error)) <==> FailsWith(run, w, decode, error)
  {
    var header := run(w.start).mem;
    if |header| < HEADER_BYTES {
      return Some(Err("invalid mapping"));
    }
    HeaderWords(header);
    if Version(header) != VERSION {
      return Some(Err("version mismatch"));
    }
    if InProgress(header) != 0 {
      return None;
    }
    var directory := Resolve(ViewOf(run, w)(DirectoryHead), Base(header), DirectoryPointer(header));
    if directory.Err? {
      return Some(Err(directory.error));
    }
    var value := decode(ViewOf(run, w), Base(header), directory.value);
    if value.Err? {
      return Some(value);
    }
    var last := run(w.end).mem;
    if |last| < HEADER_BYTES {
      return Some(Err("invalid mapping"));
    }
    HeaderWords(last);
    if Version(last) != VERSION {
      return Some(Err("version mismatch"));
    }
    r := if InProgress(last) == 0 && Epoch(last) == Epoch(header) then Some(value) else None;
  }

  /** The first attempt that need not be repeated decides, and only sixteen refusals exhaust the loop. */
  method WithPublishedDirectory<T(!new)>(
    run: Run, schedule: nat -> Timing, decode: (View, nat, Vec) -> Result<T>
  ) returns (r: Outcome<T>)
    ensures Decides(run, schedule, decode, r)
  {
    for k := 0 to RETRY_LIMIT
      invariant Repeated(run, schedule, decode, k)
    {
      var attempt := Attempt(run, schedule(k), decode);
      if attempt.Some? {
        match attempt.value {
          case Ok(value) =>
            FoundDecides(run, schedule, decode, k, value);
            return Found(value);
          case Err(error) =>
            FailedDecides(run, schedule, decode, k, error);
            return Failed(error);
        }
      }
    }
    ExhaustedDecides(run, schedule, decode);
    r := Exhausted;
  }

  /** The loop gives up only if every attempt overlapped a write. */
  lemma ExhaustedOverlaps<T(!new)>(run: Run, schedule: nat -> Timing, decode: (View, nat, Vec) -> Result<T>)
    requires Protocol(run) && Scheduled(schedule) && Repeated(run, schedule, decode, 16)
    ensures forall k: nat :: k < 16 ==> Overlapped(run, schedule(k))
  {
    forall k: nat | k < 16 ensures Overlapped(run, schedule(k)) {
      assert MustRepeat(run, schedule(k), decode);
      VerdictsMean(run, schedule(k), decode);
      RefusedOverlaps(run, schedule(k));
    }
  }

  // ----- what an accepted value says

  /** A decode of one unchanging memory, starting from its own header. */
  function Snapshot<T>(m: Mem, decode: (View, nat, Vec) -> Result<T>): (r: Result<T>)
    requires HEADER_BYTES <= |m|
  {
    var dir := Resolve(m, Base(m), DirectoryPointer(m));
    if dir.Err? then Err(dir.error) else decode(Frozen(m), Base(m), dir.value)
  }

  /** Under the protocol an accepted attempt is an admitted one, and the header's fields drive its decode. */
  lemma AcceptedMeans<T(!new)>(run: Run, w: Timing, decode: (View, nat, Vec) -> Result<T>, value: T)
    requires Protocol(run) && Accepted(run, w, decode, value)
    ensures Admitted(run, w)
    ensures var m := run(w.start).mem;
            var dir := Resolve(ViewOf(run, w)(DirectoryHead), Base(m), DirectoryPointer(m));
            dir.Ok? && decode(ViewOf(run, w), Base(m), dir.value) == Ok(value)
  {
    VerdictsMean(run, w, decode);
    HeaderWords(run(w.start).mem);
  }

  /** What every read of a quiet attempt finds has the structure of that attempt. */
  lemma QuietIsStable(run: Run, w: Timing)
    requires Protocol(run) && Ordered(w) && Quiet(run, w.start, w.end)
    ensures Stable(ViewOf(run, w), run(w.start).layout) && LaidOut(run(w.start).mem, run(w.start).layout)
    ensures var m := run(w.start).mem;
            Resolve(ViewOf(run, w)(DirectoryHead), Base(m), DirectoryPointer(m)) == run(w.start).layout.directory
  {
    var l := run(w.start).layout;
    forall site ensures LaidOut(ViewOf(run, w)(site), l) { ReadIsStable(run, w, site); }
    assert LaidOut(ViewOf(run, w)(DirectoryHead), l);
    assert Published(run(w.start));
  }

  /** An accepted attempt read one structure throughout, and decoded that structure's directory. */
  lemma AcceptedIsStable<T(!new)>(run: Run, w: Timing, decode: (View, nat, Vec) -> Result<T>, value: T)
    requires Protocol(run) && Ordered(w) && Accepted(run, w, decode, value) && Unwrapped(run, w)
    ensures Quiet(run, w.start, w.end)
    ensures Stable(ViewOf(run, w), run(w.start).layout) && LaidOut(run(w.start).mem, run(w.start).layout)
    ensures run(w.start).layout.directory.Ok?
    ensures decode(ViewOf(run, w), run(w.start).layout.base, run(w.start).layout.directory.value) == Ok(value)
  {
    AcceptedMeans(run, w, decode, value);
    AdmittedExactly(run, w);
    QuietIsStable(run, w);
  }

  /** In a quiet attempt, whatever a read puts together has the structure of that attempt. */
  lemma ReadIsStable(run: Run, w: Timing, site: Site)
    requires Protocol(run) && Ordered(w) && Quiet(run, w.start, w.end)
    ensures LaidOut(ViewOf(run, w)(site), run(w.start).layout)
  {
    var l := run(w.start).layout;
    assert Published(run(w.start));
    forall a: nat ensures LaidOut(SourcesOf(run, w, site)(a), l) {
      assert Published(run(w.clock(site, a)));
    }
    LayoutComposes(SourcesOf(run, w, site), l);
  }

  function NamesDecode(): (View, nat, Vec) -> Result<seq<seq<Byte>>> {
    (view: View, base: nat, dir: Vec) => ListNames(view, dir)
  }

  function ReadDecode(name: seq<Byte>): (View, nat, Vec) -> Result<Metric> {
    (view: View, base: nat, dir: Vec) => ReadMetric(view, base, dir, name)
  }

  ghost predicate WithinOneEpoch(run: Run, schedule: nat -> Timing) {
    forall k: nat :: k < RETRY_LIMIT ==> Unwrapped(run, schedule(k))
  }

  lemma AcceptedNames(run: Run, w: Timing, value: seq<seq<Byte>>)
    requires Protocol(run) && Ordered(w) && Accepted(run, w, NamesDecode(), value) && Unwrapped(run, w)
    ensures run(w.start).phase.Idle? && Snapshot(run(w.start).mem, NamesDecode()) == Ok(value)
  {
    AcceptedIsStable(run, w, NamesDecode(), value);
    var m, l := run(w.start).mem, run(w.start).layout;
    assert Published(run(w.start));
    NamesSame(ViewOf(run, w), l, m, l.directory.value);
  }

  /** The value has the kind, rows, row lengths and names that every moment of its attempt gives it. */
  ghost predicate Consistent(run: Run, w: Timing, name: seq<Byte>, value: Metric)
    requires Protocol(run)
  {
    Quiet(run, w.start, w.end)
    && forall t: nat :: w.start <= t <= w.end ==> Alike(Snapshot(run(t).mem, ReadDecode(name)), Ok(value))
  }

  lemma AcceptedAt(run: Run, w: Timing, name: seq<Byte>, value: Metric, t: nat)
    requires Published(run(t)) && run(t).layout == run(w.start).layout
    requires Stable(ViewOf(run, w), run(w.start).layout) && run(w.start).layout.directory.Ok?
    requires ReadMetric(ViewOf(run, w), run(w.start).layout.base, run(w.start).layout.directory.value, name) == Ok(value)
    ensures Alike(Snapshot(run(t).mem, ReadDecode(name)), Ok(value))
  {
    var l := run(w.start).layout;
    ReadAlike(ViewOf(run, w), l, run(t).mem, l.directory.value, name);
  }

  lemma AcceptedThroughout(run: Run, w: Timing, name: seq<Byte>, value: Metric)
    requires Protocol(run) && Quiet(run, w.start, w.end)
    requires Stable(ViewOf(run, w), run(w.start).layout) && run(w.start).layout.directory.Ok?
    requires ReadMetric(ViewOf(run, w), run(w.start).layout.base, run(w.start).layout.directory.value, name) == Ok(value)
    ensures Consistent(run, w, name, value)
  {
    forall t: nat | w.start <= t <= w.end
      ensures Alike(Snapshot(run(t).mem, ReadDecode(name)), Ok(value))
    {
      AcceptedAt(run, w, name, value, t);
    }
  }

  lemma AcceptedRead(run: Run, w: Timing, name: seq<Byte>, value: Metric)
    requires Protocol(run) && Ordered(w) && Accepted(run, w, ReadDecode(name), value) && Unwrapped(run, w)
    ensures Consistent(run, w, name, value) && Sourced(ViewOf(run, w), run(w.start).layout, value)
  {
    AcceptedIsStable(run, w, ReadDecode(name), value);
    AcceptedThroughout(run, w, name, value);
    ReadSourced(ViewOf(run, w), run(w.start).layout, run(w.start).layout.directory.value, name);
  }

  /** The bytes of a cell are read together, as one machine word is. */
  ghost predicate CellsAtOnce(w: Timing) {
    forall row: nat, column: nat, a: nat :: w.clock(Cell(row, column), a) == w.clock(Cell(row, column), 0)
  }

  /** Then every cell of the attempt is what that same cell held at one moment of the attempt. */
  lemma CellsAreLive(run: Run, w: Timing, k: nat, row: nat, column: nat) returns (t: nat)
    requires Protocol(run) && Ordered(w) && Quiet(run, w.start, w.end) && CellsAtOnce(w)
    ensures w.start <= t <= w.end
    ensures var l := run(w.start).layout;
            && WordCells(ViewOf(run, w), l, k)(row, column) == WordCells(Frozen(run(t).mem), l, k)(row, column)
            && CounterCells(ViewOf(run, w), l, k)(row, column) == CounterCells(Frozen(run(t).mem), l, k)(row, column)
  {
    var cell := Cell(row, column);
    t := w.clock(cell, 0);
    assert Published(run(w.start)) && Published(run(t));
    forall a: nat ensures SourcesOf(run, w, cell)(a) == run(t).mem {
      assert w.clock(cell, a) == t;
    }
    ComposesOne(SourcesOf(run, w, cell), run(t).mem);
  }

  lemma FoundNames(run: Run, schedule: nat -> Timing, value: seq<seq<Byte>>)
    requires Protocol(run) && Scheduled(schedule) && WithinOneEpoch(run, schedule)
    requires Decides(run, schedule, NamesDecode(), Found(value))
    ensures exists t: nat :: run(t).phase.Idle? && Snapshot(run(t).mem, NamesDecode()) == Ok(value)
  {
    var k: nat :| Succeeds(run, schedule, NamesDecode(), k, value);
    AcceptedNames(run, schedule(k), value);
  }

  lemma FoundRead(run: Run, schedule: nat -> Timing, name: seq<Byte>, value: Metric)
    requires Protocol(run) && Scheduled(schedule) && WithinOneEpoch(run, schedule)
    requires Decides(run, schedule, ReadDecode(name), Found(value))
    ensures exists k: nat :: k < 16 && Consistent(run, schedule(k), name, value)
              && Sourced(ViewOf(run, schedule(k)), run(schedule(k).start).layout, value)
  {
    var k: nat :| Succeeds(run, schedule, ReadDecode(name), k, value);
    AcceptedRead(run, schedule(k), name, value);
  }

  /**
    The names come out exactly as one idle moment's directory has them. The attempts' headers and decodes
    decide the outcome, and an exhausted listing overlapped a write in every attempt.
   */
  method Names(run: Run, schedule: nat -> Timing) returns (r: Outcome<seq<seq<Byte>>>)
    requires Protocol(run) && Scheduled(schedule)
    ensures Decides(run, schedule, NamesDecode(), r)
    ensures r.Found? && WithinOneEpoch(run, schedule) ==>
      exists t: nat :: run(t).phase.Idle? && Snapshot(run(t).mem, NamesDecode()) == Ok(r.value)
    ensures r.Exhausted? ==> forall k: nat :: k < 16 ==> Overlapped(run, schedule(k))
  {
    r := WithPublishedDirectory(run, schedule, NamesDecode());
    if r.Found? && WithinOneEpoch(run, schedule) { FoundNames(run, schedule, r.value); }
    if r.Exhausted? { ExhaustedOverlaps(run, schedule, NamesDecode()); }
  }

  /** Every moment of the accepted attempt would have given the same value, up to its cells. */
  method Read(run: Run, schedule: nat -> Timing, name: seq<Byte>) returns (r: Outcome<Metric>)
    requires Protocol(run) && Scheduled(schedule)
    ensures Decides(run, schedule, ReadDecode(name), r)
    ensures r.Found? && WithinOneEpoch(run, schedule) ==>
      exists k: nat :: k < 16 && Consistent(run, schedule(k), name, r.value)
        && Sourced(ViewOf(run, schedule(k)), run(schedule(k).start).layout, r.value)
    ensures r.Exhausted? ==> forall k: nat :: k < 16 ==> Overlapped(run, schedule(k))
  {
    r := WithPublishedDirectory(run, schedule, ReadDecode(name));
    if r.Found? && WithinOneEpoch(run, schedule) { FoundRead(run, schedule, name, r.value); }
    if r.Exhausted? { ExhaustedOverlaps(run, schedule, ReadDecode(name)); }
  }

  // ----- a quiet attempt is enough

  /** An attempt no write touches is accepted, if its first moment could be listed. */
  lemma QuietNames(run: Run, w: Timing, value: seq<seq<Byte>>)
    requires Protocol(run) && Ordered(w) && Quiet(run, w.start, w.end) && Version(run(w.start).mem) == 2
    requires Snapshot(run(w.start).mem, NamesDecode()) == Ok(value)
    ensures Accepted(run, w, NamesDecode(), value)
  {
    QuietHeaders(run, w);
    var m, l := run(w.start).mem, run(w.start).layout;
    QuietIsStable(run, w);
    NamesSame(ViewOf(run, w), l, m, l.directory.value);
  }

  /** The same for `read`: the value agrees with the first moment's in everything but its cells. */
  lemma QuietRead(run: Run, w: Timing, name: seq<Byte>) returns (value: Metric)
    requires Protocol(run) && Ordered(w) && Quiet(run, w.start, w.end) && Version(run(w.start).mem) == 2
    requires Snapshot(run(w.start).mem, ReadDecode(name)).Ok?
    ensures Accepted(run, w, ReadDecode(name), value) && Alike(Snapshot(run(w.start).mem, ReadDecode(name)), Ok(value))
  {
    QuietHeaders(run, w);
    var m, l := run(w.start).mem, run(w.start).layout;
    QuietIsStable(run, w);
    ReadAlike(ViewOf(run, w), l, m, l.directory.value, name);
    value := Decoded(run, w, ReadDecode(name)).value;
  }

  lemma QuietHeaders(run: Run, w: Timing)
    requires Protocol(run) && Ordered(w) && Quiet(run, w.start, w.end) && Version(run(w.start).mem) == 2
    ensures var m, n := run(w.start).mem, run(w.end).mem;
            Usable(m) && Usable(n) && !Busy(m) && !Busy(n) && WordOf(m, 2) == WordOf(n, 2)
    ensures Base(run(w.start).mem) == WordOf(run(w.start).mem, 1)
    ensures DirectoryPointer(run(w.start).mem) == WordOf(run(w.start).mem, 4)
  {
    assert Published(run(w.start)) && Published(run(w.end));
    Since(run, w.start, w.end);
    HeaderWords(run(w.start).mem);
    HeaderWords(run(w.end).mem);
  }
}
