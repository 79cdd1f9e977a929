/**
  Why the reader's guarantee needs fewer than 2^64 epoch bumps per attempt: a run in which an
  call of `names` spans exactly 2^64 of them, is accepted, and lists a directory that never existed.
 */
module StatsWrap {
  import opened Bytes
  import opened StatsSegment
  import opened StatsStructure
  import opened StatsBytes
  import opened StatsPublish
  import opened StatsReader

  function Words(ws: seq<nat>): (m: Mem)
    ensures |m| == 8 * |ws|
  {
    if ws == [] then [] else LittleEndian(ws[0], 8) + Words(ws[1..])
  }

  lemma {:induction false} WordsRead(ws: seq<nat>, i: nat)
    requires i < |ws| && ws[i] < EPOCHS
    ensures U64At(Words(ws), 8 * i) == ws[i]
  {
    var m := Words(ws);
    if i == 0 {
      assert Pow256(8) == EPOCHS;
      LittleEndianRoundTrip(ws[0], 8);
      assert m[0..8] == LittleEndian(ws[0], 8);
    } else {
      WordsRead(ws[1..], i - 1);
      assert m[8 * i..8 * i + 8] == Words(ws[1..])[8 * (i - 1)..8 * (i - 1) + 8];
    }
  }

  function Header(epoch: nat, busy: nat, pointer: nat): (m: Mem)
    ensures |m| == HEADER_BYTES
  {
    Words([VERSION, 0, epoch, busy, pointer])
  }

  lemma HeaderReads(epoch: nat, busy: nat, pointer: nat)
    requires epoch < EPOCHS && busy < EPOCHS && pointer < EPOCHS
    ensures var m := Header(epoch, busy, pointer);
            Version(m) == VERSION && Base(m) == 0 && Epoch(m) == epoch && InProgress(m) == busy
            && DirectoryPointer(m) == pointer
  {
    var ws := [VERSION, 0, epoch, busy, pointer];
    WordsRead(ws, 0);
    WordsRead(ws, 1);
    WordsRead(ws, 2);
    WordsRead(ws, 3);
    WordsRead(ws, 4);
  }

  // ----- a segment with two directories, one of them current

  function EntryImage(letter: Byte): (e: Mem)
    ensures |e| == ENTRY_BYTES
  {
    LittleEndian(GAUGE, 4) + LittleEndian(0, 4) + LittleEndian(0, 8) + ([letter] + Zeros(NAME_BYTES - 1))
  }

  /** Entry "a" at 48 behind a length of `count`, and entry "b" at 200 behind a length of 1. */
  function Segment(header: Mem, count: nat): (m: Mem)
    requires |header| == HEADER_BYTES
    ensures |m| == 344
  {
    header + LittleEndian(count, 8) + EntryImage(97) + LittleEndian(1, 8) + EntryImage(98)
  }

  lemma StandsLeft(m: Mem, at: nat, x: seq<Byte>, after: Mem)
    requires Stands(m, at, x)
    ensures Stands(m + after, at, x)
  {
    assert (m + after)[at..at + |x|] == m[at..at + |x|];
  }

  lemma StandsLast(before: Mem, x: seq<Byte>)
    ensures Stands(before + x, |before|, x)
  {
  }

  lemma StandsWithin(m: Mem, at: nat, e: seq<Byte>, off: nat, x: seq<Byte>)
    requires Stands(m, at, e) && Stands(e, off, x)
    ensures Stands(m, at + off, x)
  {
    forall i | 0 <= i < |x| ensures m[at + off + i] == x[i] {
      assert m[at..at + |e|][off + i] == e[off..off + |x|][i];
    }
  }

  lemma FiveParts(h: Mem, l: Mem, a: Mem, o: Mem, b: Mem)
    ensures var m := h + l + a + o + b;
            && Stands(m, 0, h) && Stands(m, |h|, l) && Stands(m, |h| + |l|, a)
            && Stands(m, |h| + |l| + |a|, o) && Stands(m, |h| + |l| + |a| + |o|, b)
  {
    assert Stands(h, 0, h);
    StandsLeft(h, 0, h, l);
    StandsLast(h, l);
    ThreeMore(h + l, 0, h, a, o, b);
    ThreeMore(h + l, |h|, l, a, o, b);
    StandsLast(h + l, a);
    StandsLeft(h + l + a, |h| + |l|, a, o);
    StandsLeft(h + l + a + o, |h| + |l|, a, b);
    StandsLast(h + l + a, o);
    StandsLeft(h + l + a + o, |h| + |l| + |a|, o, b);
    StandsLast(h + l + a + o, b);
  }

  lemma ThreeMore(m: Mem, at: nat, x: seq<Byte>, a: Mem, o: Mem, b: Mem)
    requires Stands(m, at, x)
    ensures Stands(m + a + o + b, at, x)
  {
    StandsLeft(m, at, x, a);
    StandsLeft(m + a, at, x, o);
    StandsLeft(m + a + o, at, x, b);
  }

  lemma SegmentParts(header: Mem, count: nat)
    requires |header| == HEADER_BYTES
    ensures var m := Segment(header, count);
            && Stands(m, 0, header) && Stands(m, 40, LittleEndian(count, 8)) && Stands(m, 48, EntryImage(97))
            && Stands(m, 192, LittleEndian(1, 8)) && Stands(m, 200, EntryImage(98))
  {
    FiveParts(header, LittleEndian(count, 8), EntryImage(97), LittleEndian(1, 8), EntryImage(98));
  }

  lemma EntryParts(letter: Byte)
    ensures var e := EntryImage(letter);
            && Stands(e, 0, LittleEndian(GAUGE, 4)) && Stands(e, 8, LittleEndian(0, 8))
            && Stands(e, 16, [letter] + Zeros(NAME_BYTES - 1))
  {
    var e := EntryImage(letter);
    FiveParts(LittleEndian(GAUGE, 4), LittleEndian(0, 4), LittleEndian(0, 8), [letter] + Zeros(NAME_BYTES - 1), []);
    assert e + [] == e;
  }

  lemma LowHalf(n: nat)
    requires n < 256
    ensures Stands(LittleEndian(n, 8), 0, LittleEndian(n, 4))
  {
    assert n % 256 == n && n / 256 == 0;
    assert LittleEndian(n, 8) == [n] + LittleEndian(0, 7) && LittleEndian(n, 4) == [n] + LittleEndian(0, 3);
    ZeroBytes(7);
    ZeroBytes(3);
    assert LittleEndian(n, 8)[0..4] == LittleEndian(n, 4);
  }

  function Letter(c: Byte): StatsPublish.Slot { StatsPublish.Slot(GAUGE, 0, [c]) }

  lemma LetterIsText(c: Byte)
    requires 0 < c < 0x80
    ensures IsText([c])
  {
    assert Utf8Head([c]) == 1 && [c][1..] == [];
  }

  lemma DirectoryAt(m: Mem, at: nat, letter: Byte)
    requires Stands(m, at, EntryImage(letter)) && 0 < letter < 0x80
    ensures DirectoryStands(m, Vec(at, 1), [Letter(letter)])
  {
    EntryParts(letter);
    var e := EntryImage(letter);
    StandsWithin(m, at, e, 0, LittleEndian(GAUGE, 4));
    StandsWithin(m, at, e, 8, LittleEndian(0, 8));
    StandsWithin(m, at, e, 16, [letter] + Zeros(NAME_BYTES - 1));
    LetterIsText(letter);
    assert SlotStands(m, at, Letter(letter));
  }

  // ----- what the header and the directories read as

  /** The header fields, the current directory and its one entry. */
  ghost predicate Shows(m: Mem, epoch: nat, busy: nat, pointer: nat, letter: Byte) {
    && |m| == 344 && 0 < letter < 0x80
    && Version(m) == VERSION && Base(m) == 0 && Epoch(m) == epoch && InProgress(m) == busy
    && DirectoryPointer(m) == pointer
    && Resolve(m, 0, pointer) == Ok(Vec(pointer, 1))
    && DirectoryStands(m, Vec(pointer, 1), [Letter(letter)])
  }

  lemma HeaderWord(m: Mem, h: Mem, x: nat)
    requires Stands(m, 0, h) && x + 8 <= |h|
    ensures U64At(m, x) == U64At(h, x)
  {
    assert m[x..x + 8] == m[0..|h|][x..x + 8];
  }

  lemma HeadAt(m: Mem, at: nat, count: nat)
    requires 8 <= at <= |m| && count < 256 && Stands(m, at - 8, LittleEndian(count, 8))
    ensures Resolve(m, 0, at) == Ok(Vec(at, count))
  {
    LowHalf(count);
    StandsWithin(m, at - 8, LittleEndian(count, 8), 0, LittleEndian(count, 4));
    VectorResolves(m, 0, at, count);
  }

  lemma SegmentShows(epoch: nat, busy: nat, moved: bool)
    requires epoch < EPOCHS && busy < EPOCHS
    ensures var m := Segment(Header(epoch, busy, if moved then 200 else 48), if moved then 0 else 1);
            && Shows(m, epoch, busy, if moved then 200 else 48, if moved then 98 else 97)
            && (moved ==> Resolve(m, 0, 48) == Ok(Vec(48, 0)))
  {
    var pointer := if moved then 200 else 48;
    var h := Header(epoch, busy, pointer);
    var m := Segment(h, if moved then 0 else 1);
    HeaderReads(epoch, busy, pointer);
    SegmentParts(h, if moved then 0 else 1);
    HeaderWord(m, h, 0);
    HeaderWord(m, h, 8);
    HeaderWord(m, h, 16);
    HeaderWord(m, h, 24);
    HeaderWord(m, h, 32);
    HeadAt(m, 48, if moved then 0 else 1);
    HeadAt(m, 200, 1);
    DirectoryAt(m, 48, 97);
    DirectoryAt(m, 200, 98);
  }

  /** Only the pointer and the letter make a difference to the structure. */
  lemma ShowsLayout(m: Mem, k: Mem, e: nat, b: nat, e': nat, b': nat, pointer: nat, letter: Byte)
    requires Shows(m, e, b, pointer, letter) && Shows(k, e', b', pointer, letter)
    ensures LayoutOf(m) == LayoutOf(k)
  {
    var dir, slots := Vec(pointer, 1), [Letter(letter)];
    EntryReads(m, dir, slots, 0);
    EntryReads(k, dir, slots, 0);
    assert SlotsOf(m, 0, Ok(dir)) == SlotsOf(k, 0, Ok(dir));
  }

  lemma ShowsNames(m: Mem, epoch: nat, busy: nat, pointer: nat, letter: Byte)
    requires Shows(m, epoch, busy, pointer, letter)
    ensures Snapshot(m, NamesDecode()) == Ok([[letter]])
  {
    ListingReads(m, Vec(pointer, 1), [Letter(letter)]);
    assert NamesOf([Letter(letter)]) == [[letter]];
  }

  // ----- the run

  function EpochAt(t: nat): nat { t / 3 + (if t % 3 == 2 then 1 else 0) }
  function BusyAt(t: nat): nat { if t % 3 == 0 then 0 else 1 }
  function PointerAt(t: nat): nat { if EpochAt(t) == 0 then 48 else 200 }
  function LetterAt(t: nat): Byte { if EpochAt(t) == 0 then 97 else 98 }

  function MemAt(t: nat): (m: Mem)
    ensures |m| == 344
  {
    Segment(Header(EpochAt(t) % EPOCHS, BusyAt(t), PointerAt(t)), if EpochAt(t) == 0 then 1 else 0)
  }

  /** Write sections back to back, three steps each; the first one moves the directory. */
  function WorldAt(t: nat): World {
    World(MemAt(t), PhaseAt(t), EpochAt(t), LayoutOf(MemAt(t)))
  }

  function Churn(): Run { (t: nat) => WorldAt(t) }

  lemma ChurnShows(t: nat)
    ensures Shows(MemAt(t), EpochAt(t) % EPOCHS, BusyAt(t), PointerAt(t), LetterAt(t))
    ensures EpochAt(t) != 0 ==> Resolve(MemAt(t), 0, 48) == Ok(Vec(48, 0))
  {
    SegmentShows(EpochAt(t) % EPOCHS, BusyAt(t), EpochAt(t) != 0);
  }

  lemma ChurnPublishes(t: nat)
    ensures Published(WorldAt(t))
  {
    ChurnShows(t);
  }

  lemma LayoutKept(t: nat, u: nat)
    requires EpochAt(t) == 0 <==> EpochAt(u) == 0
    ensures LayoutOf(MemAt(t)) == LayoutOf(MemAt(u))
  {
    ChurnShows(t);
    ChurnShows(u);
    ShowsLayout(MemAt(t), MemAt(u), EpochAt(t) % EPOCHS, BusyAt(t), EpochAt(u) % EPOCHS, BusyAt(u), PointerAt(t), LetterAt(t));
  }

  function PhaseAt(t: nat): Phase { if t % 3 == 0 then Idle else Writing(t % 3 == 2) }

  lemma ThreePhases(v: World, w: World, t: nat)
    requires v.phase == PhaseAt(t) && w.phase == PhaseAt(t + 1) && v.epoch == EpochAt(t) && w.epoch == EpochAt(t + 1)
    requires (EpochAt(t) == 0 <==> EpochAt(t + 1) == 0) ==> v.layout == w.layout
    ensures WriterStep(v, w)
  {
  }

  lemma ChurnSteps(t: nat)
    ensures StepAt(Churn(), t)
  {
    if EpochAt(t) == 0 <==> EpochAt(t + 1) == 0 { LayoutKept(t, t + 1); }
    ThreePhases(WorldAt(t), WorldAt(t + 1), t);
  }

  lemma ChurnFollows()
    ensures Protocol(Churn())
  {
    forall t: nat ensures StepAt(Churn(), t) { ChurnSteps(t); }
    forall t: nat ensures Published(Churn()(t)) { ChurnPublishes(t); }
  }

  // ----- the attempt

  /** The header is copied at `early`, and everything else is read at `late`. */
  function Split(early: nat, late: nat): Timing { Timing(early, late, (site: Site, a: nat) => late) }

  lemma SplitSees(early: nat, late: nat, site: Site)
    ensures ViewOf(Churn(), Split(early, late))(site) == MemAt(late)
  {
    ComposesOne(SourcesOf(Churn(), Split(early, late), site), MemAt(late));
  }

  lemma NothingListed(early: nat, late: nat)
    requires EpochAt(early) == 0 && EpochAt(late) != 0
    ensures var view := ViewOf(Churn(), Split(early, late));
            Resolve(view(DirectoryHead), 0, 48) == Ok(Vec(48, 0)) && NamesDecode()(view, 0, Vec(48, 0)) == Ok([])
  {
    SplitSees(early, late, DirectoryHead);
    ChurnShows(late);
  }

  lemma AcceptedFrom<T(!new)>(
    run: Run, w: Timing, decode: (View, nat, Vec) -> Result<T>, value: T, m: Mem, n: Mem, p: nat, dir: Vec
  )
    requires Protocol(run) && run(w.start).mem == m && run(w.end).mem == n && HEADER_BYTES <= |m| && HEADER_BYTES <= |n|
    requires Version(m) == VERSION == Version(n) && InProgress(m) == 0 == InProgress(n) && Epoch(m) == Epoch(n)
    requires Base(m) == 0 && DirectoryPointer(m) == p
    requires Resolve(ViewOf(run, w)(DirectoryHead), 0, p) == Ok(dir) && decode(ViewOf(run, w), 0, dir) == Ok(value)
    ensures Accepted(run, w, decode, value)
  {
    HeaderWords(m);
    HeaderWords(n);
  }

  lemma IdleHeader(t: nat)
    requires t % 3 == 0 && EpochAt(t) % EPOCHS == 0
    ensures var m := MemAt(t);
            Version(m) == VERSION && Base(m) == 0 && Epoch(m) == 0 == InProgress(m) && DirectoryPointer(m) == PointerAt(t)
  {
    ChurnShows(t);
  }

  lemma SplitAccepted(early: nat, late: nat)
    requires Protocol(Churn()) && early % 3 == 0 && late % 3 == 0
    requires EpochAt(early) == 0 && EpochAt(late) == EPOCHS
    ensures Accepted(Churn(), Split(early, late), NamesDecode(), [])
  {
    IdleHeader(early);
    IdleHeader(late);
    NothingListed(early, late);
    AcceptedFrom(Churn(), Split(early, late), NamesDecode(), [], MemAt(early), MemAt(late), 48, Vec(48, 0));
  }

  lemma NeverEmpty(t: nat)
    ensures Snapshot(MemAt(t), NamesDecode()) != Ok([])
  {
    ChurnShows(t);
    ShowsNames(MemAt(t), EpochAt(t) % EPOCHS, BusyAt(t), PointerAt(t), LetterAt(t));
  }

  /** Two idle moments, 2^64 bumps apart. */
  lemma EpochWraps() returns (early: nat, late: nat)
    ensures early <= late && early % 3 == 0 && late % 3 == 0 && EpochAt(early) == 0 && EpochAt(late) == EPOCHS
  {
    early, late := 0, 3 * EPOCHS;
  }

  /** The writer follows the protocol, 2^64 bumps fall into the attempt, and `names` accepts an empty listing. */
  ghost predicate Torn(early: nat, late: nat) {
    && Protocol(Churn()) && Ordered(Split(early, late)) && !Unwrapped(Churn(), Split(early, late))
    && Accepted(Churn(), Split(early, late), NamesDecode(), [])
  }

  /** At no moment is the directory empty. */
  ghost predicate AlwaysListed() {
    forall t: nat :: Snapshot(MemAt(t), NamesDecode()) != Ok([])
  }

  lemma SplitSpans(early: nat, late: nat)
    requires early <= late && EpochAt(early) == 0 && EpochAt(late) == EPOCHS
    ensures Ordered(Split(early, late)) && !Unwrapped(Churn(), Split(early, late))
  {
  }

  lemma SplitTears(early: nat, late: nat)
    requires early <= late && early % 3 == 0 && late % 3 == 0 && EpochAt(early) == 0 && EpochAt(late) == EPOCHS
    ensures Torn(early, late)
  {
    ChurnFollows();
    SplitSpans(early, late);
    SplitAccepted(early, late);
  }

  lemma NeverUnlisted()
    ensures AlwaysListed()
  {
    forall t: nat ensures Snapshot(MemAt(t), NamesDecode()) != Ok([]) { NeverEmpty(t); }
  }

  /** `names` accepts an empty listing, though at every moment of the run the directory lists one name. */
  lemma WrappedEpochTears() returns (early: nat, late: nat)
    ensures Torn(early, late) && AlwaysListed()
  {
    early, late := EpochWraps();
    SplitTears(early, late);
    NeverUnlisted();
  }
}
