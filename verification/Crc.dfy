/** CRC-32 as section 8 of RFC 1952 defines it, and the bitwise form the declarations are hashed with. */
module Crc {

  type Text = seq<bv8>

  const BITS: nat := 8
  const START: bv32 := 0xffff_ffff  // the complement of zero
  const POLYNOMIAL: bv32 := 0xedb8_8320

  // Named operations keep the bit-vector reasoning of each lemma small.

  function Xor(a: bv32, b: bv32): bv32 { a ^ b }
  function Wide(b: bv8): bv32 { b as bv32 }
  function Not(c: bv32): bv32 { !c }
  function Low(c: bv32): bv32 { c & 0xff }
  function High(c: bv32): bv32 { c >> 8 }
  function Half(c: bv32): bv32 { c >> 1 }
  function Odd(c: bv32): bv32 { c & 1 }

  // ----- the repository's bitwise form

  /** One turn of the loop in `byte_crc`. */
  function Shift(c: bv32): bv32 {
    Xor(Half(c), Fold(Odd(c)))
  }

  /** The polynomial, if the bit shifted out was set. */
  function Fold(odd: bv32): bv32 { POLYNOMIAL & (0 - odd) }

  function Shifts(c: bv32, n: nat): bv32 {
    if n == 0 then c else Shift(Shifts(c, n - 1))
  }

  function Mix(crc: bv32, byte: bv8): bv32 {
    Xor(crc, Wide(byte))
  }

  function ByteStep(crc: bv32, byte: bv8): bv32 {
    Shifts(Mix(crc, byte), BITS)
  }

  function TextStep(crc: bv32, text: Text): bv32
    decreases |text|
  {
    if text == [] then crc else TextStep(ByteStep(crc, text[0]), text[1..])
  }

  method ByteCrc(crc: bv32, byte: bv8) returns (r: bv32)
    ensures r == ByteStep(crc, byte)
  {
    r := Mix(crc, byte);
    ghost var start := r;
    var bit := 0;
    while bit < BITS
      invariant 0 <= bit <= BITS && r == Shifts(start, bit)
    {
      r := Shift(r);
      bit := bit + 1;
    }
  }

  method TextCrc(crc: bv32, text: Text) returns (r: bv32)
    ensures r == TextStep(crc, text)
  {
    r := crc;
    var index := 0;
    while index < |text|
      invariant 0 <= index <= |text|
      invariant TextStep(r, text[index..]) == TextStep(crc, text)
    {
      r := ByteCrc(r, text[index]);
      assert text[index..][1..] == text[index + 1..];
      index := index + 1;
    }
  }

  lemma {:induction false} TextStepConcat(crc: bv32, a: Text, b: Text)
    ensures TextStep(crc, a + b) == TextStep(TextStep(crc, a), b)
    decreases |a|
  {
    if a == [] {
      assert a + b == b;
    } else {
      assert (a + b)[0] == a[0] && (a + b)[1..] == a[1..] + b;
      TextStepConcat(ByteStep(crc, a[0]), a[1..], b);
    }
  }

  // ----- RFC 1952: the table-driven reference

  /** Entry `n` of the table `make_crc_table` fills: eight conditional shifts. */
  function TableEntry(n: bv32, k: nat): bv32 {
    if k == 0 then n else TableShift(TableEntry(n, k - 1))
  }

  function TableShift(c: bv32): bv32 {
    if Odd(c) == 1 then Xor(0xedb8_8320, Half(c)) else Half(c)
  }

  /** The loop of `update_crc`, between its two complements. */
  function Update(c: bv32, text: Text): bv32
    decreases |text|
  {
    if text == [] then c
    else Update(TableStep(c, text[0]), text[1..])
  }

  function TableStep(c: bv32, byte: bv8): bv32 {
    TableMix(Mix(c, byte), High(c))
  }

  function TableMix(index: bv32, high: bv32): bv32 {
    Xor(TableEntry(Low(index), 8), high)
  }

  function Crc32(text: Text): bv32 {
    Xor(Update(Xor(0, 0xffff_ffff), text), 0xffff_ffff)
  }

  lemma OddIsBit(c: bv32)
    ensures Odd(c) == 0 || Odd(c) == 1
  {
  }

  lemma FoldBit()
    ensures Fold(0) == 0 && Fold(1) == POLYNOMIAL
  {
  }

  lemma XorUnit(a: bv32)
    ensures Xor(a, 0) == a
  {
  }

  lemma XorCommutes(a: bv32, b: bv32)
    ensures Xor(a, b) == Xor(b, a)
  {
  }

  lemma ShiftIsTableShift(c: bv32)
    ensures Shift(c) == TableShift(c)
  {
    OddIsBit(c);
    FoldBit();
    XorUnit(Half(c));
    XorCommutes(Half(c), POLYNOMIAL);
  }

  lemma {:induction false} TableEntryIsShifts(n: bv32, k: nat)
    ensures TableEntry(n, k) == Shifts(n, k)
  {
    if 0 < k {
      TableEntryIsShifts(n, k - 1);
      ShiftIsTableShift(Shifts(n, k - 1));
    }
  }

  lemma OddXor(x: bv32, y: bv32)
    requires Odd(y) == 0
    ensures Odd(Xor(x, y)) == Odd(x)
  {
  }

  lemma HalfXor(x: bv32, y: bv32)
    ensures Half(Xor(x, y)) == Xor(Half(x), Half(y))
  {
  }

  lemma XorSwap(a: bv32, b: bv32, c: bv32)
    ensures Xor(Xor(a, b), c) == Xor(Xor(a, c), b)
  {
    XorAssociates(a, b, c);
    XorCommutes(b, c);
    XorAssociates(a, c, b);
  }

  lemma XorAssociates(a: bv32, b: bv32, c: bv32)
    ensures Xor(a, Xor(b, c)) == Xor(Xor(a, b), c)
  {
  }

  /** What is mixed in above the lowest bit comes out one place lower. */
  lemma ShiftAbove(x: bv32, y: bv32)
    requires Odd(y) == 0
    ensures Shift(Xor(x, y)) == Xor(Shift(x), Half(y))
  {
    OddXor(x, y);
    HalfXor(x, y);
    XorSwap(Half(x), Half(y), Fold(Odd(x)));
  }

  function Halves(c: bv32, n: nat): bv32 { if n == 0 then c else Half(Halves(c, n - 1)) }

  lemma {:induction false} ShiftsAbove(x: bv32, y: bv32, n: nat)
    requires forall i: nat :: i < n ==> Odd(Halves(y, i)) == 0
    ensures Shifts(Xor(x, y), n) == Xor(Shifts(x, n), Halves(y, n))
  {
    if 0 < n {
      ShiftsAbove(x, y, n - 1);
      ShiftAbove(Shifts(x, n - 1), Halves(y, n - 1));
    }
  }

  /** A clear low byte is shifted out as eight clear bits, one after the other. */
  lemma ClearByte(y: bv32)
    requires Low(y) == 0
    ensures var h1 := Half(y); var h2 := Half(h1); var h3 := Half(h2); var h4 := Half(h3);
            var h5 := Half(h4); var h6 := Half(h5); var h7 := Half(h6);
            && Odd(y) == 0 && Odd(h1) == 0 && Odd(h2) == 0 && Odd(h3) == 0
            && Odd(h4) == 0 && Odd(h5) == 0 && Odd(h6) == 0 && Odd(h7) == 0
            && Half(h7) == High(y)
  {
  }

  lemma HalvesUnfold(y: bv32, h1: bv32, h2: bv32, h3: bv32, h4: bv32, h5: bv32, h6: bv32, h7: bv32)
    requires h1 == Half(y) && h2 == Half(h1) && h3 == Half(h2) && h4 == Half(h3)
    requires h5 == Half(h4) && h6 == Half(h5) && h7 == Half(h6)
    ensures Halves(y, 0) == y && Halves(y, 1) == h1 && Halves(y, 2) == h2 && Halves(y, 3) == h3 && Halves(y, 4) == h4
    ensures Halves(y, 5) == h5 && Halves(y, 6) == h6 && Halves(y, 7) == h7 && Halves(y, 8) == Half(h7)
  {
    assert Halves(y, 0) == y;
    assert Halves(y, 1) == h1;
    assert Halves(y, 2) == h2;
    assert Halves(y, 3) == h3;
    assert Halves(y, 4) == h4;
    assert Halves(y, 5) == h5;
    assert Halves(y, 6) == h6;
    assert Halves(y, 7) == h7;
  }

  lemma EightHalves(y: bv32)
    requires Low(y) == 0
    ensures Odd(Halves(y, 0)) == 0 && Odd(Halves(y, 1)) == 0 && Odd(Halves(y, 2)) == 0 && Odd(Halves(y, 3)) == 0
    ensures Odd(Halves(y, 4)) == 0 && Odd(Halves(y, 5)) == 0 && Odd(Halves(y, 6)) == 0 && Odd(Halves(y, 7)) == 0
    ensures Halves(y, 8) == High(y)
  {
    var h1 := Half(y);
    var h2 := Half(h1);
    var h3 := Half(h2);
    var h4 := Half(h3);
    var h5 := Half(h4);
    var h6 := Half(h5);
    ClearByte(y);
    HalvesUnfold(y, h1, h2, h3, h4, h5, h6, Half(h6));
  }

  /** What is mixed in above the low byte comes out eight places lower, unchanged. */
  lemma ShiftsHigh(x: bv32, y: bv32)
    requires Low(y) == 0
    ensures Shifts(Xor(x, y), BITS) == Xor(Shifts(x, BITS), High(y))
  {
    EightHalves(y);
    forall i: nat | i < BITS ensures Odd(Halves(y, i)) == 0 {
      assert i == 0 || i == 1 || i == 2 || i == 3 || i == 4 || i == 5 || i == 6 || i == 7;
    }
    ShiftsAbove(x, y, BITS);
  }

  function Upper(c: bv32): bv32 { c & 0xffff_ff00 }

  lemma SplitByte(c: bv32)
    ensures Xor(Low(c), Upper(c)) == c && Low(Upper(c)) == 0 && High(Upper(c)) == High(c)
  {
  }

  /** Eight shifts of a register only mix its low byte into the rest. */
  lemma LowByteOnly(c: bv32)
    ensures Shifts(c, BITS) == Xor(Shifts(Low(c), BITS), High(c))
  {
    SplitByte(c);
    ShiftsHigh(Low(c), Upper(c));
  }

  lemma ByteIsLow(crc: bv32, byte: bv8)
    ensures High(Mix(crc, byte)) == High(crc)
  {
  }

  lemma ShiftsAreTable(c: bv32, high: bv32)
    requires High(c) == high
    ensures Shifts(c, BITS) == TableMix(c, high)
  {
    LowByteOnly(c);
    TableEntryIsShifts(Low(c), BITS);
  }

  lemma ByteStepIsTableStep(crc: bv32, byte: bv8)
    ensures ByteStep(crc, byte) == TableStep(crc, byte)
  {
    ByteIsLow(crc, byte);
    ShiftsAreTable(Mix(crc, byte), High(crc));
  }

  lemma {:induction false} StepsAreUpdate(crc: bv32, text: Text)
    ensures TextStep(crc, text) == Update(crc, text)
    decreases |text|
  {
    if text != [] {
      ByteStepIsTableStep(crc, text[0]);
      StepsAreUpdate(ByteStep(crc, text[0]), text[1..]);
    }
  }

  /** Complement, feed the bytes bit by bit, complement: the published CRC-32. */
  lemma BitwiseIsCrc32(text: Text)
    ensures Not(TextStep(Not(0), text)) == Crc32(text)
  {
    NotIsXor(0);
    StepsAreUpdate(Xor(0, START), text);
    NotIsXor(Update(Xor(0, START), text));
  }

  lemma NotIsXor(c: bv32)
    ensures Not(c) == Xor(c, START)
  {
  }

  // ----- no information is lost

  /** `Shift` undone: the polynomial's top bit tells whether it was mixed in. */
  function Unshift(c: bv32): bv32 {
    ((c ^ (POLYNOMIAL & (0 - (c >> 31)))) << 1) | (c >> 31)
  }

  lemma UnshiftShift(c: bv32)
    ensures Unshift(Shift(c)) == c
  {
  }

  lemma {:induction false} ShiftsInjective(c: bv32, d: bv32, n: nat)
    requires Shifts(c, n) == Shifts(d, n)
    ensures c == d
  {
    if 0 < n {
      UnshiftShift(Shifts(c, n - 1));
      UnshiftShift(Shifts(d, n - 1));
      ShiftsInjective(c, d, n - 1);
    }
  }

  /** For a fixed byte the step is injective in the register... */
  lemma RegisterInjective(crc: bv32, crc': bv32, byte: bv8)
    requires ByteStep(crc, byte) == ByteStep(crc', byte)
    ensures crc == crc'
  {
    var x, y := Mix(crc, byte), Mix(crc', byte);
    assert Shifts(x, BITS) == ByteStep(crc, byte) == ByteStep(crc', byte) == Shifts(y, BITS);
    ShiftsInjective(x, y, BITS);
    MixCancels(crc, crc', byte);
  }

  lemma MixCancels(c: bv32, d: bv32, byte: bv8)
    requires Mix(c, byte) == Mix(d, byte)
    ensures c == d
  {
  }

  /** ...and for a fixed register it is injective in the byte. */
  lemma ByteInjective(crc: bv32, byte: bv8, byte': bv8)
    requires ByteStep(crc, byte) == ByteStep(crc, byte')
    ensures byte == byte'
  {
    ShiftsInjective(Mix(crc, byte), Mix(crc, byte'), BITS);
    SameLowByte(crc, byte, byte');
  }

  lemma SameLowByte(crc: bv32, byte: bv8, byte': bv8)
    requires Mix(crc, byte) == Mix(crc, byte')
    ensures byte == byte'
  {
  }

  lemma ShiftUnshift(c: bv32)
    ensures Shift(Unshift(c)) == c
  {
    if c >> 31 == 1 {
      assert 0 - (c >> 31) == 0xffff_ffff;
      assert Unshift(c) == ((c ^ POLYNOMIAL) << 1) | 1;
      ShiftUnshiftSet(c);
    } else {
      assert c >> 31 == 0;
      assert Unshift(c) == (c << 1) | 0;
      ShiftUnshiftClear(c);
    }
  }

  lemma ShiftUnshiftSet(c: bv32)
    requires c >> 31 == 1
    ensures Shift(((c ^ POLYNOMIAL) << 1) | 1) == c
  {
  }

  lemma ShiftUnshiftClear(c: bv32)
    requires c >> 31 == 0
    ensures Shift((c << 1) | 0) == c
  {
  }

  function Unshifts(c: bv32, n: nat): bv32
    decreases n
  {
    if n == 0 then c else Unshifts(Unshift(c), n - 1)
  }

  lemma {:induction false} ShiftsUnshifts(c: bv32, n: nat)
    ensures Shifts(Unshifts(c, n), n) == c
    decreases n
  {
    if 0 < n {
      ShiftsUnshifts(Unshift(c), n - 1);
      ShiftUnshift(c);
    }
  }

  /** Every register is reached from exactly one register by a given byte. */
  lemma ByteStepBijective(target: bv32, byte: bv8)
    ensures var source := Mix(Unshifts(target, BITS), byte);
            && ByteStep(source, byte) == target
            && forall crc :: ByteStep(crc, byte) == target ==> crc == source
  {
    var source := Mix(Unshifts(target, BITS), byte);
    MixTwice(Unshifts(target, BITS), byte);
    ShiftsUnshifts(target, BITS);
    forall crc | ByteStep(crc, byte) == target ensures crc == source {
      RegisterInjective(crc, source, byte);
    }
  }

  lemma MixTwice(c: bv32, byte: bv8)
    ensures Mix(Mix(c, byte), byte) == c
  {
  }

  lemma {:induction false} SuffixInjective(crc: bv32, crc': bv32, text: Text)
    requires TextStep(crc, text) == TextStep(crc', text)
    ensures crc == crc'
    decreases |text|
  {
    if text != [] {
      SuffixInjective(ByteStep(crc, text[0]), ByteStep(crc', text[0]), text[1..]);
      RegisterInjective(crc, crc', text[0]);
    }
  }

  // ----- bursts

  function Turn(c: bv32): bv32 { Shifts(c, BITS) }

  function Lane1(b: bv8): bv32 { Wide(b) << 8 }
  function Lane2(b: bv8): bv32 { Wide(b) << 16 }
  function Lane3(b: bv8): bv32 { Wide(b) << 24 }

  lemma LanesDescend(b: bv8)
    ensures Low(Lane1(b)) == 0 && High(Lane1(b)) == Wide(b)
    ensures Low(Lane2(b)) == 0 && High(Lane2(b)) == Lane1(b)
    ensures Low(Lane3(b)) == 0 && High(Lane3(b)) == Lane2(b)
  {
  }

  lemma TurnHigh(x: bv32, y: bv32)
    requires Low(y) == 0
    ensures Turn(Xor(x, y)) == Xor(Turn(x), High(y))
  {
    ShiftsHigh(x, y);
  }

  lemma LanesTurn(x: bv32, b: bv8)
    ensures Mix(Turn(x), b) == Turn(Xor(x, Lane1(b)))
    ensures Xor(Turn(x), Lane1(b)) == Turn(Xor(x, Lane2(b)))
    ensures Xor(Turn(x), Lane2(b)) == Turn(Xor(x, Lane3(b)))
  {
    LanesDescend(b);
    TurnHigh(x, Lane1(b));
    TurnHigh(x, Lane2(b));
    TurnHigh(x, Lane3(b));
  }

  /** Four bytes lined up over the register. */
  function Spread(crc: bv32, a: bv8, b: bv8, c: bv8, d: bv8): bv32 {
    Xor(Xor(Xor(Mix(crc, a), Lane1(b)), Lane2(c)), Lane3(d))
  }

  /** Feeding four bytes is one packed mix and four turns. */
  lemma FourBytes(crc: bv32, a: bv8, b: bv8, c: bv8, d: bv8)
    ensures ByteStep(ByteStep(ByteStep(ByteStep(crc, a), b), c), d) == Turn(Turn(Turn(Turn(Spread(crc, a, b, c, d)))))
  {
    var x1 := Mix(crc, a);
    var x2 := Xor(x1, Lane1(b));
    var x3 := Xor(x2, Lane2(c));
    LanesTurn(x1, b);
    LanesTurn(x2, c);
    LanesTurn(Turn(x2), c);
    LanesTurn(x3, d);
    LanesTurn(Turn(x3), d);
    LanesTurn(Turn(Turn(x3)), d);
  }

  function Packed(a: bv8, b: bv8, c: bv8, d: bv8): bv32 {
    (a as bv32) ^ ((b as bv32) << 8) ^ ((c as bv32) << 16) ^ ((d as bv32) << 24)
  }

  lemma SpreadIsPacked(crc: bv32, a: bv8, b: bv8, c: bv8, d: bv8)
    ensures Spread(crc, a, b, c, d) == Xor(crc, Packed(a, b, c, d))
  {
    var p1 := Wide(a);
    var p2 := Xor(p1, Lane1(b));
    var p3 := Xor(p2, Lane2(c));
    XorAssociates(crc, p1, Lane1(b));
    XorAssociates(crc, p2, Lane2(c));
    XorAssociates(crc, p3, Lane3(d));
    assert Packed(a, b, c, d) == Xor(p3, Lane3(d));
  }

  lemma PackedInjective(a: bv8, b: bv8, c: bv8, d: bv8, a': bv8, b': bv8, c': bv8, d': bv8)
    requires Packed(a, b, c, d) == Packed(a', b', c', d')
    ensures a == a' && b == b' && c == c' && d == d'
  {
  }

  lemma XorCancels(crc: bv32, p: bv32, p': bv32)
    requires Xor(crc, p) == Xor(crc, p')
    ensures p == p'
  {
  }

  lemma SpreadInjective(crc: bv32, a: bv8, b: bv8, c: bv8, d: bv8, a': bv8, b': bv8, c': bv8, d': bv8)
    requires Spread(crc, a, b, c, d) == Spread(crc, a', b', c', d')
    ensures a == a' && b == b' && c == c' && d == d'
  {
    SpreadIsPacked(crc, a, b, c, d);
    SpreadIsPacked(crc, a', b', c', d');
    XorCancels(crc, Packed(a, b, c, d), Packed(a', b', c', d'));
    PackedInjective(a, b, c, d, a', b', c', d');
  }

  lemma FourBytesInjective(crc: bv32, w: Text, w': Text)
    requires |w| == |w'| == 4 && TextStep(crc, w) == TextStep(crc, w')
    ensures w == w'
  {
    FourSteps(crc, w);
    FourSteps(crc, w');
    FourBytes(crc, w[0], w[1], w[2], w[3]);
    FourBytes(crc, w'[0], w'[1], w'[2], w'[3]);
    var z, z' := Spread(crc, w[0], w[1], w[2], w[3]), Spread(crc, w'[0], w'[1], w'[2], w'[3]);
    TurnsInjective(z, z');
    SpreadInjective(crc, w[0], w[1], w[2], w[3], w'[0], w'[1], w'[2], w'[3]);
  }

  lemma TurnsInjective(z: bv32, z': bv32)
    requires Turn(Turn(Turn(Turn(z)))) == Turn(Turn(Turn(Turn(z'))))
    ensures z == z'
  {
    ShiftsInjective(Turn(Turn(Turn(z))), Turn(Turn(Turn(z'))), BITS);
    ShiftsInjective(Turn(Turn(z)), Turn(Turn(z')), BITS);
    ShiftsInjective(Turn(z), Turn(z'), BITS);
    ShiftsInjective(z, z', BITS);
  }

  lemma FourSteps(crc: bv32, w: Text)
    requires |w| == 4
    ensures TextStep(crc, w) == ByteStep(ByteStep(ByteStep(ByteStep(crc, w[0]), w[1]), w[2]), w[3])
  {
    assert w[1..][1..] == w[2..] && w[2..][1..] == w[3..] && w[3..][1..] == [];
    var c1 := ByteStep(crc, w[0]);
    var c2 := ByteStep(c1, w[1]);
    var c3 := ByteStep(c2, w[2]);
    assert TextStep(crc, w) == TextStep(c1, w[1..]);
    assert TextStep(c1, w[1..]) == TextStep(c2, w[2..]);
    assert TextStep(c2, w[2..]) == TextStep(c3, w[3..]);
    assert TextStep(c3, w[3..]) == ByteStep(c3, w[3]);
  }

  function Zeros(n: nat): Text { seq(n, _ => 0 as bv8) }

  /** A window of up to four bytes determines the register, so two different windows are told apart. */
  lemma WindowInjective(crc: bv32, w: Text, w': Text)
    requires |w| == |w'| <= 4 && TextStep(crc, w) == TextStep(crc, w')
    ensures w == w'
  {
    var pad := Zeros(4 - |w|);
    TextStepConcat(crc, w, pad);
    TextStepConcat(crc, w', pad);
    FourBytesInjective(crc, w + pad, w' + pad);
    assert w == (w + pad)[..|w|] && w' == (w' + pad)[..|w|];
  }

  /**
    Two texts that differ only inside one window of at most four bytes never have the same CRC,
    whatever comes before and after; one changed byte is the smallest case.
   */
  lemma BurstDetected(before: Text, w: Text, w': Text, after: Text)
    requires |w| == |w'| <= 4 && w != w'
    ensures Crc32(before + w + after) != Crc32(before + w' + after)
  {
    var c := TextStep(Not(0), before);
    TextStepConcat(Not(0), before + w, after);
    TextStepConcat(Not(0), before + w', after);
    TextStepConcat(Not(0), before, w);
    TextStepConcat(Not(0), before, w');
    BitwiseIsCrc32(before + w + after);
    BitwiseIsCrc32(before + w' + after);
    if Crc32(before + w + after) == Crc32(before + w' + after) {
      NotInjective(TextStep(TextStep(c, w), after), TextStep(TextStep(c, w'), after));
      SuffixInjective(TextStep(c, w), TextStep(c, w'), after);
      WindowInjective(c, w, w');
    }
  }

  lemma NotInjective(a: bv32, b: bv32)
    requires Not(a) == Not(b)
    ensures a == b
  {
  }
}
