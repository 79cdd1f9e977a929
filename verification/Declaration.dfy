/** The identity of an API declaration: the CRC of one rendered text. */
module Declaration {
  import opened Bytes
  import opened Crc

  datatype Block = Fields(fields: seq<Field>) | Enum(values: seq<(string, int)>) | Alias

  datatype Field = Field(
    name: string, fieldType: string, block: Option<Block>, length: Option<nat>, lengthField: Option<string>)

  const U64: nat := 0x1_0000_0000_0000_0000

  // ----- text

  /** One byte per character; identifiers are ASCII. */
  function Ascii(s: string): (t: Text)
    ensures |t| == |s|
  {
    seq(|s|, i requires 0 <= i < |s| => Code(s[i]))
  }

  function Code(c: char): bv8 { (c as int % 256) as bv8 }

  /** The register after the characters of `s`. */
  function Fed(crc: bv32, s: string): bv32 { TextStep(crc, Ascii(s)) }

  lemma FedFirst(crc: bv32, s: string)
    requires s != []
    ensures Fed(crc, s) == Fed(ByteStep(crc, Code(s[0])), s[1..])
  {
    assert Ascii(s)[1..] == Ascii(s[1..]);
  }

  lemma FedJoin(crc: bv32, a: string, b: string)
    ensures Fed(Fed(crc, a), b) == Fed(crc, a + b)
  {
    assert Ascii(a + b) == Ascii(a) + Ascii(b);
    TextStepConcat(crc, Ascii(a), Ascii(b));
  }

  function Digit(d: nat): char
    requires d < 10
  {
    (48 + d) as char
  }

  /** Decimal notation, no leading zeros. */
  function Decimal(n: nat): (t: string)
    ensures t != []
    decreases n
  {
    if n < 10 then [Digit(n)] else Decimal(n / 10) + [Digit(n % 10)]
  }

  function Quoted(s: string): string { "'" + s + "'" }

  function Signed(n: int): string { if n < 0 then "-" + Decimal(-n) else Decimal(n) }

  function RenderLength(f: Field): string {
    match f.length
    case None => ""
    case Some(n) => ", " + Decimal(n) + ", " + match f.lengthField { case Some(name) => Quoted(name) case None => "None" }
  }

  function RenderField(f: Field): string {
    "['" + (if f.block.Some? then "vl_api_" + f.fieldType + "_t" else f.fieldType)
    + "', " + Quoted(f.name) + RenderLength(f) + "]"
  }

  function RenderValue(v: (string, int)): string {
    "[" + Quoted(v.0) + ", " + Signed(v.1) + "]"
  }

  /** Items with a comma and a blank between them. */
  function Separated(items: seq<string>): string {
    if items == [] then ""
    else if |items| == 1 then items[0]
    else Separated(items[..|items| - 1]) + ", " + items[|items| - 1]
  }

  function Items(b: Block): (items: seq<string>) {
    match b
    case Fields(fs) => seq(|fs|, i requires 0 <= i < |fs| => RenderField(fs[i]))
    case Enum(vs) => seq(|vs|, i requires 0 <= i < |vs| => RenderValue(vs[i]))
    case Alias => []
  }

  function RenderBlock(b: Block): string { "[" + Separated(Items(b)) + "]" }

  /** The texts of everything a block refers to, depth first in field order. */
  function RenderDependencies(b: Block): string
    decreases b, 0
  {
    match b
    case Fields(fs) => RenderFieldDependencies(b, |fs|)
    case _ => ""
  }

  function RenderFieldDependencies(b: Block, n: nat): string
    requires b.Fields? && n <= |b.fields|
    decreases b, 0, n
  {
    if n == 0 then ""
    else
      var f := b.fields[n - 1];
      RenderFieldDependencies(b, n - 1)
      + if f.block.Some? then RenderBlock(f.block.value) + RenderDependencies(f.block.value) else ""
  }

  /** The whole text a declaration is identified by. */
  function Rendered(b: Block): string { RenderBlock(b) + RenderDependencies(b) }

  // ----- decimal digits

  function Pow10(k: nat): (p: nat)
    ensures 1 <= p
  {
    if k == 0 then 1 else 10 * Pow10(k - 1)
  }

  /** The value with its last `k` decimal digits dropped. */
  function Dropped(value: nat, k: nat): nat {
    if k == 0 then value else Dropped(value / 10, k - 1)
  }

  lemma MulAtLeast(a: int, b: int, d: nat)
    requires a <= b
    ensures a * d <= b * d
  {
  }

  lemma DivisionUnique(x: nat, d: nat, q: nat, r: nat)
    requires 0 < d && x == q * d + r && r < d
    ensures x / d == q
  {
    var q' := x / d;
    assert q' * d <= x < q' * d + d;
    assert q' <= q by {
      if q < q' { MulAtLeast(q + 1, q', d); }
    }
    assert q <= q' by {
      if q' < q { MulAtLeast(q' + 1, q, d); }
    }
  }

  lemma DivideTwice(v: nat, d: nat)
    requires 0 < d
    ensures (v / 10) / d == v / (10 * d)
  {
    var q, r := (v / 10) / d, (v / 10) % d;
    assert v / 10 == q * d + r;
    assert v == q * (10 * d) + (10 * r + v % 10);
    DivisionUnique(v, 10 * d, q, 10 * r + v % 10);
  }

  lemma {:induction false} DroppedIsQuotient(value: nat, k: nat)
    ensures Dropped(value, k) == value / Pow10(k)
  {
    if 0 < k {
      DroppedIsQuotient(value / 10, k - 1);
      DivideTwice(value, Pow10(k - 1));
    }
  }

  /** The digits the loop of `integer_crc` emits, from divisor 10^k down to one. */
  function DigitsFrom(value: nat, k: nat): string {
    [Digit(Dropped(value, k) % 10)] + if k == 0 then [] else DigitsFrom(value, k - 1)
  }

  lemma {:induction false} DigitsShift(value: nat, k: nat)
    requires 0 < k
    ensures DigitsFrom(value, k) == DigitsFrom(value / 10, k - 1) + [Digit(value % 10)]
  {
    if 1 < k {
      DigitsShift(value, k - 1);
    } else {
      assert DigitsFrom(value, 0) == [Digit(value % 10)];
    }
  }

  /** Started at the leading digit, the loop emits exactly the decimal form. */
  lemma {:induction false} DigitsAreDecimal(value: nat, k: nat)
    requires Dropped(value, k) < 10 && (0 < k ==> 1 <= Dropped(value, k))
    ensures DigitsFrom(value, k) == Decimal(value)
    decreases k
  {
    if 0 < k {
      DroppedSmall(value, k);
      DigitsShift(value, k);
      LeadingDropped(value, k);
      DigitsAreDecimal(value / 10, k - 1);
      DecimalLast(value);
    } else {
      DecimalShort(value);
    }
  }

  lemma LeadingDropped(value: nat, k: nat)
    requires 0 < k && 1 <= Dropped(value, k)
    ensures Dropped(value / 10, k - 1) == Dropped(value, k)
  {
  }

  lemma DecimalLast(value: nat)
    requires 10 <= value
    ensures Decimal(value) == Decimal(value / 10) + [Digit(value % 10)]
  {
  }

  lemma DecimalShort(value: nat)
    requires value < 10
    ensures DigitsFrom(value, 0) == Decimal(value)
  {
    assert value % 10 == value;
  }

  lemma {:induction false} DroppedSmall(value: nat, k: nat)
    requires 0 < k && 1 <= Dropped(value, k)
    ensures 10 <= value
  {
    if 1 < k {
      DroppedSmall(value / 10, k - 1);
    }
  }

  /** Decimal notation read back. */
  function ReadDecimal(t: string): nat {
    if t == [] then 0 else 10 * ReadDecimal(t[..|t| - 1]) + DigitValue(t[|t| - 1])
  }

  function DigitValue(c: char): nat { if '0' <= c <= '9' then c as nat - 48 else 0 }

  lemma {:induction false} DecimalReads(n: nat)
    ensures ReadDecimal(Decimal(n)) == n
  {
    if 10 <= n {
      DecimalReads(n / 10);
      var t := Decimal(n);
      assert t[..|t| - 1] == Decimal(n / 10);
    }
    DigitReads(n % 10);
  }

  lemma DigitReads(d: nat)
    requires d < 10
    ensures DigitValue(Digit(d)) == d
  {
  }

  method IntegerCrc(crc: bv32, value: nat) returns (r: bv32)
    requires value < U64
    ensures r == Fed(crc, Decimal(value))
  {
    var divisor: nat := 1;
    ghost var k: nat := 0;
    DroppedIsQuotient(value, 0);
    while 10 <= value / divisor
      invariant divisor == Pow10(k) && Dropped(value, k) == value / divisor
      invariant 0 < k ==> 1 <= value / divisor
      invariant divisor < U64
      decreases value / divisor
    {
      DivisorFits(value, divisor);
      divisor := divisor * 10;
      k := k + 1;
      DroppedIsQuotient(value, k);
    }
    DigitsAreDecimal(value, k);
    r := crc;
    while true
      invariant divisor == Pow10(k)
      invariant Fed(r, DigitsFrom(value, k)) == Fed(crc, Decimal(value))
      decreases k
    {
      DroppedIsQuotient(value, k);
      FedFirst(r, DigitsFrom(value, k));
      r := ByteCrc(r, Code(Digit((value / divisor) % 10)));
      assert DigitsFrom(value, k)[1..] == if k == 0 then [] else DigitsFrom(value, k - 1);
      if divisor == 1 {
        PowerOne(k);
        return;
      }
      divisor := divisor / 10;
      k := k - 1;
    }
  }

  /** While a quotient of ten or more is left, ten times the divisor still fits. */
  lemma DivisorFits(value: nat, divisor: nat)
    requires 0 < divisor && 10 <= value / divisor
    ensures 10 * divisor <= value
    ensures 1 <= value / (divisor * 10) < value / divisor
  {
    var q := value / divisor;
    assert q * divisor <= value;
    MulAtLeast(10, q, divisor);
    var p := value / (divisor * 10);
    assert p * (divisor * 10) <= value < p * (divisor * 10) + divisor * 10;
    assert 1 <= p by {
      if p < 1 { MulAtLeast(p, 0, divisor * 10); }
    }
    assert (10 * p) * divisor == p * (divisor * 10);
    assert p < q by {
      if q <= p { MulAtLeast(q + 1, 10 * p, divisor); }
    }
  }

  lemma PowerOne(k: nat)
    requires Pow10(k) == 1
    ensures k == 0
  {
  }
}
