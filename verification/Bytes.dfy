/** Bytes, machine integers as byte strings, and UTF-8 validity. */
module Bytes {

  type Byte = b: int | 0 <= b < 256

  datatype Result<+T> = Ok(value: T) | Err(error: string)
  datatype Option<+T> = None | Some(value: T)

  function Pow256(width: nat): (p: nat)
    ensures 1 <= p
  {
    if width == 0 then 1 else 256 * Pow256(width - 1)
  }

  // ----- little endian

  function LittleEndian(n: nat, width: nat): (bytes: seq<Byte>)
    ensures |bytes| == width
  {
    if width == 0 then [] else [n % 256] + LittleEndian(n / 256, width - 1)
  }

  function FromLittleEndian(bytes: seq<Byte>): (n: nat)
    ensures n < Pow256(|bytes|)
  {
    if bytes == [] then 0 else bytes[0] + 256 * FromLittleEndian(bytes[1..])
  }

  lemma {:induction false} LittleEndianRoundTrip(n: nat, width: nat)
    requires n < Pow256(width)
    ensures FromLittleEndian(LittleEndian(n, width)) == n
  {
    if 0 < width {
      LittleEndianRoundTrip(n / 256, width - 1);
      assert LittleEndian(n, width)[1..] == LittleEndian(n / 256, width - 1);
    }
  }

  lemma LowDigit(b: Byte, rest: nat)
    ensures (b + 256 * rest) % 256 == b && (b + 256 * rest) / 256 == rest
  {
  }

  lemma {:induction false} LittleEndianUnique(bytes: seq<Byte>)
    ensures LittleEndian(FromLittleEndian(bytes), |bytes|) == bytes
  {
    if bytes != [] {
      LittleEndianUnique(bytes[1..]);
      LowDigit(bytes[0], FromLittleEndian(bytes[1..]));
      assert bytes == [bytes[0]] + bytes[1..];
    }
  }

  lemma PowStep(n: nat, i: nat)
    ensures n / 256 / Pow256(i) == n / Pow256(i + 1)
  {
    var p, k := Pow256(i), n / 256;
    var q, r := k / p, k % p;
    QuotientAndRest(k, p);
    Scaled(p, q);
    QuotientIs(n, 256 * p, q, 256 * r + n % 256);
  }

  lemma QuotientAndRest(k: nat, p: nat)
    requires 0 < p
    ensures k == p * (k / p) + k % p && 0 <= k % p < p
  {
  }

  lemma Scaled(p: nat, q: nat)
    ensures (256 * p) * q == 256 * (p * q)
  {
  }

  lemma QuotientIs(n: nat, d: nat, q: nat, r: nat)
    requires n == d * q + r && r < d
    ensures n / d == q
  {
    var k := n / d;
    QuotientAndRest(n, d);
    Monotone(k + 1, q, d);
    Monotone(q + 1, k, d);
  }

  lemma Monotone(a: nat, b: nat, d: nat)
    ensures a <= b ==> d * a <= d * b
    ensures d * (a + 1) == d * a + d
  {
    if a <= b { assert d * (b - a) >= 0; }
  }

  /** Byte `i` of the little-endian form is the digit of weight 256^i. */
  lemma {:induction false} LittleEndianAt(n: nat, width: nat, i: nat)
    requires i < width
    ensures LittleEndian(n, width)[i] == n / Pow256(i) % 256
  {
    if 0 < i {
      LittleEndianAt(n / 256, width - 1, i - 1);
      PowStep(n, i - 1);
    }
  }

  /** And byte `i` of what is read is its digit of weight 256^i. */
  lemma FromLittleEndianAt(bytes: seq<Byte>, i: nat)
    requires i < |bytes|
    ensures bytes[i] == FromLittleEndian(bytes) / Pow256(i) % 256
  {
    LittleEndianUnique(bytes);
    LittleEndianAt(FromLittleEndian(bytes), |bytes|, i);
  }

  // ----- big endian

  function Reverse(bytes: seq<Byte>): (r: seq<Byte>)
    ensures |r| == |bytes|
    ensures forall i :: 0 <= i < |r| ==> r[i] == bytes[|bytes| - 1 - i]
  {
    seq(|bytes|, i requires 0 <= i < |bytes| => bytes[|bytes| - 1 - i])
  }

  lemma ReverseTwice(bytes: seq<Byte>)
    ensures Reverse(Reverse(bytes)) == bytes
  {
  }

  function BigEndian(n: nat, width: nat): (bytes: seq<Byte>)
    ensures |bytes| == width
  {
    Reverse(LittleEndian(n, width))
  }

  function FromBigEndian(bytes: seq<Byte>): (n: nat)
    ensures n < Pow256(|bytes|)
  {
    FromLittleEndian(Reverse(bytes))
  }

  lemma BigEndianRoundTrip(n: nat, width: nat)
    requires n < Pow256(width)
    ensures FromBigEndian(BigEndian(n, width)) == n
  {
    LittleEndianRoundTrip(n, width);
    ReverseTwice(LittleEndian(n, width));
  }

  lemma BigEndianUnique(bytes: seq<Byte>)
    ensures BigEndian(FromBigEndian(bytes), |bytes|) == bytes
  {
    LittleEndianUnique(Reverse(bytes));
    ReverseTwice(bytes);
  }

  /** Most significant first: byte `i` of `width` is the digit of weight 256^(width-1-i). */
  lemma BigEndianAt(n: nat, width: nat, i: nat)
    requires i < width
    ensures BigEndian(n, width)[i] == n / Pow256(width - 1 - i) % 256
  {
    LittleEndianAt(n, width, width - 1 - i);
  }

  lemma FromBigEndianAt(bytes: seq<Byte>, i: nat)
    requires i < |bytes|
    ensures bytes[i] == FromBigEndian(bytes) / Pow256(|bytes| - 1 - i) % 256
  {
    FromLittleEndianAt(Reverse(bytes), |bytes| - 1 - i);
  }

  /** The two byte orders disagree on the number one as soon as there is more than one byte. */
  lemma OrdersDisagree(width: nat)
    requires 2 <= width
    ensures FromBigEndian(LittleEndian(1, width)) != 1 && FromLittleEndian(BigEndian(1, width)) != 1
  {
    var le := LittleEndian(1, width);
    assert le[0] == 1 && le[1..] == LittleEndian(0, width - 1);
    ZeroBytes(width - 1);
    assert Reverse(le)[0] == 0;
    assert FromLittleEndian(Reverse(le)) % 256 == 0;
  }

  lemma {:induction false} ZeroBytes(width: nat)
    ensures forall i :: 0 <= i < width ==> LittleEndian(0, width)[i] == 0
  {
    if 0 < width {
      ZeroBytes(width - 1);
    }
  }

  // ----- short forms, written out

  function At(bytes: seq<Byte>, i: nat): nat
    requires i < |bytes|
  {
    bytes[i]
  }

  lemma {:induction false} FromBigEndianLast(bytes: seq<Byte>)
    requires bytes != []
    ensures FromBigEndian(bytes) == 256 * FromBigEndian(bytes[..|bytes| - 1]) + bytes[|bytes| - 1]
  {
    assert Reverse(bytes)[1..] == Reverse(bytes[..|bytes| - 1]);
  }

  /** Two bytes, most significant first. */
  lemma BigEndianPair(bytes: seq<Byte>)
    requires |bytes| == 2
    ensures FromBigEndian(bytes) == 256 * At(bytes, 0) + At(bytes, 1)
  {
    FromBigEndianLast(bytes);
    FromBigEndianLast(bytes[..1]);
    assert bytes[..1][..0] == [];
  }

  function FourBytes(bytes: seq<Byte>, at: nat): nat
    requires at + 4 <= |bytes|
  {
    256 * (256 * (256 * At(bytes, at) + At(bytes, at + 1)) + At(bytes, at + 2)) + At(bytes, at + 3)
  }

  /** Four bytes, most significant first. */
  lemma BigEndianFour(bytes: seq<Byte>, at: nat)
    requires at + 4 <= |bytes|
    ensures FromBigEndian(bytes[at..at + 4]) == FourBytes(bytes, at)
  {
    var s := bytes[at..at + 4];
    FromBigEndianLast(s);
    FromBigEndianLast(s[..3]);
    BigEndianPair(s[..2]);
    assert s[..4 - 1] == s[..3] && s[..3][..3 - 1] == s[..2];
    assert s[0] == bytes[at] && s[1] == bytes[at + 1] && s[2] == bytes[at + 2] && s[3] == bytes[at + 3];
    assert At(s[..2], 0) == s[0] && At(s[..2], 1) == s[1] && s[..3][2] == s[2];
  }

  // ----- slices

  lemma SubSlice(m: seq<Byte>, at: nat, n: nat, i: nat, j: nat)
    requires i <= j <= n && at + n <= |m|
    ensures m[at..at + n][i..j] == m[at + i..at + j]
  {
    var d, e := m[at..at + n], m[at + i..at + j];
    forall k | 0 <= k < |e| ensures e[k] == d[i..j][k] {
      assert d[i + k] == m[at + i + k];
    }
  }

  lemma SliceJoin(m: seq<Byte>, at: nat, mid: nat, end: nat)
    requires at <= mid <= end <= |m|
    ensures m[at..end] == m[at..mid] + m[mid..end]
  {
    assert m[at..end] == m[at..mid] + m[mid..end];
  }

  // ----- UTF-8, as `std::str::from_utf8` decides it

  predicate Tail(b: Byte) { 0x80 <= b <= 0xBF }

  /** The length of the well-formed sequence at the front, or 0. */
  function Utf8Head(s: seq<Byte>): (n: nat)
    ensures n <= |s|
  {
    if |s| == 0 then 0
    else if s[0] <= 0x7F then 1
    else if 0xC2 <= s[0] <= 0xDF then (if |s| >= 2 && Tail(s[1]) then 2 else 0)
    else if s[0] == 0xE0 then (if |s| >= 3 && 0xA0 <= s[1] <= 0xBF && Tail(s[2]) then 3 else 0)
    else if s[0] == 0xED then (if |s| >= 3 && 0x80 <= s[1] <= 0x9F && Tail(s[2]) then 3 else 0)
    else if 0xE1 <= s[0] <= 0xEF then (if |s| >= 3 && Tail(s[1]) && Tail(s[2]) then 3 else 0)
    else if s[0] == 0xF0 then (if |s| >= 4 && 0x90 <= s[1] <= 0xBF && Tail(s[2]) && Tail(s[3]) then 4 else 0)
    else if 0xF1 <= s[0] <= 0xF3 then (if |s| >= 4 && Tail(s[1]) && Tail(s[2]) && Tail(s[3]) then 4 else 0)
    else if s[0] == 0xF4 then (if |s| >= 4 && 0x80 <= s[1] <= 0x8F && Tail(s[2]) && Tail(s[3]) then 4 else 0)
    else 0
  }

  predicate ValidUtf8(s: seq<Byte>)
    decreases |s|
  {
    s == [] || (Utf8Head(s) > 0 && ValidUtf8(s[Utf8Head(s)..]))
  }
}
