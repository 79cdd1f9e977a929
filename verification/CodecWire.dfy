/**
  What stands on the wire, byte by byte: each kind of field described by position, without the encoder's
  or the decoder's own functions, and both proved to implement that description.
 */
module CodecWire {
  import opened Bytes
  import opened Codec
  import opened CodecLaws

  /** The two's complement of `n` in `width` bytes. */
  function Complement(n: int, width: nat): int {
    if n < 0 then n + Pow256(width) else n
  }

  /** Digits of weight 256^i from the front, or from the back. */
  predicate Digits(u: int, bytes: seq<Byte>, leastFirst: bool) {
    forall i :: 0 <= i < |bytes| ==> bytes[i] == u / Pow256(if leastFirst then i else |bytes| - 1 - i) % 256
  }

  predicate Prefixed(contents: seq<Byte>, bytes: seq<Byte>) {
    && |contents| < 0x1_0000_0000
    && |bytes| == 4 + |contents| && bytes[4..] == contents
    && Digits(|contents|, bytes[..4], false)
  }

  function Concat(parts: seq<seq<Byte>>): seq<Byte> {
    if parts == [] then [] else parts[0] + Concat(parts[1..])
  }

  /** Struct fields take the flag from their names. Array elements are written with the array's, and read without. */
  predicate FlagOf(reading: bool, names: seq<string>, token: bool, i: nat) {
    if names == [] then !reading && token else i < |names| && names[i] == "client_index"
  }

  /**
    `bytes` are the wire form of `v`. The reader and the writer differ in the flag of array elements, in the
    bytes that mean true, and in the reader's refusal of array elements that take no bytes.
   */
  ghost predicate Wire(reading: bool, s: Schema, v: Value, token: bool, bytes: seq<Byte>) {
    match s
    case Int(w, signed) =>
      v.IntV? && IntFits(v.n, w, signed) && |bytes| == w && Digits(Complement(v.n, w), bytes, token)
    case Bool => v.BoolV? && |bytes| == 1 && (if reading then v.b <==> bytes[0] != 0 else bytes[0] == if v.b then 1 else 0)
    case F64 => v.F64V? && |bytes| == 8 && bytes == v.bits
    case Blob => v.BlobV? && Prefixed(v.blob, bytes)
    case Text => v.TextV? && ValidUtf8(v.text) && Prefixed(v.text, bytes)
    case Unit => v.UnitV? && bytes == []
    case Newtype(i) => v.NewtypeV? && Wire(reading, i, v.v, token, bytes)
    case Tuple(es) =>
      v.SeqV? && exists parts: seq<seq<Byte>> ::
        && |parts| == |es| == |v.vs| && bytes == Concat(parts)
        && forall i :: 0 <= i < |es| ==> PartOk(reading, [], parts[i])
                                         && Wire(reading, es[i], v.vs[i], FlagOf(reading, [], token, i), parts[i])
    case Struct(ns, es) =>
      v.SeqV? && exists parts: seq<seq<Byte>> ::
        && |parts| == |es| == |v.vs| && bytes == Concat(parts)
        && forall i :: 0 <= i < |es| ==> PartOk(reading, ns, parts[i])
                                         && Wire(reading, es[i], v.vs[i], FlagOf(reading, ns, token, i), parts[i])
  }

  predicate PartOk(reading: bool, names: seq<string>, part: seq<Byte>) {
    reading && names == [] ==> part != []
  }

  /** The fields one after the other, each in its own part. */
  ghost predicate Row(
    reading: bool, names: seq<string>, ss: seq<Schema>, vs: seq<Value>, token: bool, parts: seq<seq<Byte>>
  )
  {
    && |parts| == |ss| == |vs|
    && forall i :: 0 <= i < |ss| ==> PartOk(reading, names, parts[i])
                                     && Wire(reading, ss[i], vs[i], FlagOf(reading, names, token, i), parts[i])
  }

  // ----- the writer

  lemma DigitsOf(u: nat, width: nat)
    ensures Digits(u, LittleEndian(u, width), true) && Digits(u, BigEndian(u, width), false)
  {
    forall i | 0 <= i < width
      ensures LittleEndian(u, width)[i] == u / Pow256(i) % 256 && BigEndian(u, width)[i] == u / Pow256(width - 1 - i) % 256
    {
      LittleEndianAt(u, width, i);
      BigEndianAt(u, width, i);
    }
  }

  lemma DigitsUnique(u: nat, bytes: seq<Byte>, leastFirst: bool)
    requires Digits(u, bytes, leastFirst)
    ensures bytes == if leastFirst then LittleEndian(u, |bytes|) else BigEndian(u, |bytes|)
  {
    DigitsOf(u, |bytes|);
  }

  lemma BlobWire(blob: seq<Byte>)
    requires EncodeBlob(blob).Ok?
    ensures Prefixed(blob, EncodeBlob(blob).value)
  {
    DigitsOf(|blob|, 4);
    assert EncodeBlob(blob).value[..4] == BigEndian(|blob|, 4);
  }

  lemma {:induction false} EncodeWire(s: Schema, v: Value, token: bool)
    requires Fits(s, v) && Encode(s, v, token).Ok?
    ensures Wire(false, s, v, token, Encode(s, v, token).value)
    decreases s, 1
  {
    match s
    case Int(w, _) => DigitsOf(ToUnsigned(v.n, w), w);
    case Blob => BlobWire(v.blob);
    case Text => BlobWire(v.text);
    case Newtype(i) => EncodeWire(i, v.v, token);
    case Tuple(es) =>
      var parts := ElementsWire(true, [], es, v.vs, token);
      assert Row(false, [], es, v.vs, token, parts);
    case Struct(ns, es) =>
      var parts := ElementsWire(ns == [], ns, es, v.vs, token);
      assert Row(false, ns, es, v.vs, token, parts);
    case _ =>
  }

  /** The flag the encoder has for the field `i` places on. */
  predicate Due(unnamed: bool, names: seq<string>, token: bool, i: nat) {
    if unnamed then token else i < |names| && names[i] == "client_index"
  }

  lemma {:induction false} ElementsWire(
    unnamed: bool, names: seq<string>, ss: seq<Schema>, vs: seq<Value>, token: bool
  ) returns (parts: seq<seq<Byte>>)
    requires AllFit(ss, vs) && EncodeElements(unnamed, names, ss, vs, token).Ok?
    ensures |parts| == |ss| == |vs| && EncodeElements(unnamed, names, ss, vs, token).value == Concat(parts)
    ensures forall i :: 0 <= i < |ss| ==> Wire(false, ss[i], vs[i], Due(unnamed, names, token, i), parts[i])
    decreases ss, 0
  {
    if ss == [] {
      parts := [];
    } else {
      EncodeWire(ss[0], vs[0], Due(unnamed, names, token, 0));
      var rest := ElementsWire(unnamed, Tail1(names), ss[1..], vs[1..], token);
      parts := [Encode(ss[0], vs[0], Due(unnamed, names, token, 0)).value] + rest;
      forall i | 0 < i < |ss| ensures Wire(false, ss[i], vs[i], Due(unnamed, names, token, i), parts[i]) {
        assert Wire(false, ss[1..][i - 1], vs[1..][i - 1], Due(unnamed, Tail1(names), token, i - 1), rest[i - 1]);
      }
    }
  }

  /** A value has one written form only. */
  lemma {:induction false} WrittenOnce(s: Schema, v: Value, token: bool, a: seq<Byte>, b: seq<Byte>)
    requires Wire(false, s, v, token, a) && Wire(false, s, v, token, b)
    ensures a == b
    decreases s, 1
  {
    match s
    case Int(w, _) =>
      DigitsUnique(Complement(v.n, w), a, token);
      DigitsUnique(Complement(v.n, w), b, token);
    case Blob => PrefixedOnce(v.blob, a, b);
    case Text => PrefixedOnce(v.text, a, b);
    case Newtype(i) => WrittenOnce(i, v.v, token, a, b);
    case Tuple(es) => WrittenRow([], es, v.vs, token, a, b);
    case Struct(ns, es) => WrittenRow(ns, es, v.vs, token, a, b);
    case _ =>
  }

  ghost predicate RowOf(
    reading: bool, names: seq<string>, ss: seq<Schema>, vs: seq<Value>, token: bool, bytes: seq<Byte>
  )
  {
    exists parts: seq<seq<Byte>> :: Row(reading, names, ss, vs, token, parts) && bytes == Concat(parts)
  }

  lemma {:induction false} WrittenRow(
    names: seq<string>, ss: seq<Schema>, vs: seq<Value>, token: bool, a: seq<Byte>, b: seq<Byte>
  )
    requires RowOf(false, names, ss, vs, token, a) && RowOf(false, names, ss, vs, token, b)
    ensures a == b
    decreases ss, 0
  {
    var p: seq<seq<Byte>> :| Row(false, names, ss, vs, token, p) && a == Concat(p);
    var q: seq<seq<Byte>> :| Row(false, names, ss, vs, token, q) && b == Concat(q);
    forall i | 0 <= i < |ss| ensures p[i] == q[i] {
      WrittenOnce(ss[i], vs[i], FlagOf(false, names, token, i), p[i], q[i]);
    }
    assert p == q;
  }

  lemma PrefixedOnce(contents: seq<Byte>, a: seq<Byte>, b: seq<Byte>)
    requires Prefixed(contents, a) && Prefixed(contents, b)
    ensures a == b
  {
    DigitsUnique(|contents|, a[..4], false);
    DigitsUnique(|contents|, b[..4], false);
    assert a == a[..4] + a[4..] && b == b[..4] + b[4..];
  }

  /** Only values that fit, with byte strings short enough, have a wire form. */
  lemma {:induction false} WireFits(reading: bool, s: Schema, v: Value, token: bool, bytes: seq<Byte>)
    requires Wire(reading, s, v, token, bytes)
    ensures Fits(s, v) && Encodable(s, v)
    decreases s, 1
  {
    match s
    case Newtype(i) => WireFits(reading, i, v.v, token, bytes);
    case Tuple(es) => RowFits(reading, [], es, v.vs, token, bytes);
    case Struct(ns, es) => RowFits(reading, ns, es, v.vs, token, bytes);
    case _ =>
  }

  lemma {:induction false} RowFits(
    reading: bool, names: seq<string>, ss: seq<Schema>, vs: seq<Value>, token: bool, bytes: seq<Byte>
  )
    requires RowOf(reading, names, ss, vs, token, bytes)
    ensures AllFit(ss, vs) && AllEncodable(ss, vs)
    decreases ss, 0
  {
    var parts: seq<seq<Byte>> :| Row(reading, names, ss, vs, token, parts) && bytes == Concat(parts);
    forall i | 0 <= i < |ss| ensures Fits(ss[i], vs[i]) && Encodable(ss[i], vs[i]) {
      WireFits(reading, ss[i], vs[i], FlagOf(reading, names, token, i), parts[i]);
    }
    EachFits(ss, vs);
  }

  lemma {:induction false} EachFits(ss: seq<Schema>, vs: seq<Value>)
    requires |ss| == |vs| && forall i :: 0 <= i < |ss| ==> Fits(ss[i], vs[i]) && Encodable(ss[i], vs[i])
    ensures AllFit(ss, vs) && AllEncodable(ss, vs)
  {
    if ss != [] { EachFits(ss[1..], vs[1..]); }
  }

  /** The encoder writes exactly the wire form: it has a result if there is one, and that result is it. */
  lemma EncodeExactly(s: Schema, v: Value, token: bool, bytes: seq<Byte>)
    ensures Wire(false, s, v, token, bytes) <==> Fits(s, v) && Encode(s, v, token) == Ok(bytes)
  {
    if Fits(s, v) && Encode(s, v, token) == Ok(bytes) { EncodeWire(s, v, token); }
    if Wire(false, s, v, token, bytes) {
      WireFits(false, s, v, token, bytes);
      EncodeSize(s, v, token);
      EncodeWire(s, v, token);
      WrittenOnce(s, v, token, bytes, Encode(s, v, token).value);
    }
  }

  // ----- the reader

  lemma IntWire(bytes: seq<Byte>, signed: bool, token: bool)
    ensures Digits(Complement(BytesInt(bytes, signed, token), |bytes|), bytes, token)
  {
    var u := if token then FromLittleEndian(bytes) else FromBigEndian(bytes);
    assert Complement(BytesInt(bytes, signed, token), |bytes|) == u;
    forall i | 0 <= i < |bytes| ensures bytes[i] == u / Pow256(if token then i else |bytes| - 1 - i) % 256 {
      if token { FromLittleEndianAt(bytes, i); } else { FromBigEndianAt(bytes, i); }
    }
  }

  lemma BlobReads(input: seq<Byte>, at: nat)
    requires at <= |input| && DecodeBlob(input, at).Ok?
    ensures var b := DecodeBlob(input, at).value; Prefixed(b.0, input[at..b.1])
  {
    var b := DecodeBlob(input, at).value;
    var head := input[at..at + 4];
    assert |b.0| == FromBigEndian(head);
    assert Pow256(4) == 0x1_0000_0000 by { assert Pow256(2) == 256 * 256; }
    SubSlice(input, at, b.1 - at, 0, 4);
    SubSlice(input, at, b.1 - at, 4, b.1 - at);
    forall i | 0 <= i < 4 ensures head[i] == |b.0| / Pow256(3 - i) % 256 { FromBigEndianAt(head, i); }
  }

  lemma ScalarWire(s: Schema, input: seq<Byte>, at: nat, token: bool)
    requires at <= |input| && Decode(s, input, at, token).Ok? && (s.Int? || s.Blob? || s.Text?)
    ensures var (v, end) := Decode(s, input, at, token).value; Wire(true, s, v, token, input[at..end])
  {
    match s
    case Int(w, signed) => IntWire(input[at..at + w], signed, token);
    case Blob => BlobReads(input, at);
    case Text => BlobReads(input, at);
  }

  lemma {:induction false} DecodeWire(s: Schema, input: seq<Byte>, at: nat, token: bool)
    requires at <= |input| && Decode(s, input, at, token).Ok?
    ensures var (v, end) := Decode(s, input, at, token).value; Wire(true, s, v, token, input[at..end])
    decreases s, 2
  {
    match s
    case Int(_, _) => ScalarWire(s, input, at, token);
    case Blob => ScalarWire(s, input, at, token);
    case Text => ScalarWire(s, input, at, token);
    case Newtype(i) => DecodeWire(i, input, at, token);
    case Tuple(es) => SequenceWire([], es, input, at, token);
    case Struct(ns, es) => SequenceWire(ns, es, input, at, token);
    case _ =>
  }

  lemma {:induction false} SequenceWire(names: seq<string>, ss: seq<Schema>, input: seq<Byte>, at: nat, token: bool)
    requires at <= |input| && DecodeSequence(names, ss, input, at).Ok?
    ensures var (v, end) := DecodeSequence(names, ss, input, at).value;
            v.SeqV? && RowOf(true, names, ss, v.vs, token, input[at..end])
    decreases ss, 1
  {
    var (vs, end) := DecodeElements(names == [], names, ss, input, at).value;
    var parts := PartsRead(names == [], names, ss, input, at);
    forall i: nat | i < |ss|
      ensures PartOk(true, names, parts[i]) && Wire(true, ss[i], vs[i], FlagOf(true, names, token, i), parts[i])
    {
      assert PartWire(names == [], names, ss, vs, parts, i);
    }
    assert Row(true, names, ss, vs, token, parts);
  }

  lemma {:induction false} PartsRead(unnamed: bool, names: seq<string>, ss: seq<Schema>, input: seq<Byte>, at: nat)
    returns (parts: seq<seq<Byte>>)
    requires at <= |input| && DecodeElements(unnamed, names, ss, input, at).Ok?
    ensures var (vs, end) := DecodeElements(unnamed, names, ss, input, at).value;
            input[at..end] == Concat(parts) && PartsWire(unnamed, names, ss, vs, parts)
    decreases ss, 0
  {
    if ss == [] {
      parts := [];
    } else {
      var flag := Due(unnamed, names, false, 0);
      var (v, mid) := Decode(ss[0], input, at, flag).value;
      var (vs', end) := DecodeElements(unnamed, Tail1(names), ss[1..], input, mid).value;
      DecodeWire(ss[0], input, at, flag);
      var rest := PartsRead(unnamed, Tail1(names), ss[1..], input, mid);
      parts := [input[at..mid]] + rest;
      SliceJoin(input, at, mid, end);
      PartsPush(unnamed, names, ss, [v] + vs', parts);
    }
  }

  lemma PartsPush(unnamed: bool, names: seq<string>, ss: seq<Schema>, vs: seq<Value>, parts: seq<seq<Byte>>)
    requires ss != [] && |parts| == |ss| == |vs| && PartWire(unnamed, names, ss, vs, parts, 0)
    requires PartsWire(unnamed, Tail1(names), ss[1..], vs[1..], parts[1..])
    ensures PartsWire(unnamed, names, ss, vs, parts)
  {
    forall i: nat | 0 < i < |ss| ensures PartWire(unnamed, names, ss, vs, parts, i) {
      assert PartWire(unnamed, Tail1(names), ss[1..], vs[1..], parts[1..], i - 1);
    }
  }

  lemma WireInt(n: int, w: nat, signed: bool, token: bool, bytes: seq<Byte>)
    requires IntFits(n, w, signed) && |bytes| == w && Digits(Complement(n, w), bytes, token)
    ensures BytesInt(bytes, signed, token) == n
  {
    DigitsUnique(Complement(n, w), bytes, token);
    IntRoundTrip(n, w, signed, token);
  }

  lemma WireBlob(contents: seq<Byte>, input: seq<Byte>, at: nat, end: nat)
    requires at <= end <= |input| && Prefixed(contents, input[at..end])
    ensures DecodeBlob(input, at) == Ok((contents, end))
  {
    SubSlice(input, at, end - at, 0, 4);
    SubSlice(input, at, end - at, 4, end - at);
    DigitsUnique(|contents|, input[at..at + 4], false);
    assert Pow256(4) == 0x1_0000_0000 by { assert Pow256(2) == 256 * 256; }
    BigEndianRoundTrip(|contents|, 4);
  }

  lemma WireScalar(s: Schema, v: Value, token: bool, input: seq<Byte>, at: nat, end: nat)
    requires at <= end <= |input| && Wire(true, s, v, token, input[at..end]) && (s.Int? || s.Blob? || s.Text?)
    ensures Decode(s, input, at, token) == Ok((v, end))
  {
    match s
    case Int(w, signed) => WireInt(v.n, w, signed, token, input[at..end]);
    case Blob => WireBlob(v.blob, input, at, end);
    case Text => WireBlob(v.text, input, at, end);
  }

  lemma {:induction false} WireDecode(s: Schema, v: Value, token: bool, input: seq<Byte>, at: nat, end: nat)
    requires at <= end <= |input| && Wire(true, s, v, token, input[at..end])
    ensures Decode(s, input, at, token) == Ok((v, end))
    decreases s, 2
  {
    match s
    case Int(_, _) => WireScalar(s, v, token, input, at, end);
    case Blob => WireScalar(s, v, token, input, at, end);
    case Text => WireScalar(s, v, token, input, at, end);
    case Newtype(i) => WireDecode(i, v.v, token, input, at, end);
    case Tuple(es) => RowDecode([], es, v.vs, token, input, at, end);
    case Struct(ns, es) => RowDecode(ns, es, v.vs, token, input, at, end);
    case _ =>
  }

  lemma {:induction false} ConcatLong(parts: seq<seq<Byte>>)
    requires forall i :: 0 <= i < |parts| ==> parts[i] != []
    ensures |parts| <= |Concat(parts)|
  {
    if parts != [] { ConcatLong(parts[1..]); }
  }

  lemma {:induction false} RowDecode(
    names: seq<string>, ss: seq<Schema>, vs: seq<Value>, token: bool, input: seq<Byte>, at: nat, end: nat
  )
    requires at <= end <= |input| && RowOf(true, names, ss, vs, token, input[at..end])
    ensures DecodeSequence(names, ss, input, at) == Ok((SeqV(vs), end))
    decreases ss, 1
  {
    var parts: seq<seq<Byte>> :| Row(true, names, ss, vs, token, parts) && input[at..end] == Concat(parts);
    var unnamed := names == [];
    forall i: nat | i < |ss| ensures PartWire(unnamed, names, ss, vs, parts, i) {}
    if unnamed { ConcatLong(parts); }
    PartsDecode(unnamed, names, ss, vs, parts, input, at, end);
  }

  /** The parts are wire forms of the fields, each with the flag due to it. */
  ghost predicate PartsWire(unnamed: bool, names: seq<string>, ss: seq<Schema>, vs: seq<Value>, parts: seq<seq<Byte>>) {
    |parts| == |ss| == |vs| && forall i: nat :: i < |ss| ==> PartWire(unnamed, names, ss, vs, parts, i)
  }

  ghost predicate PartWire(
    unnamed: bool, names: seq<string>, ss: seq<Schema>, vs: seq<Value>, parts: seq<seq<Byte>>, i: nat
  )
    requires |parts| == |ss| == |vs| && i < |ss|
  {
    (unnamed ==> parts[i] != []) && Wire(true, ss[i], vs[i], Due(unnamed, names, false, i), parts[i])
  }

  lemma PartsNext(unnamed: bool, names: seq<string>, ss: seq<Schema>, vs: seq<Value>, parts: seq<seq<Byte>>)
    requires PartsWire(unnamed, names, ss, vs, parts) && ss != []
    ensures PartsWire(unnamed, Tail1(names), ss[1..], vs[1..], parts[1..])
  {
    forall i: nat | i < |ss| - 1 ensures PartWire(unnamed, Tail1(names), ss[1..], vs[1..], parts[1..], i) {
      assert PartWire(unnamed, names, ss, vs, parts, i + 1);
    }
  }

  lemma FirstPart(parts: seq<seq<Byte>>, input: seq<Byte>, at: nat, end: nat)
    requires at <= end <= |input| && input[at..end] == Concat(parts) && parts != []
    ensures at + |parts[0]| <= end && input[at..at + |parts[0]|] == parts[0]
    ensures input[at + |parts[0]|..end] == Concat(parts[1..])
  {
    var d, n := input[at..end], |parts[0]|;
    assert d[..n] == parts[0] && d[n..] == Concat(parts[1..]);
    SubSlice(input, at, end - at, 0, n);
    SubSlice(input, at, end - at, n, end - at);
  }

  lemma {:induction false} PartsDecode(
    unnamed: bool, names: seq<string>, ss: seq<Schema>, vs: seq<Value>, parts: seq<seq<Byte>>,
    input: seq<Byte>, at: nat, end: nat
  )
    requires at <= end <= |input| && input[at..end] == Concat(parts) && PartsWire(unnamed, names, ss, vs, parts)
    ensures DecodeElements(unnamed, names, ss, input, at) == Ok((vs, end))
    decreases ss, 0
  {
    if ss != [] {
      var mid := at + |parts[0]|;
      FirstPart(parts, input, at, end);
      PartDecodes(unnamed, names, ss, vs, parts, input, at, end);
      PartsNext(unnamed, names, ss, vs, parts);
      PartsDecode(unnamed, Tail1(names), ss[1..], vs[1..], parts[1..], input, mid, end);
      DecodeCons(unnamed, names, ss, input, at, vs[0], mid, vs[1..], end);
      assert vs == [vs[0]] + vs[1..];
    }
  }

  lemma {:induction false} PartDecodes(
    unnamed: bool, names: seq<string>, ss: seq<Schema>, vs: seq<Value>, parts: seq<seq<Byte>>,
    input: seq<Byte>, at: nat, end: nat
  )
    requires at <= end <= |input| && input[at..end] == Concat(parts) && PartsWire(unnamed, names, ss, vs, parts) && ss != []
    ensures Decode(ss[0], input, at, !unnamed && Flagged(names)) == Ok((vs[0], at + |parts[0]|))
    ensures unnamed ==> 0 < |parts[0]|
    decreases ss[0], 3
  {
    FirstPart(parts, input, at, end);
    assert PartWire(unnamed, names, ss, vs, parts, 0);
    WireDecode(ss[0], vs[0], Due(unnamed, names, false, 0), input, at, at + |parts[0]|);
  }

  /** The decoder accepts exactly the bytes that are a wire form, and returns the value they are the form of. */
  lemma DecodeExactly(s: Schema, v: Value, token: bool, input: seq<Byte>, at: nat, end: nat)
    requires at <= |input|
    ensures Decode(s, input, at, token) == Ok((v, end))
       <==> at <= end <= |input| && Wire(true, s, v, token, input[at..end])
  {
    if Decode(s, input, at, token) == Ok((v, end)) { DecodeWire(s, input, at, token); }
    if at <= end <= |input| && Wire(true, s, v, token, input[at..end]) { WireDecode(s, v, token, input, at, end); }
  }
}
