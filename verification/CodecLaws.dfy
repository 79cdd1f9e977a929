/** What the wire format guarantees, for every schema and every value. */
module CodecLaws {
  import opened Bytes
  import opened Codec

  // ----- measuring

  /** Can the serializer finish? Only an over-long byte string stops it. */
  predicate Encodable(s: Schema, v: Value)
    requires Fits(s, v)
    decreases s, 1
  {
    match s
    case Blob => |v.blob| < LENGTH_LIMIT
    case Text => |v.text| < LENGTH_LIMIT
    case Newtype(i) => Encodable(i, v.v)
    case Tuple(es) => AllEncodable(es, v.vs)
    case Struct(_, es) => AllEncodable(es, v.vs)
    case _ => true
  }

  predicate AllEncodable(ss: seq<Schema>, vs: seq<Value>)
    requires AllFit(ss, vs)
    decreases ss, 0
  {
    ss == [] || (Encodable(ss[0], vs[0]) && AllEncodable(ss[1..], vs[1..]))
  }

  /** The length never depends on the byte order, and only over-long byte strings fail. */
  lemma {:induction false} EncodeSize(s: Schema, v: Value, token: bool)
    requires Fits(s, v)
    ensures Encode(s, v, token).Ok? <==> Encodable(s, v)
    ensures Encode(s, v, token).Ok? ==> |Encode(s, v, token).value| == Size(s, v)
    decreases s, 1
  {
    match s
    case Newtype(i) => EncodeSize(i, v.v, token);
    case Tuple(es) => EncodeSizes(true, [], es, v.vs, token);
    case Struct(ns, es) => EncodeSizes(ns == [], ns, es, v.vs, token);
    case _ =>
  }

  lemma {:induction false} EncodeSizes(unnamed: bool, names: seq<string>, ss: seq<Schema>, vs: seq<Value>, token: bool)
    requires AllFit(ss, vs)
    ensures EncodeElements(unnamed, names, ss, vs, token).Ok? <==> AllEncodable(ss, vs)
    ensures EncodeElements(unnamed, names, ss, vs, token).Ok? ==>
      |EncodeElements(unnamed, names, ss, vs, token).value| == Sizes(ss, vs)
    decreases ss, 0
  {
    if ss != [] {
      EncodeSize(ss[0], vs[0], if unnamed then token else Flagged(names));
      EncodeSizes(unnamed, Tail1(names), ss[1..], vs[1..], token);
    }
  }

  // ----- which schemas round-trip

  /** Do all values of the schema occupy at least one byte? */
  predicate Positive(s: Schema) {
    match s
    case Int(w, _) => 0 < w
    case Unit => false
    case Newtype(i) => Positive(i)
    case Tuple(es) => exists i :: 0 <= i < |es| && Positive(es[i])
    case Struct(_, es) => exists i :: 0 <= i < |es| && Positive(es[i])
    case _ => true
  }

  /**
    Do the two sides use the same byte order wherever it matters, and does every array element take
    up room? `out` and `into` are the token flags the serializer and the deserializer arrive with.
   */
  predicate Agree(s: Schema, out: bool, into: bool)
    decreases s, 1
  {
    match s
    case Int(w, _) => out == into || w <= 1
    case Newtype(i) => Agree(i, out, into)
    case Tuple(es) => AllAgree(true, [], es, out)
    case Struct(ns, es) => AllAgree(ns == [], ns, es, out)
    case _ => true
  }

  predicate AllAgree(unnamed: bool, names: seq<string>, ss: seq<Schema>, out: bool)
    decreases ss, 0
  {
    ss == []
    || (&& (if unnamed then Positive(ss[0]) && Agree(ss[0], out, false) else Agree(ss[0], Flagged(names), Flagged(names)))
        && AllAgree(unnamed, Tail1(names), ss[1..], out))
  }

  /** The schemas whose every value survives the trip; see `RoundTripExactly`. */
  predicate WellFormed(s: Schema) { Agree(s, false, false) }

  lemma {:induction false} PositiveSize(s: Schema, v: Value)
    requires Fits(s, v)
    ensures Positive(s) <==> 0 < Size(s, v)
    decreases s, 1
  {
    match s
    case Newtype(i) => PositiveSize(i, v.v);
    case Tuple(es) => PositiveSizes(es, v.vs);
    case Struct(_, es) => PositiveSizes(es, v.vs);
    case _ =>
  }

  lemma {:induction false} PositiveSizes(ss: seq<Schema>, vs: seq<Value>)
    requires AllFit(ss, vs)
    ensures (exists i :: 0 <= i < |ss| && Positive(ss[i])) <==> 0 < Sizes(ss, vs)
    decreases ss, 0
  {
    if ss != [] {
      PositiveSize(ss[0], vs[0]);
      PositiveSizes(ss[1..], vs[1..]);
      if i :| 0 <= i < |ss| && Positive(ss[i]) {
        assert 0 < i ==> ss[i] == ss[1..][i - 1];
      }
      if i :| 0 <= i < |ss[1..]| && Positive(ss[1..][i]) {
        assert Positive(ss[i + 1]);
      }
    }
  }

  lemma IntRoundTrip(n: int, width: nat, signed: bool, token: bool)
    requires IntFits(n, width, signed)
    ensures BytesInt(IntBytes(n, width, token), signed, token) == n
  {
    LittleEndianRoundTrip(ToUnsigned(n, width), width);
    BigEndianRoundTrip(ToUnsigned(n, width), width);
  }

  lemma OneByteOrders(bytes: seq<Byte>)
    requires |bytes| <= 1
    ensures Reverse(bytes) == bytes
  {
  }

  lemma IntAgrees(n: int, width: nat, signed: bool, out: bool, into: bool)
    requires IntFits(n, width, signed) && (out == into || width <= 1)
    ensures BytesInt(IntBytes(n, width, out), signed, into) == n
  {
    IntRoundTrip(n, width, signed, out);
    if out != into {
      OneByteOrders(LittleEndian(ToUnsigned(n, width), width));
    }
  }

  lemma RoundTripInt(n: int, w: nat, signed: bool, out: bool, into: bool, input: seq<Byte>, at: nat)
    requires IntFits(n, w, signed) && (out == into || w <= 1)
    requires at + w <= |input| && input[at..at + w] == IntBytes(n, w, out)
    ensures Decode(Int(w, signed), input, at, into) == Ok((IntV(n), at + w))
  {
    IntAgrees(n, w, signed, out, into);
  }

  lemma BlobRoundTrip(blob: seq<Byte>, input: seq<Byte>, at: nat)
    requires |blob| < LENGTH_LIMIT
    requires at + 4 + |blob| <= |input| && input[at..at + 4 + |blob|] == EncodeBlob(blob).value
    ensures DecodeBlob(input, at) == Ok((blob, at + 4 + |blob|))
  {
    var e := EncodeBlob(blob).value;
    assert e[..4] == BigEndian(|blob|, 4) && e[4..] == blob;
    assert input[at..at + 4] == input[at..at + 4 + |blob|][..4];
    assert input[at + 4..at + 4 + |blob|] == input[at..at + 4 + |blob|][4..];
    assert Pow256(4) == 256 * 256 * 256 * 256 by {
      assert Pow256(2) == 256 * 256;
    }
    BigEndianRoundTrip(|blob|, 4);
  }

  lemma RoundTripBlob(s: Schema, v: Value, out: bool, into: bool, input: seq<Byte>, at: nat)
    requires s.Blob? || s.Text?
    requires Fits(s, v) && Encode(s, v, out).Ok?
    requires var e := Encode(s, v, out).value; at + |e| <= |input| && input[at..at + |e|] == e
    ensures Decode(s, input, at, into) == Ok((v, at + |Encode(s, v, out).value|))
  {
    if s.Blob? {
      BlobRoundTrip(v.blob, input, at);
    } else {
      BlobRoundTrip(v.text, input, at);
    }
  }

  lemma RoundTripScalar(s: Schema, v: Value, out: bool, into: bool, input: seq<Byte>, at: nat)
    requires s.Int? || s.Bool? || s.F64? || s.Unit?
    requires Fits(s, v) && Agree(s, out, into) && Encode(s, v, out).Ok?
    requires var e := Encode(s, v, out).value; at + |e| <= |input| && input[at..at + |e|] == e
    ensures Decode(s, input, at, into) == Ok((v, at + |Encode(s, v, out).value|))
  {
    match s
    case Int(w, signed) => RoundTripInt(v.n, w, signed, out, into, input, at);
    case Bool => assert input[at] == input[at..at + 1][0];
    case F64 =>
    case Unit =>
  }

  /**
    Self-delimiting round trip: the encoding of `v`, wherever it stands and whatever follows it,
    decodes to `v` and to the first byte after it.
   */
  lemma {:induction false} RoundTrip(s: Schema, v: Value, out: bool, into: bool, input: seq<Byte>, at: nat)
    requires Fits(s, v) && Agree(s, out, into) && Encode(s, v, out).Ok?
    requires var e := Encode(s, v, out).value; at + |e| <= |input| && input[at..at + |e|] == e
    ensures Decode(s, input, at, into) == Ok((v, at + |Encode(s, v, out).value|))
    decreases s, 1
  {
    match s
    case Newtype(i) => RoundTrip(i, v.v, out, into, input, at);
    case Tuple(es) => RoundTripSequence([], es, v.vs, out, input, at);
    case Struct(ns, es) => RoundTripSequence(ns, es, v.vs, out, input, at);
    case Blob => RoundTripBlob(s, v, out, into, input, at);
    case Text => RoundTripBlob(s, v, out, into, input, at);
    case _ => RoundTripScalar(s, v, out, into, input, at);
  }

  /** Elements that each take up room are never more than the bytes they take up. */
  lemma {:induction false} CountFits(ss: seq<Schema>, vs: seq<Value>, out: bool)
    requires AllFit(ss, vs) && AllAgree(true, [], ss, out)
    ensures |ss| <= Sizes(ss, vs)
    decreases ss
  {
    if ss != [] {
      PositiveSize(ss[0], vs[0]);
      CountFits(ss[1..], vs[1..], out);
    }
  }

  lemma {:induction false} RoundTripSequence(
    names: seq<string>, ss: seq<Schema>, vs: seq<Value>, out: bool, input: seq<Byte>, at: nat
  )
    requires AllFit(ss, vs) && AllAgree(names == [], names, ss, out) && EncodeElements(names == [], names, ss, vs, out).Ok?
    requires var e := EncodeElements(names == [], names, ss, vs, out).value;
             at + |e| <= |input| && input[at..at + |e|] == e
    ensures var e := EncodeElements(names == [], names, ss, vs, out).value;
            DecodeSequence(names, ss, input, at) == Ok((SeqV(vs), at + |e|))
    decreases ss, 2
  {
    RoundTrips(names == [], names, ss, vs, out, input, at);
    if names == [] {
      EncodeSizes(true, [], ss, vs, out);
      CountFits(ss, vs, out);
    }
  }

  lemma TakesRoom(s: Schema, v: Value, token: bool)
    requires Fits(s, v) && Positive(s) && Encode(s, v, token).Ok?
    ensures 0 < |Encode(s, v, token).value|
  {
    EncodeSize(s, v, token);
    PositiveSize(s, v);
  }

  lemma DecodeCons(unnamed: bool, names: seq<string>, ss: seq<Schema>, input: seq<Byte>, at: nat,
                   v: Value, mid: nat, vs: seq<Value>, end: nat)
    requires ss != [] && at <= |input| && mid <= |input|
    requires Decode(ss[0], input, at, !unnamed && Flagged(names)) == Ok((v, mid)) && !(unnamed && mid == at)
    requires DecodeElements(unnamed, Tail1(names), ss[1..], input, mid) == Ok((vs, end))
    ensures DecodeElements(unnamed, names, ss, input, at) == Ok(([v] + vs, end))
  {
  }

  lemma SplitSlice(input: seq<Byte>, at: nat, first: seq<Byte>, rest: seq<Byte>)
    requires at + |first| + |rest| <= |input| && input[at..at + |first| + |rest|] == first + rest
    ensures input[at..at + |first|] == first && input[at + |first|..at + |first| + |rest|] == rest
  {
    var whole := input[at..at + |first| + |rest|];
    assert input[at..at + |first|] == whole[..|first|];
    assert input[at + |first|..at + |first| + |rest|] == whole[|first|..];
  }

  lemma RoundTripElement(
    unnamed: bool, s: Schema, v: Value, out: bool, into: bool, input: seq<Byte>, at: nat, e: seq<Byte>
  )
    requires Fits(s, v) && Agree(s, out, into) && (unnamed ==> Positive(s)) && Encode(s, v, out) == Ok(e)
    requires at + |e| <= |input| && input[at..at + |e|] == e
    ensures Decode(s, input, at, into) == Ok((v, at + |e|)) && !(unnamed && e == [])
    decreases s, 2
  {
    RoundTrip(s, v, out, into, input, at);
    if unnamed { TakesRoom(s, v, out); }
  }

  lemma ElementsNext(unnamed: bool, names: seq<string>, ss: seq<Schema>, vs: seq<Value>, token: bool)
    requires ss != [] && AllFit(ss, vs)
    ensures var e := EncodeElements(unnamed, names, ss, vs, token);
            var first := Encode(ss[0], vs[0], if unnamed then token else Flagged(names));
            var rest := EncodeElements(unnamed, Tail1(names), ss[1..], vs[1..], token);
            (e.Ok? <==> first.Ok? && rest.Ok?) && (e.Ok? ==> e.value == first.value + rest.value)
  {
  }

  lemma AgreeNext(unnamed: bool, names: seq<string>, ss: seq<Schema>, out: bool)
    requires ss != [] && AllAgree(unnamed, names, ss, out)
    ensures (unnamed ==> Positive(ss[0])) && AllAgree(unnamed, Tail1(names), ss[1..], out)
    ensures Agree(ss[0], if unnamed then out else Flagged(names), !unnamed && Flagged(names))
  {
  }

  lemma {:induction false} RoundTrips(
    unnamed: bool, names: seq<string>, ss: seq<Schema>, vs: seq<Value>, out: bool, input: seq<Byte>, at: nat
  )
    requires AllFit(ss, vs) && AllAgree(unnamed, names, ss, out) && EncodeElements(unnamed, names, ss, vs, out).Ok?
    requires var e := EncodeElements(unnamed, names, ss, vs, out).value; at + |e| <= |input| && input[at..at + |e|] == e
    ensures var e := EncodeElements(unnamed, names, ss, vs, out).value;
            DecodeElements(unnamed, names, ss, input, at) == Ok((vs, at + |e|))
    decreases ss, 1
  {
    if ss != [] {
      var flag := if unnamed then out else Flagged(names);
      ElementsNext(unnamed, names, ss, vs, out);
      AgreeNext(unnamed, names, ss, out);
      var first := Encode(ss[0], vs[0], flag).value;
      var rest := EncodeElements(unnamed, Tail1(names), ss[1..], vs[1..], out).value;
      SplitSlice(input, at, first, rest);
      RoundTripElement(unnamed, ss[0], vs[0], flag, !unnamed && Flagged(names), input, at, first);
      RoundTripsNext(unnamed, names, ss, vs[0], vs[1..], out, input, at, at + |first|, rest);
      assert [vs[0]] + vs[1..] == vs;
    }
  }

  lemma {:induction false} RoundTripsNext(
    unnamed: bool, names: seq<string>, ss: seq<Schema>, v: Value, vs: seq<Value>, out: bool, input: seq<Byte>, at: nat,
    mid: nat, rest: seq<Byte>
  )
    requires ss != [] && at <= |input| && AllFit(ss[1..], vs) && AllAgree(unnamed, Tail1(names), ss[1..], out)
    requires Decode(ss[0], input, at, !unnamed && Flagged(names)) == Ok((v, mid)) && !(unnamed && mid == at)
    requires EncodeElements(unnamed, Tail1(names), ss[1..], vs, out) == Ok(rest)
    requires mid + |rest| <= |input| && input[mid..mid + |rest|] == rest
    ensures DecodeElements(unnamed, names, ss, input, at) == Ok(([v] + vs, mid + |rest|))
    decreases ss, 0
  {
    RoundTrips(unnamed, Tail1(names), ss[1..], vs, out, input, mid);
    DecodeCons(unnamed, names, ss, input, at, v, mid, vs, mid + |rest|);
  }

  // ----- what an accepted input looks like

  lemma SliceLocal(input: seq<Byte>, other: seq<Byte>, i: nat, j: nat, end: nat)
    requires i <= j <= end <= |input| && end <= |other| && other[..end] == input[..end]
    ensures other[i..j] == input[i..j] && forall k :: i <= k < j ==> other[k] == input[k]
  {
    assert other[i..j] == other[..end][i..j];
    assert input[i..j] == input[..end][i..j];
    assert forall k :: i <= k < j ==> other[k] == other[..end][k];
  }

  lemma BlobLocal(input: seq<Byte>, at: nat, other: seq<Byte>)
    requires at <= |input| && DecodeBlob(input, at).Ok?
    requires var end := DecodeBlob(input, at).value.1; end <= |other| && other[..end] == input[..end]
    ensures DecodeBlob(other, at) == DecodeBlob(input, at)
  {
    var end := DecodeBlob(input, at).value.1;
    SliceLocal(input, other, at, at + 4, end);
    SliceLocal(input, other, at + 4, end, end);
  }

  /** Decoding looks at nothing past the bytes it consumes. */
  lemma {:induction false} DecodeLocal(s: Schema, input: seq<Byte>, at: nat, token: bool, other: seq<Byte>)
    requires at <= |input| && Decode(s, input, at, token).Ok?
    requires var end := Decode(s, input, at, token).value.1; end <= |other| && other[..end] == input[..end]
    ensures Decode(s, other, at, token) == Decode(s, input, at, token)
    decreases s, 1
  {
    match s
    case Int(w, _) => SliceLocal(input, other, at, at + w, at + w);
    case Bool => SliceLocal(input, other, at, at + 1, at + 1);
    case F64 => SliceLocal(input, other, at, at + 8, at + 8);
    case Blob => BlobLocal(input, at, other);
    case Text => BlobLocal(input, at, other);
    case Newtype(i) => DecodeLocal(i, input, at, token, other);
    case Tuple(es) => SequenceLocal([], es, input, at, other);
    case Struct(ns, es) => SequenceLocal(ns, es, input, at, other);
    case _ =>
  }

  lemma {:induction false} SequenceLocal(
    names: seq<string>, ss: seq<Schema>, input: seq<Byte>, at: nat, other: seq<Byte>
  )
    requires at <= |input| && DecodeSequence(names, ss, input, at).Ok?
    requires var end := DecodeSequence(names, ss, input, at).value.1; end <= |other| && other[..end] == input[..end]
    ensures DecodeSequence(names, ss, other, at) == DecodeSequence(names, ss, input, at)
    decreases ss, 1
  {
    ElementsLocal(names == [], names, ss, input, at, other);
    if names == [] {
      ElementsConsume(names, ss, input, at);
    }
  }

  lemma {:induction false} ElementsLocal(
    unnamed: bool, names: seq<string>, ss: seq<Schema>, input: seq<Byte>, at: nat, other: seq<Byte>
  )
    requires at <= |input| && DecodeElements(unnamed, names, ss, input, at).Ok?
    requires var end := DecodeElements(unnamed, names, ss, input, at).value.1;
             end <= |other| && other[..end] == input[..end]
    ensures DecodeElements(unnamed, names, ss, other, at) == DecodeElements(unnamed, names, ss, input, at)
    decreases ss, 0
  {
    if ss != [] {
      var end := DecodeElements(unnamed, names, ss, input, at).value.1;
      var mid := Decode(ss[0], input, at, !unnamed && Flagged(names)).value.1;
      assert other[..mid] == other[..end][..mid] == input[..mid];
      DecodeLocal(ss[0], input, at, !unnamed && Flagged(names), other);
      ElementsLocal(unnamed, Tail1(names), ss[1..], input, mid, other);
    }
  }

  lemma {:induction false} ElementsConsume(names: seq<string>, ss: seq<Schema>, input: seq<Byte>, at: nat)
    requires at <= |input| && DecodeElements(true, names, ss, input, at).Ok?
    ensures at + |ss| <= DecodeElements(true, names, ss, input, at).value.1
    decreases ss
  {
    if ss != [] {
      ElementsConsume(Tail1(names), ss[1..], input, Decode(ss[0], input, at, false).value.1);
    }
  }

  /** Whatever is accepted is a value of the schema and consumes exactly its measured length. */
  lemma {:induction false} DecodeMeasured(s: Schema, input: seq<Byte>, at: nat, token: bool)
    requires at <= |input| && Decode(s, input, at, token).Ok?
    ensures var (v, end) := Decode(s, input, at, token).value;
            Fits(s, v) && Encodable(s, v) && end == at + Size(s, v)
    decreases s, 1
  {
    assert Pow256(4) == LENGTH_LIMIT by {
      assert Pow256(2) == 256 * 256;
    }
    match s
    case Newtype(i) => DecodeMeasured(i, input, at, token);
    case Tuple(es) => ElementsMeasured(true, [], es, input, at);
    case Struct(ns, es) => ElementsMeasured(ns == [], ns, es, input, at);
    case _ =>
  }

  lemma {:induction false} ElementsMeasured(
    unnamed: bool, names: seq<string>, ss: seq<Schema>, input: seq<Byte>, at: nat
  )
    requires at <= |input| && DecodeElements(unnamed, names, ss, input, at).Ok?
    ensures var (vs, end) := DecodeElements(unnamed, names, ss, input, at).value;
            AllFit(ss, vs) && AllEncodable(ss, vs) && end == at + Sizes(ss, vs)
    decreases ss, 0
  {
    if ss != [] {
      var first := Decode(ss[0], input, at, !unnamed && Flagged(names)).value;
      DecodeMeasured(ss[0], input, at, !unnamed && Flagged(names));
      ElementsMeasured(unnamed, Tail1(names), ss[1..], input, first.1);
      var vs := DecodeElements(unnamed, names, ss, input, at).value.0;
      assert vs[1..] == DecodeElements(unnamed, Tail1(names), ss[1..], input, first.1).value.0;
    }
  }

  /** Every strict prefix of an encoding is refused. */
  lemma PrefixRejected(s: Schema, v: Value, k: nat)
    requires WellFormed(s) && Fits(s, v) && Encodable(s, v)
    requires k < Size(s, v)
    ensures Encode(s, v, false).Ok? && |Encode(s, v, false).value| == Size(s, v)
    ensures Decode(s, Encode(s, v, false).value[..k], 0, false).Err?
  {
    EncodeSize(s, v, false);
    var e := Encode(s, v, false).value;
    RoundTrip(s, v, false, false, e, 0);
    if Decode(s, e[..k], 0, false).Ok? {
      var end := Decode(s, e[..k], 0, false).value.1;
      assert e[..end] == e[..k][..end];
      DecodeLocal(s, e[..k], 0, false, e);
    }
  }
}
