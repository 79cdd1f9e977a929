/**
  The round trip is not promised for every schema a Rust type can have. `WellFormed` is the exact
  boundary: below is a value that fails for each schema outside it.
 */
module CodecExact {
  import opened Bytes
  import opened Codec
  import opened CodecLaws

  /** Some value of the schema. */
  function Sample(s: Schema): (v: Value)
    ensures Fits(s, v) && Encodable(s, v)
    decreases s, 1
  {
    match s
    case Int(_, _) => IntV(0)
    case Bool => BoolV(false)
    case F64 => F64V([0, 0, 0, 0, 0, 0, 0, 0])
    case Blob => BlobV([])
    case Text => TextV([])
    case Unit => UnitV
    case Newtype(i) => NewtypeV(Sample(i))
    case Tuple(es) => SeqV(Samples(es))
    case Struct(_, es) => SeqV(Samples(es))
  }

  function Samples(ss: seq<Schema>): (vs: seq<Value>)
    ensures AllFit(ss, vs) && AllEncodable(ss, vs)
    decreases ss, 0
  {
    if ss == [] then []
    else
      var first, rest := Sample(ss[0]), Samples(ss[1..]);
      assert ([first] + rest)[1..] == rest;
      [first] + rest
  }

  /** A value that does not survive: the number one in the wrong byte order, or an empty array element. */
  function Spoiler(s: Schema, out: bool, into: bool): (v: Value)
    requires !Agree(s, out, into)
    ensures Fits(s, v) && Encodable(s, v)
    decreases s, 1
  {
    match s
    case Int(w, _) => assert Pow256(1) == 256 && Pow256(w) == 256 * Pow256(w - 1); IntV(1)
    case Newtype(i) => NewtypeV(Spoiler(i, out, into))
    case Tuple(es) => SeqV(Spoilers(true, [], es, out))
    case Struct(ns, es) => SeqV(Spoilers(ns == [], ns, es, out))
  }

  function Spoilers(unnamed: bool, names: seq<string>, ss: seq<Schema>, out: bool): (vs: seq<Value>)
    requires !AllAgree(unnamed, names, ss, out)
    ensures AllFit(ss, vs) && AllEncodable(ss, vs)
    decreases ss, 0
  {
    var flag, into := if unnamed then out else Flagged(names), !unnamed && Flagged(names);
    var first := if Agree(ss[0], flag, into) then Sample(ss[0]) else Spoiler(ss[0], flag, into);
    var rest :=
      if Agree(ss[0], flag, into) && (unnamed ==> Positive(ss[0]))
      then Spoilers(unnamed, Tail1(names), ss[1..], out)
      else Samples(ss[1..]);
    assert ([first] + rest)[1..] == rest;
    [first] + rest
  }

  lemma {:induction false} Spoils(s: Schema, out: bool, into: bool, input: seq<Byte>, at: nat)
    requires !Agree(s, out, into) && Encode(s, Spoiler(s, out, into), out).Ok?
    requires var e := Encode(s, Spoiler(s, out, into), out).value; at + |e| <= |input| && input[at..at + |e|] == e
    ensures Decode(s, input, at, into).Ok? ==> Decode(s, input, at, into).value.0 != Spoiler(s, out, into)
    decreases s, 2
  {
    match s
    case Int(_, _) => SpoilsScalar(s, out, into, input, at);
    case Newtype(i) => Spoils(i, out, into, input, at);
    case Tuple(es) => SpoilsSequence([], es, out, input, at);
    case Struct(ns, es) => SpoilsSequence(ns, es, out, input, at);
  }

  lemma {:induction false} SpoilsSequence(names: seq<string>, ss: seq<Schema>, out: bool, input: seq<Byte>, at: nat)
    requires !AllAgree(names == [], names, ss, out)
    requires EncodeElements(names == [], names, ss, Spoilers(names == [], names, ss, out), out).Ok?
    requires var e := EncodeElements(names == [], names, ss, Spoilers(names == [], names, ss, out), out).value;
             at + |e| <= |input| && input[at..at + |e|] == e
    ensures DecodeSequence(names, ss, input, at).Ok? ==>
      DecodeSequence(names, ss, input, at).value.0 != SeqV(Spoilers(names == [], names, ss, out))
    decreases ss, 1
  {
    SpoilsElements(names == [], names, ss, out, input, at);
  }

  lemma SpoilsScalar(s: Schema, out: bool, into: bool, input: seq<Byte>, at: nat)
    requires s.Int? && !Agree(s, out, into)
    requires var e := IntBytes(1, s.width, out); at + |e| <= |input| && input[at..at + |e|] == e
    ensures Decode(s, input, at, into).Ok? ==> Decode(s, input, at, into).value.0 != Spoiler(s, out, into)
  {
    SpoilsInt(s.width, s.signed, out);
  }

  lemma SpoilsInt(width: nat, signed: bool, out: bool)
    requires 2 <= width && IntFits(1, width, signed)
    ensures BytesInt(IntBytes(1, width, out), signed, !out) != 1
  {
    OrdersDisagree(width);
  }

  /** These elements are not what is decoded there. */
  predicate NotRead(unnamed: bool, names: seq<string>, ss: seq<Schema>, input: seq<Byte>, at: nat, vs: seq<Value>)
    requires at <= |input|
  {
    var d := DecodeElements(unnamed, names, ss, input, at);
    d.Ok? ==> d.value.0 != vs
  }

  lemma {:induction false} SpoilsElements(
    unnamed: bool, names: seq<string>, ss: seq<Schema>, out: bool, input: seq<Byte>, at: nat
  )
    requires !AllAgree(unnamed, names, ss, out)
    requires EncodeElements(unnamed, names, ss, Spoilers(unnamed, names, ss, out), out).Ok?
    requires var e := EncodeElements(unnamed, names, ss, Spoilers(unnamed, names, ss, out), out).value;
             at + |e| <= |input| && input[at..at + |e|] == e
    ensures NotRead(unnamed, names, ss, input, at, Spoilers(unnamed, names, ss, out))
    decreases ss, 0
  {
    var vs := Spoilers(unnamed, names, ss, out);
    var flag, into := if unnamed then out else Flagged(names), !unnamed && Flagged(names);
    ElementsNext(unnamed, names, ss, vs, out);
    var first := Encode(ss[0], vs[0], flag).value;
    var rest := EncodeElements(unnamed, Tail1(names), ss[1..], vs[1..], out).value;
    SplitSlice(input, at, first, rest);
    if !Agree(ss[0], flag, into) {
      Spoils(ss[0], flag, into, input, at);
      SpoiledHere(unnamed, names, ss, input, at, vs[0], vs);
    } else if unnamed && !Positive(ss[0]) {
      EmptyElementFails(names, ss, input, at);
    } else {
      RoundTrip(ss[0], vs[0], flag, into, input, at);
      SpoilsElements(unnamed, Tail1(names), ss[1..], out, input, at + |first|);
      SpoiledLater(unnamed, names, ss, input, at, at + |first|, vs);
    }
  }

  lemma SpoiledHere(
    unnamed: bool, names: seq<string>, ss: seq<Schema>, input: seq<Byte>, at: nat, v: Value, vs: seq<Value>
  )
    requires ss != [] && vs != [] && v == vs[0] && at <= |input|
    requires var d := Decode(ss[0], input, at, !unnamed && Flagged(names)); d.Ok? ==> d.value.0 != v
    ensures NotRead(unnamed, names, ss, input, at, vs)
  {
  }

  lemma SpoiledLater(
    unnamed: bool, names: seq<string>, ss: seq<Schema>, input: seq<Byte>, at: nat, mid: nat, vs: seq<Value>
  )
    requires ss != [] && vs != [] && at <= |input| && mid <= |input|
    requires var d := Decode(ss[0], input, at, !unnamed && Flagged(names)); d.Ok? ==> d.value.1 == mid
    requires NotRead(unnamed, Tail1(names), ss[1..], input, mid, vs[1..])
    ensures NotRead(unnamed, names, ss, input, at, vs)
  {
    var d := DecodeElements(unnamed, names, ss, input, at);
    if d.Ok? {
      var rest := DecodeElements(unnamed, Tail1(names), ss[1..], input, mid).value.0;
      assert d.value.0[1..] == rest;
    }
  }

  lemma EmptyElementFails(names: seq<string>, ss: seq<Schema>, input: seq<Byte>, at: nat)
    requires ss != [] && !Positive(ss[0]) && at <= |input|
    ensures DecodeElements(true, names, ss, input, at).Err?
  {
    if Decode(ss[0], input, at, false).Ok? {
      DecodeMeasured(ss[0], input, at, false);
      PositiveSize(ss[0], Decode(ss[0], input, at, false).value.0);
    }
  }

  /** Does every value the serializer accepts come back? */
  ghost predicate RoundTrips(s: Schema) {
    forall v :: Fits(s, v) && Encodable(s, v) ==> Returns(s, v)
  }

  predicate Returns(s: Schema, v: Value)
    requires Fits(s, v)
  {
    && Encode(s, v, false).Ok?
    && Decode(s, Encode(s, v, false).value, 0, false) == Ok((v, |Encode(s, v, false).value|))
  }

  lemma RoundTripExactly(s: Schema)
    ensures WellFormed(s) <==> RoundTrips(s)
  {
    if WellFormed(s) {
      forall v | Fits(s, v) && Encodable(s, v) ensures Returns(s, v) {
        EncodeSize(s, v, false);
        RoundTrip(s, v, false, false, Encode(s, v, false).value, 0);
      }
    } else {
      var v := Spoiler(s, false, false);
      EncodeSize(s, v, false);
      Spoils(s, false, false, Encode(s, v, false).value, 0);
      assert !Returns(s, v);
    }
  }

  /** A multi-byte array in a field called `client_index` is one such schema. */
  lemma TokenArrayFails()
    ensures !RoundTrips(Struct([CLIENT_INDEX], [Tuple([Int(2, false)])]))
  {
    var s := Struct([CLIENT_INDEX], [Tuple([Int(2, false)])]);
    var t := Tuple([Int(2, false)]);
    assert !AllAgree(true, [], [Int(2, false)], true);
    assert Flagged([CLIENT_INDEX]) && !Agree(t, true, true);
    assert !AllAgree(false, [CLIENT_INDEX], [t], false);
    RoundTripExactly(s);
  }
}
