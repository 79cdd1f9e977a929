/**
  One encoding per value: which schemas accept nothing but encodings. The exact boundary is the
  boolean, because any nonzero byte reads as true.
 */
module CodecCanonical {
  import opened Bytes
  import opened Codec
  import opened CodecLaws
  import opened CodecExact

  /** Only booleans have more than one accepted form: any nonzero byte reads as true. */
  predicate NoBool(s: Schema)
    decreases s, 1
  {
    match s
    case Bool => false
    case Newtype(i) => NoBool(i)
    case Tuple(es) => NoBools(es)
    case Struct(_, es) => NoBools(es)
    case _ => true
  }

  predicate NoBools(ss: seq<Schema>)
    decreases ss, 0
  {
    ss == [] || (NoBool(ss[0]) && NoBools(ss[1..]))
  }

  lemma IntCanonical(bytes: seq<Byte>, signed: bool, out: bool, into: bool)
    requires out == into || |bytes| <= 1
    ensures IntBytes(BytesInt(bytes, signed, into), |bytes|, out) == bytes
  {
    var u := if into then FromLittleEndian(bytes) else FromBigEndian(bytes);
    assert ToUnsigned(FromUnsigned(u, |bytes|, signed), |bytes|) == u;
    LittleEndianUnique(bytes);
    BigEndianUnique(bytes);
    if out != into {
      OneByteOrders(bytes);
      OneByteOrders(LittleEndian(u, |bytes|));
    }
  }

  lemma BlobCanonical(input: seq<Byte>, at: nat)
    requires at <= |input| && DecodeBlob(input, at).Ok?
    ensures EncodeBlob(DecodeBlob(input, at).value.0) == Ok(input[at..DecodeBlob(input, at).value.1])
  {
    assert Pow256(4) == LENGTH_LIMIT by {
      assert Pow256(2) == 256 * 256;
    }
    BigEndianUnique(input[at..at + 4]);
    var end := DecodeBlob(input, at).value.1;
    assert input[at..end] == input[at..at + 4] + input[at + 4..end];
  }

  lemma ScalarCanonical(s: Schema, input: seq<Byte>, at: nat, out: bool, into: bool)
    requires s.Int? || s.F64? || s.Unit?
    requires at <= |input| && Agree(s, out, into) && Decode(s, input, at, into).Ok?
    ensures var (v, end) := Decode(s, input, at, into).value;
            Fits(s, v) && Encode(s, v, out) == Ok(input[at..end])
  {
    if s.Int? { IntCanonical(input[at..at + s.width], s.signed, out, into); }
  }

  lemma BytesCanonical(s: Schema, input: seq<Byte>, at: nat, out: bool, into: bool)
    requires s.Blob? || s.Text?
    requires at <= |input| && Decode(s, input, at, into).Ok?
    ensures var (v, end) := Decode(s, input, at, into).value;
            Fits(s, v) && Encode(s, v, out) == Ok(input[at..end])
  {
    BlobCanonical(input, at);
  }

  /** An accepted input is the encoding of what it decodes to, byte for byte. */
  lemma {:induction false} DecodeCanonical(s: Schema, input: seq<Byte>, at: nat, out: bool, into: bool)
    requires at <= |input| && NoBool(s) && Agree(s, out, into) && Decode(s, input, at, into).Ok?
    ensures var (v, end) := Decode(s, input, at, into).value;
            Fits(s, v) && Encode(s, v, out) == Ok(input[at..end])
    decreases s, 2
  {
    match s
    case Newtype(i) => DecodeCanonical(i, input, at, out, into);
    case Tuple(es) => SequenceCanonical([], es, input, at, out);
    case Struct(ns, es) => SequenceCanonical(ns, es, input, at, out);
    case Blob => BytesCanonical(s, input, at, out, into);
    case Text => BytesCanonical(s, input, at, out, into);
    case _ => ScalarCanonical(s, input, at, out, into);
  }

  lemma {:induction false} SequenceCanonical(names: seq<string>, ss: seq<Schema>, input: seq<Byte>, at: nat, out: bool)
    requires at <= |input| && NoBools(ss) && AllAgree(names == [], names, ss, out)
    requires DecodeSequence(names, ss, input, at).Ok?
    ensures var (v, end) := DecodeSequence(names, ss, input, at).value;
            && v.SeqV? && AllFit(ss, v.vs)
            && EncodeElements(names == [], names, ss, v.vs, out) == Ok(input[at..end])
    decreases ss, 1
  {
    ElementsCanonical(names == [], names, ss, input, at, out);
  }

  /** The encoding of a first element and of the rest make up the encoding of all. */
  lemma EncodeCons(
    unnamed: bool, names: seq<string>, ss: seq<Schema>, v: Value, vs: seq<Value>, out: bool, e: seq<Byte>,
    f: seq<Byte>
  )
    requires ss != [] && Fits(ss[0], v) && AllFit(ss[1..], vs)
    requires Encode(ss[0], v, if unnamed then out else Flagged(names)) == Ok(e)
    requires EncodeElements(unnamed, Tail1(names), ss[1..], vs, out) == Ok(f)
    ensures AllFit(ss, [v] + vs) && EncodeElements(unnamed, names, ss, [v] + vs, out) == Ok(e + f)
  {
    assert ([v] + vs)[1..] == vs;
  }

  /** What decoding a sequence of elements starts with. */
  lemma DecodeUncons(unnamed: bool, names: seq<string>, ss: seq<Schema>, input: seq<Byte>, at: nat)
    requires ss != [] && at <= |input| && DecodeElements(unnamed, names, ss, input, at).Ok?
    ensures var first := Decode(ss[0], input, at, !unnamed && Flagged(names));
            && first.Ok? && at <= first.value.1 <= |input|
            && var rest := DecodeElements(unnamed, Tail1(names), ss[1..], input, first.value.1);
               && rest.Ok?
               && DecodeElements(unnamed, names, ss, input, at) == Ok(([first.value.0] + rest.value.0, rest.value.1))
  {
  }

  lemma {:induction false} ElementsCanonical(
    unnamed: bool, names: seq<string>, ss: seq<Schema>, input: seq<Byte>, at: nat, out: bool
  )
    requires at <= |input| && NoBools(ss) && AllAgree(unnamed, names, ss, out)
    requires DecodeElements(unnamed, names, ss, input, at).Ok?
    ensures var (vs, end) := DecodeElements(unnamed, names, ss, input, at).value;
            AllFit(ss, vs) && EncodeElements(unnamed, names, ss, vs, out) == Ok(input[at..end])
    decreases ss, 0
  {
    if ss == [] {
      assert input[at..at] == [];
    } else {
      var flag, into := if unnamed then out else Flagged(names), !unnamed && Flagged(names);
      DecodeUncons(unnamed, names, ss, input, at);
      var (v, mid) := Decode(ss[0], input, at, into).value;
      var (vs, end) := DecodeElements(unnamed, Tail1(names), ss[1..], input, mid).value;
      DecodeCanonical(ss[0], input, at, flag, into);
      ElementsCanonical(unnamed, Tail1(names), ss[1..], input, mid, out);
      EncodeCons(unnamed, names, ss, v, vs, out, input[at..mid], input[mid..end]);
      SliceJoin(input, at, mid, end);
    }
  }

  // ----- and a boolean always breaks it

  /** A value whose first boolean is true. */
  function Loud(s: Schema): (v: Value)
    requires !NoBool(s)
    ensures Fits(s, v) && Encodable(s, v)
    decreases s, 1
  {
    match s
    case Bool => BoolV(true)
    case Newtype(i) => NewtypeV(Loud(i))
    case Tuple(es) => SeqV(Louds(es))
    case Struct(_, es) => SeqV(Louds(es))
  }

  function Louds(ss: seq<Schema>): (vs: seq<Value>)
    requires !NoBools(ss)
    ensures AllFit(ss, vs) && AllEncodable(ss, vs)
    decreases ss, 0
  {
    var first := if NoBool(ss[0]) then Sample(ss[0]) else Loud(ss[0]);
    var rest := if NoBool(ss[0]) then Louds(ss[1..]) else Samples(ss[1..]);
    assert ([first] + rest)[1..] == rest;
    [first] + rest
  }

  predicate StandsAt(input: seq<Byte>, at: nat, n: seq<Byte>) {
    at + |n| <= |input| && input[at..at + |n|] == n
  }

  /** Wherever these bytes stand, they decode to `v` and end there. */
  ghost predicate AlwaysReads(s: Schema, into: bool, n: seq<Byte>, v: Value) {
    forall input: seq<Byte>, at: nat :: StandsAt(input, at, n) ==> Decode(s, input, at, into) == Ok((v, at + |n|))
  }

  ghost predicate ElementsRead(unnamed: bool, names: seq<string>, ss: seq<Schema>, n: seq<Byte>, vs: seq<Value>) {
    forall input: seq<Byte>, at: nat :: StandsAt(input, at, n) ==> ReadThere(unnamed, names, ss, n, vs, input, at)
  }

  ghost predicate ReadThere(
    unnamed: bool, names: seq<string>, ss: seq<Schema>, n: seq<Byte>, vs: seq<Value>, input: seq<Byte>, at: nat
  )
    requires at <= |input|
  {
    DecodeElements(unnamed, names, ss, input, at) == Ok((vs, at + |n|))
  }

  /** Beside its encoding `e`, the value has a second accepted form `n` of the same length. */
  ghost predicate Twins(s: Schema, out: bool, into: bool, v: Value, e: seq<Byte>, n: seq<Byte>) {
    Fits(s, v) && Encode(s, v, out) == Ok(e) && |n| == |e| && n != e && AlwaysReads(s, into, n, v)
  }

  ghost predicate TwinElements(
    unnamed: bool, names: seq<string>, ss: seq<Schema>, out: bool, vs: seq<Value>, e: seq<Byte>, n: seq<Byte>
  ) {
    && AllFit(ss, vs) && EncodeElements(unnamed, names, ss, vs, out) == Ok(e)
    && |n| == |e| && n != e && ElementsRead(unnamed, names, ss, n, vs)
  }

  lemma BoolTwins(out: bool, into: bool)
    ensures Twins(Bool, out, into, BoolV(true), [1], [2])
  {
    forall input: seq<Byte>, at: nat | StandsAt(input, at, [2])
      ensures Decode(Bool, input, at, into) == Ok((BoolV(true), at + 1))
    {
      assert input[at] == input[at..at + 1][0];
    }
  }

  lemma {:induction false} HasTwins(s: Schema, out: bool, into: bool) returns (e: seq<Byte>, n: seq<Byte>)
    requires !NoBool(s) && Agree(s, out, into)
    ensures Twins(s, out, into, Loud(s), e, n)
    decreases s, 2
  {
    match s
    case Bool =>
      BoolTwins(out, into);
      e, n := [1], [2];
    case Newtype(i) =>
      e, n := HasTwins(i, out, into);
      NewtypeTwins(i, out, into, Loud(i), e, n);
    case Tuple(es) =>
      e, n := HaveTwins(true, [], es, out);
      SequenceTwins([], es, out, Louds(es), e, n);
      assert Twins(s, out, into, Loud(s), e, n);
    case Struct(ns, es) =>
      e, n := HaveTwins(ns == [], ns, es, out);
      SequenceTwins(ns, es, out, Louds(es), e, n);
      assert Twins(s, out, into, Loud(s), e, n);
  }

  lemma NewtypeTwins(i: Schema, out: bool, into: bool, v: Value, e: seq<Byte>, n: seq<Byte>)
    requires Twins(i, out, into, v, e, n)
    ensures Twins(Newtype(i), out, into, NewtypeV(v), e, n)
  {
    forall input: seq<Byte>, at: nat | StandsAt(input, at, n)
      ensures Decode(Newtype(i), input, at, into) == Ok((NewtypeV(v), at + |n|))
    {
      assert Decode(i, input, at, into) == Ok((v, at + |n|));
    }
  }

  lemma SequenceTwins(names: seq<string>, ss: seq<Schema>, out: bool, vs: seq<Value>, e: seq<Byte>, n: seq<Byte>)
    requires TwinElements(names == [], names, ss, out, vs, e, n) && AllAgree(names == [], names, ss, out)
    ensures forall input: seq<Byte>, at: nat :: StandsAt(input, at, n) ==>
      DecodeSequence(names, ss, input, at) == Ok((SeqV(vs), at + |n|))
  {
    if names == [] {
      EncodeSizes(true, [], ss, vs, out);
      CountFits(ss, vs, out);
    }
    forall input: seq<Byte>, at: nat | StandsAt(input, at, n)
      ensures DecodeSequence(names, ss, input, at) == Ok((SeqV(vs), at + |n|))
    {
      assert ReadThere(names == [], names, ss, n, vs, input, at);
    }
  }

  lemma {:induction false} HaveTwins(
    unnamed: bool, names: seq<string>, ss: seq<Schema>, out: bool
  ) returns (e: seq<Byte>, n: seq<Byte>)
    requires !NoBools(ss) && AllAgree(unnamed, names, ss, out)
    ensures TwinElements(unnamed, names, ss, out, Louds(ss), e, n)
    decreases ss, 0
  {
    var flag, into := if unnamed then out else Flagged(names), !unnamed && Flagged(names);
    if NoBool(ss[0]) {
      var v, vs := Sample(ss[0]), Louds(ss[1..]);
      EncodeSize(ss[0], v, flag);
      var a := Encode(ss[0], v, flag).value;
      var f, m := HaveTwins(unnamed, Tail1(names), ss[1..], out);
      FirstReads(unnamed, names, ss, out, v, a);
      ConsReads(unnamed, names, ss, v, a, vs, m);
      EncodeCons(unnamed, names, ss, v, vs, out, a, f);
      Apart(a, f, a, m);
      e, n := a + f, a + m;
    } else {
      var v, vs := Loud(ss[0]), Samples(ss[1..]);
      var a, m := HasTwins(ss[0], flag, into);
      EncodeSizes(unnamed, Tail1(names), ss[1..], vs, out);
      var f := EncodeElements(unnamed, Tail1(names), ss[1..], vs, out).value;
      if unnamed { TakesRoom(ss[0], v, flag); }
      RestReads(unnamed, names, ss, out, vs, f);
      ConsReads(unnamed, names, ss, v, m, vs, f);
      EncodeCons(unnamed, names, ss, v, vs, out, a, f);
      Apart(a, f, m, f);
      e, n := a + f, m + f;
    }
  }

  lemma Apart(a: seq<Byte>, b: seq<Byte>, c: seq<Byte>, d: seq<Byte>)
    requires |a| == |c| && (a != c || b != d)
    ensures a + b != c + d
  {
    assert (a + b)[..|a|] == a && (c + d)[..|a|] == c && (a + b)[|a|..] == b && (c + d)[|a|..] == d;
  }

  lemma FirstReads(unnamed: bool, names: seq<string>, ss: seq<Schema>, out: bool, v: Value, a: seq<Byte>)
    requires ss != [] && AllAgree(unnamed, names, ss, out)
    requires Fits(ss[0], v) && Encode(ss[0], v, if unnamed then out else Flagged(names)) == Ok(a)
    ensures AlwaysReads(ss[0], !unnamed && Flagged(names), a, v) && !(unnamed && a == [])
  {
    var flag, into := if unnamed then out else Flagged(names), !unnamed && Flagged(names);
    assert StandsAt(a, 0, a);
    RoundTripElement(unnamed, ss[0], v, flag, into, a, 0, a);
    forall input: seq<Byte>, at: nat | StandsAt(input, at, a) ensures Decode(ss[0], input, at, into) == Ok((v, at + |a|)) {
      RoundTripElement(unnamed, ss[0], v, flag, into, input, at, a);
    }
  }

  lemma RestReads(unnamed: bool, names: seq<string>, ss: seq<Schema>, out: bool, vs: seq<Value>, f: seq<Byte>)
    requires ss != [] && AllAgree(unnamed, names, ss, out)
    requires AllFit(ss[1..], vs) && EncodeElements(unnamed, Tail1(names), ss[1..], vs, out) == Ok(f)
    ensures ElementsRead(unnamed, Tail1(names), ss[1..], f, vs)
  {
    ElementsReadBack(unnamed, Tail1(names), ss[1..], out, vs, f);
  }

  lemma ElementsReadBack(unnamed: bool, names: seq<string>, ss: seq<Schema>, out: bool, vs: seq<Value>, f: seq<Byte>)
    requires AllAgree(unnamed, names, ss, out) && AllFit(ss, vs) && EncodeElements(unnamed, names, ss, vs, out) == Ok(f)
    ensures ElementsRead(unnamed, names, ss, f, vs)
  {
    forall input: seq<Byte>, at: nat | StandsAt(input, at, f) ensures ReadThere(unnamed, names, ss, f, vs, input, at) {
      ReadBackAt(unnamed, names, ss, out, vs, f, input, at);
    }
  }

  lemma ReadBackAt(
    unnamed: bool, names: seq<string>, ss: seq<Schema>, out: bool, vs: seq<Value>, f: seq<Byte>, input: seq<Byte>, at: nat
  )
    requires AllAgree(unnamed, names, ss, out) && AllFit(ss, vs) && EncodeElements(unnamed, names, ss, vs, out) == Ok(f)
    requires StandsAt(input, at, f)
    ensures DecodeElements(unnamed, names, ss, input, at) == Ok((vs, at + |f|))
  {
    CodecLaws.RoundTrips(unnamed, names, ss, vs, out, input, at);
  }

  lemma StandsSplit(input: seq<Byte>, at: nat, m: seq<Byte>, f: seq<Byte>)
    requires StandsAt(input, at, m + f)
    ensures StandsAt(input, at, m) && StandsAt(input, at + |m|, f)
  {
    SplitSlice(input, at, m, f);
  }

  /** A first element that reads and a rest that reads make elements that read. */
  lemma ConsReads(
    unnamed: bool, names: seq<string>, ss: seq<Schema>, v: Value, m: seq<Byte>, vs: seq<Value>, f: seq<Byte>
  )
    requires ss != [] && !(unnamed && m == [])
    requires AlwaysReads(ss[0], !unnamed && Flagged(names), m, v) && ElementsRead(unnamed, Tail1(names), ss[1..], f, vs)
    ensures ElementsRead(unnamed, names, ss, m + f, [v] + vs)
  {
    forall input: seq<Byte>, at: nat | StandsAt(input, at, m + f)
      ensures ReadThere(unnamed, names, ss, m + f, [v] + vs, input, at)
    {
      StandsSplit(input, at, m, f);
      ReadsThere(ss[0], !unnamed && Flagged(names), m, v, input, at);
      assert ReadThere(unnamed, Tail1(names), ss[1..], f, vs, input, at + |m|);
      ConsThere(unnamed, names, ss, v, m, vs, f, input, at);
    }
  }

  lemma ConsThere(
    unnamed: bool, names: seq<string>, ss: seq<Schema>, v: Value, m: seq<Byte>, vs: seq<Value>, f: seq<Byte>,
    input: seq<Byte>, at: nat
  )
    requires ss != [] && !(unnamed && m == []) && at + |m| <= |input|
    requires Decode(ss[0], input, at, !unnamed && Flagged(names)) == Ok((v, at + |m|))
    requires ReadThere(unnamed, Tail1(names), ss[1..], f, vs, input, at + |m|)
    ensures ReadThere(unnamed, names, ss, m + f, [v] + vs, input, at)
  {
    DecodeCons(unnamed, names, ss, input, at, v, at + |m|, vs, at + |m| + |f|);
  }

  lemma ReadsThere(s: Schema, into: bool, n: seq<Byte>, v: Value, input: seq<Byte>, at: nat)
    requires AlwaysReads(s, into, n, v) && StandsAt(input, at, n)
    ensures Decode(s, input, at, into) == Ok((v, at + |n|))
  {
  }

  /** Every accepted input is the encoding of its value. */
  ghost predicate OnlyEncodings(s: Schema) {
    forall input: seq<Byte>, at: nat :: at <= |input| && Decode(s, input, at, false).Ok? ==> IsEncoding(s, input, at)
  }

  predicate IsEncoding(s: Schema, input: seq<Byte>, at: nat)
    requires at <= |input| && Decode(s, input, at, false).Ok?
  {
    var (v, end) := Decode(s, input, at, false).value;
    Fits(s, v) && Encode(s, v, false) == Ok(input[at..end])
  }

  /** A well-formed schema accepts nothing but encodings if and only if it has no boolean anywhere. */
  lemma CanonicalExactly(s: Schema)
    requires WellFormed(s)
    ensures OnlyEncodings(s) <==> NoBool(s)
  {
    if NoBool(s) {
      forall input: seq<Byte>, at: nat | at <= |input| && Decode(s, input, at, false).Ok? ensures IsEncoding(s, input, at) {
        DecodeCanonical(s, input, at, false, false);
      }
    } else {
      var e, n := HasTwins(s, false, false);
      assert StandsAt(n, 0, n);
      assert Decode(s, n, 0, false) == Ok((Loud(s), 0 + |n|));
      assert !IsEncoding(s, n, 0);
    }
  }
}
