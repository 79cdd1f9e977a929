/**
  The Binary API wire format: schemas, values, and the pure encoder and decoder the
  stateful serializer and deserializer are measured against.

  The native byte order is little endian (the layout assertions of the repository are for x86_64).
 */
module Codec {
  import opened Bytes

  /**
    `Tuple` covers Serde tuples, tuple structs, fixed arrays, fixed strings and arrays whose count
    the containing definition supplies. `Struct` carries its field names, as `deserialize_struct` does.
   */
  datatype Schema =
    | Int(width: nat, signed: bool)
    | Bool
    | F64
    | Blob
    | Text
    | Unit
    | Newtype(inner: Schema)
    | Tuple(elems: seq<Schema>)
    | Struct(names: seq<string>, elems: seq<Schema>)

  datatype Value =
    | IntV(n: int)
    | BoolV(b: bool)
    | F64V(bits: seq<Byte>)
    | BlobV(blob: seq<Byte>)
    | TextV(text: seq<Byte>)
    | UnitV
    | NewtypeV(v: Value)
    | SeqV(vs: seq<Value>)

  const CLIENT_INDEX: string := "client_index"
  const LENGTH_LIMIT: nat := 0x1_0000_0000

  /** The schemas Rust types can have. */
  predicate Typed(s: Schema) {
    match s
    case Int(w, _) => w == 1 || w == 2 || w == 4 || w == 8
    case Newtype(i) => Typed(i)
    case Tuple(es) => forall i :: 0 <= i < |es| ==> Typed(es[i])
    case Struct(ns, es) => |ns| == |es| && forall i :: 0 <= i < |es| ==> Typed(es[i])
    case _ => true
  }

  predicate IntFits(n: int, width: nat, signed: bool) {
    if signed then 0 <= Pow256(width) + 2 * n && 2 * n < Pow256(width) else 0 <= n < Pow256(width)
  }

  predicate Fits(s: Schema, v: Value)
    decreases s, 1
  {
    match s
    case Int(w, signed) => v.IntV? && IntFits(v.n, w, signed)
    case Bool => v.BoolV?
    case F64 => v.F64V? && |v.bits| == 8
    case Blob => v.BlobV?
    case Text => v.TextV? && ValidUtf8(v.text)
    case Unit => v.UnitV?
    case Newtype(i) => v.NewtypeV? && Fits(i, v.v)
    case Tuple(es) => v.SeqV? && AllFit(es, v.vs)
    case Struct(_, es) => v.SeqV? && AllFit(es, v.vs)
  }

  predicate AllFit(ss: seq<Schema>, vs: seq<Value>)
    decreases ss, 0
  {
    |ss| == |vs| && (ss == [] || (Fits(ss[0], vs[0]) && AllFit(ss[1..], vs[1..])))
  }

  // ----- integers

  function ToUnsigned(n: int, width: nat): (u: nat)
    requires IntFits(n, width, true) || IntFits(n, width, false)
    ensures u < Pow256(width)
  {
    if n < 0 then n + Pow256(width) else n
  }

  function FromUnsigned(u: nat, width: nat, signed: bool): (n: int)
    requires u < Pow256(width)
    ensures IntFits(n, width, signed)
  {
    if signed && Pow256(width) <= 2 * u then u - Pow256(width) else u
  }

  function IntBytes(n: int, width: nat, token: bool): (bytes: seq<Byte>)
    requires IntFits(n, width, true) || IntFits(n, width, false)
    ensures |bytes| == width
  {
    if token then LittleEndian(ToUnsigned(n, width), width) else BigEndian(ToUnsigned(n, width), width)
  }

  function BytesInt(bytes: seq<Byte>, signed: bool, token: bool): (n: int)
    ensures IntFits(n, |bytes|, signed)
  {
    FromUnsigned(if token then FromLittleEndian(bytes) else FromBigEndian(bytes), |bytes|, signed)
  }

  // ----- the encoder

  function Tail1<T>(s: seq<T>): seq<T> { if s == [] then [] else s[1..] }

  /** Is the next field the opaque client token? Only a field name can say so. */
  predicate Flagged(names: seq<string>) { names != [] && names[0] == CLIENT_INDEX }

  function Encode(s: Schema, v: Value, token: bool): (r: Result<seq<Byte>>)
    requires Fits(s, v)
    decreases s, 1
  {
    match s
    case Int(w, _) => Ok(IntBytes(v.n, w, token))
    case Bool => Ok([if v.b then 1 else 0])
    case F64 => Ok(v.bits)
    case Blob => EncodeBlob(v.blob)
    case Text => EncodeBlob(v.text)
    case Unit => Ok([])
    case Newtype(i) => Encode(i, v.v, token)
    case Tuple(es) => EncodeElements(true, [], es, v.vs, token)
    case Struct(ns, es) => EncodeElements(ns == [], ns, es, v.vs, token)  // a struct without names has no fields
  }

  function EncodeBlob(blob: seq<Byte>): Result<seq<Byte>> {
    if |blob| < LENGTH_LIMIT then Ok(BigEndian(|blob|, 4) + blob) else Err("length exceeds u32")
  }

  /** Array elements inherit the token flag; a struct field takes it from its own name. */
  function EncodeElements(
    unnamed: bool, names: seq<string>, ss: seq<Schema>, vs: seq<Value>, token: bool
  ): (r: Result<seq<Byte>>)
    requires AllFit(ss, vs)
    decreases ss, 0
  {
    if ss == [] then Ok([])
    else
      var first := Encode(ss[0], vs[0], if unnamed then token else Flagged(names));
      if first.Err? then first else
      var rest := EncodeElements(unnamed, Tail1(names), ss[1..], vs[1..], token);
      if rest.Err? then rest else Ok(first.value + rest.value)
  }

  /** Wire length, whatever the byte order. */
  function Size(s: Schema, v: Value): (n: nat)
    requires Fits(s, v)
    decreases s, 1
  {
    match s
    case Int(w, _) => w
    case Bool => 1
    case F64 => 8
    case Blob => 4 + |v.blob|
    case Text => 4 + |v.text|
    case Unit => 0
    case Newtype(i) => Size(i, v.v)
    case Tuple(es) => Sizes(es, v.vs)
    case Struct(_, es) => Sizes(es, v.vs)
  }

  function Sizes(ss: seq<Schema>, vs: seq<Value>): (n: nat)
    requires AllFit(ss, vs)
    decreases ss, 0
  {
    if ss == [] then 0 else Size(ss[0], vs[0]) + Sizes(ss[1..], vs[1..])
  }

  // ----- the decoder

  function Decode(s: Schema, input: seq<Byte>, at: nat, token: bool): (r: Result<(Value, nat)>)
    requires at <= |input|
    ensures r.Ok? ==> at <= r.value.1 <= |input|
    decreases s, 1
  {
    match s
    case Int(w, signed) =>
      if at + w <= |input| then Ok((IntV(BytesInt(input[at..at + w], signed, token)), at + w)) else Err("truncated")
    case Bool =>
      if at + 1 <= |input| then Ok((BoolV(input[at] != 0), at + 1)) else Err("truncated")
    case F64 =>
      if at + 8 <= |input| then Ok((F64V(input[at..at + 8]), at + 8)) else Err("truncated")
    case Blob =>
      var b := DecodeBlob(input, at);
      if b.Err? then Err(b.error) else Ok((BlobV(b.value.0), b.value.1))
    case Text =>
      var b := DecodeBlob(input, at);
      if b.Err? then Err(b.error) else if ValidUtf8(b.value.0) then Ok((TextV(b.value.0), b.value.1)) else Err("not UTF-8")
    case Unit => Ok((UnitV, at))
    case Newtype(i) =>
      var inner := Decode(i, input, at, token);
      if inner.Err? then inner else Ok((NewtypeV(inner.value.0), inner.value.1))
    case Tuple(es) => DecodeSequence([], es, input, at)
    case Struct(ns, es) => DecodeSequence(ns, es, input, at)
  }

  function DecodeBlob(input: seq<Byte>, at: nat): (r: Result<(seq<Byte>, nat)>)
    requires at <= |input|
    ensures r.Ok? ==> at + 4 <= r.value.1 <= |input| && r.value.0 == input[at + 4..r.value.1]
  {
    if |input| < at + 4 then Err("truncated")
    else
      var n := FromBigEndian(input[at..at + 4]);
      if at + 4 + n <= |input| then Ok((input[at + 4..at + 4 + n], at + 4 + n)) else Err("truncated")
  }

  /** `sequence`: an array may not promise more elements than there are bytes left. */
  function DecodeSequence(names: seq<string>, ss: seq<Schema>, input: seq<Byte>, at: nat): (r: Result<(Value, nat)>)
    requires at <= |input|
    ensures r.Ok? ==> at <= r.value.1 <= |input|
    decreases ss, 1
  {
    if names == [] && |ss| > |input| - at then Err("truncated array")
    else
      var r := DecodeElements(names == [], names, ss, input, at);
      if r.Err? then Err(r.error) else Ok((SeqV(r.value.0), r.value.1))
  }

  /** Every element starts with the flag its own name gives; an array element has no name. */
  function DecodeElements(
    unnamed: bool, names: seq<string>, ss: seq<Schema>, input: seq<Byte>, at: nat
  ): (r: Result<(seq<Value>, nat)>)
    requires at <= |input|
    ensures r.Ok? ==> at <= r.value.1 <= |input|
    decreases ss, 0
  {
    if ss == [] then Ok(([], at))
    else
      var first := Decode(ss[0], input, at, !unnamed && Flagged(names));
      if first.Err? then Err(first.error)
      else if unnamed && first.value.1 == at then Err("element consumed nothing")
      else
        var rest := DecodeElements(unnamed, Tail1(names), ss[1..], input, first.value.1);
        if rest.Err? then rest else Ok(([first.value.0] + rest.value.0, rest.value.1))
  }
}
