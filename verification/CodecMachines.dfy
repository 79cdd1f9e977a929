/**
  The serializer and the deserializer as the code has them: objects whose offset, remaining count,
  field list and token flag are changed in place and restored around nested calls. Each method is
  proved against the pure encoder or decoder.
 */
module CodecMachines {
  import opened Bytes
  import opened Codec
  import opened CodecLaws

  const USIZE_LIMIT: nat := 0x1_0000_0000_0000_0000

  /** Put already decoded elements in front of the rest. */
  function Join(done: seq<Value>, rest: Result<(seq<Value>, nat)>): Result<(seq<Value>, nat)> {
    if rest.Err? then rest else Ok((done + rest.value.0, rest.value.1))
  }

  lemma JoinNothing(r: Result<(seq<Value>, nat)>)
    ensures Join([], r) == r
  {
    assert r.Ok? ==> [] + r.value.0 == r.value.0;
  }

  lemma JoinNext(done: seq<Value>, unnamed: bool, names: seq<string>, ss: seq<Schema>, input: seq<Byte>, at: nat)
    requires ss != [] && at <= |input|
    ensures var whole := Join(done, DecodeElements(unnamed, names, ss, input, at));
            var d := Decode(ss[0], input, at, !unnamed && Flagged(names));
            if d.Err? then whole == Err(d.error)
            else if unnamed && d.value.1 == at then whole == Err("element consumed nothing")
            else whole == Join(done + [d.value.0], DecodeElements(unnamed, Tail1(names), ss[1..], input, d.value.1))
  {
    var d := Decode(ss[0], input, at, !unnamed && Flagged(names));
    if d.Ok? && !(unnamed && d.value.1 == at) {
      var rest := DecodeElements(unnamed, Tail1(names), ss[1..], input, d.value.1);
      assert rest.Ok? ==> done + ([d.value.0] + rest.value.0) == done + [d.value.0] + rest.value.0;
    }
  }

  function From(names: seq<string>, i: nat): seq<string> {
    if i <= |names| then names[i..] else []
  }

  /** The first `i` elements have been decoded into `done`, and the rest starts at `at`. */
  ghost predicate Halfway(
    unnamed: bool, names: seq<string>, ss: seq<Schema>, input: seq<Byte>, start: nat, i: nat, done: seq<Value>, at: nat
  )
    requires i <= |ss| && start <= |input| && at <= |input|
  {
    DecodeElements(unnamed, names, ss, input, start)
    == Join(done, DecodeElements(unnamed, From(names, i), ss[i..], input, at))
  }

  lemma HalfwayStarts(unnamed: bool, names: seq<string>, ss: seq<Schema>, input: seq<Byte>, start: nat)
    requires start <= |input|
    ensures Halfway(unnamed, names, ss, input, start, 0, [], start)
  {
    assert From(names, 0) == names && ss[0..] == ss;
    JoinNothing(DecodeElements(unnamed, names, ss, input, start));
  }

  lemma HalfwayNext(
    unnamed: bool, names: seq<string>, ss: seq<Schema>, input: seq<Byte>, start: nat, i: nat, done: seq<Value>, at: nat
  )
    requires i < |ss| && start <= |input| && at <= |input| && Halfway(unnamed, names, ss, input, start, i, done, at)
    ensures var d := Decode(ss[i], input, at, !unnamed && Flagged(From(names, i)));
            var whole := DecodeElements(unnamed, names, ss, input, start);
            && (d.Err? ==> whole == Err(d.error))
            && (d.Ok? && unnamed && d.value.1 == at ==> whole == Err("element consumed nothing"))
            && (d.Ok? && !(unnamed && d.value.1 == at) ==>
                  Halfway(unnamed, names, ss, input, start, i + 1, done + [d.value.0], d.value.1))
  {
    JoinNext(done, unnamed, From(names, i), ss[i..], input, at);
    assert ss[i..][1..] == ss[i + 1..] && Tail1(From(names, i)) == From(names, i + 1);
  }

  lemma HalfwayEnds(
    unnamed: bool, names: seq<string>, ss: seq<Schema>, input: seq<Byte>, start: nat, done: seq<Value>, at: nat
  )
    requires start <= |input| && at <= |input| && Halfway(unnamed, names, ss, input, start, |ss|, done, at)
    ensures DecodeElements(unnamed, names, ss, input, start) == Ok((done, at))
  {
    assert done + [] == done;
  }

  // ----- reading

  class Deserializer {
    const input: seq<Byte>
    var offset: nat
    var remaining: nat
    var fields: seq<string>
    var token: bool

    ghost predicate Valid() reads this { offset <= |input| }

    constructor (bytes: seq<Byte>)
      ensures Valid() && input == bytes && offset == 0 && remaining == 0 && fields == [] && !token
    {
      input, offset, remaining, fields, token := bytes, 0, 0, [], false;
    }

    method Read(length: nat) returns (r: Result<seq<Byte>>)
      requires Valid()
      modifies this`offset
      ensures Valid()
      ensures r.Ok? <==> old(offset) + length <= |input|
      ensures r.Ok? ==> offset == old(offset) + length && r.value == input[old(offset)..offset]
      ensures r.Err? ==> r.error == "truncated" && offset == old(offset)
    {
      var end := offset + length;
      if |input| < end {
        return Err("truncated");
      }
      r := Ok(input[offset..end]);
      offset := end;
    }

    /** `deserialize_legacy`: a tail array whose count follows from the bytes that are left. */
    method DeserializeLegacy(element: Schema, elementSize: nat) returns (r: Result<Value>)
      requires Valid() && Typed(element)
      modifies this
      ensures Valid()
      ensures remaining == old(remaining) && fields == old(fields) && token == old(token)
      ensures var left := |input| - old(offset);
              if elementSize == 0 || left % elementSize != 0 then r.Err? && offset == old(offset)
              else
                var d := Decode(Tuple(seq(left / elementSize, _ => element)), input, old(offset), old(token));
                if d.Ok? then r == Ok(d.value.0) && offset == d.value.1 else r == Err(d.error)
    {
      var left := |input| - offset;
      if elementSize == 0 || left % elementSize != 0 {
        return Err("legacy array length mismatch");
      }
      r := Sequence([], seq(left / elementSize, _ => element));
    }

    method ReadBlob() returns (r: Result<seq<Byte>>)
      requires Valid()
      modifies this`offset
      ensures Valid()
      ensures var d := DecodeBlob(input, old(offset));
              if d.Ok? then r == Ok(d.value.0) && offset == d.value.1 else r == Err(d.error)
    {
      var prefix := Read(4);
      if prefix.Err? {
        return Err(prefix.error);
      }
      r := Read(FromBigEndian(prefix.value));
    }

    /** Every nested call leaves `remaining`, `fields` and the token flag as it found them, also when it fails. */
    method Deserialize(s: Schema) returns (r: Result<Value>)
      requires Valid() && Typed(s)
      modifies this
      ensures Valid()
      ensures remaining == old(remaining) && fields == old(fields) && token == old(token)
      ensures var d := Decode(s, input, old(offset), old(token));
              if d.Ok? then r == Ok(d.value.0) && offset == d.value.1 else r == Err(d.error)
      decreases s, 2
    {
      match s
      case Int(w, signed) =>
        var bytes := Read(w);
        r := if bytes.Err? then Err(bytes.error) else Ok(IntV(BytesInt(bytes.value, signed, token)));
      case Bool =>
        var bytes := Read(1);
        r := if bytes.Err? then Err(bytes.error) else Ok(BoolV(bytes.value[0] != 0));
      case F64 =>
        var bytes := Read(8);
        r := if bytes.Err? then Err(bytes.error) else Ok(F64V(bytes.value));
      case Blob =>
        var bytes := ReadBlob();
        r := if bytes.Err? then Err(bytes.error) else Ok(BlobV(bytes.value));
      case Text =>
        var bytes := ReadBlob();
        r := if bytes.Err? then Err(bytes.error)
             else if ValidUtf8(bytes.value) then Ok(TextV(bytes.value))
             else Err("not UTF-8");
      case Unit => r := Ok(UnitV);
      case Newtype(i) =>
        var inner := Deserialize(i);
        r := if inner.Err? then inner else Ok(NewtypeV(inner.value));
      case Tuple(es) => r := Sequence([], es);
      case Struct(ns, es) => r := Sequence(ns, es);
    }

    method Sequence(names: seq<string>, ss: seq<Schema>) returns (r: Result<Value>)
      requires Valid() && (names == [] || |names| == |ss|) && forall i :: 0 <= i < |ss| ==> Typed(ss[i])
      modifies this
      ensures Valid()
      ensures remaining == old(remaining) && fields == old(fields) && token == old(token)
      ensures var d := DecodeSequence(names, ss, input, old(offset));
              if d.Ok? then r == Ok(d.value.0) && offset == d.value.1 else r == Err(d.error)
      decreases ss, 2
    {
      if names == [] && |ss| > |input| - offset {
        return Err("truncated array");
      }
      var parentRemaining, parentFields := remaining, fields;
      remaining, fields := |ss|, names;
      var values := VisitSeq(ss);
      var left := remaining;
      remaining, fields := parentRemaining, parentFields;
      if values.Err? {
        return Err(values.error);
      }
      if left != 0 {
        return Err("element count mismatch");
      }
      r := Ok(SeqV(values.value));
    }

    /** The visitor of a tuple, an array or a derived struct: one `next_element` per element. */
    method VisitSeq(ss: seq<Schema>) returns (r: Result<seq<Value>>)
      requires Valid() && remaining == |ss| && (fields == [] || |fields| == |ss|)
      requires forall i :: 0 <= i < |ss| ==> Typed(ss[i])
      modifies this
      ensures Valid() && fields == old(fields) && token == old(token)
      ensures var d := DecodeElements(fields == [], fields, ss, input, old(offset));
              if d.Ok? then r == Ok(d.value.0) && offset == d.value.1 && remaining == 0 else r == Err(d.error)
      decreases ss, 1
    {
      var values: seq<Value> := [];
      ghost var start := offset;
      HalfwayStarts(fields == [], fields, ss, input, start);
      for i := 0 to |ss|
        invariant Valid() && fields == old(fields) && token == old(token)
        invariant remaining == |ss| - i
        invariant Halfway(fields == [], fields, ss, input, start, i, values, offset)
      {
        HalfwayNext(fields == [], fields, ss, input, start, i, values, offset);
        var element := NextElement(ss[i]);
        if element.Err? {
          return Err(element.error);
        }
        if element.value.None? {
          return Err("invalid length");
        }
        values := values + [element.value.value];
      }
      HalfwayEnds(fields == [], fields, ss, input, start, values, offset);
      r := Ok(values);
    }

    /** The token flag is looked up by position: `fields[fields.len() - remaining]`. */
    method NextElement(s: Schema) returns (r: Result<Option<Value>>)
      requires Valid() && Typed(s)
      modifies this
      ensures Valid() && fields == old(fields) && token == old(token)
      ensures old(remaining) == 0 ==> r == Ok(None) && offset == old(offset) && remaining == 0
      ensures 0 < old(remaining) ==>
                && remaining == old(remaining) - 1
                && var names := From(fields, if |fields| < old(remaining) then 0 else |fields| - old(remaining));
                   var d := Decode(s, input, old(offset), Flagged(names));
                   if d.Err? then r == Err(d.error)
                   else if fields == [] && d.value.1 == old(offset) then r == Err("element consumed nothing")
                   else r == Ok(Some(d.value.0)) && offset == d.value.1
      decreases s, 3
    {
      if remaining == 0 {
        return Ok(None);
      }
      var saved := token;
      var position := if |fields| < remaining then 0 else |fields| - remaining;
      token := position < |fields| && fields[position] == CLIENT_INDEX;
      remaining := remaining - 1;
      var arrayElement := fields == [];
      var before := offset;
      var result := Deserialize(s);
      token := saved;
      if result.Ok? && arrayElement && offset == before {
        return Err("element consumed nothing");
      }
      r := if result.Ok? then Ok(Some(result.value)) else Err(result.error);
    }
  }

  // ----- writing

  /** Does the encoding fit the address space and, if there is one, the output? */
  predicate Room(e: Result<seq<Byte>>, offset: nat, limit: Option<nat>) {
    e.Ok? && offset + |e.value| < USIZE_LIMIT && (limit.Some? ==> offset + |e.value| <= limit.value)
  }

  /** `buffer` with `e` written at `at`. */
  function Overlay(buffer: seq<Byte>, at: nat, e: seq<Byte>): (r: seq<Byte>)
    requires at + |e| <= |buffer|
    ensures |r| == |buffer|
  {
    buffer[..at] + e + buffer[at + |e|..]
  }

  lemma OverlayNext(buffer: seq<Byte>, at: nat, e: seq<Byte>, f: seq<Byte>)
    requires at + |e| + |f| <= |buffer|
    ensures Overlay(Overlay(buffer, at, e), at + |e|, f) == Overlay(buffer, at, e + f)
  {
  }

  lemma OverlayPut(buffer: seq<Byte>, at: nat, e: seq<Byte>, b: Byte)
    requires at + |e| < |buffer|
    ensures Overlay(buffer, at, e)[at + |e| := b] == Overlay(buffer, at, e + [b])
  {
  }

  /** `copy_nonoverlapping` into the output. */
  method CopyInto(output: array<Byte>, start: nat, bytes: seq<Byte>)
    requires start + |bytes| <= output.Length
    modifies output
    ensures output[..] == Overlay(old(output[..]), start, bytes)
  {
    ghost var before := output[..];
    OverlayNothing(before, start);
    for k := 0 to |bytes|
      invariant output[..] == Overlay(before, start, bytes[..k])
    {
      OverlayPut(before, start, bytes[..k], bytes[k]);
      assert bytes[..k + 1] == bytes[..k] + [bytes[k]];
      output[start + k] := bytes[k];
    }
    assert bytes[..|bytes|] == bytes;
  }

  lemma OverlayNothing(buffer: seq<Byte>, at: nat)
    requires at <= |buffer|
    ensures Overlay(buffer, at, []) == buffer
  {
  }

  /** What `buffer` looks like after `e` was written at `at`, or measured when there is no buffer. */
  predicate Placed(before: Option<seq<Byte>>, after: Option<seq<Byte>>, at: nat, e: seq<Byte>) {
    match before
    case None => after.None?
    case Some(b) => at + |e| <= |b| && after == Some(Overlay(b, at, e))
  }

  /** A failed write touches nothing before where it started. */
  predicate Kept(before: Option<seq<Byte>>, after: Option<seq<Byte>>, at: nat) {
    match before
    case None => after.None?
    case Some(b) => after.Some? && |after.value| == |b| && at <= |b| && after.value[..at] == b[..at]
  }

  lemma PlacedNext(
    before: Option<seq<Byte>>, mid: Option<seq<Byte>>, after: Option<seq<Byte>>, at: nat, e: seq<Byte>, f: seq<Byte>
  )
    requires Placed(before, mid, at, e) && Placed(mid, after, at + |e|, f)
    ensures Placed(before, after, at, e + f)
  {
    if before.Some? {
      OverlayNext(before.value, at, e, f);
    }
  }

  lemma KeptAfter(before: Option<seq<Byte>>, mid: Option<seq<Byte>>, after: Option<seq<Byte>>, at: nat, e: seq<Byte>)
    requires Placed(before, mid, at, e) && Kept(mid, after, at + |e|)
    ensures Kept(before, after, at)
  {
    if before.Some? {
      assert after.value[..at] == after.value[..at + |e|][..at];
      assert mid.value[..at] == mid.value[..at + |e|][..at];
    }
  }

  /**
    Writing the encoding `e` from `at` succeeds exactly when there is one and it fits; then it stands
    there and the offset is behind it. A failure touches nothing before `at`.
   */
  predicate Wrote(
    ok: bool, e: Result<seq<Byte>>, at: nat, end: nat, limit: Option<nat>, before: Option<seq<Byte>>, after: Option<seq<Byte>>
  ) {
    && (ok <==> Room(e, at, limit))
    && (ok ==> end == at + |e.value| && Placed(before, after, at, e.value))
    && (!ok ==> at <= end && Kept(before, after, at))
  }

  /** A first encoding and the rest, written one after the other. */
  predicate Consists(e: Result<seq<Byte>>, first: Result<seq<Byte>>, rest: Result<seq<Byte>>) {
    (e.Ok? <==> first.Ok? && rest.Ok?) && (e.Ok? ==> e.value == first.value + rest.value)
  }

  lemma WroteNext(
    ok: bool, e: Result<seq<Byte>>, first: Result<seq<Byte>>, rest: Result<seq<Byte>>, at: nat, mid: nat, end: nat,
    limit: Option<nat>, before: Option<seq<Byte>>, middle: Option<seq<Byte>>, after: Option<seq<Byte>>
  )
    requires Consists(e, first, rest)
    requires Wrote(true, first, at, mid, limit, before, middle) && Wrote(ok, rest, mid, end, limit, middle, after)
    ensures Wrote(ok, e, at, end, limit, before, after)
  {
    if ok {
      PlacedNext(before, middle, after, at, first.value, rest.value);
    } else {
      KeptAfter(before, middle, after, at, first.value);
    }
  }

  lemma WroteNot(
    e: Result<seq<Byte>>, first: Result<seq<Byte>>, rest: Result<seq<Byte>>, at: nat, end: nat,
    limit: Option<nat>, before: Option<seq<Byte>>, after: Option<seq<Byte>>
  )
    requires Consists(e, first, rest) && Wrote(false, first, at, end, limit, before, after)
    ensures Wrote(false, e, at, end, limit, before, after)
  {
  }

  class Serializer {
    const output: array?<Byte>
    var offset: nat
    var token: bool

    ghost predicate Valid() reads this { offset < USIZE_LIMIT && (output != null ==> offset <= output.Length) }

    function Limit(): Option<nat> { if output == null then None else Some(output.Length) }

    ghost function Buffer(): Option<seq<Byte>>
      reads output
    {
      if output == null then None else Some(output[..])
    }

    constructor (buffer: array?<Byte>)
      ensures Valid() && output == buffer && offset == 0 && !token
    {
      output, offset, token := buffer, 0, false;
    }

    method Write(bytes: seq<Byte>) returns (r: Result<()>)
      requires Valid()
      modifies this`offset, output
      ensures Valid()
      ensures r.Ok? <==> Room(Ok(bytes), old(offset), Limit())
      ensures r.Ok? ==> offset == old(offset) + |bytes| && Placed(old(Buffer()), Buffer(), old(offset), bytes)
      ensures r.Err? ==> offset == old(offset) && Buffer() == old(Buffer())
    {
      var start, end := offset, offset + |bytes|;
      if USIZE_LIMIT <= end {
        return Err("encoded length overflow");
      }
      if output != null {
        if output.Length < end {
          return Err("output slice is too short");
        }
        CopyInto(output, start, bytes);
      }
      offset := end;
      r := Ok(());
    }

    /** `serialize_bytes` checks for room before it writes the length, so it writes both or neither. */
    method WriteBlob(blob: seq<Byte>) returns (r: Result<()>)
      requires Valid()
      modifies this`offset, output
      ensures Valid()
      ensures r.Ok? <==> Room(EncodeBlob(blob), old(offset), Limit())
      ensures r.Ok? ==>
        offset == old(offset) + 4 + |blob| && Placed(old(Buffer()), Buffer(), old(offset), EncodeBlob(blob).value)
      ensures r.Err? ==> old(offset) <= offset && Kept(old(Buffer()), Buffer(), old(offset))
    {
      if LENGTH_LIMIT <= |blob| {
        return Err("length exceeds u32");
      }
      if output != null && (output.Length - offset < 4 || |blob| > output.Length - offset - 4) {
        return Err("output slice is too short");
      }
      r := Write(BigEndian(|blob|, 4));
      if r.Ok? {
        if output != null {
          OverlayNext(old(output[..]), old(offset), BigEndian(|blob|, 4), blob);
        }
        r := Write(blob);
      }
    }

    /** The token flag is restored around every field, also when the field fails. */
    method Serialize(s: Schema, v: Value) returns (r: Result<()>)
      requires Valid() && Typed(s) && Fits(s, v)
      modifies this, output
      ensures Valid() && token == old(token)
      ensures var e := Encode(s, v, old(token));
              Wrote(r.Ok?, e, old(offset), offset, Limit(), old(Buffer()), Buffer())
      decreases s, 1
    {
      match s
      case Int(w, _) => r := Write(IntBytes(v.n, w, token));
      case Bool => r := Write([if v.b then 1 else 0]);
      case F64 => r := Write(v.bits);
      case Blob => r := WriteBlob(v.blob);
      case Text => r := WriteBlob(v.text);
      case Unit =>
        r := Ok(());
        if output != null { OverlayNothing(output[..], offset); }
      case Newtype(i) => r := Serialize(i, v.v);
      case Tuple(es) => r := SerializeElements(true, [], es, v.vs);
      case Struct(ns, es) => r := SerializeElements(ns == [], ns, es, v.vs);
    }

    /** `serialize_field` (or `serialize_element`, which keeps the flag): set, serialize, restore. */
    method SerializeField(flag: bool, s: Schema, v: Value) returns (r: Result<()>)
      requires Valid() && Typed(s) && Fits(s, v)
      modifies this, output
      ensures Valid() && token == old(token)
      ensures var e := Encode(s, v, flag);
              Wrote(r.Ok?, e, old(offset), offset, Limit(), old(Buffer()), Buffer())
      decreases s, 2
    {
      var saved := token;
      token := flag;
      r := Serialize(s, v);
      token := saved;
    }

    /** The calls a derived `Serialize` makes, in declaration order, stopping at the first failure. */
    method SerializeElements(unnamed: bool, names: seq<string>, ss: seq<Schema>, vs: seq<Value>) returns (r: Result<()>)
      requires Valid() && (unnamed || |names| == |ss|) && (forall i :: 0 <= i < |ss| ==> Typed(ss[i])) && AllFit(ss, vs)
      modifies this, output
      ensures Valid() && token == old(token)
      ensures var e := EncodeElements(unnamed, names, ss, vs, old(token));
              Wrote(r.Ok?, e, old(offset), offset, Limit(), old(Buffer()), Buffer())
      decreases ss, 0
    {
      ghost var start, before := offset, Buffer();
      if ss == [] {
        if output != null { OverlayNothing(output[..], offset); }
        return Ok(());
      }
      var flag := if unnamed then token else names[0] == CLIENT_INDEX;
      ghost var first := Encode(ss[0], vs[0], flag);
      ghost var rest := EncodeElements(unnamed, Tail1(names), ss[1..], vs[1..], token);
      ghost var e := EncodeElements(unnamed, names, ss, vs, token);
      ElementsNext(unnamed, names, ss, vs, token);
      r := SerializeField(flag, ss[0], vs[0]);
      ghost var mid, middle := offset, Buffer();
      if r.Ok? {
        r := SerializeElements(unnamed, Tail1(names), ss[1..], vs[1..]);
        WroteNext(r.Ok?, e, first, rest, start, mid, offset, Limit(), before, middle, Buffer());
      } else {
        WroteNot(e, first, rest, start, mid, Limit(), before, middle);
      }
    }
  }
}
