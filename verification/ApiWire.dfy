/** Where the fields of the well-known replies stand in their payloads. */
module ApiWire {
  import opened Bytes
  import opened Codec
  import opened CodecLaws
  import opened Messages
  import opened Contexts
  import opened ApiTypes
  import opened ApiEvents

  predicate AllInts(ss: seq<Schema>) { forall i :: 0 <= i < |ss| ==> ss[i].Int? }

  /** Bytes in front of field `i`. */
  function Offset(ss: seq<Schema>, i: nat): nat
    requires AllInts(ss) && i <= |ss|
  {
    if i == 0 then 0 else Offset(ss, i - 1) + ss[i - 1].width
  }

  lemma {:induction false} OffsetFront(ss: seq<Schema>, i: nat)
    requires AllInts(ss) && 0 < i <= |ss|
    ensures Offset(ss, i) == ss[0].width + Offset(ss[1..], i - 1)
  {
    if 1 < i { OffsetFront(ss, i - 1); }
  }

  /** The integer standing at `from`. */
  predicate ReadFrom(v: Value, s: Schema, flagged: bool, input: seq<Byte>, from: nat)
    requires s.Int?
  {
    from + s.width <= |input| && v == IntV(BytesInt(input[from..from + s.width], s.signed, flagged))
  }

  /** Field `i` of a struct of integers is read from its own place. */
  lemma {:induction false} IntField(names: seq<string>, ss: seq<Schema>, input: seq<Byte>, at: nat, i: nat)
    requires AllInts(ss) && i < |ss| == |names| && at <= |input| && DecodeElements(false, names, ss, input, at).Ok?
    ensures var r := DecodeElements(false, names, ss, input, at).value;
            i < |r.0| && ReadFrom(r.0[i], ss[i], names[i] == "client_index", input, at + Offset(ss, i))
    decreases i
  {
    FirstField(names, ss, input, at);
    if 0 < i {
      IntField(names[1..], ss[1..], input, at + ss[0].width, i - 1);
      OffsetFront(ss, i);
      LaterField(names, ss, input, at, i);
    }
  }

  lemma LaterField(names: seq<string>, ss: seq<Schema>, input: seq<Byte>, at: nat, i: nat)
    requires AllInts(ss) && 0 < i < |ss| == |names| && at + ss[0].width <= |input| && AllInts(ss[1..])
    requires var r := DecodeElements(false, names, ss, input, at);
             var rest := DecodeElements(false, names[1..], ss[1..], input, at + ss[0].width);
             && r.Ok? && rest.Ok? && |r.value.0| == 1 + |rest.value.0| && r.value.0[1..] == rest.value.0
             && i - 1 < |rest.value.0|
             && ReadFrom(rest.value.0[i - 1], ss[1..][i - 1], names[1..][i - 1] == "client_index", input,
                         at + ss[0].width + Offset(ss[1..], i - 1))
    requires Offset(ss, i) == ss[0].width + Offset(ss[1..], i - 1)
    ensures var r := DecodeElements(false, names, ss, input, at).value;
            i < |r.0| && ReadFrom(r.0[i], ss[i], names[i] == "client_index", input, at + Offset(ss, i))
  {
  }

  lemma FirstField(names: seq<string>, ss: seq<Schema>, input: seq<Byte>, at: nat)
    requires AllInts(ss) && 0 < |ss| == |names| && at <= |input| && DecodeElements(false, names, ss, input, at).Ok?
    ensures at + ss[0].width <= |input|
    ensures var r := DecodeElements(false, names, ss, input, at);
            var rest := DecodeElements(false, names[1..], ss[1..], input, at + ss[0].width);
            rest.Ok? && |r.value.0| == 1 + |rest.value.0| && r.value.0[1..] == rest.value.0
            && ReadFrom(r.value.0[0], ss[0], names[0] == "client_index", input, at)
  {
    NextInt(names, ss[0], ss[1..], input, at);
    assert [ss[0]] + ss[1..] == ss;
  }

  /** Two's complement in four bytes, most significant first. */
  function SignedFour(bytes: seq<Byte>, at: nat): int
    requires at + 4 <= |bytes|
  {
    if FourBytes(bytes, at) < 0x8000_0000 then FourBytes(bytes, at) else FourBytes(bytes, at) - 0x1_0000_0000
  }

  lemma FourReads(bytes: seq<Byte>, at: nat)
    requires at + 4 <= |bytes|
    ensures BytesInt(bytes[at..at + 4], false, false) == FourBytes(bytes, at)
    ensures BytesInt(bytes[at..at + 4], true, false) == SignedFour(bytes, at)
  {
    BigEndianFour(bytes, at);
    SmallPowers();
  }

  lemma StructField(names: seq<string>, ss: seq<Schema>, payload: seq<Byte>, v: Value, i: nat)
    requires AllInts(ss) && i < |ss| == |names| && DecodeMessage(Struct(names, ss), payload) == Ok(v)
    ensures ReadFrom(IntV(FieldOf(v, i)), ss[i], names[i] == "client_index", payload, Offset(ss, i))
  {
    StructReads(names, ss, payload);
    IntField(names, ss, payload, 0, i);
  }

  lemma CreateReplyOffsets(ss: seq<Schema>)
    requires ss == [U16, U32, I32, U64, U32, U64]
    ensures AllInts(ss) && Offset(ss, 2) == 6 && Offset(ss, 4) == 18 && Offset(ss, 5) == 22
  {
    assert Offset(ss, 1) == 2;
    assert Offset(ss, 2) == 6;
    assert Offset(ss, 3) == 10;
    assert Offset(ss, 4) == 18;
  }

  /** The create reply: thirty bytes, the response at 6, the client index at 18 and the table's address at 22. */
  lemma CreateReplyReads(payload: seq<Byte>, v: Value)
    requires DecodeMessage(CREATE_REPLY, payload) == Ok(v)
    ensures |payload| == 30
    ensures FieldOf(v, 2) == SignedFour(payload, 6) && FieldOf(v, 4) == FourBytes(payload, 18)
    ensures FieldOf(v, 5) == 0x1_0000_0000 * FourBytes(payload, 22) + FourBytes(payload, 26)
  {
    CreateReplyWidth();
    FixedWidth(CREATE_REPLY, v);
    var names, ss := CREATE_REPLY.names, CREATE_REPLY.elems;
    CreateReplyOffsets(ss);
    StructField(names, ss, payload, v, 2);
    StructField(names, ss, payload, v, 4);
    StructField(names, ss, payload, v, 5);
    FourReads(payload, 6);
    FourReads(payload, 18);
    EightReads(payload, 22);
  }

  lemma EightReads(bytes: seq<Byte>, at: nat)
    requires at + 8 <= |bytes|
    ensures BytesInt(bytes[at..at + 8], false, false) == 0x1_0000_0000 * FourBytes(bytes, at) + FourBytes(bytes, at + 4)
  {
    var s := bytes[at..at + 8];
    var a, b := bytes[at..at + 4], bytes[at + 4..at + 8];
    FromBigEndianLast(s);
    FromBigEndianLast(s[..7]);
    FromBigEndianLast(s[..6]);
    FromBigEndianLast(s[..5]);
    assert s[..8 - 1] == s[..7] && s[..7][..7 - 1] == s[..6] && s[..6][..6 - 1] == s[..5] && s[..5][..5 - 1] == s[..4];
    assert s[..4] == a;
    BigEndianFour(bytes, at);
    assert s[4] == bytes[at + 4] && s[5] == bytes[at + 5] && s[6] == bytes[at + 6] && s[7] == bytes[at + 7];
    assert s[..7][6] == s[6] && s[..6][5] == s[5] && s[..5][4] == s[4];
  }

  /** The delete reply: fourteen bytes, the response at 2. */
  lemma DeleteReplyReads(payload: seq<Byte>, v: Value)
    requires DecodeMessage(DELETE_REPLY, payload) == Ok(v)
    ensures |payload| == 14 && FieldOf(v, 1) == SignedFour(payload, 2)
  {
    DeleteWidths();
    FixedWidth(DELETE_REPLY, v);
    var names, ss := DELETE_REPLY.names, DELETE_REPLY.elems;
    assert Offset(ss, 1) == 2;
    StructField(names, ss, payload, v, 1);
    FourReads(payload, 2);
  }
}
