/** Message buffers in the shared region: their prefix, their addresses and their contents. */
module Messages {
  import opened Bytes
  import opened Codec
  import opened CodecLaws
  import opened CodecMachines
  import opened CodecWire

  // ----- addresses

  const PAYLOAD_OFFSET: nat := 16
  const LENGTH_OFFSET: nat := 8
  const PREFIX_ALIGN: nat := 8

  /** The mapped region: `size` bytes at address `base`, holding `bytes`. */
  datatype Region = Region(base: nat, bytes: seq<Byte>)

  predicate Mapped(r: Region) { 0 < r.base && r.base + |r.bytes| < USIZE_LIMIT }

  /** `contains_range`, with its two checked additions. */
  predicate ContainsRange(r: Region, start: nat, count: nat) {
    && r.base + |r.bytes| < USIZE_LIMIT
    && r.base <= start
    && start + count < USIZE_LIMIT && start + count <= r.base + |r.bytes|
  }

  /** The payload length `from_address` accepts for an address popped from a queue. */
  function FromAddress(r: Region, address: nat): (len: Result<nat>)
    requires Mapped(r)
    ensures len.Ok? ==>
              && r.base + PAYLOAD_OFFSET <= address
              && ContainsRange(r, address - PAYLOAD_OFFSET, PAYLOAD_OFFSET + len.value)
              && (address - PAYLOAD_OFFSET) % PREFIX_ALIGN == 0
  {
    if address < PAYLOAD_OFFSET then Err("invalid header")
    else
      var prefix := address - PAYLOAD_OFFSET;
      if prefix == 0 || prefix % PREFIX_ALIGN != 0 || !ContainsRange(r, prefix, PAYLOAD_OFFSET) then Err("invalid header")
      else
        var at := prefix - r.base;
        var n := FromBigEndian(r.bytes[at + LENGTH_OFFSET..at + LENGTH_OFFSET + 4]);
        if ContainsRange(r, address, n) then Ok(n) else Err("invalid header")
  }

  /**
    An address is accepted exactly when its sixteen-byte prefix is aligned and mapped and the payload fits behind
    it; the length stands in bytes 8 to 11 of the prefix, most significant first.
   */
  lemma AddressExactly(r: Region, address: nat, n: nat)
    requires Mapped(r)
    ensures FromAddress(r, address) == Ok(n) <==>
            && r.base + 16 <= address && (address - 16) % 8 == 0
            && address + n <= r.base + |r.bytes|
            && n == FourBytes(r.bytes, address - r.base - 8)
  {
    if r.base + 16 <= address <= r.base + |r.bytes| { BigEndianFour(r.bytes, address - r.base - 8); }
  }

  /** `allocate` of `count` payload bytes at a prefix address: null queue pointer, length, zero timestamp. */
  predicate Allocated(r: Region, prefix: nat, count: nat) {
    && Mapped(r) && prefix % 8 == 0 && ContainsRange(r, prefix, 16 + count)
    && var at := prefix - r.base;
       && r.bytes[at..at + 8] == [0, 0, 0, 0, 0, 0, 0, 0]
       && r.bytes[at + 8..at + 12] == BigEndian(count % LENGTH_LIMIT, 4)
       && r.bytes[at + 12..at + 16] == [0, 0, 0, 0]
  }

  /** An address read back names the buffer that was allocated, except that the length is kept modulo 2^32. */
  lemma AddressRoundTrip(r: Region, prefix: nat, count: nat)
    requires Allocated(r, prefix, count)
    ensures FromAddress(r, prefix + PAYLOAD_OFFSET) == Ok(count % LENGTH_LIMIT)
    ensures FromAddress(r, prefix + PAYLOAD_OFFSET) == Ok(count) <==> count < LENGTH_LIMIT
  {
    LengthReads(count % LENGTH_LIMIT);
    var at := prefix - r.base;
    assert r.bytes[at + LENGTH_OFFSET..at + LENGTH_OFFSET + 4] == BigEndian(count % LENGTH_LIMIT, 4);
  }

  lemma LengthReads(n: nat)
    requires n < LENGTH_LIMIT
    ensures FromBigEndian(BigEndian(n, 4)) == n
  {
    assert Pow256(4) == LENGTH_LIMIT by {
      assert Pow256(2) == 256 * 256;
    }
    BigEndianRoundTrip(n, 4);
  }

  // ----- contents

  /** `MsgBuf::decode` of initialized payload bytes: the whole payload, with nothing left over. */
  function DecodeMessage(s: Schema, payload: seq<Byte>): (r: Result<Value>)
    ensures r.Ok? ==> Fits(s, r.value) && Size(s, r.value) == |payload|
  {
    var d := Decode(s, payload, 0, false);
    if d.Err? then Err(d.error)
    else
      DecodeMeasured(s, payload, 0, false);
      if d.value.1 != |payload| then Err("trailing payload bytes") else Ok(d.value.0)
  }

  lemma MessageRoundTrip(s: Schema, v: Value)
    requires WellFormed(s) && Fits(s, v) && Encodable(s, v)
    ensures Encode(s, v, false).Ok? && DecodeMessage(s, Encode(s, v, false).value) == Ok(v)
  {
    EncodeSize(s, v, false);
    RoundTrip(s, v, false, false, Encode(s, v, false).value, 0);
  }

  /** `message_id`: the first field of every message, whatever follows. */
  function MessageId(payload: seq<Byte>): (id: Result<nat>)
    ensures id.Ok? <==> 2 <= |payload|
    ensures id.Ok? ==> id.value < 65536
  {
    var d := Decode(Int(2, false), payload, 0, false);
    if d.Err? then Err(d.error)
    else
      assert Pow256(2) == 65536 by {
        assert Pow256(1) == 256;
      }
      Ok(d.value.0.n)
  }

  /** The identifier is the first two bytes, most significant first. */
  lemma MessageIdBytes(payload: seq<Byte>)
    requires 2 <= |payload|
    ensures MessageId(payload) == Ok(256 * At(payload, 0) + At(payload, 1))
  {
    BigEndianPair(payload[0..2]);
  }

  /** A message decodes to a value exactly when its whole payload is a wire form of that value. */
  lemma MessageExactly(s: Schema, payload: seq<Byte>, v: Value)
    ensures DecodeMessage(s, payload) == Ok(v) <==> Wire(true, s, v, false, payload)
  {
    DecodeExactly(s, v, false, payload, 0, |payload|);
    assert payload[0..|payload|] == payload;
  }

  lemma {:induction false} MessageIdIsFirstField(names: seq<string>, ss: seq<Schema>, vs: seq<Value>)
    requires |names| == |ss| && ss != [] && ss[0] == Int(2, false) && names[0] != CLIENT_INDEX
    requires AllFit(ss, vs) && AllEncodable(ss, vs)
    ensures var e := Encode(Struct(names, ss), SeqV(vs), false);
            e.Ok? && MessageId(e.value) == Ok(vs[0].n)
  {
    EncodeSizes(false, names, ss, vs, false);
    var e := EncodeElements(false, names, ss, vs, false).value;
    var first := IntBytes(vs[0].n, 2, false);
    assert e[0..2] == first;
    IntRoundTrip(vs[0].n, 2, false, false);
  }

  class MsgBuf {
    const payload: array<Byte>
    var initializedLen: nat

    constructor (payloadLen: nat)
      ensures payload.Length == payloadLen && initializedLen == 0 && fresh(payload)
    {
      payload := new Byte[payloadLen](_ => 0);
      initializedLen := 0;
    }

    method AsBytes() returns (r: Result<seq<Byte>>)
      ensures r.Ok? <==> payload.Length <= initializedLen
      ensures r.Ok? ==> r.value == payload[..]
    {
      if initializedLen < payload.Length {
        return Err("payload is not initialized");
      }
      r := Ok(payload[..]);
    }

    method Encode(s: Schema, v: Value) returns (r: Result<nat>)
      requires Typed(s) && Fits(s, v)
      modifies this, payload
      ensures var e := Codec.Encode(s, v, false);
              && (r.Ok? <==> Room(e, 0, Some(payload.Length)))
              && (r.Ok? ==>
                    && r.value == |e.value|
                    && payload[..] == Overlay(old(payload[..]), 0, e.value)
                    && initializedLen == if old(initializedLen) < r.value then r.value else old(initializedLen))
      ensures r.Err? ==> initializedLen == old(initializedLen)
    {
      var serializer := new Serializer(payload);
      var done := serializer.Serialize(s, v);
      if done.Err? {
        return Err(done.error);
      }
      var written := serializer.offset;
      if initializedLen < written {
        initializedLen := written;
      }
      r := Ok(written);
    }

    method Decode(s: Schema) returns (r: Result<Value>)
      requires Typed(s)
      ensures if payload.Length <= initializedLen then r == DecodeMessage(s, payload[..]) else r.Err?
    {
      var bytes := AsBytes();
      if bytes.Err? {
        return Err(bytes.error);
      }
      var decoder := new Deserializer(bytes.value);
      r := decoder.Deserialize(s);
      if r.Ok? {
        DecodeMeasured(s, bytes.value, 0, false);
        if |decoder.input| - decoder.offset != 0 {
          r := Err("trailing payload bytes");
        }
      }
    }
  }

  /** `serialized_len`: the same serializer with nowhere to write. */
  method Measure(s: Schema, v: Value) returns (r: Result<nat>)
    requires Typed(s) && Fits(s, v)
    ensures r.Ok? <==> Encodable(s, v) && Size(s, v) < USIZE_LIMIT
    ensures r.Ok? ==> r.value == Size(s, v)
  {
    EncodeSize(s, v, false);
    var serializer := new Serializer(null);
    var done := serializer.Serialize(s, v);
    r := if done.Err? then Err(done.error) else Ok(serializer.offset);
  }

  /**
    The first half of `send_message`. Once measuring succeeds, the encode step cannot fail: the
    buffer is filled to its last byte and holds exactly the encoding.
   */
  method Prepare(s: Schema, v: Value) returns (r: Result<MsgBuf>)
    requires Typed(s) && Fits(s, v)
    ensures r.Ok? <==> Encodable(s, v) && Size(s, v) < USIZE_LIMIT
    ensures r.Ok? ==>
              && fresh(r.value) && fresh(r.value.payload)
              && r.value.initializedLen == r.value.payload.Length == Size(s, v)
              && Codec.Encode(s, v, false) == Ok(r.value.payload[..])
  {
    var length := Measure(s, v);
    if length.Err? {
      return Err(length.error);
    }
    EncodeSize(s, v, false);
    var message := new MsgBuf(length.value);
    ghost var zeros, e := message.payload[..], Codec.Encode(s, v, false).value;
    var written := message.Encode(s, v);
    assert Overlay(zeros, 0, e) == e;
    r := Ok(message);
  }
}
