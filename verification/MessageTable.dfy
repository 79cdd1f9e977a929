/** The server's compact message table: variable-length integers and length-prefixed names. */
module MessageTable {
  import opened Bytes

  type Name = seq<Byte>

  // ----- the pure reader

  /** A value and what is left of the input. */
  datatype Parsed<+T> = Parsed(value: T, rest: seq<Byte>)

  const SHORT_LIMIT: nat := 0x2000_0000 + 16512

  function ReadInt(input: seq<Byte>): (r: Result<Parsed<nat>>)
    ensures r.Ok? ==> |r.value.rest| < |input| && r.value.rest == input[|input| - |r.value.rest|..]
  {
    if input == [] then Err("truncated")
    else
      var b := input[0];
      if b % 2 == 1 then Ok(Parsed(b / 2, input[1..]))
      else if b % 4 == 2 then
        if |input| < 2 then Err("truncated") else Ok(Parsed(128 + FromLittleEndian(input[..2]) / 4, input[2..]))
      else if b % 8 == 4 then
        if |input| < 4 then Err("truncated") else Ok(Parsed(128 + 16384 + FromLittleEndian(input[..4]) / 8, input[4..]))
      else
        if |input| < 9 then Err("truncated") else Ok(Parsed(FromLittleEndian(input[1..9]), input[9..]))
  }

  lemma Word(bytes: seq<Byte>, i: nat)
    requires i < |bytes|
    ensures FromLittleEndian(bytes[i..]) == At(bytes, i) + 256 * FromLittleEndian(bytes[i + 1..])
  {
    assert bytes[i..][1..] == bytes[i + 1..];
  }

  lemma Quarter(b: Byte, high: nat)
    requires b % 4 == 2
    ensures (b + 256 * high) / 4 == b / 4 + 64 * high
  {
  }

  lemma Eighth(b: Byte, high: nat)
    requires b % 8 == 4
    ensures (b + 256 * high) / 8 == b / 8 + 32 * high
  {
  }

  lemma TwoByPosition(input: seq<Byte>)
    requires 2 <= |input| && input[0] % 4 == 2
    ensures ReadInt(input) == Ok(Parsed(128 + At(input, 0) / 4 + 64 * At(input, 1), input[2..]))
  {
    var two := input[..2];
    Word(two, 0);
    Word(two, 1);
    assert two[0..] == two && two[2..] == [];
    Quarter(input[0], At(input, 1));
  }

  lemma FourByPosition(input: seq<Byte>)
    requires 4 <= |input| && input[0] % 8 == 4
    ensures var high := At(input, 1) + 256 * (At(input, 2) + 256 * At(input, 3));
            ReadInt(input) == Ok(Parsed(16512 + At(input, 0) / 8 + 32 * high, input[4..]))
  {
    var four := input[..4];
    Word(four, 0);
    Word(four, 1);
    Word(four, 2);
    Word(four, 3);
    assert four[0..] == four && four[4..] == [];
    Eighth(input[0], At(input, 1) + 256 * (At(input, 2) + 256 * At(input, 3)));
  }

  /** The long form: the eight bytes behind the first, least significant first. */
  lemma LongByPosition(input: seq<Byte>, i: nat)
    requires 9 <= |input| && input[0] % 8 == 0 && i < 8
    ensures ReadInt(input).Ok? && ReadInt(input).value.rest == input[9..]
    ensures ReadInt(input).value.value < Pow256(8) && input[1 + i] == ReadInt(input).value.value / Pow256(i) % 256
  {
    FromLittleEndianAt(input[1..9], i);
  }

  /** The inverse: the shortest form, or the nine-byte form for large values. */
  function WriteInt(n: nat): (bytes: seq<Byte>) {
    if n < 128 then [2 * n + 1]
    else if n < 16512 then LittleEndian(4 * (n - 128) + 2, 2)
    else if n < SHORT_LIMIT then LittleEndian(8 * (n - 16512) + 4, 4)
    else [0] + LittleEndian(n, 8)
  }

  /** Is this a one-, two- or four-byte form? */
  predicate IsShort(bytes: seq<Byte>) {
    || (|bytes| == 1 && bytes[0] % 2 == 1)
    || (|bytes| == 2 && bytes[0] % 4 == 2)
    || (|bytes| == 4 && bytes[0] % 8 == 4)
  }

  lemma Powers()
    ensures Pow256(1) == 256 && Pow256(2) == 65536 && Pow256(4) == 0x1_0000_0000 && Pow256(8) == 0x1_0000_0000_0000_0000
  {
    assert Pow256(1) == 256 * Pow256(0);
    assert Pow256(2) == 256 * Pow256(1);
    assert Pow256(3) == 256 * Pow256(2);
    assert Pow256(4) == 256 * Pow256(3);
    assert Pow256(5) == 256 * Pow256(4);
    assert Pow256(6) == 256 * Pow256(5);
    assert Pow256(7) == 256 * Pow256(6);
  }

  lemma LowByte(bytes: seq<Byte>)
    requires bytes != []
    ensures FromLittleEndian(bytes) % 256 == bytes[0]
  {
  }

  lemma Split(w: seq<Byte>, tail: seq<Byte>)
    ensures (w + tail)[..|w|] == w && (w + tail)[|w|..] == tail && (w != [] ==> (w + tail)[0] == w[0])
  {
  }

  lemma TwoByteForm(n: nat, tail: seq<Byte>)
    requires 128 <= n < 16512
    ensures ReadInt(WriteInt(n) + tail) == Ok(Parsed(n, tail))
  {
    Powers();
    var m, w := 4 * (n - 128) + 2, WriteInt(n);
    Split(w, tail);
    LittleEndianRoundTrip(m, 2);
    LowByte(w);
    assert w[0] == m % 256;
    assert w[0] % 4 == 2;
  }

  lemma FourByteForm(n: nat, tail: seq<Byte>)
    requires 16512 <= n < SHORT_LIMIT
    ensures ReadInt(WriteInt(n) + tail) == Ok(Parsed(n, tail))
  {
    Powers();
    var m, w := 8 * (n - 16512) + 4, WriteInt(n);
    Split(w, tail);
    LittleEndianRoundTrip(m, 4);
    LowByte(w);
    assert w[0] == m % 256;
    assert w[0] % 8 == 4;
  }

  lemma NineByteForm(n: nat, tail: seq<Byte>)
    requires SHORT_LIMIT <= n < 0x1_0000_0000_0000_0000
    ensures ReadInt(WriteInt(n) + tail) == Ok(Parsed(n, tail))
  {
    Powers();
    var w := WriteInt(n);
    Split(w, tail);
    LittleEndianRoundTrip(n, 8);
    assert (w + tail)[1..9] == w[1..9] == LittleEndian(n, 8);
  }

  lemma IntRoundTrip(n: nat, tail: seq<Byte>)
    requires n < 0x1_0000_0000_0000_0000
    ensures ReadInt(WriteInt(n) + tail) == Ok(Parsed(n, tail))
  {
    if n < 128 {
      Split(WriteInt(n), tail);
    } else if n < 16512 {
      TwoByteForm(n, tail);
    } else if n < SHORT_LIMIT {
      FourByteForm(n, tail);
    } else {
      NineByteForm(n, tail);
    }
  }

  lemma Remainders(q: nat, r: nat)
    ensures (4 * q + r % 4) % 4 == r % 4 && (8 * q + r % 8) % 8 == r % 8
  {
  }

  lemma LowBits(m: nat)
    ensures m % 256 % 4 == m % 4 && m % 256 % 8 == m % 8
  {
    var q, r := m / 256, m % 256;
    assert m == 4 * (64 * q + r / 4) + r % 4 && m == 8 * (32 * q + r / 8) + r % 8;
    Remainders(64 * q + r / 4, r);
    Remainders(32 * q + r / 8, r);
  }

  /** A short form is the written form of the value it reads as. */
  lemma ShortForm(bytes: seq<Byte>) returns (n: nat)
    requires IsShort(bytes)
    ensures n < SHORT_LIMIT && ReadInt(bytes) == Ok(Parsed(n, [])) && WriteInt(n) == bytes
  {
    if |bytes| == 1 {
      n := bytes[0] / 2;
      assert bytes == [bytes[0]];
    } else if |bytes| == 2 {
      n := TwoByteUnique(bytes);
    } else {
      n := FourByteUnique(bytes);
    }
  }

  lemma TwoByteUnique(bytes: seq<Byte>) returns (n: nat)
    requires |bytes| == 2 && bytes[0] % 4 == 2
    ensures 128 <= n < 16512 && ReadInt(bytes) == Ok(Parsed(n, [])) && WriteInt(n) == bytes
  {
    Powers();
    LowByte(bytes);
    var u := FromLittleEndian(bytes);
    LowBits(u);
    LittleEndianUnique(bytes);
    n := 128 + u / 4;
    assert u == 4 * (u / 4) + 2;
    assert bytes[..2] == bytes && bytes[2..] == [];
  }

  lemma FourByteUnique(bytes: seq<Byte>) returns (n: nat)
    requires |bytes| == 4 && bytes[0] % 8 == 4
    ensures 16512 <= n < SHORT_LIMIT && ReadInt(bytes) == Ok(Parsed(n, [])) && WriteInt(n) == bytes
  {
    Powers();
    LowByte(bytes);
    var u := FromLittleEndian(bytes);
    LowBits(u);
    LittleEndianUnique(bytes);
    n := 16512 + u / 8;
    assert u == 8 * (u / 8) + 4;
    assert bytes[..4] == bytes && bytes[4..] == [];
  }

  /** The short forms split [0, 2^29 + 16512): each value below has exactly one, and they reach no further. */
  lemma ShortFormsPartition(bytes: seq<Byte>, n: nat)
    requires IsShort(bytes)
    ensures ReadInt(bytes).Ok? && ReadInt(bytes).value.rest == [] && ReadInt(bytes).value.value < SHORT_LIMIT
    ensures n < SHORT_LIMIT ==> IsShort(WriteInt(n))
    ensures n < SHORT_LIMIT ==> (ReadInt(bytes).value.value == n <==> bytes == WriteInt(n))
  {
    var m := ShortForm(bytes);
    if n < SHORT_LIMIT {
      ShortWritten(n);
      var k := ShortForm(WriteInt(n));
      IntRoundTrip(n, []);
      assert WriteInt(n) + [] == WriteInt(n);
    }
  }

  lemma ShortWritten(n: nat)
    requires n < SHORT_LIMIT
    ensures IsShort(WriteInt(n))
  {
    if 128 <= n < 16512 {
      TagTwo(n - 128);
    } else if 16512 <= n {
      TagFour(n - 16512);
    }
  }

  lemma TagTwo(k: nat)
    ensures (4 * k + 2) % 256 % 4 == 2
  {
    LowBits(4 * k + 2);
  }

  lemma TagFour(k: nat)
    ensures (8 * k + 4) % 256 % 8 == 4
  {
    LowBits(8 * k + 4);
  }

  // ----- tables

  /** A `u16`. */
  type Id = n: int | 0 <= n < 65536

  datatype TableEntry = TableEntry(name: Name, id: Id)

  function ReadEntry(input: seq<Byte>): (r: Result<Parsed<TableEntry>>)
    ensures r.Ok? ==> |r.value.rest| < |input|
  {
    var id := ReadInt(input);
    if id.Err? then Err(id.error)
    else if 65536 <= id.value.value then Err("id out of range")
    else
      var length := ReadInt(id.value.rest);
      if length.Err? then Err(length.error)
      else
        var n, rest := length.value.value, length.value.rest;
        if |rest| < n then Err("truncated")
        else if !ValidUtf8(rest[..n]) then Err("not UTF-8")
        else Ok(Parsed(TableEntry(rest[..n], id.value.value), rest[n..]))
  }

  function ReadEntries(count: nat, input: seq<Byte>): (r: Result<Parsed<seq<TableEntry>>>)
    ensures r.Ok? ==> |r.value.value| == count
  {
    if count == 0 then Ok(Parsed([], input))
    else
      var first := ReadEntry(input);
      if first.Err? then Err(first.error)
      else
        var others := ReadEntries(count - 1, first.value.rest);
        if others.Err? then others else Ok(Parsed([first.value.value] + others.value.value, others.value.rest))
  }

  function ReadTable(input: seq<Byte>): (r: Result<seq<TableEntry>>) {
    if |input| < 4 then Err("truncated")
    else
      var r := ReadEntries(FromBigEndian(input[..4]), input[4..]);
      if r.Err? then Err(r.error) else Ok(r.value.value)
  }

  /** The table starts with its count, four bytes, most significant first. */
  lemma TableCount(input: seq<Byte>, n: nat)
    requires ReadTable(input).Ok? && 4 <= |input| && n == FourBytes(input, 0)
    ensures |ReadTable(input).value| == n
  {
    BigEndianFour(input, 0);
    assert input[0..0 + 4] == input[..4];
    assert FromBigEndian(input[..4]) == n;
  }

  lemma OneByPosition(input: seq<Byte>, n: nat)
    requires n < 128 && input != [] && input[0] == 2 * n + 1
    ensures ReadInt(input) == Ok(Parsed(n, input[1..]))
  {
  }

  lemma EntryFrom(input: seq<Byte>, id: nat, afterId: seq<Byte>, n: nat, rest: seq<Byte>)
    requires ReadInt(input) == Ok(Parsed(id, afterId)) && id < 65536
    requires ReadInt(afterId) == Ok(Parsed(n, rest)) && n <= |rest| && ValidUtf8(rest[..n])
    ensures ReadEntry(input) == Ok(Parsed(TableEntry(rest[..n], id), rest[n..]))
  {
  }

  /** An entry is its id, the length of its name, and the name. */
  lemma EntryByPosition(input: seq<Byte>, id: nat, n: nat)
    requires id < 128 && n < 128 && 2 + n <= |input| && input[0] == 2 * id + 1 && input[1] == 2 * n + 1
    requires ValidUtf8(input[2..2 + n])
    ensures ReadEntry(input) == Ok(Parsed(TableEntry(input[2..2 + n], id), input[2 + n..]))
  {
    var rest := input[2..];
    OneByPosition(input, id);
    OneByPosition(input[1..], n);
    assert input[1..][1..] == rest && rest[..n] == input[2..2 + n] && rest[n..] == input[2 + n..];
    EntryFrom(input, id, input[1..], n, rest);
  }

  predicate EntryOk(e: TableEntry) {
    ValidUtf8(e.name) && |e.name| < 0x1_0000_0000_0000_0000
  }

  function WriteEntries(entries: seq<TableEntry>): seq<Byte> {
    if entries == [] then []
    else WriteInt(entries[0].id) + (WriteInt(|entries[0].name|) + (entries[0].name + WriteEntries(entries[1..])))
  }

  function WriteTable(entries: seq<TableEntry>): seq<Byte> {
    BigEndian(|entries|, 4) + WriteEntries(entries)
  }

  lemma EntryRoundTrip(e: TableEntry, tail: seq<Byte>)
    requires EntryOk(e)
    ensures ReadEntry(WriteInt(e.id) + (WriteInt(|e.name|) + (e.name + tail))) == Ok(Parsed(e, tail))
  {
    var afterLength := e.name + tail;
    IntRoundTrip(e.id, WriteInt(|e.name|) + afterLength);
    IntRoundTrip(|e.name|, afterLength);
    assert afterLength[..|e.name|] == e.name && afterLength[|e.name|..] == tail;
  }

  lemma Regroup(a: seq<Byte>, b: seq<Byte>, c: seq<Byte>, d: seq<Byte>, tail: seq<Byte>)
    ensures (a + (b + (c + d))) + tail == a + (b + (c + (d + tail)))
  {
  }

  lemma ReadNext(
    count: nat, input: seq<Byte>, e: TableEntry, rest: seq<Byte>, entries: seq<TableEntry>, tail: seq<Byte>
  )
    requires ReadEntry(input) == Ok(Parsed(e, rest)) && ReadEntries(count, rest) == Ok(Parsed(entries, tail))
    ensures ReadEntries(count + 1, input) == Ok(Parsed([e] + entries, tail))
  {
  }

  lemma FirstEntryReads(entries: seq<TableEntry>, tail: seq<Byte>)
    requires entries != [] && EntryOk(entries[0])
    ensures ReadEntry(WriteEntries(entries) + tail) == Ok(Parsed(entries[0], WriteEntries(entries[1..]) + tail))
  {
    var e, rest := entries[0], WriteEntries(entries[1..]);
    Regroup(WriteInt(e.id), WriteInt(|e.name|), e.name, rest, tail);
    EntryRoundTrip(e, rest + tail);
  }

  lemma {:induction false} EntriesRoundTrip(entries: seq<TableEntry>, tail: seq<Byte>)
    requires forall i :: 0 <= i < |entries| ==> EntryOk(entries[i])
    ensures ReadEntries(|entries|, WriteEntries(entries) + tail) == Ok(Parsed(entries, tail))
  {
    if entries == [] {
      assert [] + tail == tail;
    } else {
      var e, later, input := entries[0], entries[1..], WriteEntries(entries) + tail;
      FirstEntryReads(entries, tail);
      EntriesRoundTrip(later, tail);
      assert entries == [e] + later;
      ReadNext(|later|, input, e, WriteEntries(later) + tail, later, tail);
    }
  }

  /** Any table comes back whole and in order, whatever follows it in the region. */
  lemma TableRoundTrip(entries: seq<TableEntry>, tail: seq<Byte>)
    requires |entries| < 0x1_0000_0000
    requires forall i :: 0 <= i < |entries| ==> EntryOk(entries[i])
    ensures ReadTable(WriteTable(entries) + tail) == Ok(entries)
  {
    CountReads(|entries|);
    Associate(BigEndian(|entries|, 4), WriteEntries(entries), tail);
    Split(BigEndian(|entries|, 4), WriteEntries(entries) + tail);
    EntriesRoundTrip(entries, tail);
  }

  lemma CountReads(n: nat)
    requires n < 0x1_0000_0000
    ensures FromBigEndian(BigEndian(n, 4)) == n
  {
    Powers();
    BigEndianRoundTrip(n, 4);
  }

  lemma Associate(a: seq<Byte>, b: seq<Byte>, c: seq<Byte>)
    ensures a + b + c == a + (b + c)
  {
  }

  /** The code's bit tests, in the order it makes them. */
  lemma BitTests(b: Byte)
    ensures b % 2 == 0 ==> (b / 2 % 2 != 0 <==> b % 4 == 2)
    ensures b % 4 == 0 ==> (b / 4 % 2 != 0 <==> b % 8 == 4)
    ensures b % 2 == 0 && b % 4 != 2 ==> b % 4 == 0
  {
  }

  // ----- the advancing slice of the code

  class Slice {
    var rest: seq<Byte>

    constructor (input: seq<Byte>)
      ensures rest == input
    {
      rest := input;
    }

    method Take(length: nat) returns (r: Result<seq<Byte>>)
      modifies this
      ensures r.Ok? <==> length <= |old(rest)|
      ensures r.Ok? ==> r.value == old(rest)[..length] && rest == old(rest)[length..]
      ensures r.Err? ==> r.error == "truncated" && rest == old(rest)
    {
      if |rest| < length {
        return Err("truncated");
      }
      r := Ok(rest[..length]);
      rest := rest[length..];
    }

    method ReadInteger() returns (r: Result<nat>)
      modifies this
      ensures var p := ReadInt(old(rest));
              if p.Ok? then r == Ok(p.value.value) && rest == p.value.rest else r == Err(p.error)
    {
      ghost var input := rest;
      var first := Take(1);
      if first.Err? {
        return Err(first.error);
      }
      var byte := first.value[0];
      BitTests(byte);
      if byte % 2 != 0 {
        return Ok(byte / 2);
      }
      if byte / 2 % 2 != 0 {
        var more := Take(1);
        if more.Err? {
          return Err(more.error);
        }
        assert [byte] + more.value == input[..2];
        return Ok(128 + FromLittleEndian([byte] + more.value) / 4);
      }
      if byte / 4 % 2 != 0 {
        var more := Take(3);
        if more.Err? {
          return Err(more.error);
        }
        assert [byte] + more.value == input[..4];
        return Ok(128 + 16384 + FromLittleEndian([byte] + more.value) / 8);
      }
      var bytes := Take(8);
      if bytes.Err? {
        return Err(bytes.error);
      }
      assert bytes.value == input[1..9];
      r := Ok(FromLittleEndian(bytes.value));
    }

    /** The body of the table loop. */
    method ReadTableEntry() returns (r: Result<TableEntry>)
      modifies this
      ensures var p := ReadEntry(old(rest));
              if p.Ok? then r == Ok(p.value.value) && rest == p.value.rest else r == Err(p.error)
    {
      var id := ReadInteger();
      if id.Err? {
        return Err(id.error);
      }
      if 65536 <= id.value {
        return Err("id out of range");
      }
      var length := ReadInteger();
      if length.Err? {
        return Err(length.error);
      }
      var name := Take(length.value);
      if name.Err? {
        return Err(name.error);
      }
      if !ValidUtf8(name.value) {
        return Err("not UTF-8");
      }
      r := Ok(TableEntry(name.value, id.value));
    }

    method ReadTableEntries(count: nat) returns (r: Result<seq<TableEntry>>)
      modifies this
      ensures var p := ReadEntries(count, old(rest));
              if p.Ok? then r == Ok(p.value.value) && rest == p.value.rest else r == Err(p.error)
    {
      var entries: seq<TableEntry> := [];
      ghost var whole := ReadEntries(count, rest);
      JoinNothing(whole);
      for i := 0 to count
        invariant whole == Joined(entries, ReadEntries(count - i, rest))
      {
        JoinEntry(entries, count - i, rest);
        var entry := ReadTableEntry();
        if entry.Err? {
          return Err(entry.error);
        }
        entries := entries + [entry.value];
      }
      assert entries + [] == entries;
      r := Ok(entries);
    }
  }

  method DeserializeMessageTable(input: seq<Byte>) returns (r: Result<seq<TableEntry>>)
    ensures r == ReadTable(input)
  {
    var slice := new Slice(input);
    var prefix := slice.Take(4);
    if prefix.Err? {
      return Err(prefix.error);
    }
    r := slice.ReadTableEntries(FromBigEndian(prefix.value));
  }

  function Joined(done: seq<TableEntry>, r: Result<Parsed<seq<TableEntry>>>): Result<Parsed<seq<TableEntry>>> {
    if r.Err? then r else Ok(Parsed(done + r.value.value, r.value.rest))
  }

  lemma JoinNothing(r: Result<Parsed<seq<TableEntry>>>)
    ensures Joined([], r) == r
  {
    assert r.Ok? ==> [] + r.value.value == r.value.value;
  }

  lemma JoinEntry(done: seq<TableEntry>, count: nat, input: seq<Byte>)
    requires 0 < count
    ensures var e := ReadEntry(input);
            if e.Err? then Joined(done, ReadEntries(count, input)) == Err(e.error)
            else Joined(done, ReadEntries(count, input)) == Joined(done + [e.value.value], ReadEntries(count - 1, e.value.rest))
  {
    var e := ReadEntry(input);
    if e.Ok? {
      var others := ReadEntries(count - 1, e.value.rest);
      assert others.Ok? ==> done + ([e.value.value] + others.value.value) == done + [e.value.value] + others.value.value;
    }
  }
}
