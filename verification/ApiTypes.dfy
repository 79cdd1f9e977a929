/** What the client's calls are about: errors, message types, the well-known messages and their values. */
module ApiTypes {
  import opened Bytes
  import opened Codec
  import opened CodecLaws
  import opened CodecMachines
  import opened Messages
  import opened MessageTable
  import opened Contexts
  import QueueProtocol
  import QueueRuns

  datatype ClientError =
    | NotConnected
    | RequestHasNoReply
    | ReplyTypeMismatch(expected: string, actual: string)
    | MessageUnavailable(name: Name)
    | ConnectTimeout
    | ResponseTimeout(context: nat)
    | DisconnectTimeout(index: nat)
    | UnexpectedMessage(id: nat, wanted: nat)
    | ContextMismatch(asked: nat, received: int)
    | CreateRejected(response: int)
    | OutOfMemory
    | QueueUnavailable
    | InvalidTable
    | Undecodable(reason: string)
    | SendFailed(outcome: QueueProtocol.Outcome)
    | InvalidAddress               // a popped address outside the region
    | Unidentified(reason: string) // a popped message too short for its id
    | ReceiveFailed(outcome: QueueProtocol.Outcome)

  datatype Attempt<+T> = Success(value: T) | Failure(error: ClientError)

  /** The exits that drop a popped message without freeing it. */
  predicate Leaks(e: ClientError) {
    e.InvalidAddress? || e.Unidentified? || (e.ReceiveFailed? && QueueRuns.Committed(e.outcome, QueueProtocol.SubKind))
  }

  // ----- message types

  datatype Service = Service(reply: Option<string>)

  /** A message type; `contextAt` is the position of its context field, if it has one. */
  datatype Api = Api(name: string, nameCrc: Name, schema: Schema, service: Option<Service>, contextAt: Option<nat>)

  predicate ApiOk(a: Api) {
    && Typed(a.schema) && a.schema.Struct?
    && (a.contextAt.Some? ==> a.contextAt.value < |a.schema.elems| && a.schema.elems[a.contextAt.value] == Int(4, false))
  }

  function ContextOf(a: Api, v: Value): (context: Option<int>) {
    if a.contextAt.None? || !v.SeqV? || |v.vs| <= a.contextAt.value || !v.vs[a.contextAt.value].IntV? then None
    else Some(v.vs[a.contextAt.value].n)
  }

  const U16 := Int(2, false)
  const U32 := Int(4, false)
  const I32 := Int(4, true)
  const U64 := Int(8, false)

  const CREATE_REPLY_ID: nat := 26
  const POINTER_BYTES: nat := 8

  const CREATE: Schema :=
    Struct(["id", "context", "ctx_quota", "input_queue", "name", "api_versions", "keepalive"],
           [U16, U32, I32, U64, Tuple(seq(64, _ => Int(1, false))), Tuple(seq(8, _ => U32)), Bool])
  const CREATE_REPLY: Schema :=
    Struct(["id", "context", "response", "handle", "index", "message_table"], [U16, U32, I32, U64, U32, U64])
  const DELETE: Schema := Struct(["id", "index", "handle", "do_cleanup"], [U16, U32, U64, Bool])
  const DELETE_REPLY: Schema := Struct(["id", "response", "handle"], [U16, I32, U64])
  const KEEPALIVE: Schema := Struct(["id", "client_index", "context"], [U16, U32, U32])
  const KEEPALIVE_REPLY: Schema := Struct(["id", "context", "retval"], [U16, U32, I32])

  function DeleteValue(id: nat, index: nat): Value { SeqV([IntV(id), IntV(index), IntV(0), BoolV(false)]) }
  function KeepaliveAnswer(id: nat, token: int): Value { SeqV([IntV(id), IntV(token), IntV(0)]) }

  /** The well-known identities, name and CRC. */
  datatype Known = Known(delete: Name, deleteReply: Name, keepalive: Name, keepaliveReply: Name)

  /** What a request looks like once its header is filled in. */
  type Request = (nat, nat, nat) -> Value

  ghost predicate RequestOk(s: Schema, request: Request) {
    forall id: nat, index: nat, context: nat :: id < 65536 && index < CONTEXT_LIMIT && context < CONTEXT_LIMIT ==>
      Fits(s, request(id, index, context))
  }

  lemma SmallPowers()
    ensures Pow256(2) == 65536 && Pow256(4) == CONTEXT_LIMIT
  {
    assert Pow256(1) == 256;
    assert Pow256(3) == 256 * Pow256(2);
  }

  lemma {:induction false} FitsEach(ss: seq<Schema>, vs: seq<Value>)
    ensures AllFit(ss, vs) <==> |ss| == |vs| && forall i :: 0 <= i < |ss| ==> Fits(ss[i], vs[i])
    decreases |ss|
  {
    if ss != [] && |ss| == |vs| {
      FitsEach(ss[1..], vs[1..]);
      if forall i :: 0 <= i < |ss| ==> Fits(ss[i], vs[i]) {
        assert forall i :: 0 <= i < |ss[1..]| ==> Fits(ss[1..][i], vs[1..][i]);
      }
      if AllFit(ss, vs) {
        assert forall i :: 0 < i < |ss| ==> ss[i] == ss[1..][i - 1] && vs[i] == vs[1..][i - 1];
      }
    }
  }

  /** An integer field of a decoded message. */
  function FieldOf(v: Value, at: nat): int {
    if v.SeqV? && at < |v.vs| && v.vs[at].IntV? then v.vs[at].n else 0
  }

  // ----- the well-known values fit their types

  lemma DeleteFits(id: nat, index: nat)
    requires id < 65536 && index < CONTEXT_LIMIT
    ensures Fits(DELETE, DeleteValue(id, index)) && Typed(DELETE)
  {
    SmallPowers();
    FitsEach(DELETE.elems, DeleteValue(id, index).vs);
  }

  lemma KeepaliveFits(v: Value, id: nat)
    requires Fits(KEEPALIVE, v) && id < 65536
    ensures Fits(KEEPALIVE_REPLY, KeepaliveAnswer(id, FieldOf(v, 1))) && Typed(KEEPALIVE_REPLY)
  {
    SmallPowers();
    FitsEach(KEEPALIVE.elems, v.vs);
    assert Fits(KEEPALIVE.elems[1], v.vs[1]);
    var answer := KeepaliveAnswer(id, v.vs[1].n);
    FitsEach(KEEPALIVE_REPLY.elems, answer.vs);
  }

  lemma CreateTyped()
    ensures Typed(CREATE)
  {
    assert Typed(Tuple(seq(64, _ => Int(1, false)))) && Typed(Tuple(seq(8, _ => U32)));
  }

  /** `FixedString::from_str`: at most 63 bytes of the name, the rest zero. */
  function NameField(name: seq<Byte>): seq<Value> {
    seq(64, i requires 0 <= i < 64 => IntV(if i < |name| && i < 63 then name[i] else 0))
  }

  /** The create request: the bootstrap id, no context, the response queue's address and the client's name. */
  function Greeting(queue: nat, name: seq<Byte>, keepalive: bool): Value {
    SeqV([IntV(25), IntV(0), IntV(0), IntV(queue), SeqV(NameField(name)), SeqV(seq(8, _ => IntV(0))), BoolV(keepalive)])
  }

  lemma Alike(ss: seq<Schema>, vs: seq<Value>)
    requires |ss| == |vs| && forall i :: 0 <= i < |ss| ==> ss[i].Int? && Fits(ss[i], vs[i])
    ensures AllFit(ss, vs)
  {
    FitsEach(ss, vs);
  }

  lemma GreetingFits(queue: nat, name: seq<Byte>, keepalive: bool)
    requires queue < USIZE_LIMIT
    ensures Fits(CREATE, Greeting(queue, name, keepalive))
  {
    SmallPowers();
    assert Pow256(8) == USIZE_LIMIT by { assert Pow256(6) == 256 * (256 * Pow256(4)); }
    NameFits(name);
    VersionsFit();
    FitsEach(CREATE.elems, Greeting(queue, name, keepalive).vs);
  }

  lemma NameFits(name: seq<Byte>)
    ensures Fits(CREATE.elems[4], SeqV(NameField(name)))
  {
    assert Pow256(1) == 256;
    Alike(seq(64, _ => Int(1, false)), NameField(name));
  }

  lemma VersionsFit()
    ensures Fits(CREATE.elems[5], SeqV(seq(8, _ => IntV(0))))
  {
    SmallPowers();
    Alike(seq(8, _ => U32), seq(8, _ => IntV(0)));
  }

  lemma ReplyFields(v: Value)
    requires Fits(CREATE_REPLY, v)
    ensures 0 <= FieldOf(v, 4) < CONTEXT_LIMIT && 0 <= FieldOf(v, 5)
  {
    SmallPowers();
    FitsEach(CREATE_REPLY.elems, v.vs);
    assert Fits(CREATE_REPLY.elems[4], v.vs[4]) && Fits(CREATE_REPLY.elems[5], v.vs[5]);
  }

  // ----- and can always be encoded

  /** A schema without byte strings, and how many bytes its values take. */
  function Width(s: Schema): (n: Option<nat>) {
    match s
    case Int(w, _) => Some(w)
    case Bool => Some(1)
    case F64 => Some(8)
    case Blob => None
    case Text => None
    case Unit => Some(0)
    case Newtype(i) => Width(i)
    case Tuple(es) => Widths(es)
    case Struct(_, es) => Widths(es)
  }

  function Widths(ss: seq<Schema>): (n: Option<nat>) {
    if ss == [] then Some(0)
    else if Width(ss[0]).None? || Widths(ss[1..]).None? then None
    else Some(Width(ss[0]).value + Widths(ss[1..]).value)
  }

  lemma {:induction false} FixedWidth(s: Schema, v: Value)
    requires Fits(s, v) && Width(s).Some?
    ensures Encodable(s, v) && Size(s, v) == Width(s).value
    decreases s, 1
  {
    match s
    case Newtype(i) => FixedWidth(i, v.v);
    case Tuple(es) => FixedWidths(es, v.vs);
    case Struct(_, es) => FixedWidths(es, v.vs);
    case _ =>
  }

  lemma {:induction false} FixedWidths(ss: seq<Schema>, vs: seq<Value>)
    requires AllFit(ss, vs) && Widths(ss).Some?
    ensures AllEncodable(ss, vs) && Sizes(ss, vs) == Widths(ss).value
    decreases ss, 0
  {
    if ss != [] {
      FixedWidth(ss[0], vs[0]);
      FixedWidths(ss[1..], vs[1..]);
    }
  }

  lemma {:induction false} RepeatedWidth(ss: seq<Schema>, w: nat)
    requires forall i :: 0 <= i < |ss| ==> Width(ss[i]) == Some(w)
    ensures Widths(ss) == Some(|ss| * w)
  {
    if ss != [] { RepeatedWidth(ss[1..], w); }
  }

  lemma Front(s: Schema, ss: seq<Schema>)
    requires Width(s).Some? && Widths(ss).Some?
    ensures Widths([s] + ss) == Some(Width(s).value + Widths(ss).value)
  {
    assert ([s] + ss)[1..] == ss && ([s] + ss)[0] == s;
  }

  lemma Three(a: Schema, b: Schema, c: Schema)
    requires Width(a).Some? && Width(b).Some? && Width(c).Some?
    ensures Widths([a, b, c]) == Some(Width(a).value + Width(b).value + Width(c).value)
  {
    assert [c] + [] == [c] && [b] + [c] == [b, c] && [a] + [b, c] == [a, b, c];
    Front(c, []);
    Front(b, [c]);
    Front(a, [b, c]);
  }

  lemma {:induction false} Joined(ss: seq<Schema>, ts: seq<Schema>)
    requires Widths(ss).Some? && Widths(ts).Some?
    ensures Widths(ss + ts) == Some(Widths(ss).value + Widths(ts).value)
  {
    if ss == [] {
      assert ss + ts == ts;
    } else {
      Joined(ss[1..], ts);
      assert (ss + ts)[1..] == ss[1..] + ts;
    }
  }

  lemma CreateWidth()
    ensures Width(CREATE) == Some(115)
  {
    RepeatedWidth(seq(64, _ => Int(1, false)), 1);
    RepeatedWidth(seq(8, _ => U32), 4);
    var name, versions := CREATE.elems[4], CREATE.elems[5];
    Three(U16, U32, I32);
    Three(U64, name, versions);
    Joined([U16, U32, I32], [U64, name, versions]);
    Joined([U16, U32, I32] + [U64, name, versions], [Bool]);
    assert [Bool][1..] == [];
    assert CREATE.elems == [U16, U32, I32] + [U64, name, versions] + [Bool];
  }

  lemma CreateReplyWidth()
    ensures Width(CREATE_REPLY) == Some(30)
  {
    Three(U16, U32, I32);
    Three(U64, U32, U64);
    Joined([U16, U32, I32], [U64, U32, U64]);
    assert CREATE_REPLY.elems == [U16, U32, I32] + [U64, U32, U64];
  }

  lemma DeleteWidths()
    ensures Width(DELETE) == Some(15) && Width(DELETE_REPLY) == Some(14)
  {
    Three(U16, U32, U64);
    assert [Bool][1..] == [];
    Joined([U16, U32, U64], [Bool]);
    assert DELETE.elems == [U16, U32, U64] + [Bool];
    Three(U16, I32, U64);
  }

  lemma KeepaliveWidths()
    ensures Width(KEEPALIVE) == Some(10) && Width(KEEPALIVE_REPLY) == Some(10)
  {
    Three(U16, U32, U32);
    Three(U16, U32, I32);
  }
}
