/**
  One API connection. Methods follow the code's exits one by one; what they promise is that every
  buffer is accounted for on each of them, that a reply belongs to its request, and that the
  response queue is released once and never read afterwards.
 */
module ApiClient {
  import opened Bytes
  import opened Codec
  import opened CodecLaws
  import opened CodecMachines
  import opened Messages
  import opened MessageTable
  import QueueProtocol
  import QueueRuns
  import QueueLayout
  import opened ApiMemory
  import opened ApiTypes
  import opened ApiEvents
  import opened Contexts

  // ----- the ledger across calls

  /**
    A poll whose buffer the code drops without freeing it: the popped address is outside the region, the
    payload is too short for an id, or `sub` removed the message and then reported an error.
   */
  predicate Bad(p: ApiMemory.Poll) {
    || (p.Arrived? && (!p.valid || |p.payload| < 2))
    || (p.PollFailed? && QueueRuns.Committed(p.outcome, QueueProtocol.SubKind))
  }

  /** One of the polls consumed on the way from `script` to `rest` was bad. */
  ghost predicate ConsumedBad(script: seq<ApiMemory.Poll>, rest: seq<ApiMemory.Poll>) {
    exists i :: 0 <= i < |script| - |rest| && Bad(script[i])
  }

  /**
    Conservation: buffers keep their place once they have left the client's hands, the script is
    consumed from the front, and a buffer is lost exactly when a bad poll was consumed.
   */
  ghost predicate Conserved(before: Record, after: Record) {
    && Onward(before.ledger, after.ledger)
    && Remains(before.polls, after.polls)
    && before.lost <= after.lost
    && (after.lost != before.lost <==> ConsumedBad(before.polls, after.polls))
  }

  lemma BadOn(a: seq<ApiMemory.Poll>, b: seq<ApiMemory.Poll>, c: seq<ApiMemory.Poll>)
    requires Remains(a, b) && Remains(b, c)
    ensures ConsumedBad(a, c) <==> ConsumedBad(a, b) || ConsumedBad(b, c)
  {
    var k := |a| - |b|;
    if ConsumedBad(a, b) {
      var i :| 0 <= i < k && Bad(a[i]);
      assert 0 <= i < |a| - |c|;
    }
    if ConsumedBad(b, c) {
      var i :| 0 <= i < |b| - |c| && Bad(b[i]);
      assert a[k + i] == b[i];
    }
    if ConsumedBad(a, c) {
      var i :| 0 <= i < |a| - |c| && Bad(a[i]);
      if k <= i { assert b[i - k] == a[i]; }
    }
  }

  lemma ConservedOn(a: Record, b: Record, c: Record)
    requires Conserved(a, b) && Conserved(b, c)
    ensures Conserved(a, c)
  {
    RemainsOn(a.polls, b.polls, c.polls);
    BadOn(a.polls, b.polls, c.polls);
  }

  /** With valid addresses, identifiable payloads and successful notifications nothing is ever lost. */
  lemma GoodScriptLosesNothing(before: Record, after: Record)
    requires Conserved(before, after) && forall i :: 0 <= i < |before.polls| ==> !Bad(before.polls[i])
    ensures after.lost == before.lost
  {
  }

  lemma ConservedSame(before: Record, after: Record)
    requires Onward(before.ledger, after.ledger) && before.polls == after.polls && before.lost == after.lost
    ensures Conserved(before, after)
  {
  }

  lemma ConservedOne(before: Record, after: Record)
    requires Onward(before.ledger, after.ledger) && before.polls != [] && before.polls[1..] == after.polls
    requires before.lost <= after.lost && (after.lost != before.lost <==> Bad(before.polls[0]))
    ensures Conserved(before, after)
  {
  }

  // ----- what follows from the replies

  /** The message can be measured and encoded, and its buffer reaches the server's queue. */
  predicate GoesOut(s: Schema, v: Value, post: Post)
    requires Fits(s, v)
  {
    Encodable(s, v) && Size(s, v) < USIZE_LIMIT && Goes(post)
  }

  predicate Goes(post: Post) { post.Tried? && Seen(post.outcome) }

  /** The server was sent one more message, this value's encoding. */
  function AfterSend(t: Tape, s: Schema, v: Value): Tape
    requires Fits(s, v) && Encodable(s, v)
  {
    EncodeSize(s, v, false);
    t.(sent := t.sent + [Encode(s, v, false).value])
  }

  /** The error of a send that stops at the allocation or at the queue. */
  predicate SendError(post: Post, error: ClientError) {
    match post
    case NoMemory => error == OutOfMemory
    case Tried(outcome) => error == SendFailed(outcome)
  }

  /** The payload is the server's exactly if the queue took it. */
  ghost predicate Handed(post: Post, payload: seq<Byte>, before: Tape, after: Tape, r: Attempt<()>) {
    if Goes(post) then r.Success? && after == before.(sent := before.sent + [payload])
    else r.Failure? && SendError(post, r.error) && after == before
  }

  lemma HandedOver(s: Schema, v: Value, post: Post, payload: seq<Byte>, before: Tape, after: Tape, r: Attempt<()>)
    requires Fits(s, v) && Encodable(s, v) && Size(s, v) < USIZE_LIMIT && Encode(s, v, false) == Ok(payload)
    requires Handed(post, payload, before, after, r)
    ensures r.Success? <==> GoesOut(s, v, post)
    ensures r.Success? ==> after == AfterSend(before, s, v)
    ensures r.Failure? ==> after == before && SendError(post, r.error) && !Leaks(r.error) && !r.error.CreateRejected?
  {
  }

  /** And after it only answers to the keepalives among the polls that were passed over. */
  ghost predicate SentThenAnswers(k: Keeper, s: Schema, v: Value, before: Tape, after: Tape)
    requires KeeperOk(k)
  {
    && Fits(s, v) && Encodable(s, v)
    && exists n :: 0 <= n <= |before.polls|
         && after.sent == AfterSend(before, s, v).sent + Answers(k, before.polls[..n])
  }

  /** A message with that id arrived and decodes to this value. */
  ghost predicate Delivered(script: seq<Poll>, id: nat, s: Schema, v: Value) {
    exists i :: 0 <= i < |script| && IsDelivery(script[i], id, s, v)
  }

  predicate IsDelivery(p: Poll, id: nat, s: Schema, v: Value) {
    p.Arrived? && MessageId(p.payload) == Ok(id) && DecodeMessage(s, p.payload) == Ok(v)
  }

  lemma MessageDelivers(k: Keeper, awaited: Option<nat>, before: Tape, after: Tape, e: Event, s: Schema, v: Value)
    requires KeeperOk(k) && Stopped(k, awaited, before, after, e) && e.Message? && DecodeMessage(s, e.payload) == Ok(v)
    ensures Delivered(before.polls, e.id, s, v)
  {
    var p := before.polls[|before.polls| - |after.polls| - 1];
    MessageIdBytes(p.payload);
    assert IsDelivery(p, e.id, s, v);
  }

  /** A value `connect` or `disconnect` goes by arrived during the call, under the awaited id. */
  lemma AwaitedDelivers(k: Keeper, seen: bool, before: Tape, after: Tape, wanted: nat, s: Schema, v: Value)
    requires KeeperOk(k) && Awaited(k, seen, before, after, wanted, s, Success(Some(v)))
    ensures Delivered(before.polls, wanted, s, v)
  {
    var e :| Stopped(k, Some(wanted), before, after, e) && Grants(e, seen, wanted, s, Success(Some(v)));
    MessageDelivers(k, Some(wanted), before, after, e, s, v);
  }

  /** So did a reply `invoke` returns, and it carries the request's context, if its type has one. */
  lemma RepliedDelivers(
    k: Keeper, seen: bool, before: Tape, after: Tape, reply: Api, replyId: nat, context: nat, v: Value
  )
    requires KeeperOk(k) && Replied(k, seen, before, after, reply, replyId, context, Success(v))
    ensures Delivered(before.polls, replyId, reply.schema, v)
    ensures ContextOf(reply, v).Some? ==> ContextOf(reply, v).value == context
  {
    var e :| Stopped(k, None, before, after, e) && Answered(e, seen, reply, replyId, context, Success(v));
    MessageDelivers(k, None, before, after, e, reply.schema, v);
  }

  lemma AwaitedSends(
    k: Keeper, seen: bool, before: Tape, after: Tape, s: Schema, v: Value, wanted: nat, t: Schema, r: Attempt<Option<Value>>
  )
    requires KeeperOk(k) && Fits(s, v) && Encodable(s, v)
    requires Awaited(k, seen, AfterSend(before, s, v), after, wanted, t, r)
    ensures SentThenAnswers(k, s, v, before, after)
  {
  }

  lemma RepliedSends(
    k: Keeper, seen: bool, before: Tape, after: Tape, s: Schema, v: Value,
    reply: Api, replyId: nat, context: nat, r: Attempt<Value>
  )
    requires KeeperOk(k) && Fits(s, v) && Encodable(s, v)
    requires Replied(k, seen, AfterSend(before, s, v), after, reply, replyId, context, r)
    ensures SentThenAnswers(k, s, v, before, after)
  {
  }

  /** Receiving never reports that a client was rejected. */
  lemma AwaitedErrors(k: Keeper, seen: bool, before: Tape, after: Tape, wanted: nat, s: Schema, error: ClientError)
    requires KeeperOk(k) && Awaited(k, seen, before, after, wanted, s, Failure(error))
    ensures !error.CreateRejected?
  {
  }

  /** The request goes out and the first message with the awaited id decides, or nothing is sent or polled. */
  ghost predicate Met(
    k: Keeper, seen: bool, post: Post, before: Tape, after: Tape, s: Schema, v: Value, replyId: nat, reply: Schema,
    r: Attempt<Option<Value>>
  )
    requires KeeperOk(k) && Fits(s, v)
  {
    if GoesOut(s, v, post) then Awaited(k, seen, AfterSend(before, s, v), after, replyId, reply, r)
    else r.Failure? && !r.error.CreateRejected? && after == before
  }

  /** The first message with the awaited id decides. */
  ghost predicate FirstDecides(
    k: Keeper, seen: bool, script: seq<Poll>, replyId: nat, reply: Schema, r: Attempt<Option<Value>>
  )
    requires KeeperOk(k)
  {
    forall i: nat :: FirstAt(k, seen, Some(replyId), script, i, replyId) ==>
      r == Opened(DecodeMessage(reply, script[i].payload))
  }

  /** What follows from the exchange: a reply was delivered, and the first one awaited decides. */
  lemma MetMeans(
    k: Keeper, seen: bool, post: Post, before: Tape, after: Tape, s: Schema, v: Value, replyId: nat, reply: Schema,
    r: Attempt<Option<Value>>
  )
    requires KeeperOk(k) && Fits(s, v) && Met(k, seen, post, before, after, s, v, replyId, reply, r)
    ensures r.Failure? ==> !r.error.CreateRejected?
    ensures r.Success? ==> SentThenAnswers(k, s, v, before, after)
    ensures r.Success? && r.value.Some? ==> Delivered(before.polls, replyId, reply, r.value.value)
    ensures GoesOut(s, v, post) ==> FirstDecides(k, seen, before.polls, replyId, reply, r)
  {
    if GoesOut(s, v, post) {
      var sent := AfterSend(before, s, v);
      AwaitedSends(k, seen, before, after, s, v, replyId, reply, r);
      if r.Failure? { AwaitedErrors(k, seen, sent, after, replyId, reply, r.error); }
      if r.Success? && r.value.Some? { AwaitedDelivers(k, seen, sent, after, replyId, reply, r.value.value); }
      AwaitedFirst(k, seen, sent, after, replyId, reply, r);
    }
  }

  lemma AwaitedFirst(
    k: Keeper, seen: bool, before: Tape, after: Tape, wanted: nat, s: Schema, r: Attempt<Option<Value>>
  )
    requires KeeperOk(k) && Awaited(k, seen, before, after, wanted, s, r)
    ensures FirstDecides(k, seen, before.polls, wanted, s, r)
  {
    forall i: nat | FirstAt(k, seen, Some(wanted), before.polls, i, wanted)
      ensures r == Opened(DecodeMessage(s, before.polls[i].payload))
    {
      AwaitedThere(k, seen, before, after, wanted, s, r, i);
    }
  }

  /** What `disconnect` makes of the reply to its request. */
  function Left(index: nat, answer: Attempt<Option<Value>>): Attempt<()> {
    match answer
    case Failure(error) => Failure(error)
    case Success(None) => Failure(DisconnectTimeout(index))
    case Success(Some(v)) => if FieldOf(v, 1) < 0 then Failure(CreateRejected(FieldOf(v, 1))) else Success(())
  }

  /** A departure is accepted exactly when a reply came whose response is not negative. */
  lemma LeftExactly(index: nat, answer: Attempt<Option<Value>>)
    ensures Left(index, answer).Success?
       <==> answer.Success? && answer.value.Some? && 0 <= FieldOf(answer.value.value, 1)
  {
  }

  /** The first delete reply decides `disconnect`, wherever in the script it stands. */
  ghost predicate LeftByFirst(k: Keeper, seen: bool, script: seq<Poll>, replyId: nat, index: nat, r: Attempt<()>)
    requires KeeperOk(k)
  {
    forall i: nat :: FirstAt(k, seen, Some(replyId), script, i, replyId) ==>
      r == Left(index, Opened(DecodeMessage(DELETE_REPLY, script[i].payload)))
  }

  lemma LeftFollows(
    k: Keeper, seen: bool, script: seq<Poll>, replyId: nat, index: nat, answer: Attempt<Option<Value>>
  )
    requires KeeperOk(k) && FirstDecides(k, seen, script, replyId, DELETE_REPLY, answer)
    ensures LeftByFirst(k, seen, script, replyId, index, Left(index, answer))
  {
  }

  class Client {
    var clientIndex: Option<nat>
    var messageIds: map<Name, Id>
    var contextCounter: nat
    const handleKeepalives: bool
    const known: Known
    const capacity: nat          // the response queue's, in pointers
    var queueBlock: Option<nat>  // the bytes of the response queue's allocation, while it is allocated
    ghost var issued: nat
    ghost var releases: nat

    /** A connected client still has its response queue, and knows the layout it was allocated with. */
    ghost predicate Valid()
      reads this
    {
      && contextCounter == CounterAt(issued)
      && 0 < capacity < QueueLayout.U32_LIMIT
      && releases == (if queueBlock.Some? then 0 else 1)
      && (queueBlock.Some? ==> QueueLayout.SizeToAlloc(capacity, POINTER_BYTES) == QueueLayout.Sized(queueBlock.value))
      && (clientIndex.Some? ==> queueBlock.Some? && clientIndex.value < CONTEXT_LIMIT)
    }

    constructor (handleKeepalives: bool, known: Known, capacity: nat, bytes: nat)
      requires 0 < capacity < QueueLayout.U32_LIMIT
      requires QueueLayout.SizeToAlloc(capacity, POINTER_BYTES) == QueueLayout.Sized(bytes)
      ensures Valid() && clientIndex == None && releases == 0 && issued == 0 && messageIds == map[]
      ensures this.handleKeepalives == handleKeepalives && this.known == known && this.capacity == capacity
    {
      clientIndex, messageIds, contextCounter := None, map[], 0;
      this.handleKeepalives, this.known, this.capacity, queueBlock := handleKeepalives, known, capacity, Some(bytes);
      issued, releases := 0, 0;
    }

    method NextContext() returns (context: nat)
      requires Valid()
      modifies this`contextCounter, this`issued
      ensures Valid() && issued == old(issued) + 1 && context == ContextAt(issued)
    {
      NextCounter(issued);
      contextCounter := Bump(contextCounter);
      while contextCounter == 0
        invariant issued == old(issued)
        invariant contextCounter == 0 ==> CounterAt(issued + 1) == Bump(0)
        invariant contextCounter != 0 ==> CounterAt(issued + 1) == contextCounter
        decreases contextCounter == 0
      {
        contextCounter := Bump(contextCounter);
      }
      context := HIGH_BIT + contextCounter;
      issued := issued + 1;
    }

    /**
      A message is handed over or freed, never both and never neither; the server sees exactly the
      encoding, and sees it exactly when the call succeeds.
     */
    method SendMessage(shared: Shared, s: Schema, v: Value) returns (r: Attempt<()>)
      requires Typed(s) && Fits(s, v) && shared.Holds({})
      modifies shared
      ensures shared.Holds({}) && Conserved(old(shared.Record()), shared.Record()) && shared.lost == old(shared.lost)
      ensures r.Success? <==> GoesOut(s, v, shared.posts(old(shared.posted)))
      ensures r.Success? ==> shared.Tape() == AfterSend(old(shared.Tape()), s, v)
      ensures r.Failure? ==> shared.Tape() == old(shared.Tape()) && !Leaks(r.error) && !r.error.CreateRejected?
      ensures r.Failure? && Encodable(s, v) && Size(s, v) < USIZE_LIMIT ==>
        SendError(shared.posts(old(shared.posted)), r.error)
    {
      var message := Prepare(s, v);
      if message.Err? {
        ConservedSame(old(shared.Record()), shared.Record());
        return Failure(Undecodable(message.error));
      }
      var payload := message.value.payload[..];
      r := HandOver(shared, payload);
      HandedOver(s, v, shared.posts(old(shared.posted)), payload, old(shared.Tape()), shared.Tape(), r);
    }

    /** The second half of `send_message`: the buffer is allocated, filled and queued, or freed again. */
    method HandOver(shared: Shared, payload: seq<Byte>) returns (r: Attempt<()>)
      requires shared.Holds({})
      modifies shared
      ensures shared.Holds({}) && Conserved(old(shared.Record()), shared.Record()) && shared.lost == old(shared.lost)
      ensures Handed(shared.posts(old(shared.posted)), payload, old(shared.Tape()), shared.Tape(), r)
    {
      if shared.posts(shared.posted).NoMemory? {
        shared.posted := shared.posted + 1;
        return Failure(OutOfMemory);
      }
      var buffer := shared.Allocate(payload);
      var outcome := shared.Add(buffer);
      if !outcome.Added? {
        if !QueueRuns.Committed(outcome, QueueProtocol.AddKind) {
          shared.Free(buffer);
          return Failure(SendFailed(outcome));
        }
      }
      r := Success(());
    }

    /** How this client treats keepalives. */
    function Keeps(): (k: Keeper)
      reads this
      ensures KeeperOk(k)
    {
      Keeper(if handleKeepalives && known.keepalive in messageIds then Some(messageIds[known.keepalive]) else None,
             if known.keepaliveReply in messageIds then Some(messageIds[known.keepaliveReply]) else None,
             known.keepaliveReply)
    }

    /** A keepalive is freed whether or not it decodes, and answered with its own token. */
    method AnswerKeepalive(shared: Shared, message: Buf) returns (r: Attempt<()>)
      requires Valid() && shared.Holds({message.serial})
      modifies shared
      ensures shared.Holds({}) && Conserved(old(shared.Record()), shared.Record())
      ensures shared.lost == old(shared.lost) && shared.polls == old(shared.polls)
      ensures r.Failure? ==> shared.sent == old(shared.sent) && !Leaks(r.error) && !r.error.CreateRejected?
      ensures Dealt(message.payload, AllSeen(shared.posts), old(shared.sent), shared.sent, r)
    {
      KeepaliveReads(message.payload);
      var decoded := DecodeMessage(KEEPALIVE, message.payload);
      shared.Free(message);
      ghost var freed := shared.Record();
      ConservedSame(old(shared.Record()), freed);
      if decoded.Err? {
        return Failure(Undecodable(decoded.error));
      }
      if known.keepaliveReply !in messageIds {
        return Failure(MessageUnavailable(known.keepaliveReply));
      }
      var id := messageIds[known.keepaliveReply];
      r := SendAnswer(shared, id, decoded.value, message.payload);
      ConservedOn(old(shared.Record()), freed, shared.Record());
    }

    method SendAnswer(shared: Shared, id: nat, keepalive: Value, ghost payload: seq<Byte>) returns (r: Attempt<()>)
      requires shared.Holds({}) && id < 65536
      requires |payload| == 10 && DecodeMessage(KEEPALIVE, payload) == Ok(keepalive)
      modifies shared
      ensures shared.Holds({}) && Conserved(old(shared.Record()), shared.Record())
      ensures shared.lost == old(shared.lost) && shared.polls == old(shared.polls)
      ensures r.Success? ==> shared.sent == old(shared.sent) + [AnswerBytes(id, payload)]
      ensures r.Failure? ==> shared.sent == old(shared.sent) && FailedToSend(r.error) && !AllSeen(shared.posts)
    {
      KeepaliveReads(payload);
      AnswerGoesOut(id, payload);
      r := SendMessage(shared, KEEPALIVE_REPLY, KeepaliveAnswer(id, FieldOf(keepalive, 1)));
    }

    /** Ten bytes are answered, byte for byte as `AnswerBytes` has it, unless the answer cannot be sent. */
    ghost predicate Dealt(
      payload: seq<Byte>, seen: bool, before: seq<seq<Byte>>, after: seq<seq<Byte>>, r: Attempt<()>
    )
      reads this
    {
      if |payload| < 10 then r == Failure(Undecodable("truncated"))
      else if 10 < |payload| then r == Failure(Undecodable("trailing payload bytes"))
      else if known.keepaliveReply !in messageIds then r == Failure(MessageUnavailable(known.keepaliveReply))
      else if r.Success? then after == before + [AnswerBytes(messageIds[known.keepaliveReply], payload)]
      else !seen && FailedToSend(r.error)
    }

    predicate IsKeepalive(id: nat)
      reads this
    {
      handleKeepalives && known.keepalive in messageIds && messageIds[known.keepalive] == id
    }

    /** One round of the receive loop; nothing when it goes round again. */
    method Poll(shared: Shared) returns (r: Option<Attempt<Option<Buf>>>)
      requires Valid() && queueBlock.Some? && shared.Holds({}) && shared.polls != []
      modifies shared
      ensures Conserved(old(shared.Record()), shared.Record())
      ensures shared.polls == old(shared.polls)[1..]
      ensures r.Some? && r.value.Success? && r.value.value.Some? ==> shared.Holds({r.value.value.value.serial})
      ensures Rounded(Meets(Keeps(), old(shared.polls)[0]), AllSeen(shared.posts), old(shared.sent), shared.sent, r)
      ensures r.None? || r.value.Failure? || r.value.value.None? ==> shared.Holds({})
      ensures shared.lost != old(shared.lost) <==> r.Some? && r.value.Failure? && Leaks(r.value.error)
    {
      ghost var before := shared.Record();
      match shared.polls[0]
      case Quiet =>
        shared.Skip();
        ConservedOne(before, shared.Record());
        r := None;
      case Expired =>
        shared.Skip();
        ConservedOne(before, shared.Record());
        r := Some(Success(None));
      case PollFailed(_) =>
        var outcome := shared.PopFailing();
        ConservedOne(before, shared.Record());
        r := Some(Failure(ReceiveFailed(outcome)));
      case Arrived(_, _, valid, _) =>
        var message := shared.Pop();
        r := Sort(shared, message, valid, before);
    }

    /** What is done with a popped message. */
    method Sort(shared: Shared, message: Buf, valid: bool, ghost before: Record) returns (r: Option<Attempt<Option<Buf>>>)
      requires Valid() && queueBlock.Some? && shared.Holds({message.serial})
      requires before.polls != [] && before.polls[0].Arrived? && before.polls[0].valid == valid
      requires before.polls[0].payload == message.payload && shared.polls == before.polls[1..]
      requires Onward(before.ledger, shared.ledger) && before.lost == shared.lost && before.sent == shared.sent
      modifies shared
      ensures Conserved(before, shared.Record()) && shared.polls == old(shared.polls)
      ensures r.Some? && r.value.Success? && r.value.value.Some? ==> shared.Holds({r.value.value.value.serial})
      ensures Rounded(Meets(Keeps(), before.polls[0]), AllSeen(shared.posts), before.sent, shared.sent, r)
      ensures r.None? || r.value.Failure? || r.value.value.None? ==> shared.Holds({})
      ensures shared.lost != before.lost <==> r.Some? && r.value.Failure? && Leaks(r.value.error)
    {
      if !valid {
        shared.Abandon(message);
        ConservedOne(before, shared.Record());
        return Some(Failure(InvalidAddress));
      }
      var id := MessageId(message.payload);
      if id.Err? {
        shared.Abandon(message);
        ConservedOne(before, shared.Record());
        return Some(Failure(Unidentified(id.error)));
      }
      ghost var popped := shared.Record();
      ConservedOne(before, popped);
      r := Dispatch(shared, message, id.value, before.polls[0]);
      ConservedOn(before, popped, shared.Record());
    }

    /** A keepalive is answered; any other message goes to the caller. */
    method Dispatch(shared: Shared, message: Buf, id: nat, ghost p: ApiMemory.Poll)
      returns (r: Option<Attempt<Option<Buf>>>)
      requires Valid() && shared.Holds({message.serial}) && MessageId(message.payload) == Ok(id)
      requires p.Arrived? && p.valid && p.payload == message.payload
      modifies shared
      ensures Conserved(old(shared.Record()), shared.Record())
      ensures shared.polls == old(shared.polls) && shared.lost == old(shared.lost)
      ensures Rounded(Meets(Keeps(), p), AllSeen(shared.posts), old(shared.sent), shared.sent, r)
      ensures r.Some? && r.value.Success? ==> r == Some(Success(Some(message))) && shared.Holds({message.serial})
      ensures r.None? || r.value.Failure? ==> shared.Holds({})
      ensures r.Some? && r.value.Failure? ==> !Leaks(r.value.error)
    {
      MessageIdBytes(message.payload);
      if IsKeepalive(id) {
        var answered := AnswerKeepalive(shared, message);
        r := if answered.Failure? then Some(Failure(answered.error)) else None;
      } else {
        ConservedSame(old(shared.Record()), shared.Record());
        r := Some(Success(Some(message)));
      }
    }

    /**
      Keepalives are answered and freed on the way. The buffer returned is the only one left in the
      client's hands, and a buffer is lost exactly on the three leaking exits.
     */
    method Receive(shared: Shared) returns (r: Attempt<Option<Buf>>)
      requires Valid() && queueBlock.Some? && shared.Holds({})
      modifies shared
      ensures Conserved(old(shared.Record()), shared.Record())
      ensures r.Success? && r.value.Some? ==> shared.Holds({r.value.value.serial})
      ensures r.Failure? || r.value.None? ==> shared.Holds({})
      ensures Received(Keeps(), AllSeen(shared.posts), old(shared.Tape()), shared.Tape(), r)
      ensures shared.lost != old(shared.lost) <==> r.Failure? && Leaks(r.error)
    {
      ghost var k := Keeps();
      ConservedSame(old(shared.Record()), shared.Record());
      WalkedNowhere(k, None, old(shared.Tape()), shared.Tape());
      while shared.polls != []
        invariant shared.Holds({}) && shared.lost == old(shared.lost)
        invariant Conserved(old(shared.Record()), shared.Record())
        invariant Walked(k, None, old(shared.Tape()), shared.Tape())
        decreases |shared.polls|
      {
        ghost var middle, tape := shared.Record(), shared.Tape();
        var round := Poll(shared);
        ConservedOn(old(shared.Record()), middle, shared.Record());
        if round.Some? {
          StopsOnce(k, tape, shared.Tape());
          StoppedOn(k, None, old(shared.Tape()), tape, shared.Tape(), Meets(k, tape.polls[0]));
          return round.value;
        }
        WalksOnce(k, tape, shared.Tape());
        WalkedOn(k, None, old(shared.Tape()), tape, shared.Tape());
      }
      r := Success(None);
    }

    /** Receive, decode and free, as every caller of `receive` does with what it gets. */
    method Take(shared: Shared, s: Schema) returns (r: Attempt<Option<Taken>>)
      requires Valid() && queueBlock.Some? && shared.Holds({})
      modifies shared
      ensures shared.Holds({}) && Conserved(old(shared.Record()), shared.Record())
      ensures Took(Keeps(), AllSeen(shared.posts), old(shared.Tape()), shared.Tape(), s, r)
      ensures shared.lost != old(shared.lost) <==> r.Failure? && Leaks(r.error)
    {
      var received := Receive(shared);
      ReceivedMeans(Keeps(), AllSeen(shared.posts), old(shared.Tape()), shared.Tape(), s, received);
      if received.Failure? {
        return Failure(received.error);
      }
      if received.value.None? {
        return Success(None);
      }
      var message := received.value.value;
      ghost var middle := shared.Record();
      r := Success(Some(Taken(MessageId(message.payload).value, DecodeMessage(s, message.payload))));
      shared.Free(message);
      ConservedSame(middle, shared.Record());
      ConservedOn(old(shared.Record()), middle, shared.Record());
    }

    /**
      The loop `connect` and `disconnect` share: free whatever is not the awaited message, then decode
      and free that one. `None` is the deadline.
     */
    method Await(shared: Shared, wanted: nat, s: Schema) returns (r: Attempt<Option<Value>>)
      requires Valid() && queueBlock.Some? && shared.Holds({})
      modifies shared
      ensures shared.Holds({}) && Conserved(old(shared.Record()), shared.Record())
      ensures Awaited(Keeps(), AllSeen(shared.posts), old(shared.Tape()), shared.Tape(), wanted, s, r)
      ensures shared.lost != old(shared.lost) <==> r.Failure? && Leaks(r.error)
    {
      ghost var k := Keeps();
      ConservedSame(old(shared.Record()), shared.Record());
      WalkedNowhere(k, Some(wanted), old(shared.Tape()), shared.Tape());
      while true
        invariant shared.Holds({}) && shared.lost == old(shared.lost)
        invariant Conserved(old(shared.Record()), shared.Record())
        invariant Walked(k, Some(wanted), old(shared.Tape()), shared.Tape())
        decreases |shared.polls|
      {
        var verdict := AwaitOnce(shared, wanted, s, old(shared.Record()), old(shared.Tape()));
        if verdict.Some? {
          return verdict.value;
        }
      }
    }

    /** One round of that loop; nothing when a message of another id was passed over. */
    method AwaitOnce(shared: Shared, wanted: nat, s: Schema, ghost origin: Record, ghost start: Tape)
      returns (r: Option<Attempt<Option<Value>>>)
      requires Valid() && queueBlock.Some? && shared.Holds({})
      requires Conserved(origin, shared.Record()) && Walked(Keeps(), Some(wanted), start, shared.Tape())
      modifies shared
      ensures shared.Holds({}) && Conserved(origin, shared.Record())
      ensures r.None? ==> Walked(Keeps(), Some(wanted), start, shared.Tape()) && |shared.polls| < |old(shared.polls)|
      ensures r.Some? ==> Awaited(Keeps(), AllSeen(shared.posts), start, shared.Tape(), wanted, s, r.value)
      ensures shared.lost != old(shared.lost) <==> r.Some? && r.value.Failure? && Leaks(r.value.error)
    {
      var taken := Take(shared, s);
      ConservedOn(origin, old(shared.Record()), shared.Record());
      TookFurther(Keeps(), AllSeen(shared.posts), start, old(shared.Tape()), shared.Tape(), wanted, s, taken);
      r := Verdict(taken, wanted);
    }

    /** Connected, with a service that answers in the type asked for, and both messages known to the server. */
    predicate Agreed(request: Api, reply: Api)
      reads this
    {
      && clientIndex.Some? && request.service.Some? && request.service.value.reply == Some(reply.name)
      && request.nameCrc in messageIds && reply.nameCrc in messageIds
    }

    /** Request `k` as it goes out. */
    function Filled(request: Api, fill: Request, k: nat): Value
      requires clientIndex.Some? && request.nameCrc in messageIds
      reads this
    {
      fill(messageIds[request.nameCrc], clientIndex.value, ContextAt(k))
    }

    /** The request goes out and the first message that is not a keepalive decides, or nothing is sent or polled. */
    ghost predicate Exchanged(
      seen: bool, post: Post, before: Tape, after: Tape, s: Schema, v: Value,
      reply: Api, replyId: nat, context: nat, r: Attempt<Value>
    )
      requires Fits(s, v)
      reads this
    {
      if GoesOut(s, v, post) then Replied(Keeps(), seen, AfterSend(before, s, v), after, reply, replyId, context, r)
      else r.Failure? && after == before
    }

    /**
      `invoke`. On every exit nothing is left in the client's hands but what the leaking exits lose; a
      reply that is returned arrived during the call, under the expected id, and carries this request's
      context if its type has one; a client that is not connected touches nothing.
     */
    method Invoke(shared: Shared, request: Api, reply: Api, fill: Request) returns (r: Attempt<Value>)
      requires Valid() && shared.Holds({})
      requires ApiOk(request) && ApiOk(reply) && RequestOk(request.schema, fill)
      modifies this`contextCounter, this`issued, shared
      ensures Valid() && shared.Holds({}) && Conserved(old(shared.Record()), shared.Record())
      ensures shared.lost != old(shared.lost) <==> r.Failure? && Leaks(r.error)
      ensures old(clientIndex).None? ==> r == Failure(NotConnected)
      ensures !Agreed(request, reply) ==> r.Failure? && issued == old(issued) && shared.Record() == old(shared.Record())
      ensures Agreed(request, reply) ==>
        && issued == old(issued) + 1 && Fits(request.schema, Filled(request, fill, issued))
        && Exchanged(AllSeen(shared.posts), shared.posts(old(shared.posted)), old(shared.Tape()), shared.Tape(),
                     request.schema, Filled(request, fill, issued), reply, messageIds[reply.nameCrc], ContextAt(issued), r)
      ensures r.Success? ==>
        && Agreed(request, reply)
        && Delivered(old(shared.polls), messageIds[reply.nameCrc], reply.schema, r.value)
        && (ContextOf(reply, r.value).Some? ==> ContextOf(reply, r.value).value == ContextAt(issued))
        && SentThenAnswers(Keeps(), request.schema, Filled(request, fill, issued), old(shared.Tape()), shared.Tape())
    {
      var refusal := Refuse(request, reply);
      if refusal.Some? {
        ConservedSame(old(shared.Record()), shared.Record());
        return Failure(refusal.value);
      }
      var context := NextContext();
      var value := fill(messageIds[request.nameCrc], clientIndex.value, context);
      r := Transact(shared, request.schema, value, reply, messageIds[reply.nameCrc], context);
      if r.Success? {
        ghost var k, seen, sent := Keeps(), AllSeen(shared.posts), AfterSend(old(shared.Tape()), request.schema, value);
        RepliedDelivers(k, seen, sent, shared.Tape(), reply, messageIds[reply.nameCrc], context, r.value);
        RepliedSends(k, seen, old(shared.Tape()), shared.Tape(), request.schema, value,
                     reply, messageIds[reply.nameCrc], context, r);
      }
    }

    /** The checks `invoke` makes before it sends anything. */
    method Refuse(request: Api, reply: Api) returns (refusal: Option<ClientError>)
      ensures refusal.None? <==> Agreed(request, reply)
      ensures refusal.Some? ==> !Leaks(refusal.value)
      ensures clientIndex.None? ==> refusal == Some(NotConnected)
      ensures refusal == Some(RequestHasNoReply) <==>
        clientIndex.Some? && (request.service.None? || request.service.value.reply.None?)
      ensures refusal.Some? && refusal.value.ReplyTypeMismatch? ==>
        request.service.Some? && request.service.value.reply == Some(refusal.value.expected)
        && refusal.value.actual == reply.name != refusal.value.expected
      ensures refusal.Some? && refusal.value.MessageUnavailable? ==>
        refusal.value.name !in messageIds && refusal.value.name in {request.nameCrc, reply.nameCrc}
    {
      if clientIndex.None? {
        return Some(NotConnected);
      }
      if request.service.None? || request.service.value.reply.None? {
        return Some(RequestHasNoReply);
      }
      var expected := request.service.value.reply.value;
      if expected != reply.name {
        return Some(ReplyTypeMismatch(expected, reply.name));
      }
      if request.nameCrc !in messageIds {
        return Some(MessageUnavailable(request.nameCrc));
      }
      if reply.nameCrc !in messageIds {
        return Some(MessageUnavailable(reply.nameCrc));
      }
      refusal := None;
    }

    /** The exchange of `invoke`: the request goes out, and the next message that is not a keepalive decides. */
    method Transact(
      shared: Shared, s: Schema, v: Value, reply: Api, replyId: nat, context: nat
    ) returns (r: Attempt<Value>)
      requires Valid() && queueBlock.Some? && shared.Holds({}) && Typed(s) && Fits(s, v)
      modifies shared
      ensures shared.Holds({}) && Conserved(old(shared.Record()), shared.Record())
      ensures shared.lost != old(shared.lost) <==> r.Failure? && Leaks(r.error)
      ensures Exchanged(AllSeen(shared.posts), shared.posts(old(shared.posted)), old(shared.Tape()), shared.Tape(),
                        s, v, reply, replyId, context, r)
    {
      var sent := SendMessage(shared, s, v);
      if sent.Failure? {
        return Failure(sent.error);
      }
      ghost var asked := shared.Record();
      r := TakeReply(shared, reply, replyId, context);
      ConservedOn(old(shared.Record()), asked, shared.Record());
    }

    /** The second half of `invoke`: the next message that is not a keepalive decides. */
    method TakeReply(shared: Shared, reply: Api, replyId: nat, context: nat) returns (r: Attempt<Value>)
      requires Valid() && queueBlock.Some? && shared.Holds({})
      modifies shared
      ensures shared.Holds({}) && Conserved(old(shared.Record()), shared.Record())
      ensures shared.lost != old(shared.lost) <==> r.Failure? && Leaks(r.error)
      ensures Replied(Keeps(), AllSeen(shared.posts), old(shared.Tape()), shared.Tape(), reply, replyId, context, r)
    {
      var taken := Take(shared, reply.schema);
      TookDecides(Keeps(), AllSeen(shared.posts), old(shared.Tape()), shared.Tape(), reply, replyId, context, taken);
      if taken.Failure? {
        return Failure(taken.error);
      }
      if taken.value.None? {
        return Failure(ResponseTimeout(context));
      }
      var message := taken.value.value;
      if message.id != replyId {
        return Failure(UnexpectedMessage(message.id, replyId));
      }
      if message.decoded.Err? {
        return Failure(Undecodable(message.decoded.error));
      }
      var answered := ContextOf(reply, message.decoded.value);
      if answered.Some? && answered.value != context {
        return Failure(ContextMismatch(context, answered.value));
      }
      r := Success(message.decoded.value);
    }

    /**
      The response queue goes back to the heap, once. The layout is worked out again from the queue's own
      geometry, and is the one the block was allocated with.
     */
    method ReleaseQueue()
      requires Valid() && clientIndex.None? && queueBlock.Some?
      modifies this`releases, this`queueBlock
      ensures Valid() && queueBlock == None && releases == 1
    {
      QueueLayout.NeverOverflows(capacity, POINTER_BYTES);
      var layout := QueueLayout.SizeToAlloc(capacity, POINTER_BYTES);
      Deallocate(layout.bytes);
      releases := releases + 1;
    }

    /** The heap's `deallocate`: the layout must be that of the allocation. */
    method Deallocate(bytes: nat)
      requires queueBlock == Some(bytes)
      modifies this`queueBlock
      ensures queueBlock == None
    {
      queueBlock := None;
    }

    /** A request and the wait for its reply, as `connect` and `disconnect` make it. `None` is the deadline. */
    method Exchange(shared: Shared, s: Schema, v: Value, replyId: nat, reply: Schema) returns (r: Attempt<Option<Value>>)
      requires Valid() && queueBlock.Some? && shared.Holds({}) && Typed(s) && Fits(s, v)
      modifies shared
      ensures shared.Holds({}) && Conserved(old(shared.Record()), shared.Record())
      ensures shared.lost != old(shared.lost) <==> r.Failure? && Leaks(r.error)
      ensures Met(Keeps(), AllSeen(shared.posts), shared.posts(old(shared.posted)), old(shared.Tape()), shared.Tape(),
                  s, v, replyId, reply, r)
    {
      var sent := SendMessage(shared, s, v);
      if sent.Failure? {
        return Failure(sent.error);
      }
      ghost var asked := shared.Record();
      r := Await(shared, replyId, reply);
      ConservedOn(old(shared.Record()), asked, shared.Record());
    }

    predicate CanLeave()
      reads this
    {
      clientIndex.Some? && known.delete in messageIds && known.deleteReply in messageIds
    }

    /** The exchange of `disconnect`. */
    method AskToLeave(shared: Shared) returns (r: Attempt<Option<Value>>)
      requires Valid() && CanLeave() && shared.Holds({})
      modifies shared
      ensures shared.Holds({}) && Conserved(old(shared.Record()), shared.Record())
      ensures shared.lost != old(shared.lost) <==> r.Failure? && Leaks(r.error)
      ensures r.Success? ==>
        SentThenAnswers(Keeps(), DELETE, DeleteValue(messageIds[known.delete], clientIndex.value),
                        old(shared.Tape()), shared.Tape())
      ensures r.Success? && r.value.Some? ==>
        Delivered(old(shared.polls), messageIds[known.deleteReply], DELETE_REPLY, r.value.value)
      ensures Goes(shared.posts(old(shared.posted))) ==>
        FirstDecides(Keeps(), AllSeen(shared.posts), old(shared.polls), messageIds[known.deleteReply], DELETE_REPLY, r)
    {
      var request, replyId := DeleteValue(messageIds[known.delete], clientIndex.value), messageIds[known.deleteReply];
      DeleteGoesOut(messageIds[known.delete], clientIndex.value);
      r := Exchange(shared, DELETE, request, replyId, DELETE_REPLY);
      MetMeans(Keeps(), AllSeen(shared.posts), shared.posts(old(shared.posted)), old(shared.Tape()), shared.Tape(),
               DELETE, request, replyId, DELETE_REPLY, r);
    }

    /**
      `disconnect`: on success the queue is released and the session is over; on failure nothing of it changes.
      Once the request is out, the first delete reply decides, whatever else arrives before it.
     */
    method Disconnect(shared: Shared) returns (r: Attempt<()>)
      requires Valid() && shared.Holds({})
      modifies this`clientIndex, this`messageIds, this`releases, this`queueBlock, shared
      ensures Valid() && shared.Holds({}) && Conserved(old(shared.Record()), shared.Record())
      ensures shared.lost != old(shared.lost) <==> r.Failure? && Leaks(r.error)
      ensures old(clientIndex).None? ==> r == Failure(NotConnected)
      ensures !old(CanLeave()) ==> r.Failure? && shared.Record() == old(shared.Record())
      ensures r.Failure? ==>
        clientIndex == old(clientIndex) && messageIds == old(messageIds) && queueBlock == old(queueBlock)
      ensures r.Success? ==>
        && clientIndex == None && messageIds == map[] && old(queueBlock).Some? && queueBlock == None
        && old(CanLeave())
        && DeleteConfirmed(old(shared.polls), old(messageIds)[known.deleteReply])
        && SentThenAnswers(old(Keeps()), DELETE, DeleteValue(old(messageIds)[known.delete], old(clientIndex).value),
                           old(shared.Tape()), shared.Tape())
      ensures old(CanLeave()) && Goes(shared.posts(old(shared.posted))) ==>
        LeftByFirst(old(Keeps()), AllSeen(shared.posts), old(shared.polls), old(messageIds)[known.deleteReply],
                    old(clientIndex).value, r)
    {
      ConservedSame(old(shared.Record()), shared.Record());
      if clientIndex.None? {
        return Failure(NotConnected);
      }
      var index := clientIndex.value;
      if known.delete !in messageIds {
        return Failure(MessageUnavailable(known.delete));
      }
      if known.deleteReply !in messageIds {
        return Failure(MessageUnavailable(known.deleteReply));
      }
      var answer := AskToLeave(shared);
      if Goes(shared.posts(old(shared.posted))) {
        LeftFollows(Keeps(), AllSeen(shared.posts), old(shared.polls), messageIds[known.deleteReply], index, answer);
      }
      r := Depart(index, answer);
    }

    /** The end of `disconnect`: an accepted departure ends the session and releases the queue. */
    method Depart(index: nat, answer: Attempt<Option<Value>>) returns (r: Attempt<()>)
      requires Valid() && clientIndex.Some?
      modifies this`clientIndex, this`messageIds, this`releases, this`queueBlock
      ensures Valid() && r == Left(index, answer)
      ensures r.Failure? ==>
        clientIndex == old(clientIndex) && messageIds == old(messageIds) && queueBlock == old(queueBlock)
      ensures r.Success? ==> clientIndex == None && messageIds == map[] && queueBlock == None
    {
      if answer.Failure? {
        return Failure(answer.error);
      }
      if answer.value.None? {
        return Failure(DisconnectTimeout(index));
      }
      if FieldOf(answer.value.value, 1) < 0 {
        return Failure(CreateRejected(FieldOf(answer.value.value, 1)));
      }
      clientIndex, messageIds := None, map[];
      ReleaseQueue();
      r := Success(());
    }
  }

  ghost predicate DeleteConfirmed(script: seq<Poll>, id: nat) {
    exists v :: Delivered(script, id, DELETE_REPLY, v) && 0 <= FieldOf(v, 1)
  }

  lemma DeleteGoesOut(id: nat, index: nat)
    requires id < 65536 && index < CONTEXT_LIMIT
    ensures Typed(DELETE) && Fits(DELETE, DeleteValue(id, index))
    ensures Encodable(DELETE, DeleteValue(id, index)) && Size(DELETE, DeleteValue(id, index)) < USIZE_LIMIT
  {
    DeleteFits(id, index);
    DeleteWidths();
    FixedWidth(DELETE, DeleteValue(id, index));
  }

  lemma AnswerGoesOut(id: nat, payload: seq<Byte>)
    requires id < 65536 && |payload| == 10
    ensures var v := KeepaliveAnswer(id, FromLittleEndian(payload[2..6]));
            && Typed(KEEPALIVE_REPLY) && Fits(KEEPALIVE_REPLY, v)
            && Encodable(KEEPALIVE_REPLY, v) && Size(KEEPALIVE_REPLY, v) < USIZE_LIMIT
            && Encode(KEEPALIVE_REPLY, v, false) == Ok(AnswerBytes(id, payload))
  {
    AnswerEncodes(id, payload);
    KeepaliveWidths();
    FixedWidth(KEEPALIVE_REPLY, KeepaliveAnswer(id, FromLittleEndian(payload[2..6])));
  }
}
