/**
  What each poll of the response queue means to a client, said of the popped bytes, and what follows for the
  receive loop and the loops around it: which poll decides, with which result, and what was answered on the way.
 */
module ApiEvents {
  import opened Bytes
  import opened Codec
  import opened CodecLaws
  import opened Messages
  import opened MessageTable
  import opened ApiMemory
  import opened ApiTypes

  /** What decides about keepalives: their id, if the client handles them, and the id of the answer. */
  datatype Keeper = Keeper(keepalive: Option<nat>, answer: Option<nat>, answerName: Name)

  datatype Event =
    | Nothing
    | Deadline
    | Trouble(error: ClientError)
    | Keepalive(answer: seq<Byte>)
    | Message(id: nat, payload: seq<Byte>)

  /** The token comes in native byte order and goes back most significant byte first; `retval` is 0. */
  function AnswerBytes(id: nat, payload: seq<Byte>): seq<Byte>
    requires id < 65536 && |payload| == 10
  {
    [id / 256, id % 256, payload[5], payload[4], payload[3], payload[2], 0, 0, 0, 0]
  }

  ghost predicate KeeperOk(k: Keeper) { k.answer.Some? ==> k.answer.value < 65536 }

  function Meets(k: Keeper, p: Poll): Event
    requires KeeperOk(k)
  {
    match p
    case Quiet => Nothing
    case Expired => Deadline
    case PollFailed(outcome) => Trouble(ReceiveFailed(outcome))
    case Arrived(payload, _, valid, _) =>
      if !valid then Trouble(InvalidAddress)
      else if |payload| < 2 then Trouble(Unidentified("truncated"))
      else
        var id := 256 * At(payload, 0) + At(payload, 1);
        if k.keepalive != Some(id) then Message(id, payload)
        else if |payload| < 10 then Trouble(Undecodable("truncated"))
        else if 10 < |payload| then Trouble(Undecodable("trailing payload bytes"))
        else if k.answer.None? then Trouble(MessageUnavailable(k.answerName))
        else Keepalive(AnswerBytes(k.answer.value, payload))
  }

  // ----- which poll decides

  /** The waiting goes on after an empty poll, an answered keepalive or, for `connect` and `disconnect`, another message. */
  predicate Passing(awaited: Option<nat>, e: Event) {
    e.Nothing? || e.Keepalive? || (awaited.Some? && e.Message? && e.id != awaited.value)
  }

  ghost predicate Through(k: Keeper, awaited: Option<nat>, polls: seq<Poll>)
    requires KeeperOk(k)
  {
    forall i :: 0 <= i < |polls| ==> Passing(awaited, Meets(k, polls[i]))
  }

  /** What the keepalives among these polls are answered with, in order. */
  function Answers(k: Keeper, polls: seq<Poll>): seq<seq<Byte>>
    requires KeeperOk(k)
  {
    if polls == [] then []
    else
      var last := Meets(k, polls[|polls| - 1]);
      Answers(k, polls[..|polls| - 1]) + (if last.Keepalive? then [last.answer] else [])
  }

  /** `rest` is what remains of `script`. */
  ghost predicate Remains(script: seq<Poll>, rest: seq<Poll>) {
    |rest| <= |script| && rest == script[|script| - |rest|..]
  }

  /** Every poll consumed so far was passed over, and its keepalives were answered. */
  ghost predicate Walked(k: Keeper, awaited: Option<nat>, before: Tape, after: Tape)
    requires KeeperOk(k)
  {
    && Remains(before.polls, after.polls)
    && var past := before.polls[..|before.polls| - |after.polls|];
       Through(k, awaited, past) && after.sent == before.sent + Answers(k, past)
  }

  /** The same up to the last poll consumed, which was the event `e`. */
  ghost predicate Stopped(k: Keeper, awaited: Option<nat>, before: Tape, after: Tape, e: Event)
    requires KeeperOk(k)
  {
    && Remains(before.polls, after.polls) && |after.polls| < |before.polls|
    && var n := |before.polls| - |after.polls| - 1;
       && Through(k, awaited, before.polls[..n]) && after.sent == before.sent + Answers(k, before.polls[..n])
       && e == Meets(k, before.polls[n])
  }

  ghost predicate AllSeen(posts: nat -> Post) {
    forall n: nat :: posts(n).Tried? && Seen(posts(n).outcome)
  }

  predicate FailedToSend(e: ClientError) { e.OutOfMemory? || e.SendFailed? }

  /** What ends the loop in another way than a message does. A keepalive does only if its answer cannot be sent. */
  ghost predicate Interrupts<T(!new)>(e: Event, seen: bool, deadline: Attempt<T>, r: Attempt<T>) {
    match e
    case Nothing => false
    case Deadline => r == deadline
    case Trouble(error) => r == Failure(error)
    case Keepalive(_) => !seen && r.Failure? && FailedToSend(r.error)
    case Message(_, _) => false
  }

  /** `receive`: the first poll that is not passed over decides, and a message is handed to the caller. */
  ghost predicate Received(k: Keeper, seen: bool, before: Tape, after: Tape, r: Attempt<Option<Buf>>)
    requires KeeperOk(k)
  {
    || (after.polls == [] && Walked(k, None, before, after) && r == Success(None))
    || exists e :: Stopped(k, None, before, after, e) && Hands(e, seen, r)
  }

  ghost predicate Hands(e: Event, seen: bool, r: Attempt<Option<Buf>>) {
    || Interrupts(e, seen, Success(None), r)
    || (e.Message? && r.Success? && r.value.Some? && r.value.value.payload == e.payload)
  }

  /** One round: the poll is passed over, and a keepalive answered, or it ends the loop and nothing is sent. */
  ghost predicate Rounded(
    e: Event, seen: bool, before: seq<seq<Byte>>, after: seq<seq<Byte>>, r: Option<Attempt<Option<Buf>>>
  )
  {
    if r.None? then Passing(None, e) && after == before + (if e.Keepalive? then [e.answer] else [])
    else Hands(e, seen, r.value) && after == before
  }

  /** What is kept of a message that has been freed: its id and what it decoded to. */
  datatype Taken = Taken(id: nat, decoded: Result<Value>)

  ghost predicate Took(k: Keeper, seen: bool, before: Tape, after: Tape, s: Schema, r: Attempt<Option<Taken>>)
    requires KeeperOk(k)
  {
    || (after.polls == [] && Walked(k, None, before, after) && r == Success(None))
    || exists e :: Stopped(k, None, before, after, e) && Takes(e, seen, s, r)
  }

  ghost predicate Takes(e: Event, seen: bool, s: Schema, r: Attempt<Option<Taken>>) {
    || Interrupts(e, seen, Success(None), r)
    || (e.Message? && r == Success(Some(Taken(e.id, DecodeMessage(s, e.payload)))))
  }

  /** `connect` and `disconnect`: the first message with the awaited id decides; others are passed over. */
  ghost predicate Awaited(
    k: Keeper, seen: bool, before: Tape, after: Tape, wanted: nat, s: Schema, r: Attempt<Option<Value>>
  )
    requires KeeperOk(k)
  {
    || (after.polls == [] && Walked(k, Some(wanted), before, after) && r == Success(None))
    || exists e :: Stopped(k, Some(wanted), before, after, e) && Grants(e, seen, wanted, s, r)
  }

  ghost predicate Grants(e: Event, seen: bool, wanted: nat, s: Schema, r: Attempt<Option<Value>>) {
    || Interrupts(e, seen, Success(None), r)
    || (e.Message? && e.id == wanted && r == Opened(DecodeMessage(s, e.payload)))
  }

  function Opened(decoded: Result<Value>): Attempt<Option<Value>> {
    match decoded
    case Ok(v) => Success(Some(v))
    case Err(error) => Failure(Undecodable(error))
  }

  /** `invoke`: the first message decides, whatever its id. */
  ghost predicate Replied(
    k: Keeper, seen: bool, before: Tape, after: Tape, reply: Api, replyId: nat, context: nat, r: Attempt<Value>
  )
    requires KeeperOk(k)
  {
    || (after.polls == [] && Walked(k, None, before, after) && r == Failure(ResponseTimeout(context)))
    || exists e :: Stopped(k, None, before, after, e) && Answered(e, seen, reply, replyId, context, r)
  }

  ghost predicate Answered(e: Event, seen: bool, reply: Api, replyId: nat, context: nat, r: Attempt<Value>) {
    || Interrupts(e, seen, Failure(ResponseTimeout(context)), r)
    || (e.Message? && r == Judged(e.id, DecodeMessage(reply.schema, e.payload), reply, replyId, context))
  }

  /** A foreign id, an undecodable reply and a foreign context are errors; a reply without context is accepted. */
  function Judged(id: nat, decoded: Result<Value>, reply: Api, replyId: nat, context: nat): Attempt<Value> {
    if id != replyId then Failure(UnexpectedMessage(id, replyId))
    else if decoded.Err? then Failure(Undecodable(decoded.error))
    else
      match ContextOf(reply, decoded.value)
      case None => Success(decoded.value)
      case Some(received) => if received == context then Success(decoded.value) else Failure(ContextMismatch(context, received))
  }

  /** A reply is accepted exactly when it has the expected id, decodes, and has this context or none. */
  lemma JudgedExactly(id: nat, decoded: Result<Value>, reply: Api, replyId: nat, context: nat, v: Value)
    ensures Judged(id, decoded, reply, replyId, context) == Success(v)
       <==> id == replyId && decoded == Ok(v) && ContextOf(reply, v) in {None, Some(context)}
  {
  }

  // ----- walking on

  lemma {:induction false} AnswersJoin(k: Keeper, a: seq<Poll>, b: seq<Poll>)
    requires KeeperOk(k)
    ensures Answers(k, a + b) == Answers(k, a) + Answers(k, b)
    decreases |b|
  {
    if b == [] {
      assert a + b == a;
    } else {
      AnswersJoin(k, a, b[..|b| - 1]);
      assert (a + b)[..|a + b| - 1] == a + b[..|b| - 1];
    }
  }

  lemma ThroughJoin(k: Keeper, awaited: Option<nat>, a: seq<Poll>, b: seq<Poll>)
    requires KeeperOk(k) && Through(k, awaited, a) && Through(k, awaited, b)
    ensures Through(k, awaited, a + b)
  {
  }

  lemma PastJoin(a: seq<Poll>, b: seq<Poll>, n: nat)
    requires Remains(a, b) && n <= |b|
    ensures a[..|a| - |b| + n] == a[..|a| - |b|] + b[..n]
  {
  }

  lemma RemainsOn(a: seq<Poll>, b: seq<Poll>, c: seq<Poll>)
    requires Remains(a, b) && Remains(b, c)
    ensures Remains(a, c)
  {
  }

  /** Two stretches of the walk: what was passed over and what was answered, put together. */
  lemma StretchJoin(
    k: Keeper, awaited: Option<nat>, a: seq<Poll>, b: seq<Poll>, n: nat, x: seq<seq<Byte>>, y: seq<seq<Byte>>, z: seq<seq<Byte>>
  )
    requires KeeperOk(k) && Remains(a, b) && n <= |b|
    requires Through(k, awaited, a[..|a| - |b|]) && y == x + Answers(k, a[..|a| - |b|])
    requires Through(k, awaited, b[..n]) && z == y + Answers(k, b[..n])
    ensures Through(k, awaited, a[..|a| - |b| + n]) && z == x + Answers(k, a[..|a| - |b| + n])
  {
    var past, more := a[..|a| - |b|], b[..n];
    PastJoin(a, b, n);
    ThroughJoin(k, awaited, past, more);
    AnswersJoin(k, past, more);
    assert x + (Answers(k, past) + Answers(k, more)) == (x + Answers(k, past)) + Answers(k, more);
  }

  lemma WalkedOn(k: Keeper, awaited: Option<nat>, a: Tape, b: Tape, c: Tape)
    requires KeeperOk(k) && Walked(k, awaited, a, b) && Walked(k, awaited, b, c)
    ensures Walked(k, awaited, a, c)
  {
    RemainsOn(a.polls, b.polls, c.polls);
    StretchJoin(k, awaited, a.polls, b.polls, |b.polls| - |c.polls|, a.sent, b.sent, c.sent);
  }

  lemma StoppedOn(k: Keeper, awaited: Option<nat>, a: Tape, b: Tape, c: Tape, e: Event)
    requires KeeperOk(k) && Walked(k, awaited, a, b) && Stopped(k, awaited, b, c, e)
    ensures Stopped(k, awaited, a, c, e)
  {
    RemainsOn(a.polls, b.polls, c.polls);
    StretchJoin(k, awaited, a.polls, b.polls, |b.polls| - |c.polls| - 1, a.sent, b.sent, c.sent);
  }

  /** An event that is passed over and answered with nothing is one step of the walk. */
  lemma StoppedPast(k: Keeper, awaited: Option<nat>, a: Tape, b: Tape, e: Event)
    requires KeeperOk(k) && Stopped(k, awaited, a, b, e) && Passing(awaited, e) && !e.Keepalive?
    ensures Walked(k, awaited, a, b)
  {
    var n := |a.polls| - |b.polls| - 1;
    assert a.polls[..n + 1][..n] == a.polls[..n];
  }

  lemma Wider(k: Keeper, awaited: Option<nat>, a: Tape, b: Tape)
    requires KeeperOk(k)
    ensures Walked(k, None, a, b) ==> Walked(k, awaited, a, b)
    ensures forall e :: Stopped(k, None, a, b, e) ==> Stopped(k, awaited, a, b, e)
  {
  }

  lemma WalkedNowhere(k: Keeper, awaited: Option<nat>, a: Tape, b: Tape)
    requires KeeperOk(k) && b.polls == a.polls && b.sent == a.sent
    ensures Walked(k, awaited, a, b)
  {
  }

  /** One poll, passed over. */
  lemma WalksOnce(k: Keeper, a: Tape, b: Tape)
    requires KeeperOk(k) && a.polls != [] && b.polls == a.polls[1..]
    requires var e := Meets(k, a.polls[0]);
             Passing(None, e) && b.sent == a.sent + (if e.Keepalive? then [e.answer] else [])
    ensures Walked(k, None, a, b)
  {
    assert a.polls[..1][..0] == [] && a.polls[..1][0] == a.polls[0];
    assert Answers(k, []) == [];
  }

  /** One poll, which ends the walk. */
  lemma StopsOnce(k: Keeper, a: Tape, b: Tape)
    requires KeeperOk(k) && a.polls != [] && b.polls == a.polls[1..] && b.sent == a.sent
    ensures Stopped(k, None, a, b, Meets(k, a.polls[0]))
  {
    assert a.polls[..0] == [];
  }

  /** What the waiting loop does with what it took: it ends, or passes over a message of another id. */
  function Verdict(taken: Attempt<Option<Taken>>, wanted: nat): Option<Attempt<Option<Value>>> {
    match taken
    case Failure(error) => Some(Failure(error))
    case Success(None) => Some(Success(None))
    case Success(Some(message)) => if message.id == wanted then Some(Opened(message.decoded)) else None
  }

  /** One more `Take` of the waiting loop: it ends the loop, or passed over a message of another id. */
  lemma TookFurther(
    k: Keeper, seen: bool, a: Tape, b: Tape, c: Tape, wanted: nat, s: Schema, taken: Attempt<Option<Taken>>
  )
    requires KeeperOk(k) && Walked(k, Some(wanted), a, b) && Took(k, seen, b, c, s, taken)
    ensures match Verdict(taken, wanted)
            case Some(r) => Awaited(k, seen, a, c, wanted, s, r)
            case None => Walked(k, Some(wanted), a, c) && |c.polls| < |b.polls|
  {
    if c.polls == [] && Walked(k, None, b, c) && taken == Success(None) {
      TookNothing(k, seen, a, b, c, wanted, s);
    } else {
      var e :| Stopped(k, None, b, c, e) && Takes(e, seen, s, taken);
      TookAt(k, seen, a, b, c, wanted, s, taken, e);
    }
  }

  lemma TookNothing(k: Keeper, seen: bool, a: Tape, b: Tape, c: Tape, wanted: nat, s: Schema)
    requires KeeperOk(k) && Walked(k, Some(wanted), a, b) && Walked(k, None, b, c) && c.polls == []
    ensures Awaited(k, seen, a, c, wanted, s, Success(None))
  {
    Wider(k, Some(wanted), b, c);
    WalkedOn(k, Some(wanted), a, b, c);
  }

  lemma TookAt(
    k: Keeper, seen: bool, a: Tape, b: Tape, c: Tape, wanted: nat, s: Schema, taken: Attempt<Option<Taken>>, e: Event
  )
    requires KeeperOk(k) && Walked(k, Some(wanted), a, b) && Stopped(k, None, b, c, e) && Takes(e, seen, s, taken)
    ensures match Verdict(taken, wanted)
            case Some(r) => Awaited(k, seen, a, c, wanted, s, r)
            case None => Walked(k, Some(wanted), a, c) && |c.polls| < |b.polls|
  {
    Wider(k, Some(wanted), b, c);
    if e.Message? && e.id != wanted {
      PassedFurther(k, a, b, c, wanted, e);
    } else {
      StoppedOn(k, Some(wanted), a, b, c, e);
      StoppedEnds(k, seen, a, c, wanted, s, e, taken);
    }
  }

  lemma PassedFurther(k: Keeper, a: Tape, b: Tape, c: Tape, wanted: nat, e: Event)
    requires KeeperOk(k) && Walked(k, Some(wanted), a, b) && Stopped(k, Some(wanted), b, c, e)
    requires e.Message? && e.id != wanted
    ensures Walked(k, Some(wanted), a, c)
  {
    StoppedPast(k, Some(wanted), b, c, e);
    WalkedOn(k, Some(wanted), a, b, c);
  }

  lemma StoppedEnds(
    k: Keeper, seen: bool, a: Tape, c: Tape, wanted: nat, s: Schema, e: Event, taken: Attempt<Option<Taken>>
  )
    requires KeeperOk(k) && Stopped(k, Some(wanted), a, c, e) && Takes(e, seen, s, taken)
    requires e.Message? ==> e.id == wanted
    ensures Verdict(taken, wanted).Some? && Awaited(k, seen, a, c, wanted, s, Verdict(taken, wanted).value)
  {
    assert Grants(e, seen, wanted, s, Verdict(taken, wanted).value);
  }

  /** From what `receive` hands over to what is kept of it. */
  lemma ReceivedMeans(k: Keeper, seen: bool, a: Tape, b: Tape, s: Schema, r: Attempt<Option<Buf>>)
    requires KeeperOk(k) && Received(k, seen, a, b, r)
    ensures r.Failure? ==> Took(k, seen, a, b, s, Failure(r.error))
    ensures r == Success(None) ==> Took(k, seen, a, b, s, Success(None))
    ensures r.Success? && r.value.Some? ==>
      var payload := r.value.value.payload;
      && MessageId(payload).Ok?
      && Took(k, seen, a, b, s, Success(Some(Taken(MessageId(payload).value, DecodeMessage(s, payload)))))
  {
    if !(b.polls == [] && Walked(k, None, a, b) && r == Success(None)) {
      var e :| Stopped(k, None, a, b, e) && Hands(e, seen, r);
      if r.Failure? {
        assert Takes(e, seen, s, Failure(r.error));
      } else if r.value.None? {
        assert Takes(e, seen, s, Success(None));
      } else {
        var payload := r.value.value.payload;
        MessageIdBytes(payload);
        assert Takes(e, seen, s, Success(Some(Taken(MessageId(payload).value, DecodeMessage(s, payload)))));
      }
    }
  }

  /** From what is kept of a message to what `invoke` answers. */
  lemma TookDecides(
    k: Keeper, seen: bool, a: Tape, b: Tape, reply: Api, replyId: nat, context: nat, taken: Attempt<Option<Taken>>
  )
    requires KeeperOk(k) && Took(k, seen, a, b, reply.schema, taken)
    ensures taken.Failure? ==> Replied(k, seen, a, b, reply, replyId, context, Failure(taken.error))
    ensures taken == Success(None) ==> Replied(k, seen, a, b, reply, replyId, context, Failure(ResponseTimeout(context)))
    ensures taken.Success? && taken.value.Some? ==>
      var m := taken.value.value;
      Replied(k, seen, a, b, reply, replyId, context, Judged(m.id, m.decoded, reply, replyId, context))
  {
    if !(b.polls == [] && Walked(k, None, a, b) && taken == Success(None)) {
      var e :| Stopped(k, None, a, b, e) && Takes(e, seen, reply.schema, taken);
      if taken.Failure? {
        assert Answered(e, seen, reply, replyId, context, Failure(taken.error));
      } else if taken.value.None? {
        assert Answered(e, seen, reply, replyId, context, Failure(ResponseTimeout(context)));
      } else {
        var m := taken.value.value;
        assert Answered(e, seen, reply, replyId, context, Judged(m.id, m.decoded, reply, replyId, context));
      }
    }
  }

  // ----- seen from the script

  /** Poll `i` is the message `id`, and the waiting reaches it. */
  ghost predicate FirstAt(k: Keeper, seen: bool, awaited: Option<nat>, script: seq<Poll>, i: nat, id: nat)
    requires KeeperOk(k)
  {
    && i < |script|
    && Meets(k, script[i]).Message? && Meets(k, script[i]).id == id && (awaited.Some? ==> id == awaited.value)
    && Through(k, awaited, script[..i])
    && (seen || forall j :: 0 <= j < i ==> !Meets(k, script[j]).Keepalive?)
  }

  lemma StopsThere(
    k: Keeper, seen: bool, awaited: Option<nat>, before: Tape, after: Tape, e: Event, i: nat, id: nat
  )
    requires KeeperOk(k) && FirstAt(k, seen, awaited, before.polls, i, id)
    requires Stopped(k, awaited, before, after, e) && (!Passing(awaited, e) || (e.Keepalive? && !seen))
    ensures e == Meets(k, before.polls[i])
  {
  }

  /** The awaited message decides `connect` and `disconnect`, wherever in the script it stands. */
  lemma AwaitedThere(
    k: Keeper, seen: bool, before: Tape, after: Tape, wanted: nat, s: Schema, r: Attempt<Option<Value>>, i: nat
  )
    requires KeeperOk(k) && Awaited(k, seen, before, after, wanted, s, r)
    requires FirstAt(k, seen, Some(wanted), before.polls, i, wanted)
    ensures r == Opened(DecodeMessage(s, Meets(k, before.polls[i]).payload))
  {
    assert before.polls[..|before.polls|][i] == before.polls[i];
    var e :| Stopped(k, Some(wanted), before, after, e) && Grants(e, seen, wanted, s, r);
    StopsThere(k, seen, Some(wanted), before, after, e, i, wanted);
  }

  /** The first message decides `invoke`. */
  lemma RepliedThere(
    k: Keeper, seen: bool, before: Tape, after: Tape, reply: Api, replyId: nat, context: nat, r: Attempt<Value>,
    i: nat, id: nat
  )
    requires KeeperOk(k) && Replied(k, seen, before, after, reply, replyId, context, r)
    requires FirstAt(k, seen, None, before.polls, i, id)
    ensures r == Judged(id, DecodeMessage(reply.schema, Meets(k, before.polls[i]).payload), reply, replyId, context)
  {
    assert before.polls[..|before.polls|][i] == before.polls[i];
    var e :| Stopped(k, None, before, after, e) && Answered(e, seen, reply, replyId, context, r);
    StopsThere(k, seen, None, before, after, e, i, id);
  }

  // ----- the bytes of a keepalive and of its answer

  lemma NextInt(names: seq<string>, s: Schema, ss: seq<Schema>, input: seq<Byte>, at: nat)
    requires s.Int? && at <= |input|
    ensures var r := DecodeElements(false, names, [s] + ss, input, at);
            if |input| < at + s.width then r == Err("truncated")
            else
              var n := BytesInt(input[at..at + s.width], s.signed, Flagged(names));
              var rest := DecodeElements(false, Tail1(names), ss, input, at + s.width);
              if rest.Err? then r == Err(rest.error) else r == Ok(([IntV(n)] + rest.value.0, rest.value.1))
  {
    assert ([s] + ss)[1..] == ss && ([s] + ss)[0] == s;
  }

  lemma NamesInOrder(a: string, b: string, c: string)
    ensures Tail1([a, b, c]) == [b, c] && Tail1([b, c]) == [c]
  {
  }

  lemma TwoReads(b: string, c: string, s: Schema, t: Schema, input: seq<Byte>, at: nat)
    requires s.Int? && t.Int? && at <= |input|
    ensures var two := DecodeElements(false, [b, c], [s, t], input, at);
            if |input| < at + s.width + t.width then two == Err("truncated")
            else two.Ok? && two.value.1 == at + s.width + t.width && |two.value.0| == 2
                 && two.value.0[0] == IntV(BytesInt(input[at..at + s.width], s.signed, b == CLIENT_INDEX))
  {
    NamesInOrder(b, b, c);
    assert [s] + [t] == [s, t] && [t] + [] == [t];
    NextInt([b, c], s, [t], input, at);
    if at + s.width <= |input| { NextInt([c], t, [], input, at + s.width); }
  }

  lemma ThreeReads(a: string, b: string, c: string, r: Schema, s: Schema, t: Schema, input: seq<Byte>)
    requires r.Int? && s.Int? && t.Int?
    ensures var all := DecodeElements(false, [a, b, c], [r, s, t], input, 0);
            var n := r.width + s.width + t.width;
            if |input| < n then all == Err("truncated")
            else all.Ok? && all.value.1 == n && |all.value.0| == 3
                 && all.value.0[1] == IntV(BytesInt(input[r.width..r.width + s.width], s.signed, b == CLIENT_INDEX))
  {
    NamesInOrder(a, b, c);
    assert [r] + [s, t] == [r, s, t];
    NextInt([a, b, c], r, [s, t], input, 0);
    if r.width <= |input| { TwoReads(b, c, s, t, input, r.width); }
  }

  lemma StructReads(names: seq<string>, ss: seq<Schema>, payload: seq<Byte>)
    requires names != []
    ensures var r := DecodeElements(false, names, ss, payload, 0);
            DecodeMessage(Struct(names, ss), payload)
            == if r.Err? then Err(r.error)
               else if r.value.1 != |payload| then Err("trailing payload bytes")
               else Ok(SeqV(r.value.0))
  {
    var s := Struct(names, ss);
    assert Decode(s, payload, 0, false) == DecodeSequence(names, ss, payload, 0);
    assert (names == []) == false;
  }

  /** A keepalive is ten bytes long, and its token the third to sixth of them, in native byte order. */
  lemma KeepaliveReads(payload: seq<Byte>)
    ensures var r := DecodeMessage(KEEPALIVE, payload);
            && (|payload| < 10 ==> r == Err("truncated"))
            && (10 < |payload| ==> r == Err("trailing payload bytes"))
            && (|payload| == 10 ==> r.Ok? && FieldOf(r.value, 1) == FromLittleEndian(payload[2..6]))
  {
    ThreeReads("id", "client_index", "context", U16, U32, U32, payload);
    StructReads(["id", "client_index", "context"], [U16, U32, U32], payload);
    assert KEEPALIVE == Struct(["id", "client_index", "context"], [U16, U32, U32]);
  }

  lemma PutInt(names: seq<string>, s: Schema, ss: seq<Schema>, n: int, vs: seq<Value>)
    requires s.Int? && IntFits(n, s.width, s.signed) && AllFit(ss, vs) && !Flagged(names)
    ensures AllFit([s] + ss, [IntV(n)] + vs)
    ensures var r := EncodeElements(false, Tail1(names), ss, vs, false);
            r.Ok? ==> EncodeElements(false, names, [s] + ss, [IntV(n)] + vs, false) == Ok(IntBytes(n, s.width, false) + r.value)
  {
    assert ([s] + ss)[1..] == ss && ([IntV(n)] + vs)[1..] == vs;
  }

  lemma ShortForms(id: nat, payload: seq<Byte>)
    requires id < 65536 && |payload| == 10
    ensures BigEndian(id, 2) == [id / 256, id % 256] && BigEndian(0, 4) == [0, 0, 0, 0]
    ensures BigEndian(FromLittleEndian(payload[2..6]), 4) == [payload[5], payload[4], payload[3], payload[2]]
  {
    assert LittleEndian(id, 2) == [id % 256] + LittleEndian(id / 256, 1);
    ZeroBytes(4);
    LittleEndianUnique(payload[2..6]);
  }

  lemma ThreePut(a: string, b: string, c: string, r: Schema, s: Schema, t: Schema, x: int, y: int, z: int)
    requires a != CLIENT_INDEX && b != CLIENT_INDEX && c != CLIENT_INDEX
    requires r.Int? && IntFits(x, r.width, r.signed)
    requires s.Int? && IntFits(y, s.width, s.signed)
    requires t.Int? && IntFits(z, t.width, t.signed)
    ensures AllFit([r, s, t], [IntV(x), IntV(y), IntV(z)])
    ensures EncodeElements(false, [a, b, c], [r, s, t], [IntV(x), IntV(y), IntV(z)], false)
         == Ok(IntBytes(x, r.width, false) + (IntBytes(y, s.width, false) + IntBytes(z, t.width, false)))
  {
    NamesInOrder(a, b, c);
    assert [r] + [s, t] == [r, s, t] && [s] + [t] == [s, t] && [t] + [] == [t];
    assert [IntV(x)] + [IntV(y), IntV(z)] == [IntV(x), IntV(y), IntV(z)];
    assert [IntV(y)] + [IntV(z)] == [IntV(y), IntV(z)] && [IntV(z)] + [] == [IntV(z)];
    PutInt([c], t, [], z, []);
    assert IntBytes(z, t.width, false) + [] == IntBytes(z, t.width, false);
    PutInt([b, c], s, [t], y, [IntV(z)]);
    PutInt([a, b, c], r, [s, t], x, [IntV(y), IntV(z)]);
  }

  /** The answer's bytes: its id, the token with its bytes turned round, and zero. */
  lemma AnswerEncodes(id: nat, payload: seq<Byte>)
    requires id < 65536 && |payload| == 10
    ensures var v := KeepaliveAnswer(id, FromLittleEndian(payload[2..6]));
            Fits(KEEPALIVE_REPLY, v) && Encode(KEEPALIVE_REPLY, v, false) == Ok(AnswerBytes(id, payload))
  {
    SmallPowers();
    ShortForms(id, payload);
    var token := FromLittleEndian(payload[2..6]);
    ThreePut("id", "context", "retval", U16, U32, I32, id, token, 0);
    var names, ss, v := ["id", "context", "retval"], [U16, U32, I32], KeepaliveAnswer(id, token);
    assert Encode(Struct(names, ss), v, false) == EncodeElements(false, names, ss, v.vs, false);
    assert BigEndian(id, 2) + (BigEndian(token, 4) + BigEndian(0, 4)) == AnswerBytes(id, payload);
  }

  /** Trouble in the very first poll is what `receive` returns. */
  lemma TroubleFirst(k: Keeper, seen: bool, before: Tape, after: Tape, r: Attempt<Option<Buf>>)
    requires KeeperOk(k) && before.polls != [] && Meets(k, before.polls[0]).Trouble?
    requires Received(k, seen, before, after, r)
    ensures r == Failure(Meets(k, before.polls[0]).error)
  {
    assert before.polls[..|before.polls|][0] == before.polls[0];
  }
}
