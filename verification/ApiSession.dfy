/** Whole sessions: connecting, any sequence of calls after that, and whose reply an `invoke` returns. */
module ApiSession {
  import opened Bytes
  import opened Codec
  import opened CodecLaws
  import opened CodecMachines
  import opened Messages
  import opened MessageTable
  import opened ApiMemory
  import opened ApiTypes
  import opened ApiEvents
  import opened ApiClient
  import opened Contexts
  import QueueLayout

  // ----- connecting

  /** A name has an id exactly when some entry carries it, and the id is that of the last such entry. */
  ghost predicate Indexed(entries: seq<TableEntry>, ids: map<Name, Id>) {
    && (forall name :: name in ids <==> Carried(entries, name))
    && (forall i: nat :: i < |entries| && LastOf(entries, i) ==>
          entries[i].name in ids && ids[entries[i].name] == entries[i].id)
  }

  ghost predicate Carried(entries: seq<TableEntry>, name: Name) {
    exists i :: 0 <= i < |entries| && entries[i].name == name
  }

  ghost predicate LastOf(entries: seq<TableEntry>, i: nat)
    requires i < |entries|
  {
    forall j :: i < j < |entries| ==> entries[j].name != entries[i].name
  }

  /** The message ids a table gives; a name listed twice keeps its last id. */
  function Collect(entries: seq<TableEntry>): (ids: map<Name, Id>) {
    if entries == [] then map[]
    else
      var last := entries[|entries| - 1];
      Collect(entries[..|entries| - 1])[last.name := last.id]
  }

  lemma {:induction false} CollectIndexes(entries: seq<TableEntry>)
    ensures Indexed(entries, Collect(entries))
  {
    if entries != [] {
      var n := |entries| - 1;
      CollectIndexes(entries[..n]);
      IndexedNext(entries, Collect(entries[..n]));
    }
  }

  lemma IndexedNext(entries: seq<TableEntry>, ids: map<Name, Id>)
    requires entries != [] && Indexed(entries[..|entries| - 1], ids)
    ensures var last := entries[|entries| - 1]; Indexed(entries, ids[last.name := last.id])
  {
    var n := |entries| - 1;
    var front, more := entries[..n], ids[entries[n].name := entries[n].id];
    forall name ensures name in more <==> Carried(entries, name) { CarriedNext(entries, name); }
    forall i: nat | i < |entries| && LastOf(entries, i)
      ensures entries[i].name in more && more[entries[i].name] == entries[i].id
    {
      if i < n {
        assert front[i] == entries[i] && LastOf(front, i) && entries[n].name != entries[i].name;
        assert Carried(front, entries[i].name);
      }
    }
  }

  lemma CarriedNext(entries: seq<TableEntry>, name: Name)
    requires entries != []
    ensures var n := |entries| - 1;
            Carried(entries, name) <==> Carried(entries[..n], name) || name == entries[n].name
  {
    var n := |entries| - 1;
    if Carried(entries[..n], name) {
      var i :| 0 <= i < n && entries[..n][i].name == name;
      assert entries[i].name == name;
    }
    if Carried(entries, name) && name != entries[n].name {
      var i :| 0 <= i < |entries| && entries[i].name == name;
      assert entries[..n][i].name == name;
    }
  }

  /** The server's table, at the address its reply names; nothing there, or nothing readable, is an error. */
  type Tables = nat -> Option<seq<Byte>>

  /** The table at that address reads, and these are its ids. */
  ghost predicate TableGives(tables: Tables, address: nat, ids: map<Name, Id>) {
    && tables(address).Some? && ReadTable(tables(address).value).Ok?
    && Indexed(ReadTable(tables(address).value).value, ids)
  }

  function IdsAt(tables: Tables, address: nat): (r: Attempt<map<Name, Id>>)
    ensures r.Success? ==> TableGives(tables, address, r.value)
    ensures r.Success? <==> tables(address).Some? && ReadTable(tables(address).value).Ok?
    ensures r.Failure? ==> !Leaks(r.error) && !r.error.CreateRejected?
  {
    if tables(address).None? then Failure(InvalidTable)
    else
      var input := tables(address).value;
      var entries := ReadTable(input);
      if entries.Err? then Failure(Undecodable(entries.error))
      else
        CollectIndexes(entries.value);
        Success(Collect(entries.value))
  }

  lemma GreetingGoesOut(queue: nat, name: seq<Byte>, keepalive: bool)
    requires queue < USIZE_LIMIT
    ensures var v := Greeting(queue, name, keepalive);
            Typed(CREATE) && Fits(CREATE, v) && Encodable(CREATE, v) && Size(CREATE, v) < USIZE_LIMIT
  {
    CreateTyped();
    GreetingFits(queue, name, keepalive);
    CreateWidth();
    FixedWidth(CREATE, Greeting(queue, name, keepalive));
  }

  /** A reply to the create request arrived that accepts the client and names its index and table. */
  ghost predicate Admits(script: seq<Poll>, tables: Tables, index: nat, ids: map<Name, Id>) {
    exists v :: Delivered(script, CREATE_REPLY_ID, CREATE_REPLY, v) && AdmitsBy(v, tables, index, ids)
  }

  ghost predicate AdmitsBy(v: Value, tables: Tables, index: nat, ids: map<Name, Id>) {
    0 <= FieldOf(v, 2) && FieldOf(v, 4) == index && 0 <= FieldOf(v, 5) && TableGives(tables, FieldOf(v, 5), ids)
  }

  /** A client that has no ids yet takes every message as it comes. */
  const NO_IDS: Keeper := Keeper(None, None, [])

  function ErrorOf<T>(r: Attempt<T>): Option<ClientError> {
    if r.Success? then None else Some(r.error)
  }

  /** What `connect` makes of the answer to its request. */
  ghost predicate Greeted(
    answer: Attempt<Option<Value>>, tables: Tables, error: Option<ClientError>, index: Option<nat>, ids: map<Name, Id>
  )
  {
    match answer
    case Failure(reason) => error == Some(reason)
    case Success(None) => error == Some(ConnectTimeout)
    case Success(Some(v)) =>
      if FieldOf(v, 2) < 0 then error == Some(CreateRejected(FieldOf(v, 2)))
      else if FieldOf(v, 5) < 0 || tables(FieldOf(v, 5)).None? then error == Some(InvalidTable)
      else if ReadTable(tables(FieldOf(v, 5)).value).Err? then error.Some? && error.value.Undecodable?
      else error.None? && index.Some? && AdmitsBy(v, tables, index.value, ids)
  }

  /** The first create reply decides `connect`, wherever in the script it stands. */
  ghost predicate GreetedByFirst(
    script: seq<Poll>, tables: Tables, error: Option<ClientError>, index: Option<nat>, ids: map<Name, Id>
  )
  {
    forall i: nat :: FirstAt(NO_IDS, true, Some(26), script, i, 26) ==>
      Greeted(Opened(DecodeMessage(CREATE_REPLY, script[i].payload)), tables, error, index, ids)
  }

  lemma GreetedFollows(
    script: seq<Poll>, tables: Tables, answer: Attempt<Option<Value>>,
    error: Option<ClientError>, index: Option<nat>, ids: map<Name, Id>
  )
    requires FirstDecides(NO_IDS, true, script, 26, CREATE_REPLY, answer)
    requires Greeted(answer, tables, error, index, ids)
    ensures GreetedByFirst(script, tables, error, index, ids)
  {
  }

  function IndexGiven(r: Attempt<Client>): Option<nat>
    reads if r.Success? then {r.value} else {}
  {
    if r.Success? then r.value.clientIndex else None
  }

  function IdsGiven(r: Attempt<Client>): map<Name, Id>
    reads if r.Success? then {r.value} else {}
  {
    if r.Success? then r.value.messageIds else map[]
  }

  /**
    `connect`, once the region is mapped. A rejected client releases its response queue, once; on
    the other failures the queue stays with the server. With memory for the queue and the request seen by
    the server, the first create reply decides, whatever else arrives before it.
   */
  method Connect(
    shared: Shared, capacity: nat, memory: bool, handleKeepalives: bool, known: Known,
    queue: nat, name: seq<Byte>, tables: Tables
  ) returns (r: Attempt<Client>, ghost releases: nat)
    requires shared.Holds({}) && queue < USIZE_LIMIT && 0 < capacity < QueueLayout.U32_LIMIT
    modifies shared
    ensures shared.Holds({}) && Conserved(old(shared.Record()), shared.Record())
    ensures shared.lost != old(shared.lost) <==> r.Failure? && Leaks(r.error)
    ensures releases == (if r.Failure? && r.error.CreateRejected? then 1 else 0)
    ensures !memory ==> r == Failure(QueueUnavailable) && shared.Record() == old(shared.Record())
    ensures r.Success? ==>
      && fresh(r.value) && r.value.Valid() && r.value.issued == 0 && r.value.queueBlock.Some?
      && r.value.handleKeepalives == handleKeepalives && r.value.known == known
      && r.value.clientIndex.Some?
      && Admits(old(shared.polls), tables, r.value.clientIndex.value, r.value.messageIds)
      && SentThenAnswers(NO_IDS, CREATE, Greeting(queue, name, handleKeepalives), old(shared.Tape()), shared.Tape())
    ensures memory && Goes(shared.posts(old(shared.posted))) ==>
      GreetedByFirst(old(shared.polls), tables, ErrorOf(r), IndexGiven(r), IdsGiven(r))
  {
    releases := 0;
    ConservedSame(shared.Record(), shared.Record());
    QueueLayout.NeverOverflows(capacity, POINTER_BYTES);
    var layout := QueueLayout.SizeToAlloc(capacity, POINTER_BYTES);
    if !memory {
      return Failure(QueueUnavailable), 0;
    }
    var client := new Client(handleKeepalives, known, capacity, layout.bytes);
    var greeted := Greet(client, shared, queue, name, tables);
    releases := client.releases;
    r := if greeted.Failure? then Failure(greeted.error) else Success(client);
    assert ErrorOf(r) == ErrorOf(greeted) && IndexGiven(r) == client.clientIndex && IdsGiven(r) == client.messageIds;
  }

  /** The exchange of `connect`, and what a client makes of the answer. */
  method Greet(client: Client, shared: Shared, queue: nat, name: seq<Byte>, tables: Tables) returns (r: Attempt<()>)
    requires client.Valid() && client.clientIndex.None? && client.queueBlock.Some? && client.messageIds == map[]
    requires shared.Holds({}) && queue < USIZE_LIMIT
    modifies client, shared
    ensures client.Valid() && client.issued == old(client.issued)
    ensures client.releases == (if r.Failure? && r.error.CreateRejected? then 1 else 0)
    ensures shared.Holds({}) && Conserved(old(shared.Record()), shared.Record())
    ensures shared.lost != old(shared.lost) <==> r.Failure? && Leaks(r.error)
    ensures r.Success? ==>
      && client.clientIndex.Some?
      && Admits(old(shared.polls), tables, client.clientIndex.value, client.messageIds)
      && SentThenAnswers(NO_IDS, CREATE, Greeting(queue, name, client.handleKeepalives), old(shared.Tape()), shared.Tape())
    ensures r.Failure? ==> client.clientIndex.None? && client.messageIds == map[]
    ensures Goes(shared.posts(old(shared.posted))) ==>
      GreetedByFirst(old(shared.polls), tables, ErrorOf(r), client.clientIndex, client.messageIds)
  {
    var answer := AskToJoin(client, shared, queue, name);
    r := Settle(client, answer, tables);
    if Goes(shared.posts(old(shared.posted))) {
      GreetedFollows(old(shared.polls), tables, answer, ErrorOf(r), client.clientIndex, client.messageIds);
    }
  }

  /** The create request goes out, and the create reply is waited for. */
  method AskToJoin(client: Client, shared: Shared, queue: nat, name: seq<Byte>) returns (r: Attempt<Option<Value>>)
    requires client.Valid() && client.queueBlock.Some? && client.messageIds == map[]
    requires shared.Holds({}) && queue < USIZE_LIMIT
    modifies shared
    ensures shared.Holds({}) && Conserved(old(shared.Record()), shared.Record())
    ensures shared.lost != old(shared.lost) <==> r.Failure? && Leaks(r.error)
    ensures r.Failure? ==> !r.error.CreateRejected?
    ensures r.Success? ==>
      SentThenAnswers(NO_IDS, CREATE, Greeting(queue, name, client.handleKeepalives), old(shared.Tape()), shared.Tape())
    ensures r.Success? && r.value.Some? ==>
      Fits(CREATE_REPLY, r.value.value) && Delivered(old(shared.polls), 26, CREATE_REPLY, r.value.value)
    ensures Goes(shared.posts(old(shared.posted))) ==> FirstDecides(NO_IDS, true, old(shared.polls), 26, CREATE_REPLY, r)
  {
    var greeting := Greeting(queue, name, client.handleKeepalives);
    GreetingGoesOut(queue, name, client.handleKeepalives);
    r := client.Exchange(shared, CREATE, greeting, CREATE_REPLY_ID, CREATE_REPLY);
    NobodyKeeps(client.Keeps(), AllSeen(shared.posts), shared.posts(old(shared.posted)), old(shared.Tape()), shared.Tape(),
                CREATE, greeting, CREATE_REPLY_ID, CREATE_REPLY, r);
  }

  /** Without ids there are no keepalives, and it does not matter whether sends are seen. */
  lemma NobodyKeeps(
    k: Keeper, seen: bool, post: Post, before: Tape, after: Tape, s: Schema, v: Value, replyId: nat, reply: Schema,
    r: Attempt<Option<Value>>
  )
    requires KeeperOk(k) && k.keepalive.None? && Fits(s, v) && Met(k, seen, post, before, after, s, v, replyId, reply, r)
    ensures r.Failure? ==> !r.error.CreateRejected?
    ensures r.Success? ==> SentThenAnswers(NO_IDS, s, v, before, after)
    ensures r.Success? && r.value.Some? ==>
      Fits(reply, r.value.value) && Delivered(before.polls, replyId, reply, r.value.value)
    ensures GoesOut(s, v, post) ==> FirstDecides(NO_IDS, true, before.polls, replyId, reply, r)
  {
    MetMeans(k, seen, post, before, after, s, v, replyId, reply, r);
    forall p: Poll ensures Meets(k, p) == Meets(NO_IDS, p) && !Meets(k, p).Keepalive? {}
    if r.Success? {
      var n :| 0 <= n <= |before.polls| && after.sent == AfterSend(before, s, v).sent + Answers(k, before.polls[..n]);
      SameAnswers(k, before.polls[..n]);
      assert after.sent == AfterSend(before, s, v).sent + Answers(NO_IDS, before.polls[..n]);
    }
    if GoesOut(s, v, post) {
      forall i: nat | FirstAt(NO_IDS, true, Some(replyId), before.polls, i, replyId)
        ensures r == Opened(DecodeMessage(reply, before.polls[i].payload))
      {
        assert FirstAt(k, seen, Some(replyId), before.polls, i, replyId);
      }
    }
  }

  lemma {:induction false} SameAnswers(k: Keeper, polls: seq<Poll>)
    requires KeeperOk(k) && k.keepalive.None?
    ensures Answers(k, polls) == Answers(NO_IDS, polls) == []
  {
    if polls != [] { SameAnswers(k, polls[..|polls| - 1]); }
  }

  /** What follows from the answer: a rejected client releases its queue, an accepted one takes what the reply names. */
  method Settle(client: Client, answer: Attempt<Option<Value>>, tables: Tables) returns (r: Attempt<()>)
    requires client.Valid() && client.clientIndex.None? && client.queueBlock.Some? && client.messageIds == map[]
    requires answer.Success? && answer.value.Some? ==> Fits(CREATE_REPLY, answer.value.value)
    requires answer.Failure? ==> !answer.error.CreateRejected?
    modifies client
    ensures client.Valid() && client.issued == old(client.issued)
    ensures client.releases == (if r.Failure? && r.error.CreateRejected? then 1 else 0)
    ensures r.Failure? ==> client.clientIndex.None? && client.messageIds == map[]
    ensures Greeted(answer, tables, ErrorOf(r), client.clientIndex, client.messageIds)
    ensures answer.Success? && r.Failure? ==> !Leaks(r.error)
  {
    if answer.Failure? {
      return Failure(answer.error);
    }
    if answer.value.None? {
      return Failure(ConnectTimeout);
    }
    var v := answer.value.value;
    if FieldOf(v, 2) < 0 {
      client.ReleaseQueue();
      return Failure(CreateRejected(FieldOf(v, 2)));
    }
    ReplyFields(v);
    var ids := IdsAt(tables, FieldOf(v, 5));
    if ids.Failure? {
      return Failure(ids.error);
    }
    client.messageIds := ids.value;
    client.clientIndex := Some(FieldOf(v, 4));
    r := Success(());
  }

  // ----- correlation

  /** The server echoes: a reply of this type carries the context of the request it answers. */
  ghost predicate Echoes(p: Poll, reply: Api, id: nat) {
    p.Arrived? && MessageId(p.payload) == Ok(id) && DecodeMessage(reply.schema, p.payload).Ok? ==>
      0 < p.answers
      && ContextOf(reply, DecodeMessage(reply.schema, p.payload).value) == Some(ContextAt(p.answers))
  }

  /** A server that echoes, none of whose replies of this type answers a request a whole window away. */
  ghost predicate EchoServer(script: seq<Poll>, reply: Api, id: nat, k: nat) {
    forall i :: 0 <= i < |script| ==>
      && Echoes(script[i], reply, id)
      && (script[i].Arrived? && MessageId(script[i].payload) == Ok(id) ==> Near(script[i].answers, k))
  }

  /**
    With a server that echoes, the reply an `invoke` accepts answers that very request, however many
    stale replies were queued, as long as none is a whole window of contexts old.
   */
  lemma OwnReply(reply: Api, id: nat, script: seq<Poll>, v: Value, k: nat) returns (i: nat)
    requires 0 < k && Delivered(script, id, reply.schema, v)
    requires ContextOf(reply, v).Some? ==> ContextOf(reply, v).value == ContextAt(k)
    requires EchoServer(script, reply, id, k)
    ensures i < |script| && IsDelivery(script[i], id, reply.schema, v) && script[i].answers == k
  {
    i :| 0 <= i < |script| && IsDelivery(script[i], id, reply.schema, v);
    NearContextsDiffer(script[i].answers, k);
  }

  /** The value came in a message that answers request `k`. */
  ghost predicate AnswersRequest(script: seq<Poll>, id: nat, s: Schema, v: Value, k: nat) {
    exists i :: 0 <= i < |script| && IsDelivery(script[i], id, s, v) && script[i].answers == k
  }

  /** `invoke` against a server that echoes: the reply returned is the reply to this request. */
  method InvokeEchoed(
    client: Client, shared: Shared, request: Api, reply: Api, fill: Request
  ) returns (r: Attempt<Value>)
    requires client.Valid() && shared.Holds({})
    requires reply.nameCrc in client.messageIds ==>
      EchoServer(shared.polls, reply, client.messageIds[reply.nameCrc], client.issued + 1)
    requires ApiOk(request) && ApiOk(reply) && RequestOk(request.schema, fill)
    modifies client, shared
    ensures client.Valid() && shared.Holds({})
    ensures r.Success? ==>
      && reply.nameCrc in client.messageIds
      && AnswersRequest(old(shared.polls), client.messageIds[reply.nameCrc], reply.schema, r.value, old(client.issued) + 1)
  {
    r := client.Invoke(shared, request, reply, fill);
    if r.Success? {
      ghost var i := OwnReply(reply, client.messageIds[reply.nameCrc], old(shared.polls), r.value, client.issued);
    }
  }

  /** The window is tight: the context of request `k` is also that of request `k + WINDOW`. */
  lemma WindowIsTight(k: nat)
    requires 0 < k
    ensures ContextAt(k + WINDOW) == ContextAt(k) && !Near(k, k + WINDOW)
  {
    ContextsCoincide(k, k + WINDOW);
  }

  // ----- sessions

  datatype Call = Ask(request: Api, reply: Api, fill: Request) | Leave

  ghost predicate CallOk(c: Call) {
    c.Ask? ==> ApiOk(c.request) && ApiOk(c.reply) && RequestOk(c.request.schema, c.fill)
  }

  method Perform(client: Client, shared: Shared, call: Call) returns (r: Attempt<Value>)
    requires client.Valid() && shared.Holds({}) && CallOk(call)
    modifies client, shared
    ensures client.Valid() && shared.Holds({}) && Conserved(old(shared.Record()), shared.Record())
    ensures shared.lost != old(shared.lost) <==> r.Failure? && Leaks(r.error)
    ensures old(client.clientIndex).None? ==>
      && r == Failure(NotConnected) && shared.Record() == old(shared.Record())
      && client.clientIndex.None? && client.queueBlock == old(client.queueBlock)
    ensures call.Leave? && r.Success? ==> client.clientIndex.None? && client.queueBlock.None?
  {
    match call
    case Ask(request, reply, fill) => r := client.Invoke(shared, request, reply, fill);
    case Leave => r := LeaveCall(client, shared);
  }

  method LeaveCall(client: Client, shared: Shared) returns (r: Attempt<Value>)
    requires client.Valid() && shared.Holds({})
    modifies client, shared
    ensures client.Valid() && shared.Holds({}) && Conserved(old(shared.Record()), shared.Record())
    ensures shared.lost != old(shared.lost) <==> r.Failure? && Leaks(r.error)
    ensures old(client.clientIndex).None? ==>
      && r == Failure(NotConnected) && shared.Record() == old(shared.Record())
      && client.clientIndex.None? && client.queueBlock == old(client.queueBlock)
    ensures r.Success? ==> client.clientIndex.None? && client.queueBlock.None?
  {
    var left := client.Disconnect(shared);
    r := if left.Success? then Success(UnitV) else Failure(left.error);
  }

  /** From the disconnect at `i` on, calls are refused and the shared memory stays as it was. */
  ghost predicate Over(calls: seq<Call>, results: seq<Attempt<Value>>, marks: seq<Record>, i: nat, j: nat)
    requires i < |results| <= |calls| && |results| < |marks| && j < |results|
  {
    calls[i].Leave? && results[i].Success? && i < j ==> results[j] == Failure(NotConnected) && marks[j + 1] == marks[i + 1]
  }

  ghost predicate Told(calls: seq<Call>, results: seq<Attempt<Value>>, marks: seq<Record>) {
    && |results| <= |calls| && |marks| == |results| + 1
    && forall i, j :: 0 <= i < j < |results| ==> Over(calls, results, marks, i, j)
  }

  /** If a disconnect has succeeded, the client is gone and nothing has changed since. */
  ghost predicate GoneSince(calls: seq<Call>, results: seq<Attempt<Value>>, marks: seq<Record>, gone: bool)
    requires |results| <= |calls| && |marks| == |results| + 1
  {
    forall i :: 0 <= i < |results| && calls[i].Leave? && results[i].Success? ==> gone && marks[i + 1] == marks[|results|]
  }

  lemma TellNext(
    calls: seq<Call>, results: seq<Attempt<Value>>, marks: seq<Record>, gone: bool,
    r: Attempt<Value>, mark: Record, goes: bool
  )
    requires Told(calls, results, marks) && |results| < |calls| && GoneSince(calls, results, marks, gone)
    requires gone ==> r == Failure(NotConnected) && mark == marks[|results|] && goes
    requires calls[|results|].Leave? && r.Success? ==> goes
    ensures Told(calls, results + [r], marks + [mark]) && GoneSince(calls, results + [r], marks + [mark], goes)
  {
    forall i, j | 0 <= i < j < |results| + 1 ensures Over(calls, results + [r], marks + [mark], i, j) {
      if j < |results| { assert Over(calls, results, marks, i, j); }
    }
  }

  /**
    Any sequence of calls; `marks` records the shared memory before the first call and after each. A
    buffer is lost exactly when a bad poll is consumed, the response queue is released at most once, and
    after the disconnect that releases it no call polls it or touches anything else.
   */
  method Session(client: Client, shared: Shared, calls: seq<Call>)
    returns (results: seq<Attempt<Value>>, ghost marks: seq<Record>)
    requires client.Valid() && shared.Holds({})
    requires forall i :: 0 <= i < |calls| ==> CallOk(calls[i])
    modifies client, shared
    ensures |results| == |calls| && Told(calls, results, marks)
    ensures marks[0] == old(shared.Record()) && marks[|calls|] == shared.Record()
    ensures client.Valid() && client.releases <= 1
    ensures shared.Holds({}) && Conserved(old(shared.Record()), shared.Record())
    ensures old(client.clientIndex).None? ==> shared.Record() == old(shared.Record())
  {
    results, marks := [], [shared.Record()];
    ConservedSame(shared.Record(), shared.Record());
    while |results| < |calls|
      invariant Told(calls, results, marks) && GoneSince(calls, results, marks, client.clientIndex.None?)
      invariant marks[0] == old(shared.Record()) && marks[|results|] == shared.Record()
      invariant client.Valid() && shared.Holds({}) && Conserved(old(shared.Record()), shared.Record())
      invariant old(client.clientIndex).None? ==> client.clientIndex.None? && shared.Record() == old(shared.Record())
      decreases |calls| - |results|
    {
      ghost var gone, before := client.clientIndex.None?, shared.Record();
      var r := Perform(client, shared, calls[|results|]);
      ConservedOn(old(shared.Record()), before, shared.Record());
      TellNext(calls, results, marks, gone, r, shared.Record(), client.clientIndex.None?);
      results, marks := results + [r], marks + [shared.Record()];
    }
  }

  /**
    A whole run: connect, and if it succeeds any calls after it. Over all of it a buffer is lost exactly
    when a bad poll is consumed, and the response queue is released at most once.
   */
  method WholeRun(
    shared: Shared, capacity: nat, memory: bool, handleKeepalives: bool, known: Known,
    queue: nat, name: seq<Byte>, tables: Tables, calls: seq<Call>
  ) returns (connected: Attempt<Client>, results: seq<Attempt<Value>>, ghost marks: seq<Record>, ghost releases: nat)
    requires shared.Holds({}) && queue < USIZE_LIMIT && 0 < capacity < QueueLayout.U32_LIMIT
    requires forall i :: 0 <= i < |calls| ==> CallOk(calls[i])
    modifies shared
    ensures shared.Holds({}) && Conserved(old(shared.Record()), shared.Record())
    ensures (forall i :: 0 <= i < |old(shared.polls)| ==> !Bad(old(shared.polls)[i])) ==> shared.lost == old(shared.lost)
    ensures releases <= 1
    ensures connected.Failure? ==> results == []
    ensures connected.Success? ==>
      && |results| == |calls| && Told(calls, results, marks)
      && fresh(connected.value) && connected.value.Valid() && releases == connected.value.releases
  {
    connected, releases := Connect(shared, capacity, memory, handleKeepalives, known, queue, name, tables);
    results, marks := [], [];
    if connected.Success? {
      ghost var before := shared.Record();
      results, marks := Session(connected.value, shared, calls);
      releases := connected.value.releases;
      ConservedOn(old(shared.Record()), before, shared.Record());
    }
  }

  /** The exits that lose a buffer are reached: a one-byte message is popped, cannot be identified, and is dropped. */
  method ShortMessageLeaks() returns (shared: Shared)
    ensures fresh(shared) && shared.Holds({}) && shared.lost != {}
  {
    shared := new Shared([Arrived([7], false, true, 0)], _ => NoMemory);
    QueueLayout.NeverOverflows(1, POINTER_BYTES);
    var layout := QueueLayout.SizeToAlloc(1, POINTER_BYTES);
    var client := new Client(false, Known([], [], [], []), 1, layout.bytes);
    ghost var before := shared.Tape();
    var received := client.Receive(shared);
    TroubleFirst(client.Keeps(), AllSeen(shared.posts), before, shared.Tape(), received);
  }
}
