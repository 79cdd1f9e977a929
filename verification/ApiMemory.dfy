/**
  What an API client shares with the server: message buffers, the server's request queue and the
  client's response queue. The outside world is a script: what each poll of the response queue
  meets, and what each send meets. Every buffer has a place in a ledger, and the operations demand
  the place they need, so a buffer freed twice, used after it was queued or read after it was freed
  would be a failed precondition.
 */
module ApiMemory {
  import opened Bytes
  import opened QueueProtocol
  import opened QueueRuns

  /** One poll of the response queue. */
  datatype Poll =
    | Quiet                       // empty, deadline not reached
    | Expired                     // empty, deadline reached
    | Arrived(
        payload: seq<Byte>,
        ring: bool,               // the buffer belongs to a ring, not to the heap
        valid: bool,              // the popped address passes `from_address`
        answers: nat)             // which of the client's requests the server answered
    | PollFailed(outcome: Outcome)

  /** One send: the allocation fails, or the request queue's `add` has an outcome. */
  datatype Post = NoMemory | Tried(outcome: Outcome)

  /** The server can see a message after `add`; `CommitExact` is why this is the test. */
  predicate Seen(outcome: Outcome) { outcome.Added? || Committed(outcome, AddKind) }

  datatype Place = Mine | Queued | Freed | Returned

  datatype Buf = Buf(serial: nat, payload: seq<Byte>)

  /** Buffers are never forgotten, and only the holder moves one. */
  ghost predicate Onward(before: map<nat, Place>, after: map<nat, Place>) {
    forall s :: s in before ==> s in after && (before[s] != Mine ==> after[s] == before[s])
  }

  /** The two directions of the conversation: what the polls will still meet, and what the server has been sent. */
  datatype Tape = Taped(polls: seq<Poll>, sent: seq<seq<Byte>>)

  datatype Record = Recorded(ledger: map<nat, Place>, lost: set<nat>, sent: seq<seq<Byte>>, polls: seq<Poll>)

  class Shared {
    var polls: seq<Poll>
    const posts: nat -> Post
    var posted: nat
    var next: nat
    var blocks: set<nat>      // buffers whose memory is allocated
    var marked: set<nat>      // buffers whose prefix names a ring
    ghost var ledger: map<nat, Place>
    ghost var lost: set<nat>  // buffers dropped without being freed
    ghost var sent: seq<seq<Byte>>

    constructor (polls: seq<Poll>, posts: nat -> Post)
      ensures Holds({}) && lost == {} && sent == [] && this.polls == polls && this.posts == posts
    {
      this.polls := polls;
      this.posts := posts;
      posted, next, blocks, marked := 0, 0, {}, {};
      ledger, lost, sent := map[], {}, [];
    }

    ghost function Record(): (r: Record)
      reads this
    {
      Recorded(ledger, lost, sent, polls)
    }

    ghost function Tape(): (t: Tape)
      reads this
    {
      Taped(polls, sent)
    }

    /** The buffers in the client's hands are those it lost and the ones in `hands`. */
    ghost predicate Holds(hands: set<nat>)
      reads this
    {
      && lost !! hands && lost + hands <= ledger.Keys
      && forall s :: s in ledger ==>
           && s < next
           && (ledger[s] == Mine <==> s in lost + hands)
           && (s in blocks <==> ledger[s] != Freed)
           && (s in marked ==> ledger[s] == Mine)
    }

    method Allocate(payload: seq<Byte>) returns (b: Buf)
      requires Holds({})
      modifies this
      ensures Holds({b.serial}) && b.payload == payload && b.serial !in marked
      ensures b.serial !in old(ledger) && ledger == old(ledger)[b.serial := Mine]
      ensures polls == old(polls) && posted == old(posted) && lost == old(lost) && sent == old(sent)
    {
      b := Buf(next, payload);
      blocks, marked, next := blocks + {next}, marked - {next}, next + 1;
      ledger := ledger[b.serial := Mine];
    }

    /** `add` to the server's queue. */
    method Add(b: Buf) returns (outcome: Outcome)
      requires Holds({b.serial}) && b.serial !in marked && posts(posted).Tried?
      modifies this
      ensures outcome == posts(old(posted)).outcome && posted == old(posted) + 1
      ensures Seen(outcome) ==>
        Holds({}) && ledger == old(ledger)[b.serial := Queued] && sent == old(sent) + [b.payload]
      ensures !Seen(outcome) ==> Holds({b.serial}) && ledger == old(ledger) && sent == old(sent)
      ensures marked == old(marked) && polls == old(polls) && lost == old(lost)
    {
      outcome := posts(posted).outcome;
      posted := posted + 1;
      if Seen(outcome) {
        ledger, sent := ledger[b.serial := Queued], sent + [b.payload];
      }
    }

    /** `sub` from the response queue, when a message is there. */
    method Pop() returns (b: Buf)
      requires Holds({}) && polls != [] && polls[0].Arrived?
      modifies this
      ensures Holds({b.serial}) && b.payload == old(polls[0]).payload
      ensures b.serial in marked <==> old(polls[0]).ring
      ensures b.serial !in old(ledger) && ledger == old(ledger)[b.serial := Mine]
      ensures polls == old(polls)[1..] && posted == old(posted) && lost == old(lost) && sent == old(sent)
    {
      b := Buf(next, polls[0].payload);
      blocks, next := blocks + {next}, next + 1;
      marked := if polls[0].ring then marked + {b.serial} else marked - {b.serial};
      ledger := ledger[b.serial := Mine];
      polls := polls[1..];
    }

    /** An empty poll. */
    method Skip()
      requires polls != []
      modifies this`polls
      ensures polls == old(polls)[1..]
    {
      polls := polls[1..];
    }

    /** `sub` reports an error. After a commit the message is gone from the queue and nobody has it. */
    method PopFailing() returns (outcome: Outcome)
      requires Holds({}) && polls != [] && polls[0].PollFailed?
      modifies this
      ensures Holds({}) && outcome == old(polls[0]).outcome
      ensures if Committed(outcome, SubKind) then
                (exists s :: s !in old(ledger) && ledger == old(ledger)[s := Mine] && lost == old(lost) + {s})
              else ledger == old(ledger) && lost == old(lost)
      ensures polls == old(polls)[1..] && posted == old(posted) && sent == old(sent)
    {
      outcome := polls[0].outcome;
      polls := polls[1..];
      if Committed(outcome, SubKind) {
        blocks, marked := blocks + {next}, marked - {next};
        ledger, lost := ledger[next := Mine], lost + {next};
        assert old(next) !in old(ledger) && ledger == old(ledger)[old(next) := Mine] && lost == old(lost) + {old(next)};
        next := next + 1;
      }
    }

    /** `MsgBuf::free`: a ring's buffer is handed back by clearing its marker, any other is deallocated. */
    method Free(b: Buf)
      requires Holds({b.serial})
      modifies this
      ensures Holds({})
      ensures ledger == old(ledger)[b.serial := if b.serial in old(marked) then Returned else Freed]
      ensures polls == old(polls) && posted == old(posted) && lost == old(lost) && sent == old(sent)
    {
      if b.serial in marked {
        marked := marked - {b.serial};
        ledger := ledger[b.serial := Returned];
      } else {
        blocks := blocks - {b.serial};
        ledger := ledger[b.serial := Freed];
      }
    }

    /** A buffer goes out of scope unfreed. */
    ghost method Abandon(b: Buf)
      requires Holds({b.serial})
      modifies this`lost
      ensures Holds({}) && lost == old(lost) + {b.serial} && b.serial !in old(lost)
    {
      lost := lost + {b.serial};
    }
  }
}
