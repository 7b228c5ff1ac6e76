/** lab_2 part3's slotted-ALOHA server. All handler threads share one slot
    index (`initialized`) and one collision flag: the first request of a slot
    opens it with the flag clear, any later request in the same slot sets the
    flag, and a transfer that finds the flag set before a word answers
    `HUH!\n` instead and stops. Time is an input (milliseconds since the
    epoch); the requests of other handlers that land between two word sends
    are an input too. */
module AlohaServer {
  import opened Wire
  import opened Burst
  import Chunk
  import ChunkServer

  /** The shared `ServerState`. */
  datatype Medium = Medium(initialized: int, collision: bool)

  /** The slot of millisecond time `t`. */
  function Slot(t: nat, T: nat): nat
    requires T >= 1
  {
    t / T
  }

  /** A request arriving in slot `slot` opens that slot or collides in it. */
  function Arrive(m: Medium, slot: int): Medium
  {
    if slot != m.initialized then Medium(slot, false)
    else if !m.collision then Medium(m.initialized, true)
    else m
  }

  /** The requests of other handlers arriving at times `ts`, in order. */
  function ArriveAll(m: Medium, T: nat, ts: seq<nat>): Medium
    requires T >= 1
    decreases |ts|
  {
    if ts == [] then m else ArriveAll(Arrive(m, Slot(ts[0], T)), T, ts[1..])
  }

  /** The arrivals that land just before word `i` is checked. */
  function Between(during: seq<seq<nat>>, i: nat): seq<nat>
  {
    if i < |during| then during[i] else []
  }

  /** How a transfer ends: the words sent, whether it stopped on a
      collision, and the shared state after it. */
  datatype Transfer = Transfer(count: nat, collided: bool, after: Medium)

  /** The send loop over a corpus of `n` words from word `i` on. */
  function TransferFrom(n: nat, T: nat, offset: nat, i: nat, m: Medium, during: seq<seq<nat>>): (r: Transfer)
    requires T >= 1 && offset + i <= n
    ensures i <= r.count
    decreases MaxWords - i
  {
    if i >= MaxWords || offset + i >= n then Transfer(i, false, m)
    else
      var m1 := ArriveAll(m, T, Between(during, i));
      if m1.collision then Transfer(i, true, m1)
      else TransferFrom(n, T, offset, i + 1, m1, during)
  }

  /** One request: `Respond`'s result and the state it leaves. */
  datatype Reply = Reply(sent: seq<string>, ending: ChunkServer.Ending, after: Medium)

  /** A request as the handler receives it: its arrival time, the parsed
      offset, and the other handlers' arrivals before each word check. */
  datatype Request = Request(time: nat, offset: int, during: seq<seq<nat>>) | Hangup

  /** What the handler does with one request. `Idle` marks a request after
      which the handler reads the next one. */
  function Respond(words: seq<string>, T: nat, m: Medium, time: nat, offset: int, during: seq<seq<nat>>): Reply
    requires T >= 1
  {
    var m1 := Arrive(m, Slot(time, T));
    if Chunk.OutOfRange(offset, |words|) then Reply([OutOfRangeReply], ChunkServer.Rejected, m1)
    else
      var r := TransferFrom(|words|, T, offset, 0, m1, during);
      Reply(Sent(words, offset, r.count, r.collided), if offset + r.count >= |words| then ChunkServer.Served else ChunkServer.Idle, r.after)
  }

  /** `handleClient` over the requests of one connection. */
  function Handle(words: seq<string>, T: nat, m: Medium, reqs: seq<Request>): Reply
    requires T >= 1
    decreases |reqs|
  {
    if reqs == [] then Reply([], ChunkServer.Idle, m)
    else match reqs[0]
      case Hangup => Reply([], ChunkServer.Hungup, m)
      case Request(time, offset, during) =>
        var r := Respond(words, T, m, time, offset, during);
        if r.ending != ChunkServer.Idle then r
        else
          var rest := Handle(words, T, r.after, reqs[1..]);
          Reply(r.sent + rest.sent, rest.ending, rest.after)
  }

  class Server {
    const words: seq<string>
    const T: nat
    const numClients: int
    var initialized: int
    var collision: bool
    var clientCount: nat
    var listening: bool

    function State(): Medium
      reads this
    {
      Medium(initialized, collision)
    }

    constructor (words: seq<string>, T: nat, numClients: int)
      requires T >= 1
      ensures this.words == words && this.T == T && this.numClients == numClients
      ensures State() == Medium(-1, false) && clientCount == 0 && listening
    {
      this.words := words;
      this.T := T;
      this.numClients := numClients;
      initialized := -1;
      collision := false;
      clientCount := 0;
      listening := true;
    }

    /** A handler's start stores the current slot and leaves the flag as it is. */
    method Start(t: nat)
      requires T >= 1
      modifies this
      ensures State() == Medium(Slot(t, T), old(collision))
      ensures clientCount == old(clientCount) && listening == old(listening)
    {
      initialized := t / T;
    }

    /** The slot update of a request arriving at time `t`. */
    method OnArrival(t: nat)
      requires T >= 1
      modifies this
      ensures State() == Arrive(old(State()), Slot(t, T))
      ensures clientCount == old(clientCount) && listening == old(listening)
    {
      var slot := t / T;
      if slot != initialized {
        initialized := slot;
        collision := false;
      } else if !collision {
        collision := true;
      }
    }

    /** Other handlers' requests arriving at times `ts`. */
    method Arrivals(ts: seq<nat>)
      requires T >= 1
      modifies this
      ensures State() == ArriveAll(old(State()), T, ts)
      ensures clientCount == old(clientCount) && listening == old(listening)
    {
      var i := 0;
      while i < |ts|
        invariant i <= |ts|
        invariant ArriveAll(State(), T, ts[i..]) == ArriveAll(old(State()), T, ts)
        invariant clientCount == old(clientCount) && listening == old(listening)
        decreases |ts| - i
      {
        assert ts[i..][0] == ts[i] && ts[i..][1..] == ts[i + 1..];
        OnArrival(ts[i]);
        i := i + 1;
      }
      assert ts[i..] == [];
    }

    /** The send loop of `handleClient`. */
    method SendWords(offset: nat, during: seq<seq<nat>>) returns (sent: seq<string>, count: nat)
      requires T >= 1 && offset < |words|
      modifies this
      ensures var r := TransferFrom(|words|, T, offset, 0, old(State()), during);
              count == r.count && State() == r.after && sent == Sent(words, offset, count, r.collided)
      ensures clientCount == old(clientCount) && listening == old(listening)
    {
      ghost var total := TransferFrom(|words|, T, offset, 0, State(), during);
      sent, count := [], 0;
      while count < MaxWords && offset + count < |words|
        invariant offset + count <= |words|
        invariant TransferFrom(|words|, T, offset, count, State(), during) == total
        invariant sent == WordPackets(words, offset, offset + count)
        invariant clientCount == old(clientCount) && listening == old(listening)
        decreases MaxWords - count
      {
        TransferStep(|words|, T, offset, count, State(), during);
        Arrivals(Between(during, count));
        if collision {
          sent := sent + [CollisionReply];
          return;
        }
        sent := sent + [WordPacket(words, offset + count)];
        count := count + 1;
      }
      assert TransferFrom(|words|, T, offset, count, State(), during) == Transfer(count, false, State());
      assert sent + [] == sent;
    }

    /** One pass of the request loop of `handleClient`. */
    method Serve(time: nat, offset: int, during: seq<seq<nat>>) returns (sent: seq<string>, ending: ChunkServer.Ending)
      requires T >= 1
      modifies this
      ensures Reply(sent, ending, State()) == Respond(words, T, old(State()), time, offset, during)
      ensures clientCount == old(clientCount) + (if ending == ChunkServer.Served then 1 else 0)
      ensures listening == (old(listening) && !(ending == ChunkServer.Served && clientCount >= numClients))
    {
      OnArrival(time);
      if offset < 0 || offset >= |words| {
        return [OutOfRangeReply], ChunkServer.Rejected;
      }
      var count;
      sent, count := SendWords(offset, during);
      ending := ChunkServer.Idle;
      if offset + count >= |words| {
        clientCount := clientCount + 1;
        if clientCount >= numClients {
          listening := false;
        }
        ending := ChunkServer.Served;
      }
    }

    /** `handleClient`: the start-up slot store, then the request loop. */
    method HandleClient(start: nat, reqs: seq<Request>) returns (sent: seq<string>, ending: ChunkServer.Ending)
      requires T >= 1
      modifies this
      ensures Reply(sent, ending, State()) == Handle(words, T, Medium(Slot(start, T), old(collision)), reqs)
      ensures clientCount == old(clientCount) + (if ending == ChunkServer.Served then 1 else 0)
      ensures listening == (old(listening) && !(ending == ChunkServer.Served && clientCount >= numClients))
    {
      Start(start);
      ghost var total := Handle(words, T, State(), reqs);
      sent := [];
      var i := 0;
      while true
        invariant 0 <= i <= |reqs|
        invariant Glued(sent, Handle(words, T, State(), reqs[i..])) == total
        invariant clientCount == old(clientCount) && listening == old(listening)
        decreases |reqs| - i
      {
        if i == |reqs| {
          return sent, ChunkServer.Idle;
        }
        var r := reqs[i];
        assert reqs[i..][0] == r && reqs[i..][1..] == reqs[i + 1..];
        i := i + 1;
        if r.Hangup? {
          return sent, ChunkServer.Hungup;
        }
        var more;
        ghost var before := State();
        more, ending := Serve(r.time, r.offset, r.during);
        HandleStep(words, T, before, reqs[i - 1..], Reply(more, ending, State()));
        GluedAssoc(sent, more, Handle(words, T, State(), reqs[i..]));
        sent := sent + more;
        if ending != ChunkServer.Idle {
          return;
        }
      }
    }
  }

  function Glued(pre: seq<string>, r: Reply): Reply
  {
    Reply(pre + r.sent, r.ending, r.after)
  }

  /** One pass of the send loop. */
  lemma TransferStep(n: nat, T: nat, offset: nat, i: nat, m: Medium, during: seq<seq<nat>>)
    requires T >= 1 && offset + i < n && i < MaxWords
    ensures var m1 := ArriveAll(m, T, Between(during, i));
            TransferFrom(n, T, offset, i, m, during) ==
            if m1.collision then Transfer(i, true, m1) else TransferFrom(n, T, offset, i + 1, m1, during)
  {
  }

  /** One request of the loop: an ending reply is the handler's last. */
  lemma HandleStep(words: seq<string>, T: nat, m: Medium, reqs: seq<Request>, reply: Reply)
    requires T >= 1 && reqs != [] && reqs[0].Request?
    requires reply == Respond(words, T, m, reqs[0].time, reqs[0].offset, reqs[0].during)
    ensures Handle(words, T, m, reqs) ==
            if reply.ending != ChunkServer.Idle then reply else Glued(reply.sent, Handle(words, T, reply.after, reqs[1..]))
  {
  }

  lemma GluedAssoc(a: seq<string>, b: seq<string>, r: Reply)
    ensures Glued(a, Glued(b, r)) == Glued(a + b, r)
  {
    assert a + (b + r.sent) == (a + b) + r.sent;
  }

  // -------------------------------------------------------------- properties

  /** The slot update exactly: the arriving slot becomes current, and the
      flag is set exactly when the slot was already current. */
  lemma ArriveExact(m: Medium, slot: int)
    ensures Arrive(m, slot) == Medium(slot, slot == m.initialized)
  {
  }

  /** Once set, the flag stays set for every further request of the same slot. */
  lemma {:induction false} CollisionStays(m: Medium, T: nat, ts: seq<nat>)
    requires T >= 1 && m.collision
    requires forall j :: 0 <= j < |ts| ==> Slot(ts[j], T) == m.initialized
    ensures ArriveAll(m, T, ts) == m
    decreases |ts|
  {
    if ts != [] {
      assert Slot(ts[0], T) == m.initialized;
      CollisionStays(m, T, ts[1..]);
    }
  }

  /** A transfer sends at most ten words and never past the corpus end, and
      it stops early exactly when it collided. */
  lemma {:induction false} TransferCount(n: nat, T: nat, offset: nat, i: nat, m: Medium, during: seq<seq<nat>>)
    requires T >= 1 && offset + i <= n && i <= MaxWords
    ensures var r := TransferFrom(n, T, offset, i, m, during);
            && i <= r.count <= Planned(n, offset)
            && (r.collided <==> r.count < Planned(n, offset))
    decreases MaxWords - i
  {
    if i < MaxWords && offset + i < n && !ArriveAll(m, T, Between(during, i)).collision {
      TransferCount(n, T, offset, i + 1, ArriveAll(m, T, Between(during, i)), during);
    }
  }

  /** It stops at the first word whose check finds the flag set: no earlier
      check did, and that one did. */
  lemma {:induction false} TransferStops(n: nat, T: nat, offset: nat, i: nat, m: Medium, during: seq<seq<nat>>)
    requires T >= 1 && offset + i <= n && i <= MaxWords
    ensures var r := TransferFrom(n, T, offset, i, m, during);
            && (r.collided ==> Flagged(T, m, during, i, r.count))
            && (forall j :: i <= j < r.count ==> !Flagged(T, m, during, i, j))
    decreases MaxWords - i
  {
    if i < MaxWords && offset + i < n {
      var m1 := ArriveAll(m, T, Between(during, i));
      if !m1.collision {
        TransferStops(n, T, offset, i + 1, m1, during);
        TransferCount(n, T, offset, i + 1, m1, during);
        var r := TransferFrom(n, T, offset, i + 1, m1, during);
        if r.collided {
          FlaggedStep(T, m, during, i, r.count);
        }
        forall j | i < j < r.count ensures !Flagged(T, m, during, i, j) {
          FlaggedStep(T, m, during, i, j);
        }
      }
    }
  }

  /** Whether the flag is set as word `j` is checked, the transfer having
      reached word `i` in state `m`. */
  predicate Flagged(T: nat, m: Medium, during: seq<seq<nat>>, i: nat, j: nat)
    requires T >= 1 && i <= j
    decreases j - i
  {
    var m1 := ArriveAll(m, T, Between(during, i));
    if j == i then m1.collision else !m1.collision && Flagged(T, m1, during, i + 1, j)
  }

  lemma FlaggedStep(T: nat, m: Medium, during: seq<seq<nat>>, i: nat, j: nat)
    requires T >= 1 && i < j && !ArriveAll(m, T, Between(during, i)).collision
    ensures Flagged(T, m, during, i, j) == Flagged(T, ArriveAll(m, T, Between(during, i)), during, i + 1, j)
  {
  }

  /** An out-of-range offset is answered with exactly `$$\n` and ends the
      handler; otherwise the handler is done exactly when the words sent reach
      the corpus end. */
  lemma RespondEnding(words: seq<string>, T: nat, m: Medium, time: nat, offset: int, during: seq<seq<nat>>)
    requires T >= 1
    ensures var r := Respond(words, T, m, time, offset, during);
            && (Chunk.OutOfRange(offset, |words|) ==> r.sent == [OutOfRangeReply] && r.ending == ChunkServer.Rejected)
            && (!Chunk.OutOfRange(offset, |words|) ==>
                  var c := offset + TransferFrom(|words|, T, offset, 0, Arrive(m, Slot(time, T)), during).count;
                  r.ending == (if c >= |words| then ChunkServer.Served else ChunkServer.Idle))
  {
  }

  /** A transfer in a slot nobody else enters sends every planned word. */
  lemma {:induction false} QuietTransfer(n: nat, T: nat, offset: nat, i: nat, m: Medium, during: seq<seq<nat>>)
    requires T >= 1 && offset + i <= n && i <= MaxWords && !m.collision
    requires forall j :: 0 <= j < |during| ==> during[j] == []
    ensures TransferFrom(n, T, offset, i, m, during) == Transfer(Planned(n, offset), false, m)
    decreases MaxWords - i
  {
    if i < MaxWords && offset + i < n {
      assert Between(during, i) == [];
      QuietTransfer(n, T, offset, i + 1, m, during);
    }
  }
}
