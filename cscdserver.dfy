/** lab_2 part3's carrier-sense / collision-detect server. All handler threads
    share a busy flag, a collision flag and the time of the last collision
    (microseconds). A `BUSY?` probe reads the busy flag; a request claims the
    idle channel, or collides with the transfer holding it, or is refused as
    stale when it arrived before the last collision. A transfer that finds the
    collision flag set before a word answers `HUH!\n`, releases the channel and
    stops. Times are inputs, and so are the colliding requests of other
    handlers that land between two word sends. */
module CscdServer {
  import opened Wire
  import opened Burst
  import Chunk
  import ChunkServer

  const BusyReply: string := "BUSY\n"
  const IdleReply: string := "IDLE\n"

  /** The shared `ServerState` (`current_client` is never used). */
  datatype Channel = Channel(busy: bool, collision: bool, lastCollision: int)

  /** The state at start-up: a global `atomic<long long>` starts at 0. */
  const Initial: Channel := Channel(false, false, 0)

  /** The answer to a `BUSY?\n` probe. */
  function ProbeReply(ch: Channel): string
  {
    if ch.busy then BusyReply else IdleReply
  }

  datatype Decision = Collide | Stale | Claim

  /** The claim/reject decision for a request that arrived at `arrival`;
      `now` is the clock read when a collision is stored. */
  function Admit(ch: Channel, arrival: int, now: int): (Decision, Channel)
  {
    if ch.busy then (Collide, Channel(ch.busy, true, now))
    else if arrival < ch.lastCollision then (Stale, ch)
    else (Claim, Channel(true, false, ch.lastCollision))
  }

  /** Requests of other handlers colliding with the held channel at times `ts`. */
  function CollideAll(ch: Channel, ts: seq<nat>): Channel
    decreases |ts|
  {
    if ts == [] then ch else CollideAll(Admit(ch, ts[0], ts[0]).1, ts[1..])
  }

  function Between(during: seq<seq<nat>>, i: nat): seq<nat>
  {
    if i < |during| then during[i] else []
  }

  datatype Transfer = Transfer(count: nat, collided: bool, after: Channel)

  /** The send loop from word `i` on; a collision clears both flags. */
  function TransferFrom(n: nat, offset: nat, i: nat, ch: Channel, during: seq<seq<nat>>): (r: Transfer)
    requires offset + i <= n
    ensures i <= r.count
    decreases MaxWords - i
  {
    if i >= MaxWords || offset + i >= n then Transfer(i, false, ch)
    else
      var ch1 := CollideAll(ch, Between(during, i));
      if ch1.collision then Transfer(i, true, Channel(false, false, ch1.lastCollision))
      else TransferFrom(n, offset, i + 1, ch1, during)
  }

  /** A request as the handler receives it. */
  datatype Request =
    | Probe
    | Offset(arrival: int, offset: int, now: int, during: seq<seq<nat>>)
    | Hangup

  datatype Reply = Reply(sent: seq<string>, ending: ChunkServer.Ending, after: Channel)

  /** What the handler does with one request; `Idle` marks a request after
      which the handler reads the next one. */
  function Respond(words: seq<string>, ch: Channel, req: Request): Reply
    requires !req.Hangup?
  {
    match req
    case Probe => Reply([ProbeReply(ch)], ChunkServer.Idle, ch)
    case Offset(arrival, offset, now, during) =>
      if Chunk.OutOfRange(offset, |words|) then Reply([OutOfRangeReply], ChunkServer.Rejected, ch)
      else
        var (d, ch1) := Admit(ch, arrival, now);
        if d != Claim then Reply([CollisionReply], ChunkServer.Idle, ch1)
        else
          var r := TransferFrom(|words|, offset, 0, ch1, during);
          Reply(Sent(words, offset, r.count, r.collided),
                if offset + r.count >= |words| then ChunkServer.Served else ChunkServer.Idle,
                Channel(false, false, r.after.lastCollision))
  }

  function Handle(words: seq<string>, ch: Channel, reqs: seq<Request>): Reply
    decreases |reqs|
  {
    if reqs == [] then Reply([], ChunkServer.Idle, ch)
    else if reqs[0].Hangup? then Reply([], ChunkServer.Hungup, ch)
    else
      var r := Respond(words, ch, reqs[0]);
      if r.ending != ChunkServer.Idle then r
      else Glued(r.sent, Handle(words, r.after, reqs[1..]))
  }

  function Glued(pre: seq<string>, r: Reply): Reply
  {
    Reply(pre + r.sent, r.ending, r.after)
  }

  class Server {
    const words: seq<string>
    const numClients: int
    var busy: bool
    var collision: bool
    var lastCollision: int
    var clientCount: nat
    var listening: bool

    function State(): Channel
      reads this
    {
      Channel(busy, collision, lastCollision)
    }

    constructor (words: seq<string>, numClients: int)
      ensures this.words == words && this.numClients == numClients
      ensures State() == Initial && clientCount == 0 && listening
    {
      this.words := words;
      this.numClients := numClients;
      busy, collision, lastCollision := false, false, 0;
      clientCount := 0;
      listening := true;
    }

    /** The claim/reject step for a request arriving at `arrival`. */
    method Contend(arrival: int, now: int) returns (d: Decision)
      modifies this
      ensures (d, State()) == Admit(old(State()), arrival, now)
      ensures clientCount == old(clientCount) && listening == old(listening)
    {
      if busy {
        collision := true;
        lastCollision := now;
        return Collide;
      } else if arrival < lastCollision {
        return Stale;
      }
      busy := true;
      collision := false;
      return Claim;
    }

    /** Other handlers' requests colliding at times `ts`. */
    method Collisions(ts: seq<nat>)
      modifies this
      ensures State() == CollideAll(old(State()), ts)
      ensures clientCount == old(clientCount) && listening == old(listening)
    {
      var i := 0;
      while i < |ts|
        invariant i <= |ts|
        invariant CollideAll(State(), ts[i..]) == CollideAll(old(State()), ts)
        invariant clientCount == old(clientCount) && listening == old(listening)
        decreases |ts| - i
      {
        assert ts[i..][0] == ts[i] && ts[i..][1..] == ts[i + 1..];
        var _ := Contend(ts[i], ts[i]);
        i := i + 1;
      }
      assert ts[i..] == [];
    }

    /** The send loop of `handleClient`, and the release of the channel after it. */
    method SendWords(offset: nat, during: seq<seq<nat>>) returns (sent: seq<string>, count: nat)
      requires offset < |words|
      modifies this
      ensures var r := TransferFrom(|words|, offset, 0, old(State()), during);
              && count == r.count && sent == Sent(words, offset, count, r.collided)
              && State() == Channel(false, false, r.after.lastCollision)
      ensures clientCount == old(clientCount) && listening == old(listening)
    {
      ghost var total := TransferFrom(|words|, offset, 0, State(), during);
      sent, count := [], 0;
      while count < MaxWords && offset + count < |words|
        invariant offset + count <= |words|
        invariant TransferFrom(|words|, offset, count, State(), during) == total
        invariant sent == WordPackets(words, offset, offset + count)
        invariant clientCount == old(clientCount) && listening == old(listening)
        decreases MaxWords - count
      {
        TransferStep(|words|, offset, count, State(), during);
        Collisions(Between(during, count));
        if collision {
          sent := sent + [CollisionReply];
          collision, busy := false, false;
          return;
        }
        sent := sent + [WordPacket(words, offset + count)];
        count := count + 1;
      }
      assert TransferFrom(|words|, offset, count, State(), during) == Transfer(count, false, State());
      assert sent + [] == sent;
      busy, collision := false, false;
    }

    /** One pass of the request loop of `handleClient`. */
    method Serve(req: Request) returns (sent: seq<string>, ending: ChunkServer.Ending)
      requires !req.Hangup?
      modifies this
      ensures Reply(sent, ending, State()) == Respond(words, old(State()), req)
      ensures clientCount == old(clientCount) + (if ending == ChunkServer.Served then 1 else 0)
      ensures listening == (old(listening) && !(ending == ChunkServer.Served && clientCount >= numClients))
    {
      if req.Probe? {
        return [if busy then BusyReply else IdleReply], ChunkServer.Idle;
      }
      var offset := req.offset;
      if offset < 0 || offset >= |words| {
        return [OutOfRangeReply], ChunkServer.Rejected;
      }
      var d := Contend(req.arrival, req.now);
      if d != Claim {
        return [CollisionReply], ChunkServer.Idle;
      }
      var count;
      sent, count := SendWords(offset, req.during);
      ending := ChunkServer.Idle;
      if offset + count >= |words| {
        clientCount := clientCount + 1;
        if clientCount >= numClients {
          listening := false;
        }
        ending := ChunkServer.Served;
      }
    }

    /** `handleClient`: the request loop over one connection. */
    method HandleClient(reqs: seq<Request>) returns (sent: seq<string>, ending: ChunkServer.Ending)
      modifies this
      ensures Reply(sent, ending, State()) == Handle(words, old(State()), reqs)
      ensures clientCount == old(clientCount) + (if ending == ChunkServer.Served then 1 else 0)
      ensures listening == (old(listening) && !(ending == ChunkServer.Served && clientCount >= numClients))
    {
      ghost var total := Handle(words, State(), reqs);
      sent := [];
      var i := 0;
      while true
        invariant 0 <= i <= |reqs|
        invariant Glued(sent, Handle(words, State(), reqs[i..])) == total
        invariant clientCount == old(clientCount) && listening == old(listening)
        decreases |reqs| - i
      {
        if i == |reqs| {
          return sent, ChunkServer.Idle;
        }
        var r := reqs[i];
        assert reqs[i..][0] == r && reqs[i..][1..] == reqs[i + 1..];
        i := i + 1;
        if r.Hangup? {
          return sent, ChunkServer.Hungup;
        }
        var more;
        ghost var before := State();
        more, ending := Serve(r);
        HandleStep(words, before, reqs[i - 1..], Reply(more, ending, State()));
        GluedAssoc(sent, more, Handle(words, State(), reqs[i..]));
        sent := sent + more;
        if ending != ChunkServer.Idle {
          return;
        }
      }
    }
  }

  lemma TransferStep(n: nat, offset: nat, i: nat, ch: Channel, during: seq<seq<nat>>)
    requires offset + i < n && i < MaxWords
    ensures var ch1 := CollideAll(ch, Between(during, i));
            TransferFrom(n, offset, i, ch, during) ==
            if ch1.collision then Transfer(i, true, Channel(false, false, ch1.lastCollision))
            else TransferFrom(n, offset, i + 1, ch1, during)
  {
  }

  lemma HandleStep(words: seq<string>, ch: Channel, reqs: seq<Request>, reply: Reply)
    requires reqs != [] && !reqs[0].Hangup? && reply == Respond(words, ch, reqs[0])
    ensures Handle(words, ch, reqs) ==
            if reply.ending != ChunkServer.Idle then reply else Glued(reply.sent, Handle(words, reply.after, reqs[1..]))
  {
  }

  lemma GluedAssoc(a: seq<string>, b: seq<string>, r: Reply)
    ensures Glued(a, Glued(b, r)) == Glued(a + b, r)
  {
    assert a + (b + r.sent) == (a + b) + r.sent;
  }

  // -------------------------------------------------------------- properties

  /** A probe is answered `BUSY\n` exactly when the channel is held, and
      changes nothing. */
  lemma ProbeChangesNothing(words: seq<string>, ch: Channel)
    ensures var r := Respond(words, ch, Probe);
            && r.sent == [if ch.busy then BusyReply else IdleReply]
            && r.after == ch && r.ending == ChunkServer.Idle
  {
  }

  /** A request while the channel is held collides: the collision flag and
      time are set, the busy flag stays, and the answer is `HUH!\n`. A request
      to an idle channel that arrived before the last collision is refused
      with no change; any other claims the channel with the flag clear. */
  lemma AdmitCases(words: seq<string>, ch: Channel, arrival: int, offset: int, now: int, during: seq<seq<nat>>)
    requires !Chunk.OutOfRange(offset, |words|)
    ensures var r := Respond(words, ch, Offset(arrival, offset, now, during));
            && (ch.busy ==> r.sent == [CollisionReply] && r.after == Channel(true, true, now) && r.ending == ChunkServer.Idle)
            && (!ch.busy && arrival < ch.lastCollision ==> r.sent == [CollisionReply] && r.after == ch && r.ending == ChunkServer.Idle)
            && (!ch.busy && arrival >= ch.lastCollision ==>
                  var t := TransferFrom(|words|, offset, 0, Channel(true, false, ch.lastCollision), during);
                  r.sent == Sent(words, offset, t.count, t.collided))
  {
  }

  /** After any transfer the channel is released with no collision pending,
      and the handler is done exactly when the words sent reach the corpus end. */
  lemma ReleasedAfterTransfer(words: seq<string>, ch: Channel, arrival: int, offset: int, now: int, during: seq<seq<nat>>)
    requires !Chunk.OutOfRange(offset, |words|) && !ch.busy && arrival >= ch.lastCollision
    ensures var r := Respond(words, ch, Offset(arrival, offset, now, during));
            var t := TransferFrom(|words|, offset, 0, Channel(true, false, ch.lastCollision), during);
            && !r.after.busy && !r.after.collision
            && (r.ending == ChunkServer.Served <==> offset + t.count >= |words|)
            && r.ending != ChunkServer.Rejected
  {
  }

  /** An out-of-range offset is answered with exactly `$$\n` and ends the
      handler, whatever the channel state. */
  lemma OutOfRangeEnds(words: seq<string>, ch: Channel, arrival: int, offset: int, now: int, during: seq<seq<nat>>)
    requires Chunk.OutOfRange(offset, |words|)
    ensures Respond(words, ch, Offset(arrival, offset, now, during)) == Reply([OutOfRangeReply], ChunkServer.Rejected, ch)
  {
  }

  /** A transfer sends at most ten words, never past the corpus end, and
      stops early exactly when it collided; the words counted are exactly
      the word packets sent. */
  lemma {:induction false} TransferCount(words: seq<string>, offset: nat, i: nat, ch: Channel, during: seq<seq<nat>>)
    requires offset + i <= |words| && i <= MaxWords
    ensures var r := TransferFrom(|words|, offset, i, ch, during);
            && i <= r.count <= Planned(|words|, offset)
            && (r.collided <==> r.count < Planned(|words|, offset))
            && |Sent(words, offset, r.count, r.collided)| == r.count + (if r.collided then 1 else 0)
    decreases MaxWords - i
  {
    if i < MaxWords && offset + i < |words| && !CollideAll(ch, Between(during, i)).collision {
      TransferCount(words, offset, i + 1, CollideAll(ch, Between(during, i)), during);
    } else {
      var r := TransferFrom(|words|, offset, i, ch, during);
      WordPacketsLength(words, offset, offset + r.count);
    }
  }

  /** While the channel is held no further claim succeeds: every other
      request collides and leaves the channel held. */
  lemma {:induction false} HeldStaysHeld(ch: Channel, ts: seq<nat>)
    requires ch.busy
    ensures CollideAll(ch, ts).busy
    ensures ts != [] ==> CollideAll(ch, ts) == Channel(true, true, ts[|ts| - 1])
    decreases |ts|
  {
    if ts != [] {
      HeldStaysHeld(Channel(true, true, ts[0]), ts[1..]);
      if |ts| > 1 {
        assert ts[1..][|ts| - 2] == ts[|ts| - 1];
      }
    }
  }
}
