/** The per-connection request loop of the lab_2 chunk servers: part1's
    sequential `handleClient` and part2's threaded one, which also counts the
    clients that reached the end of the corpus and closes the listening socket
    once `num_clients` of them have. */
module ChunkServer {
  import opened Wire
  import opened Chunk

  /** One `recv` on the client socket: a request already parsed by `stoi`,
      or a result `<= 0`. */
  datatype Request = Offset(value: int) | Hangup

  /** How a handler leaves its loop. `Idle` stands for a client that sends no
      further request: the handler waits in `recv`. */
  datatype Ending =
    | Served    // a chunk reached the end of the corpus: `return 1`
    | Rejected  // an out-of-range offset was answered with `$$\n`: `return 1`
    | Hungup    // `recv` returned `<= 0`: `return 0`
    | Idle

  datatype Session = Session(sent: seq<string>, ending: Ending)

  /** A request after which the handler reads the next one. */
  predicate Continues(words: seq<string>, k: int, r: Request)
  {
    r.Offset? && !OutOfRange(r.value, |words|) && ChunkEnd(|words|, r.value, k) < |words|
  }

  /** What a handler sends and how it ends, given the requests its client sends. */
  function Serve(words: seq<string>, k: int, p: int, reqs: seq<Request>): Session
    decreases |reqs|
  {
    if reqs == [] then Session([], Idle)
    else match reqs[0]
      case Hangup => Session([], Hungup)
      case Offset(o) =>
        if OutOfRange(o, |words|) then Session([OutOfRangeReply], Rejected)
        else
          var pk := ChunkPackets(words, o, k, p);
          if ChunkEnd(|words|, o, k) == |words| then Session(pk, Served)
          else
            var rest := Serve(words, k, p, reqs[1..]);
            Session(pk + rest.sent, rest.ending)
  }

  /** part1 `handleClient`, whose result tells `main` to stop accepting. */
  method HandleClient(words: seq<string>, k: int, p: int, reqs: seq<Request>)
    returns (sent: seq<string>, ending: Ending, done: bool)
    ensures Session(sent, ending) == Serve(words, k, p, reqs)
    ensures done <==> ending == Served || ending == Rejected
  {
    sent := [];
    var i := 0;
    while true
      invariant 0 <= i <= |reqs|
      invariant Serve(words, k, p, reqs) == Session(sent + Serve(words, k, p, reqs[i..]).sent, Serve(words, k, p, reqs[i..]).ending)
      decreases |reqs| - i
    {
      if i == |reqs| {
        ending, done := Idle, false;
        return;
      }
      var r := reqs[i];
      assert reqs[i..][0] == r && reqs[i..][1..] == reqs[i + 1..];
      i := i + 1;
      if r.Hangup? {
        ending, done := Hungup, false;
        return;
      }
      var offset := r.value;
      if OutOfRange(offset, |words|) {
        sent := sent + [OutOfRangeReply];
        ending, done := Rejected, true;
        return;
      }
      var pkts, count := BuildChunk(words, offset, k, p);
      sent := sent + pkts;
      if offset + count >= |words| {
        ending, done := Served, true;
        return;
      }
    }
  }

  /** part2 keeps the served-client counter shared by all handler threads and
      the listening socket they may close. */
  class ThreadedServer {
    const numClients: int
    var clientCount: nat
    var listening: bool

    constructor (numClients: int)
      ensures this.numClients == numClients && clientCount == 0 && listening
    {
      this.numClients := numClients;
      clientCount := 0;
      listening := true;
    }

    /** part2 `handleClient`; the `$$` path returns without counting. */
    method HandleClient(words: seq<string>, k: int, p: int, reqs: seq<Request>)
      returns (sent: seq<string>, ending: Ending)
      modifies this
      ensures Session(sent, ending) == Serve(words, k, p, reqs)
      ensures clientCount == old(clientCount) + (if ending == Served then 1 else 0)
      ensures listening == (old(listening) && !(ending == Served && clientCount >= numClients))
    {
      sent := [];
      var i := 0;
      while true
        invariant 0 <= i <= |reqs|
        invariant Serve(words, k, p, reqs) == Session(sent + Serve(words, k, p, reqs[i..]).sent, Serve(words, k, p, reqs[i..]).ending)
        invariant clientCount == old(clientCount) && listening == old(listening)
        decreases |reqs| - i
      {
        if i == |reqs| {
          ending := Idle;
          return;
        }
        var r := reqs[i];
        assert reqs[i..][0] == r && reqs[i..][1..] == reqs[i + 1..];
        i := i + 1;
        if r.Hangup? {
          ending := Hungup;
          return;
        }
        var offset := r.value;
        if OutOfRange(offset, |words|) {
          sent := sent + [OutOfRangeReply];
          ending := Rejected;
          return;
        }
        var pkts, count := BuildChunk(words, offset, k, p);
        sent := sent + pkts;
        if offset + count >= |words| {
          clientCount := clientCount + 1;
          if clientCount >= numClients {
            listening := false;
          }
          ending := Served;
          return;
        }
      }
    }
  }

  // -------------------------------------------------------------- properties

  /** Number of leading requests after which the handler goes on reading. */
  function Lead(words: seq<string>, k: int, reqs: seq<Request>): (i: nat)
    ensures i <= |reqs|
    ensures forall j :: 0 <= j < i ==> Continues(words, k, reqs[j])
    ensures i < |reqs| ==> !Continues(words, k, reqs[i])
    decreases |reqs|
  {
    if reqs == [] || !Continues(words, k, reqs[0]) then 0 else 1 + Lead(words, k, reqs[1..])
  }

  /** The packets of a run of requests that each leave the corpus unfinished. */
  function Chunks(words: seq<string>, k: int, p: int, reqs: seq<Request>): seq<string>
    requires forall j :: 0 <= j < |reqs| ==> Continues(words, k, reqs[j])
    decreases |reqs|
  {
    if reqs == [] then []
    else
      assert Continues(words, k, reqs[0]);
      ChunkPackets(words, reqs[0].value, k, p) + Chunks(words, k, p, reqs[1..])
  }

  /** The answer to the request that ends the loop. */
  function Last(words: seq<string>, k: int, p: int, r: Request): Session
  {
    match r
    case Hangup => Session([], Hungup)
    case Offset(o) =>
      if OutOfRange(o, |words|) then Session([OutOfRangeReply], Rejected)
      else Session(ChunkPackets(words, o, k, p), Served)
  }

  /** A handler answers every leading request that leaves the corpus
      unfinished with its chunk, then ends on the first request that does not:
      `$$\n` and done for an out-of-range offset, the final chunk and done for
      a request that reaches the corpus end, nothing and not done for a closed
      connection. */
  lemma {:induction false} ServeShape(words: seq<string>, k: int, p: int, reqs: seq<Request>)
    ensures var i := Lead(words, k, reqs);
            var s := Serve(words, k, p, reqs);
            if i == |reqs| then s == Session(Chunks(words, k, p, reqs), Idle)
            else
              var l := Last(words, k, p, reqs[i]);
              s == Session(Chunks(words, k, p, reqs[..i]) + l.sent, l.ending)
    decreases |reqs|
  {
    if reqs != [] {
      var i := Lead(words, k, reqs);
      if i == 0 {
        assert reqs[..0] == [];
        match reqs[0]
        case Hangup =>
        case Offset(o) =>
          if !OutOfRange(o, |words|) {
            assert ChunkEnd(|words|, o, k) == |words|;
          }
      } else {
        ServeShape(words, k, p, reqs[1..]);
        assert reqs[1..][..i - 1] == reqs[..i][1..];
        var s := Serve(words, k, p, reqs);
        var rest := Serve(words, k, p, reqs[1..]);
        assert s == Session(ChunkPackets(words, reqs[0].value, k, p) + rest.sent, rest.ending);
        if i == |reqs| {
          assert Chunks(words, k, p, reqs) == ChunkPackets(words, reqs[0].value, k, p) + Chunks(words, k, p, reqs[1..]);
        } else {
          var l := Last(words, k, p, reqs[i]);
          assert reqs[1..][i - 1] == reqs[i];
          assert Chunks(words, k, p, reqs[..i]) == ChunkPackets(words, reqs[0].value, k, p) + Chunks(words, k, p, reqs[1..][..i - 1]);
          AppendAssoc(ChunkPackets(words, reqs[0].value, k, p), Chunks(words, k, p, reqs[1..][..i - 1]), l.sent);
        }
      }
    }
  }

  /** `handleClient` returns done exactly when some request reached the end
      of the corpus or was out of range before the client hung up. */
  lemma DoneIff(words: seq<string>, k: int, p: int, reqs: seq<Request>)
    ensures var e := Serve(words, k, p, reqs).ending;
            (e == Served || e == Rejected) <==>
            exists i :: 0 <= i < |reqs| && reqs[i].Offset? && !Continues(words, k, reqs[i]) &&
                        forall j :: 0 <= j < i ==> Continues(words, k, reqs[j])
  {
    ServeShape(words, k, p, reqs);
    var i := Lead(words, k, reqs);
    var e := Serve(words, k, p, reqs).ending;
    if e == Served || e == Rejected {
      assert i < |reqs|;
    }
    forall i' | 0 <= i' < |reqs| && reqs[i'].Offset? && !Continues(words, k, reqs[i']) &&
                (forall j :: 0 <= j < i' ==> Continues(words, k, reqs[j]))
      ensures e == Served || e == Rejected
    {
      assert i' == i;
    }
  }
}
