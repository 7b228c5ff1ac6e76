/** lab_2 part4's round-robin server: each client socket has its own FIFO
    queue in a map ordered by socket; the worker sweeps the map in ascending
    order and serves at most one request from each queue per sweep; requests
    answered with `$$` or with the end of the corpus mark their client served,
    and a monitor erases the queues of served clients that are empty. The
    threads are modelled as steps taken in an order given as input. */
module RoundRobinServer {
  import opened Wire
  import opened Chunk
  import opened FifoServer
  import opened Sets

  /** `client_queues`, `client_served` and everything sent so far. */
  datatype Rr = Rr(queues: map<int, seq<Job>>, served: map<int, bool>, sent: seq<Delivery>)

  /** The queue of socket `s`, empty when `client_queues` has no entry. */
  function QueueOf(st: Rr, s: int): seq<Job>
  {
    if s in st.queues then st.queues[s] else []
  }

  /** `client_queues[s].push(...)`: `operator[]` creates the queue on first use. */
  function Enqueue(st: Rr, s: int, offset: int): Rr
  {
    st.(queues := st.queues[s := QueueOf(st, s) + [Job(s, offset)]])
  }

  /** Serving one popped request: its reply; `client_served` is set by `$$` and
      by the packet that carries `,EOF`. */
  function ServeJob(words: seq<string>, k: int, p: int, st: Rr, job: Job): Rr
  {
    var done := OutOfRange(job.offset, |words|) || ReachesEnd(words, k, job);
    st.(served := if done then st.served[job.socket := true] else st.served,
        sent := st.sent + Reply(words, k, p, job))
  }

  /** The body of the sweep for key `s`: pop and serve the front request of a
      non-empty queue. */
  function Visit(words: seq<string>, k: int, p: int, st: Rr, s: int): Rr
  {
    if s in st.queues && st.queues[s] != [] then
      ServeJob(words, k, p, st.(queues := st.queues[s := st.queues[s][1..]]), st.queues[s][0])
    else st
  }

  function SweepFrom(words: seq<string>, k: int, p: int, st: Rr, keys: seq<int>): Rr
    decreases |keys|
  {
    if keys == [] then st else SweepFrom(words, k, p, Visit(words, k, p, st, keys[0]), keys[1..])
  }

  // ------------------------------------------------------- ascending keys

  /** The keys of a `std::map` in iteration order. */
  ghost function Ascending(s: set<int>): (ks: seq<int>)
    ensures |ks| == |s|
    ensures forall j :: 0 <= j < |ks| ==> ks[j] in s
    ensures forall i, j :: 0 <= i < j < |ks| ==> ks[i] < ks[j]
    decreases |s|
  {
    if s == {} then []
    else
      var m := MinOf(s);
      var rest := Ascending(s - {m});
      assert forall j :: 0 <= j < |rest| ==> m < rest[j];
      [m] + rest
  }

  lemma AscendingMin(s: set<int>, m: int)
    requires m in s && forall y :: y in s ==> m <= y
    ensures Ascending(s) == [m] + Ascending(s - {m})
  {
    assert MinOf(s) == m;
  }

  /** One sweep of `workerThread`'s `for` loop over `client_queues`. */
  ghost function Sweep(words: seq<string>, k: int, p: int, st: Rr): Rr
  {
    SweepFrom(words, k, p, st, Ascending(st.queues.Keys))
  }

  /** `monitorConnections` erases this queue: its client is served and it
      holds no request. */
  predicate Collectable(q: map<int, seq<Job>>, sv: map<int, bool>, s: int)
    requires s in q
  {
    s in sv && sv[s] && q[s] == []
  }

  /** The queues left once every key outside `rest` has been visited. */
  function Kept(q: map<int, seq<Job>>, sv: map<int, bool>, rest: set<int>): map<int, seq<Job>>
  {
    map s | s in q && (s in rest || !Collectable(q, sv, s)) :: q[s]
  }

  /** The flags once every key outside `rest` has been read. */
  function Marked(q: map<int, seq<Job>>, sv: map<int, bool>, rest: set<int>): map<int, bool>
  {
    sv + map s | s in q && s !in rest && s !in sv :: false
  }

  /** One pass of `monitorConnections`: erase exactly the served, empty
      queues; reading `client_served[s]` inserts `false` for a socket it has
      not seen. */
  function Collect(st: Rr): Rr
  {
    Rr(Kept(st.queues, st.served, {}), Marked(st.queues, st.served, {}), st.sent)
  }

  /** Visiting key `s` of the monitor's loop. */
  lemma CollectStep(q: map<int, seq<Job>>, sv: map<int, bool>, rest: set<int>, s: int)
    requires s in rest && rest <= q.Keys
    ensures s in Kept(q, sv, rest) && Kept(q, sv, rest)[s] == q[s]
    ensures (s in Marked(q, sv, rest) <==> s in sv) && (s in sv ==> Marked(q, sv, rest)[s] == sv[s])
    ensures Kept(q, sv, rest - {s}) == if Collectable(q, sv, s) then Kept(q, sv, rest) - {s} else Kept(q, sv, rest)
    ensures Marked(q, sv, rest - {s}) == Marked(q, sv, rest)[s := if s in sv then sv[s] else false]
  {
    var a := Kept(q, sv, rest - {s});
    var b := if Collectable(q, sv, s) then Kept(q, sv, rest) - {s} else Kept(q, sv, rest);
    assert a.Keys == b.Keys;
    var c := Marked(q, sv, rest - {s});
    var d := Marked(q, sv, rest)[s := if s in sv then sv[s] else false];
    assert c.Keys == d.Keys;
  }

  class Server {
    const words: seq<string>
    const k: int
    const p: int
    var queues: map<int, seq<Job>>
    var served: map<int, bool>
    var sent: seq<Delivery>

    function State(): Rr
      reads this
    {
      Rr(queues, served, sent)
    }

    constructor(words: seq<string>, k: int, p: int)
      ensures this.words == words && this.k == k && this.p == p
      ensures State() == Rr(map[], map[], [])
    {
      this.words, this.k, this.p := words, k, p;
      queues, served, sent := map[], map[], [];
    }

    /** `handleClient` queues a parsed request. */
    method Push(s: int, offset: int)
      modifies this
      ensures State() == Enqueue(old(State()), s, offset)
    {
      var q := if s in queues then queues[s] else [];
      queues := queues[s := q + [Job(s, offset)]];
    }

    /** The sweep's body for key `s`: pop the front request, send its reply,
        and mark the client served on `$$` or on the chunk reaching the end. */
    method VisitKey(s: int)
      requires s in queues
      modifies this
      ensures State() == Visit(words, k, p, old(State()), s)
    {
      if queues[s] != [] {
        var job := queues[s][0];
        queues := queues[s := queues[s][1..]];
        if OutOfRange(job.offset, |words|) {
          sent := sent + [Delivery(job.socket, OutOfRangeReply)];
          served := served[job.socket := true];
        } else {
          var pkts, count := BuildChunk(words, job.offset, k, p);
          if job.offset + count >= |words| {
            served := served[job.socket := true];
          }
          sent := sent + Addressed(job.socket, pkts);
        }
      }
    }

    /** One sweep of `workerThread`. */
    method SweepOnce()
      modifies this
      ensures State() == Sweep(words, k, p, old(State()))
    {
      ghost var total := Sweep(words, k, p, State());
      var rest := queues.Keys;
      while rest != {}
        invariant rest <= queues.Keys
        invariant SweepFrom(words, k, p, State(), Ascending(rest)) == total
        decreases |rest|
      {
        MinExists(rest);
        var s :| s in rest && forall y :: y in rest ==> s <= y;
        AscendingMin(rest, s);
        VisitKey(s);
        rest := rest - {s};
      }
    }

    /** One pass of `monitorConnections`. */
    method CollectOnce()
      modifies this
      ensures State() == Collect(old(State()))
    {
      ghost var q0, s0 := queues, served;
      var rest := queues.Keys;
      while rest != {}
        invariant rest <= q0.Keys
        invariant queues == Kept(q0, s0, rest) && served == Marked(q0, s0, rest)
        invariant sent == old(sent)
        decreases |rest|
      {
        MinExists(rest);
        var s :| s in rest && forall y :: y in rest ==> s <= y;
        CollectStep(q0, s0, rest, s);
        var flag := if s in served then served[s] else false;
        served := served[s := flag];
        if flag && queues[s] == [] {
          queues := queues - {s};
        }
        rest := rest - {s};
      }
    }
  }

  // -------------------------------------------------------------- properties

  /** The requests served from the queues of `keys`, one front each. */
  function Fronts(st: Rr, keys: seq<int>): seq<Job>
    decreases |keys|
  {
    if keys == [] then []
    else (if keys[0] in st.queues && st.queues[keys[0]] != [] then [st.queues[keys[0]][0]] else [])
         + Fronts(st, keys[1..])
  }

  predicate Distinct(keys: seq<int>)
  {
    forall i, j :: 0 <= i < j < |keys| ==> keys[i] != keys[j]
  }

  /** One request per visited queue: sweeping distinct keys pops the front of
      each non-empty queue among them and nothing else, keeps the set of
      queues, and sends the replies of those fronts in key order. */
  lemma {:induction false} SweepPops(words: seq<string>, k: int, p: int, st: Rr, keys: seq<int>)
    requires Distinct(keys)
    ensures var st1 := SweepFrom(words, k, p, st, keys);
            && st1.queues.Keys == st.queues.Keys
            && (forall s :: s in st.queues ==>
                  st1.queues[s] == if s in keys && st.queues[s] != [] then st.queues[s][1..] else st.queues[s])
            && st1.sent == st.sent + Replies(words, k, p, Fronts(st, keys))
    decreases |keys|
  {
    if keys == [] {
      assert st.sent + [] == st.sent;
    } else {
      var s0 := keys[0];
      var mid := Visit(words, k, p, st, s0);
      SweepPops(words, k, p, mid, keys[1..]);
      var st1 := SweepFrom(words, k, p, mid, keys[1..]);
      assert s0 !in keys[1..];
      assert forall s :: s in st.queues && s != s0 ==> mid.queues[s] == st.queues[s];
      assert Fronts(mid, keys[1..]) == Fronts(st, keys[1..]) by {
        FrontsUntouched(st, mid, keys[1..]);
      }
      var f := if s0 in st.queues && st.queues[s0] != [] then [st.queues[s0][0]] else [];
      assert mid.sent == st.sent + Replies(words, k, p, f) by {
        if f != [] {
          assert Replies(words, k, p, f) == Reply(words, k, p, f[0]) + [];
        }
      }
      RepliesAppend(words, k, p, f, Fronts(st, keys[1..]));
      DeliveriesAssoc(st.sent, Replies(words, k, p, f), Replies(words, k, p, Fronts(st, keys[1..])));
      forall s | s in st.queues
        ensures st1.queues[s] == if s in keys && st.queues[s] != [] then st.queues[s][1..] else st.queues[s]
      {
        assert s in keys <==> s == s0 || s in keys[1..];
      }
    }
  }

  lemma {:induction false} FrontsUntouched(st: Rr, mid: Rr, keys: seq<int>)
    requires forall j :: 0 <= j < |keys| ==> (keys[j] in st.queues <==> keys[j] in mid.queues)
    requires forall j :: 0 <= j < |keys| && keys[j] in st.queues ==> mid.queues[keys[j]] == st.queues[keys[j]]
    ensures Fronts(mid, keys) == Fronts(st, keys)
    decreases |keys|
  {
    if keys != [] {
      FrontsUntouched(st, mid, keys[1..]);
    }
  }

  /** A sweep visits every queue once, in ascending socket order. */
  lemma SweepOrder(words: seq<string>, k: int, p: int, st: Rr)
    ensures var keys := Ascending(st.queues.Keys);
            var st1 := Sweep(words, k, p, st);
            && (forall s :: s in st.queues <==> s in keys)
            && (forall i, j :: 0 <= i < j < |keys| ==> keys[i] < keys[j])
            && st1.queues.Keys == st.queues.Keys
            && (forall s :: s in st.queues ==>
                  st1.queues[s] == if st.queues[s] != [] then st.queues[s][1..] else st.queues[s])
            && st1.sent == st.sent + Replies(words, k, p, Fronts(st, keys))
  {
    var keys := Ascending(st.queues.Keys);
    SweepPops(words, k, p, st, keys);
    AscendingCovers(st.queues.Keys);
  }

  lemma {:induction false} AscendingCovers(s: set<int>)
    ensures forall x :: x in s <==> x in Ascending(s)
    decreases |s|
  {
    if s != {} {
      var m := MinOf(s);
      AscendingCovers(s - {m});
      assert Ascending(s) == [m] + Ascending(s - {m});
    }
  }

  /** `client_served[s]` turns true exactly on a `$$` reply or on the chunk
      that reaches the end; no other client's flag changes. */
  lemma ServedMarks(words: seq<string>, k: int, p: int, st: Rr, job: Job)
    ensures var st1 := ServeJob(words, k, p, st, job);
            && (forall s :: s != job.socket ==> (s in st1.served <==> s in st.served))
            && (forall s :: s != job.socket && s in st.served ==> st1.served[s] == st.served[s])
            && ((OutOfRange(job.offset, |words|) || ReachesEnd(words, k, job)) ==>
                  job.socket in st1.served && st1.served[job.socket])
            && (!(OutOfRange(job.offset, |words|) || ReachesEnd(words, k, job)) ==> st1.served == st.served)
  {
  }

  /** A request joins the back of its own socket's queue, created on first
      use; no other queue changes. */
  lemma EnqueueOwn(st: Rr, s: int, offset: int)
    ensures var st1 := Enqueue(st, s, offset);
            && st1.queues.Keys == st.queues.Keys + {s}
            && st1.queues[s] == QueueOf(st, s) + [Job(s, offset)]
            && (forall t :: t in st.queues && t != s ==> st1.queues[t] == st.queues[t])
  {
  }

  /** The monitor keeps every queue that holds a request or whose client is
      not yet served, unchanged, and erases the rest; a flag it reads for a
      socket without one is `false`, and the others keep their value. */
  lemma CollectExact(st: Rr)
    ensures var st1 := Collect(st);
            && (forall s :: s in st.queues && st.queues[s] != [] ==> s in st1.queues && st1.queues[s] == st.queues[s])
            && (forall s :: s in st.queues && !(s in st.served && st.served[s]) ==> s in st1.queues)
            && (forall s :: s in st1.queues <==> s in st.queues && !Collectable(st.queues, st.served, s))
            && (forall s :: s in st.served ==> s in st1.served && st1.served[s] == st.served[s])
            && (forall s :: s in st.queues && s !in st.served ==> s in st1.served && !st1.served[s])
            && st1.sent == st.sent
  {
  }
}
