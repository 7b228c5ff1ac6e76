/** lab_2 part4's first-come-first-served server: every handler appends its
    client's requests to one global queue, a single worker serves the queue
    from the front, and a monitor shuts the server down once the queue is
    empty, no request is in service and `num_clients` clients have been sent
    the end of the corpus. The three threads are modelled as steps taken in an
    order given as input. */
module FifoServer {
  import opened Wire
  import opened Chunk

  /** A queued `ClientRequest`. */
  datatype Job = Job(socket: int, offset: int)

  /** A packet sent on a client socket. */
  datatype Delivery = Delivery(socket: int, packet: string)

  /** The shared state: `request_queue`, `active_requests`, `client_count`,
      `server_running`, and everything sent so far. */
  datatype Fifo = Fifo(queue: seq<Job>, active: int, clientCount: int, running: bool, sent: seq<Delivery>)

  /** The packets `pkts`, all sent on `socket`. */
  function Addressed(socket: int, pkts: seq<string>): (ds: seq<Delivery>)
    ensures |ds| == |pkts|
    ensures forall j :: 0 <= j < |ds| ==> ds[j] == Delivery(socket, pkts[j])
    decreases |pkts|
  {
    if pkts == [] then [] else [Delivery(socket, pkts[0])] + Addressed(socket, pkts[1..])
  }

  /** What serving `job` sends: `$$\n` for an offset past the corpus, its
      chunk otherwise. */
  function Reply(words: seq<string>, k: int, p: int, job: Job): seq<Delivery>
  {
    if OutOfRange(job.offset, |words|) then [Delivery(job.socket, OutOfRangeReply)]
    else Addressed(job.socket, ChunkPackets(words, job.offset, k, p))
  }

  /** A job whose chunk ends with the last corpus word, so that its last
      packet carries `,EOF`. */
  predicate ReachesEnd(words: seq<string>, k: int, job: Job)
  {
    !OutOfRange(job.offset, |words|) && ChunkEnd(|words|, job.offset, k) == |words|
  }

  /** How one pass of the worker ends. */
  datatype Pass = Waiting | Exited | Served(job: Job)

  /** One pass of `workerThread`, taken at the top of its loop or, when
      `resumed`, on waking from `pthread_cond_wait`: a stopped server ends
      the loop at its top; an empty queue makes a running worker wait and a
      stopped one leave; otherwise the front request is popped and served. */
  function WorkerPass(words: seq<string>, k: int, p: int, st: Fifo, resumed: bool): (Fifo, Pass)
  {
    if !resumed && !st.running then (st, Exited)
    else if st.queue == [] then (st, if st.running then Waiting else Exited)
    else
      var job := st.queue[0];
      (Fifo(st.queue[1..], st.active, st.clientCount + (if ReachesEnd(words, k, job) then 1 else 0),
            st.running, st.sent + Reply(words, k, p, job)),
       Served(job))
  }

  /** The test `monitorQueue` makes every second. */
  predicate Finished(numClients: int, st: Fifo)
  {
    st.queue == [] && st.active == 0 && st.clientCount >= numClients
  }

  function MonitorPass(numClients: int, st: Fifo): Fifo
  {
    if Finished(numClients, st) then st.(running := false) else st
  }

  /** One step of one thread. */
  datatype Event = Arrive(socket: int, offset: int) | Work(resumed: bool) | Monitor

  /** The state after `e` and the jobs it served. */
  function Step(words: seq<string>, k: int, p: int, numClients: int, st: Fifo, e: Event): (Fifo, seq<Job>)
  {
    match e
      case Arrive(s, o) => (st.(queue := st.queue + [Job(s, o)]), [])
      case Work(resumed) =>
        var (st1, pass) := WorkerPass(words, k, p, st, resumed);
        (st1, if pass.Served? then [pass.job] else [])
      case Monitor => (MonitorPass(numClients, st), [])
  }

  datatype Trace = Trace(final: Fifo, served: seq<Job>)

  function Run(words: seq<string>, k: int, p: int, numClients: int, st: Fifo, events: seq<Event>): Trace
    decreases |events|
  {
    if events == [] then Trace(st, [])
    else
      var (st1, s1) := Step(words, k, p, numClients, st, events[0]);
      var rest := Run(words, k, p, numClients, st1, events[1..]);
      Trace(rest.final, s1 + rest.served)
  }

  class Server {
    const words: seq<string>
    const k: int
    const p: int
    const numClients: int
    var queue: seq<Job>
    var active: int
    var clientCount: int
    var running: bool
    var sent: seq<Delivery>

    function State(): Fifo
      reads this
    {
      Fifo(queue, active, clientCount, running, sent)
    }

    constructor(words: seq<string>, k: int, p: int, numClients: int)
      ensures this.words == words && this.k == k && this.p == p && this.numClients == numClients
      ensures State() == Fifo([], 0, 0, true, [])
    {
      this.words, this.k, this.p, this.numClients := words, k, p, numClients;
      queue, active, clientCount, running, sent := [], 0, 0, true, [];
    }

    /** `handleClient` queues a parsed request. */
    method Enqueue(socket: int, offset: int)
      modifies this
      ensures State() == old(State()).(queue := old(queue) + [Job(socket, offset)])
    {
      queue := queue + [Job(socket, offset)];
    }

    /** One pass of `workerThread`. */
    method Worker(resumed: bool) returns (pass: Pass)
      modifies this
      ensures (State(), pass) == WorkerPass(words, k, p, old(State()), resumed)
    {
      if !resumed && !running {
        return Exited;
      }
      if queue == [] {
        return if running then Waiting else Exited;
      }
      var job := queue[0];
      queue := queue[1..];
      active := active + 1;
      if OutOfRange(job.offset, |words|) {
        sent := sent + [Delivery(job.socket, OutOfRangeReply)];
        active := active - 1;
        return Served(job);
      }
      var pkts, count := BuildChunk(words, job.offset, k, p);
      if job.offset + count >= |words| {
        clientCount := clientCount + 1;
      }
      sent := sent + Addressed(job.socket, pkts);
      active := active - 1;
      return Served(job);
    }

    /** One pass of `monitorQueue`. */
    method MonitorStep()
      modifies this
      ensures State() == MonitorPass(numClients, old(State()))
    {
      if queue == [] && active == 0 && clientCount >= numClients {
        running := false;
      }
    }

    /** The threads' steps in the order given. */
    method Interleave(events: seq<Event>) returns (served: seq<Job>)
      modifies this
      ensures Trace(State(), served) == Run(words, k, p, numClients, old(State()), events)
    {
      ghost var total := Run(words, k, p, numClients, State(), events);
      served := [];
      var i := 0;
      while i < |events|
        invariant i <= |events|
        invariant Run(words, k, p, numClients, State(), events[i..]).final == total.final
        invariant served + Run(words, k, p, numClients, State(), events[i..]).served == total.served
        decreases |events| - i
      {
        assert events[i..][0] == events[i] && events[i..][1..] == events[i + 1..];
        ghost var before := State();
        var got: seq<Job> := [];
        match events[i] {
          case Arrive(s, o) =>
            Enqueue(s, o);
          case Work(resumed) =>
            var pass := Worker(resumed);
            if pass.Served? {
              got := [pass.job];
            }
          case Monitor =>
            MonitorStep();
        }
        assert (State(), got) == Step(words, k, p, numClients, before, events[i]);
        JobsAssoc(served, got, Run(words, k, p, numClients, State(), events[i + 1..]).served);
        served := served + got;
        i := i + 1;
      }
      assert events[i..] == [];
    }
  }

  // -------------------------------------------------------------- properties

  /** The request `e` queues, if any. */
  function Arrival(e: Event): seq<Job>
  {
    if e.Arrive? then [Job(e.socket, e.offset)] else []
  }

  /** The requests that `events` queue, in order. */
  function Arrivals(events: seq<Event>): seq<Job>
    decreases |events|
  {
    if events == [] then [] else Arrival(events[0]) + Arrivals(events[1..])
  }

  /** The clients whose chunks reach the end of the corpus. */
  function Ends(words: seq<string>, k: int, jobs: seq<Job>): nat
    decreases |jobs|
  {
    if jobs == [] then 0 else (if ReachesEnd(words, k, jobs[0]) then 1 else 0) + Ends(words, k, jobs[1..])
  }

  /** Everything sent for `jobs`, in order. */
  function Replies(words: seq<string>, k: int, p: int, jobs: seq<Job>): seq<Delivery>
    decreases |jobs|
  {
    if jobs == [] then [] else Reply(words, k, p, jobs[0]) + Replies(words, k, p, jobs[1..])
  }

  /** One step serves from the front of the queue, queues at the back, sends
      the replies of what it serves, keeps `active_requests`, and counts the
      chunks that reach the end. */
  lemma StepFacts(words: seq<string>, k: int, p: int, numClients: int, st: Fifo, e: Event)
    ensures var (st1, s1) := Step(words, k, p, numClients, st, e);
            && s1 + st1.queue == st.queue + Arrival(e)
            && st1.sent == st.sent + Replies(words, k, p, s1)
            && st1.active == st.active
            && st1.clientCount == st.clientCount + Ends(words, k, s1)
  {
    var (st1, s1) := Step(words, k, p, numClients, st, e);
    if s1 != [] {
      assert s1 == [st.queue[0]] && st.queue == s1 + st1.queue;
      assert Replies(words, k, p, s1) == Reply(words, k, p, s1[0]) + [];
    } else {
      assert st1.sent == st.sent + [];
    }
  }

  /** The worker serves requests in arrival order and sends exactly their
      replies, in that order; `active_requests` ends where it began;
      `client_count` grows by one per chunk that reaches the end. */
  lemma {:induction false} RunFifo(words: seq<string>, k: int, p: int, numClients: int, st: Fifo, events: seq<Event>)
    ensures var tr := Run(words, k, p, numClients, st, events);
            && tr.served + tr.final.queue == st.queue + Arrivals(events)
            && tr.final.sent == st.sent + Replies(words, k, p, tr.served)
            && tr.final.active == st.active
            && tr.final.clientCount == st.clientCount + Ends(words, k, tr.served)
    decreases |events|
  {
    if events == [] {
      assert st.queue + [] == st.queue && st.sent + [] == st.sent;
    } else {
      var (st1, s1) := Step(words, k, p, numClients, st, events[0]);
      StepFacts(words, k, p, numClients, st, events[0]);
      RunFifo(words, k, p, numClients, st1, events[1..]);
      var rest := Run(words, k, p, numClients, st1, events[1..]);
      var tr := Run(words, k, p, numClients, st, events);
      assert tr == Trace(rest.final, s1 + rest.served);
      var a := Arrival(events[0]);
      var later := Arrivals(events[1..]);
      calc {
        tr.served + tr.final.queue;
        (s1 + rest.served) + rest.final.queue;
        { JobsAssoc(s1, rest.served, rest.final.queue); }
        s1 + (st1.queue + later);
        { JobsAssoc(s1, st1.queue, later); }
        (st.queue + a) + later;
        { JobsAssoc(st.queue, a, later); }
        st.queue + Arrivals(events);
      }
      EndsAppend(words, k, s1, rest.served);
      RepliesAppend(words, k, p, s1, rest.served);
      DeliveriesAssoc(st.sent, Replies(words, k, p, s1), Replies(words, k, p, rest.served));
    }
  }

  lemma JobsAssoc(a: seq<Job>, b: seq<Job>, c: seq<Job>)
    ensures (a + b) + c == a + (b + c)
  {
  }

  lemma DeliveriesAssoc(a: seq<Delivery>, b: seq<Delivery>, c: seq<Delivery>)
    ensures (a + b) + c == a + (b + c)
  {
  }

  lemma {:induction false} EndsAppend(words: seq<string>, k: int, a: seq<Job>, b: seq<Job>)
    ensures Ends(words, k, a + b) == Ends(words, k, a) + Ends(words, k, b)
    decreases |a|
  {
    if a != [] {
      assert (a + b)[1..] == a[1..] + b;
      EndsAppend(words, k, a[1..], b);
    } else {
      assert a + b == b;
    }
  }

  lemma {:induction false} RepliesAppend(words: seq<string>, k: int, p: int, a: seq<Job>, b: seq<Job>)
    ensures Replies(words, k, p, a + b) == Replies(words, k, p, a) + Replies(words, k, p, b)
    decreases |a|
  {
    if a != [] {
      assert (a + b)[1..] == a[1..] + b;
      RepliesAppend(words, k, p, a[1..], b);
      DeliveriesAssoc(Reply(words, k, p, a[0]), Replies(words, k, p, a[1..]), Replies(words, k, p, b));
    } else {
      assert a + b == b;
    }
  }

  /** The server stops only when it is finished, and never restarts. */
  lemma {:induction false} ShutdownOnlyWhenFinished(words: seq<string>, k: int, p: int, numClients: int, st: Fifo, e: Event)
    ensures var st1 := Step(words, k, p, numClients, st, e).0;
            && (st.running && !st1.running ==> e == Monitor && Finished(numClients, st))
            && (!st.running ==> !st1.running)
  {
  }

  /** The worker leaves only a stopped server, and on waking from its wait
      only once the queue is drained; waiting changes nothing. */
  lemma WorkerExits(words: seq<string>, k: int, p: int, st: Fifo, resumed: bool)
    ensures var (st1, pass) := WorkerPass(words, k, p, st, resumed);
            && (pass == Exited ==> !st.running && (resumed ==> st.queue == []) && st1 == st)
            && (pass == Waiting ==> st.running && st.queue == [] && st1 == st)
            && (pass.Served? ==> st.queue != [] && pass.job == st.queue[0] && st1.queue == st.queue[1..])
  {
  }

  /** A served out-of-range request gets `$$\n` alone; any other gets its
      chunk, whose last packet carries `,EOF` exactly when it counts. */
  lemma ReplyShape(words: seq<string>, k: int, p: int, job: Job)
    requires k >= 1
    ensures OutOfRange(job.offset, |words|) ==> Reply(words, k, p, job) == [Delivery(job.socket, OutOfRangeReply)]
    ensures !OutOfRange(job.offset, |words|) ==>
              var ps := ChunkPackets(words, job.offset, k, p);
              var gs := Groups(words[job.offset..ChunkEnd(|words|, job.offset, k)], Width(p));
              && |Reply(words, k, p, job)| == |ps| >= 1
              && Reply(words, k, p, job)[|ps| - 1] == Delivery(job.socket, Packet(gs[|gs| - 1], ReachesEnd(words, k, job)))
  {
    if !OutOfRange(job.offset, |words|) {
      ChunkShape(words, job.offset, k, p);
    }
  }
}
