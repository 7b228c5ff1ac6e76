/** lab_2 part3's binary-exponential-backoff client: it requests at once and
    again after every reply; on the `c`-th collision in a row it sleeps a
    whole number of slots drawn from `[0, 2^min(c,10) - 1]`, and a committed
    transfer resets `c` to zero. */
module BebClient {
  import opened Wire
  import opened SlotWords

  /** `1 << n` */
  function Pow2(n: nat): (p: nat)
    ensures p >= 1
  {
    if n == 0 then 1 else 2 * Pow2(n - 1)
  }

  /** The cap on the backoff exponent (`min(k, 10)`). */
  const MaxExponent: nat := 10

  /** The largest slot count drawn after `c` collisions in a row. */
  function Window(c: nat): nat
  {
    Pow2(if c < MaxExponent then c else MaxExponent) - 1
  }

  /** The slot count drawn after `c` collisions: the random generator is an
      input, whose `d`-th value is reduced into the window; past its end the
      draw is 0. */
  function Draw(draws: seq<nat>, d: nat, c: nat): nat
  {
    if d < |draws| then draws[d] % (Window(c) + 1) else 0
  }

  /** The client's state: `num_collisions`, `offset`, the pending words, the
      tally. */
  datatype State = State(collisions: nat, offset: int, pending: seq<string>, tally: Tally)

  /** How the session ends: the last receive loop's kind, the final state,
      the offsets requested and the slots drawn after each collision (the
      client sleeps `T` milliseconds per slot). */
  datatype Stop = Stop(kind: Kind, state: State, requests: seq<int>, backoffs: seq<nat>)

  /** The state after a request's receive loop that did not end the session:
      a collision counts one more and rewinds the offset, a commit resets the
      count and moves on. */
  function After(c: State, rd: Round): State
  {
    if rd.kind == Collided then State(c.collisions + 1, c.offset, rd.pending, rd.tally)
    else State(0, c.offset + K, rd.pending, rd.tally)
  }

  /** The outer `while (true)` of `countWords`: one request per pass, each
      reading at least one buffer. */
  function Session(c: State, requests: seq<int>, backoffs: seq<nat>, rs: seq<Recv>, r: nat, draws: seq<nat>, d: nat): Stop
    requires r <= |rs|
    decreases |rs| - r
  {
    var rd := RoundFrom(K, c.pending, c.tally, rs, r);
    var sent := requests + [c.offset];
    if rd.kind == Collided then
      var c1 := After(c, rd);
      Session(c1, sent, backoffs + [Draw(draws, d, c1.collisions)], rs, rd.next, draws, d + 1)
    else if rd.kind == Committed then
      Session(After(c, rd), sent, backoffs, rs, rd.next, draws, d)
    else Stop(rd.kind, State(c.collisions, c.offset, rd.pending, rd.tally), sent, backoffs)
  }

  class Client {
    const T: nat
    var collisions: nat
    var offset: int
    var pending: seq<string>
    var tally: Tally

    function Snapshot(): State
      reads this
    {
      State(collisions, offset, pending, tally)
    }

    constructor(period: nat)
      ensures T == period
      ensures Snapshot() == State(0, 0, [], map[])
    {
      T := period;
      collisions := 0;
      offset := 0;
      pending := [];
      tally := map[];
    }

    /** Lines 127-134 and 143-150: after a collision count it and sleep;
        after a commit reset the count. */
    method Settle(rd: Round, draws: seq<nat>, d: nat) returns (slots: nat, sleep: nat)
      requires rd.kind == Collided || rd.kind == Committed
      modifies this
      ensures Snapshot() == After(old(Snapshot()), rd)
      ensures rd.kind == Collided ==> slots == Draw(draws, d, collisions) && sleep == slots * T
    {
      pending, tally := rd.pending, rd.tally;
      slots, sleep := 0, 0;
      if rd.kind == Collided {
        offset := offset - K;
        collisions := collisions + 1;
        slots := Draw(draws, d, collisions);
        sleep := slots * T;
      } else {
        collisions := 0;
      }
      offset := offset + K;
    }

    /** `countWords` after the connection is made. */
    method CountWords(rs: seq<Recv>, draws: seq<nat>) returns (kind: Kind, requests: seq<int>, backoffs: seq<nat>)
      modifies this
      ensures Session(old(Snapshot()), [], [], rs, 0, draws, 0) == Stop(kind, Snapshot(), requests, backoffs)
    {
      ghost var total := Session(Snapshot(), [], [], rs, 0, draws, 0);
      requests, backoffs := [], [];
      var r: nat, d: nat := 0, 0;
      while true
        invariant r <= |rs|
        invariant Session(Snapshot(), requests, backoffs, rs, r, draws, d) == total
        decreases |rs| - r
      {
        requests := requests + [offset];
        var rd := Receive(K, pending, tally, rs, r);
        if rd.kind != Collided && rd.kind != Committed {
          pending, tally := rd.pending, rd.tally;
          return rd.kind, requests, backoffs;
        }
        r := rd.next;
        var slots, sleep := Settle(rd, draws, d);
        if rd.kind == Collided {
          backoffs := backoffs + [slots];
          d := d + 1;
        }
      }
    }
  }

  // -------------------------------------------------------------- properties

  /** The window doubles (plus one) with each collision up to the tenth and
      then stays at 1023 slots. */
  lemma WindowGrowth(c: nat)
    ensures Window(0) == 0
    ensures c < MaxExponent ==> Window(c + 1) == 2 * Window(c) + 1
    ensures c >= MaxExponent ==> Window(c) == 1023
  {
    if c >= MaxExponent {
      assert Pow2(10) == 1024;
    }
  }

  /** Every draw lies in the window of the collision count it follows. */
  lemma DrawInWindow(draws: seq<nat>, d: nat, c: nat)
    ensures Draw(draws, d, c) <= Window(c)
  {
  }

  /** After a collision the count is positive, so the window has at least two
      slots; after a commit the count is zero. */
  lemma AfterCounts(c: State, rd: Round)
    requires rd.kind == Collided || rd.kind == Committed
    ensures rd.kind == Collided ==> After(c, rd).collisions == c.collisions + 1 && Window(After(c, rd).collisions) >= 1
    ensures rd.kind == Committed ==> After(c, rd).collisions == 0
    ensures After(c, rd).offset == c.offset + Advance(K, rd.kind)
  {
    if rd.kind == Collided {
      var n := c.collisions + 1;
      assert Pow2(if n < MaxExponent then n else MaxExponent) >= 2;
    }
  }

  /** Every backoff is at most 1023 slots. */
  predicate Capped(backoffs: seq<nat>)
  {
    forall j :: 0 <= j < |backoffs| ==> backoffs[j] <= 1023
  }

  /** No backoff exceeds 1023 slots, however many collisions in a row. */
  lemma {:induction false} BackoffsBounded(c: State, requests: seq<int>, backoffs: seq<nat>, rs: seq<Recv>, r: nat, draws: seq<nat>, d: nat)
    requires r <= |rs| && Capped(backoffs)
    ensures Capped(Session(c, requests, backoffs, rs, r, draws, d).backoffs)
    decreases |rs| - r
  {
    var rd := RoundFrom(K, c.pending, c.tally, rs, r);
    if rd.kind == Collided || rd.kind == Committed {
      var c1 := After(c, rd);
      var b1 := if rd.kind == Collided then backoffs + [Draw(draws, d, c1.collisions)] else backoffs;
      var d1 := if rd.kind == Collided then d + 1 else d;
      DrawInWindow(draws, d, c1.collisions);
      WindowCap(c1.collisions);
      assert Capped(b1);
      BackoffsBounded(c1, requests + [c.offset], b1, rs, rd.next, draws, d1);
      assert Session(c, requests, backoffs, rs, r, draws, d) == Session(c1, requests + [c.offset], b1, rs, rd.next, draws, d1);
    }
  }

  lemma {:induction false} WindowCap(c: nat)
    ensures Window(c) <= 1023
  {
    var e := if c < MaxExponent then c else MaxExponent;
    Pow2Mono(e, MaxExponent);
    assert Pow2(10) == 1024;
  }

  lemma {:induction false} Pow2Mono(a: nat, b: nat)
    requires a <= b
    ensures Pow2(a) <= Pow2(b)
    decreases b - a
  {
    if a < b {
      Pow2Mono(a, b - 1);
    }
  }

  /** The words a session counts: those each request's receive loop
      counted, in request order. */
  function SessionWords(c: State, rs: seq<Recv>, r: nat): seq<string>
    requires r <= |rs|
    decreases |rs| - r
  {
    var rd := RoundFrom(K, c.pending, c.tally, rs, r);
    var w := Counted(K, c.pending, c.tally, rs, r);
    if rd.kind == Collided || rd.kind == Committed then w + SessionWords(After(c, rd), rs, rd.next)
    else w
  }

  /** For a session started with nothing pending, the final tally is the
      first one with the words of the committed requests (and of the one
      reaching `EOF`) added, in request order; a collided request adds
      nothing. Unless the session ends in `EOF`, those words are exactly as
      many as it advanced the offset. Its requests repeat an offset after a
      collision or move on by ten. */
  lemma {:induction false} SessionAccounts(c: State, requests: seq<int>, backoffs: seq<nat>, rs: seq<Recv>, r: nat, draws: seq<nat>, d: nat)
    requires r <= |rs| && c.pending == []
    requires Steps(K, requests) && Follows(K, requests, c.offset)
    ensures var s := Session(c, requests, backoffs, rs, r, draws, d);
            var w := SessionWords(c, rs, r);
            && Steps(K, s.requests)
            && c.offset <= s.state.offset
            && s.state.tally == TallyAll(c.tally, w)
            && (s.kind != Finished ==> |w| == s.state.offset - c.offset)
    decreases |rs| - r
  {
    var rd := RoundFrom(K, c.pending, c.tally, rs, r);
    RoundAccounts(K, c.tally, rs, r);
    StepsSnoc(K, requests, c.offset);
    if rd.kind == Collided || rd.kind == Committed {
      var c1 := After(c, rd);
      AfterCounts(c, rd);
      var backoffs1 := if rd.kind == Collided then backoffs + [Draw(draws, d, c1.collisions)] else backoffs;
      var d1 := if rd.kind == Collided then d + 1 else d;
      assert Session(c, requests, backoffs, rs, r, draws, d) == Session(c1, requests + [c.offset], backoffs1, rs, rd.next, draws, d1);
      SessionAccounts(c1, requests + [c.offset], backoffs1, rs, rd.next, draws, d1);
      TallyAppend(c.tally, Counted(K, c.pending, c.tally, rs, r), SessionWords(c1, rs, rd.next));
    }
  }
}
