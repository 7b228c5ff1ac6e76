/** lab_2 part3's slotted-ALOHA client: time is cut into slots of `T`
    milliseconds; at each slot change the client sends its next request with
    probability `p` (decided by a draw made at the previous change), and at
    most one request leaves per slot. */
module AlohaClient {
  import opened Wire
  import opened SlotWords

  /** The slot-gate variables: `current_slot`, `allowed_to_send`, and whether
      `prob_next_slot < p`. */
  datatype Gate = Gate(slot: int, allowed: bool, below: bool)

  /** One pass of the gate: the new gate, whether a request is sent, and the
      milliseconds slept. */
  datatype Tick = Tick(gate: Gate, send: bool, sleep: int)

  /** A clock reading in milliseconds and the outcome of the draw that the
      client makes if this reading starts a new slot. */
  datatype Reading = Reading(time: nat, below: bool)

  /** The gate at clock reading `t`. On a new slot the stored draw decides
      `allowed_to_send`, a refused client sleeps to the last millisecond of
      the slot, and a fresh draw is stored; an allowed client sends and
      clears `allowed_to_send`. */
  function TickAt(T: nat, g: Gate, t: nat, draw: bool): Tick
    requires T >= 1
  {
    var s := t / T;
    var g1 := if s != g.slot then Gate(s, g.below, draw) else g;
    var sleep := if s != g.slot && !g.below then (s + 1) * T - t - 1 else 0;
    if g1.allowed then Tick(g1.(allowed := false), true, sleep) else Tick(g1, false, sleep)
  }

  /** The client's state. */
  datatype State = State(gate: Gate, offset: int, pending: seq<string>, tally: Tally)

  /** How the session ends: the last receive loop's kind, the final state and
      the offsets requested. */
  datatype Stop = Stop(kind: Kind, state: State, requests: seq<int>)

  /** The outer `while (true)` of `countWords`, one clock reading per pass. */
  function Session(T: nat, c: State, requests: seq<int>, readings: seq<Reading>, i: nat, rs: seq<Recv>, r: nat): Stop
    requires T >= 1 && i <= |readings| && r <= |rs|
    decreases |readings| - i
  {
    if i == |readings| then Stop(Blocked, c, requests)
    else
      var tk := TickAt(T, c.gate, readings[i].time, readings[i].below);
      if !tk.send then Session(T, c.(gate := tk.gate), requests, readings, i + 1, rs, r)
      else
        var rd := RoundFrom(K, c.pending, c.tally, rs, r);
        var c1 := State(tk.gate, c.offset, rd.pending, rd.tally);
        if rd.kind == Committed || rd.kind == Collided then
          Session(T, c1.(offset := c.offset + Advance(K, rd.kind)), requests + [c.offset], readings, i + 1, rs, rd.next)
        else Stop(rd.kind, c1, requests + [c.offset])
  }

  class Client {
    const T: nat
    var slot: int
    var allowed: bool
    var below: bool
    var offset: int
    var pending: seq<string>
    var tally: Tally

    function Snapshot(): State
      reads this
    {
      State(Gate(slot, allowed, below), offset, pending, tally)
    }

    /** Connected at clock reading `t0`, with the first draw's outcome. */
    constructor(period: nat, t0: nat, draw0: bool)
      requires period >= 1
      ensures T == period
      ensures Snapshot() == State(Gate(t0 / period, false, draw0), 0, [], map[])
    {
      T := period;
      slot := t0 / period;
      allowed := false;
      below := draw0;
      offset := 0;
      pending := [];
      tally := map[];
    }

    /** Lines 89-107: read the clock, pass the gate. */
    method Pass(t: nat, draw: bool) returns (send: bool, sleep: int)
      requires T >= 1
      modifies this
      ensures var tk := TickAt(T, old(Snapshot()).gate, t, draw);
              send == tk.send && sleep == tk.sleep && Snapshot() == old(Snapshot()).(gate := tk.gate)
    {
      var s := t / T;
      sleep := 0;
      if s != slot {
        slot := s;
        allowed := below;
        if !allowed {
          sleep := (s + 1) * T - t - 1;
        }
        below := draw;
      }
      send := allowed;
      if allowed {
        allowed := false;
      }
    }

    /** `countWords` after the connection is made. */
    method CountWords(readings: seq<Reading>, rs: seq<Recv>) returns (kind: Kind, requests: seq<int>)
      requires T >= 1
      modifies this
      ensures Session(T, old(Snapshot()), [], readings, 0, rs, 0) == Stop(kind, Snapshot(), requests)
    {
      ghost var total := Session(T, Snapshot(), [], readings, 0, rs, 0);
      requests := [];
      var i: nat, r: nat := 0, 0;
      while true
        invariant i <= |readings| && r <= |rs|
        invariant Session(T, Snapshot(), requests, readings, i, rs, r) == total
        decreases |readings| - i
      {
        if i == |readings| {
          return Blocked, requests;
        }
        var send, sleep := Pass(readings[i].time, readings[i].below);
        i := i + 1;
        if !send {
          continue;
        }
        requests := requests + [offset];
        var rd := Receive(K, pending, tally, rs, r);
        pending, tally, r := rd.pending, rd.tally, rd.next;
        if rd.kind == Collided {
          offset := offset - K;
        } else if rd.kind != Committed {
          return rd.kind, requests;
        }
        offset := offset + K;
      }
    }
  }

  // -------------------------------------------------------------- properties

  /** Between passes `allowed_to_send` is always false, so a request leaves
      only on the first pass of a new slot, and then exactly when the draw
      stored at the previous slot change was below `p`. */
  lemma SendOnNewSlot(T: nat, g: Gate, t: nat, draw: bool)
    requires T >= 1 && !g.allowed
    ensures var tk := TickAt(T, g, t, draw);
            && !tk.gate.allowed
            && (tk.send <==> t / T != g.slot && g.below)
            && tk.gate.slot == t / T
            && (t / T != g.slot ==> tk.gate.below == draw)
            && (t / T == g.slot ==> tk.gate == g)
  {
  }

  /** A refused client wakes in the last millisecond of the same slot. */
  lemma SleepStaysInSlot(T: nat, g: Gate, t: nat, draw: bool)
    requires T >= 1
    ensures var tk := TickAt(T, g, t, draw);
            var s := t / T;
            && 0 <= tk.sleep < T
            && s * T <= t + tk.sleep < s * T + T
            && (tk.sleep > 0 ==> t + tk.sleep + 1 == s * T + T)
  {
    var s := t / T;
    assert t == s * T + t % T;
    assert (s + 1) * T == s * T + T;
  }

  /** The requests sent over a run of clock readings. */
  function Sends(T: nat, g: Gate, readings: seq<Reading>): nat
    requires T >= 1
    decreases |readings|
  {
    if readings == [] then 0
    else
      var tk := TickAt(T, g, readings[0].time, readings[0].below);
      (if tk.send then 1 else 0) + Sends(T, tk.gate, readings[1..])
  }

  /** Slots of readings that never go back in time. */
  predicate Monotone(T: nat, readings: seq<Reading>)
    requires T >= 1
  {
    forall j :: 0 < j < |readings| ==> readings[j - 1].time / T <= readings[j].time / T
  }

  /** At most one request per slot: over readings whose clock never goes
      back, the requests sent are at most the slots entered. */
  lemma {:induction false} AtMostOnePerSlot(T: nat, g: Gate, readings: seq<Reading>)
    requires T >= 1 && !g.allowed && readings != [] && Monotone(T, readings)
    requires g.slot <= readings[0].time / T
    ensures Sends(T, g, readings) <= readings[|readings| - 1].time / T - g.slot
    decreases |readings|
  {
    var tk := TickAt(T, g, readings[0].time, readings[0].below);
    SendOnNewSlot(T, g, readings[0].time, readings[0].below);
    if |readings| > 1 {
      AtMostOnePerSlot(T, tk.gate, readings[1..]);
    }
  }

  /** A session sends no more requests than the gate lets through. */
  lemma {:induction false} SessionSends(T: nat, c: State, requests: seq<int>, readings: seq<Reading>, i: nat, rs: seq<Recv>, r: nat)
    requires T >= 1 && i <= |readings| && r <= |rs|
    ensures |Session(T, c, requests, readings, i, rs, r).requests| <= |requests| + Sends(T, c.gate, readings[i..])
    decreases |readings| - i
  {
    if i < |readings| {
      assert readings[i..][0] == readings[i] && readings[i..][1..] == readings[i + 1..];
      var tk := TickAt(T, c.gate, readings[i].time, readings[i].below);
      var rd := RoundFrom(K, c.pending, c.tally, rs, r);
      if !tk.send {
        SessionSends(T, c.(gate := tk.gate), requests, readings, i + 1, rs, r);
      } else if rd.kind == Committed || rd.kind == Collided {
        var c1 := State(tk.gate, c.offset + Advance(K, rd.kind), rd.pending, rd.tally);
        SessionSends(T, c1, requests + [c.offset], readings, i + 1, rs, rd.next);
      }
    }
  }

  /** One pass of the outer loop. */
  lemma SessionStep(T: nat, c: State, requests: seq<int>, readings: seq<Reading>, i: nat, rs: seq<Recv>, r: nat)
    requires T >= 1 && i < |readings| && r <= |rs|
    ensures var tk := TickAt(T, c.gate, readings[i].time, readings[i].below);
            var rd := RoundFrom(K, c.pending, c.tally, rs, r);
            var s := Session(T, c, requests, readings, i, rs, r);
            && (!tk.send ==> s == Session(T, c.(gate := tk.gate), requests, readings, i + 1, rs, r))
            && (tk.send && (rd.kind == Committed || rd.kind == Collided) ==>
                  s == Session(T, State(tk.gate, c.offset + Advance(K, rd.kind), rd.pending, rd.tally),
                               requests + [c.offset], readings, i + 1, rs, rd.next))
            && (tk.send && rd.kind != Committed && rd.kind != Collided ==>
                  s == Stop(rd.kind, State(tk.gate, c.offset, rd.pending, rd.tally), requests + [c.offset]))
  {
  }

  /** The words a session counts: those each request's receive loop
      counted, in request order. */
  function SessionWords(T: nat, c: State, readings: seq<Reading>, i: nat, rs: seq<Recv>, r: nat): seq<string>
    requires T >= 1 && i <= |readings| && r <= |rs|
    decreases |readings| - i
  {
    if i == |readings| then []
    else
      var tk := TickAt(T, c.gate, readings[i].time, readings[i].below);
      if !tk.send then SessionWords(T, c.(gate := tk.gate), readings, i + 1, rs, r)
      else
        var rd := RoundFrom(K, c.pending, c.tally, rs, r);
        var w := Counted(K, c.pending, c.tally, rs, r);
        if rd.kind == Committed || rd.kind == Collided then
          w + SessionWords(T, State(tk.gate, c.offset + Advance(K, rd.kind), rd.pending, rd.tally), readings, i + 1, rs, rd.next)
        else w
  }

  /** Words enter the tally only ten at a time. For a session started with
      nothing pending, the final tally is the first one with the words of
      the committed requests (and of the one reaching `EOF`) added, in
      request order; a collided request adds nothing. Unless the session
      ends in `EOF`, those words are exactly as many as it advanced the
      offset. Its requests repeat an offset after a collision or move on by
      ten. */
  lemma {:induction false} SessionAccounts(T: nat, c: State, requests: seq<int>, readings: seq<Reading>, i: nat, rs: seq<Recv>, r: nat)
    requires T >= 1 && i <= |readings| && r <= |rs| && c.pending == []
    requires Steps(K, requests) && Follows(K, requests, c.offset)
    ensures var s := Session(T, c, requests, readings, i, rs, r);
            var w := SessionWords(T, c, readings, i, rs, r);
            && Steps(K, s.requests)
            && c.offset <= s.state.offset
            && s.state.tally == TallyAll(c.tally, w)
            && (s.kind != Finished ==> |w| == s.state.offset - c.offset)
    decreases |readings| - i
  {
    if i == |readings| {
      return;
    }
    var tk := TickAt(T, c.gate, readings[i].time, readings[i].below);
    var rd := RoundFrom(K, c.pending, c.tally, rs, r);
    SessionStep(T, c, requests, readings, i, rs, r);
    if !tk.send {
      SessionAccounts(T, c.(gate := tk.gate), requests, readings, i + 1, rs, r);
      return;
    }
    RoundAccounts(K, c.tally, rs, r);
    StepsSnoc(K, requests, c.offset);
    if rd.kind == Committed || rd.kind == Collided {
      var c1 := State(tk.gate, c.offset + Advance(K, rd.kind), rd.pending, rd.tally);
      SessionAccounts(T, c1, requests + [c.offset], readings, i + 1, rs, rd.next);
      TallyAppend(c.tally, Counted(K, c.pending, c.tally, rs, r), SessionWords(T, c1, readings, i + 1, rs, rd.next));
    }
  }
}
