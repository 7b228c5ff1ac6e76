/** The word-count client of lab_2 part1 and part2 (`countWords`): request the
    chunk at `offset`, tokenise every received buffer on `,` and `\n`, tally the
    words, stop at `EOF`, and advance the offset by `k` once `k` words of the
    current chunk have arrived. part2 runs the same loop after a bounded
    connect-retry loop. */
module WordClient {
  import opened Wire
  import opened Chunk

  /** How a session ends. */
  datatype Outcome =
    | Finished(tally: Tally)  // `EOF` seen: the tally is written to the output file
    | Dropped                 // a `recv` returned `<= 0`: nothing is written
    | Rejected                // `$$\n` arrived: nothing is written
    | Blocked                 // no further buffer arrives: the client waits in `recv`

  /** A session's end and the number of requests it sent. */
  datatype Run = Run(outcome: Outcome, rounds: nat)

  /** The scan of one buffer as the per-character loop performs it: the words
      before the first `EOF` token (all of them when there is none), and
      whether an `EOF` token was found. */
  method ScanBuffer(t0: Tally, text: string) returns (t: Tally, count: nat, eof: bool)
    ensures var toks := Tokens(text);
            var e := IndexOf(toks, Eof);
            && eof == (e < |toks|)
            && count == e
            && t == TallyAll(t0, toks[..e])
  {
    t, count, eof := t0, 0, false;
    var word: string := [];
    ghost var seen: seq<string> := [];
    var i := 0;
    while i < |text|
      invariant 0 <= i <= |text|
      invariant seen + TokensFrom(word, text[i..]) == Tokens(text)
      invariant forall j :: 0 <= j < |seen| ==> seen[j] != Eof
      invariant t == TallyAll(t0, seen) && count == |seen|
      decreases |text| - i
    {
      var ch := text[i];
      assert text[i..][0] == ch && text[i..][1..] == text[i + 1..];
      if ch == ',' || ch == '\n' {
        if word != [] {
          assert TokensFrom(word, text[i..]) == [word] + TokensFrom([], text[i + 1..]);
          if word == Eof {
            IndexOfFirst(seen, Eof, TokensFrom([], text[i + 1..]));
            AppendAssoc(seen, [Eof], TokensFrom([], text[i + 1..]));
            assert Tokens(text) == seen + [Eof] + TokensFrom([], text[i + 1..]);
            assert Tokens(text)[..|seen|] == seen;
            eof := true;
            return;
          }
          TallyAppend(t0, seen, [word]);
          AppendAssoc(seen, [word], TokensFrom([], text[i + 1..]));
          t := Bump(t, word);
          count := count + 1;
          seen := seen + [word];
          word := [];
        }
      } else {
        word := word + [ch];
      }
      i := i + 1;
    }
    IndexOfAbsent(seen, Eof);
    assert seen[..|seen|] == seen;
  }

  lemma {:induction false} IndexOfFirst(ws: seq<string>, w: string, rest: seq<string>)
    requires forall j :: 0 <= j < |ws| ==> ws[j] != w
    ensures IndexOf(ws + [w] + rest, w) == |ws|
    decreases |ws|
  {
    if ws != [] {
      var all := ws + [w] + rest;
      assert all[0] == ws[0] && all[1..] == ws[1..] + [w] + rest;
      IndexOfFirst(ws[1..], w, rest);
    }
  }

  lemma IndexOfAbsent(ws: seq<string>, w: string)
    requires forall j :: 0 <= j < |ws| ==> ws[j] != w
    ensures IndexOf(ws, w) == |ws|
  {
  }

  /** A session as the loops perform it, from tally `t` with `received` words of
      the current chunk counted, over the remaining `recv` results `rs`. */
  function Session(k: int, t: Tally, received: nat, rs: seq<Recv>): Run
    decreases |rs|
  {
    if rs == [] then Run(Blocked, 1)
    else match rs[0]
      case Closed => Run(Dropped, 1)
      case Data(text) =>
        if text == OutOfRangeReply then Run(Rejected, 1)
        else
          var toks := Tokens(text);
          var e := IndexOf(toks, Eof);
          if e < |toks| then Run(Finished(TallyAll(t, toks[..e])), 1)
          else if received + e >= k then
            var r := Session(k, TallyAll(t, toks), 0, rs[1..]);
            Run(r.outcome, r.rounds + 1)
          else Session(k, TallyAll(t, toks), received + e, rs[1..])
  }

  /** `countWords` after connecting: the request loop and its receive loop.
      `requests` are the offsets sent. A `$$\n` reply ends the session with no
      output (part1 closes the socket, breaks out and then fails in `recv` on it;
      part2 returns at once). */
  method CountWords(k: int, responses: seq<Recv>) returns (outcome: Outcome, requests: seq<int>)
    requires k >= 1
    ensures Run(outcome, |requests|) == Session(k, map[], 0, responses)
    ensures forall i :: 0 <= i < |requests| ==> requests[i] == i * k
  {
    ghost var total := Session(k, map[], 0, responses);
    var t: Tally := map[];
    var offset := 0;
    requests := [];
    var r := 0;
    assert responses[0..] == responses;
    while true
      invariant 0 <= r <= |responses|
      invariant offset == |requests| * k
      invariant forall i :: 0 <= i < |requests| ==> requests[i] == i * k
      invariant total == Later(Session(k, t, 0, responses[r..]), |requests|)
      decreases |responses| - r
    {
      MulStep(|requests|, k);
      requests := requests + [offset];
      var step;
      t, r, step := ReceiveChunk(k, t, responses, r);
      if step.Stop? {
        outcome := step.outcome;
        return;
      }
      offset := offset + k;
    }
  }

  /** How the receive loop of one request ends. */
  datatype Step = Next | Stop(outcome: Outcome)

  /** The receive loop `while (words_received < k)` of one request, reading
      buffers from `responses[r0..]`. */
  method ReceiveChunk(k: int, t0: Tally, responses: seq<Recv>, r0: nat) returns (t: Tally, r: nat, step: Step)
    requires k >= 1 && r0 <= |responses|
    ensures r0 <= r <= |responses|
    ensures step.Stop? ==> Session(k, t0, 0, responses[r0..]) == Run(step.outcome, 1)
    ensures step.Next? ==> r > r0 && Session(k, t0, 0, responses[r0..]) == Later(Session(k, t, 0, responses[r..]), 1)
  {
    t, r := t0, r0;
    var received: nat := 0;
    while received < k
      invariant r0 <= r <= |responses| && (r == r0 ==> received == 0)
      invariant Session(k, t0, 0, responses[r0..]) == Pending(k, t, received, responses[r..])
      decreases |responses| - r
    {
      if r == |responses| {
        return t, r, Stop(Blocked);
      }
      var resp := responses[r];
      assert responses[r..][0] == resp && responses[r..][1..] == responses[r + 1..];
      r := r + 1;
      if resp.Closed? {
        return t, r, Stop(Dropped);
      }
      var text := resp.text;
      if text == OutOfRangeReply {
        return t, r, Stop(Rejected);
      }
      ghost var tBefore := t;
      var count, eof;
      t, count, eof := ScanBuffer(t, text);
      if eof {
        return t, r, Stop(Finished(t));
      }
      ReadStep(k, tBefore, received, responses[r - 1..], text, t, count);
      received := received + count;
    }
    step := Next;
  }

  lemma MulStep(n: nat, k: int)
    ensures (n + 1) * k == n * k + k
  {
  }

  /** The rest of a session once `received` words of the current chunk are
      in: a new request goes out when they reach `k`. */
  function Pending(k: int, t: Tally, received: nat, rs: seq<Recv>): Run
  {
    if received < k then Session(k, t, received, rs) else Later(Session(k, t, 0, rs), 1)
  }

  /** `s` preceded by `n` requests already sent. */
  function Later(s: Run, n: nat): Run { Run(s.outcome, s.rounds + n) }

  /** One buffer without `EOF`: its words are tallied and counted, and a new
      request goes out once the chunk's `k` words are in. */
  lemma ReadStep(k: int, t: Tally, received: nat, rs: seq<Recv>, text: string, t': Tally, count: nat)
    requires rs != [] && rs[0] == Data(text) && text != OutOfRangeReply
    requires var toks := Tokens(text);
             var e := IndexOf(toks, Eof);
             e == |toks| && count == e && t' == TallyAll(t, toks[..e])
    ensures Session(k, t, received, rs) == Pending(k, t', received + count, rs[1..])
  {
    assert Tokens(text)[..|Tokens(text)|] == Tokens(text);
  }

  // ----------------------------------------------- against a correct server

  function AsRecv(pkts: seq<string>): seq<Recv>
    decreases |pkts|
  {
    if pkts == [] then [] else [Data(pkts[0])] + AsRecv(pkts[1..])
  }

  lemma {:induction false} AsRecvAppend(a: seq<string>, b: seq<string>)
    ensures AsRecv(a + b) == AsRecv(a) + AsRecv(b)
    decreases |a|
  {
    if a == [] {
      assert a + b == b;
    } else {
      assert (a + b)[0] == a[0] && (a + b)[1..] == a[1..] + b;
      AsRecvAppend(a[1..], b);
    }
  }

  /** The buffers a client reads when every packet of the chunks for offsets
      `o`, `o + k`, ... arrives in a buffer of its own. */
  function Replies(words: seq<string>, k: int, p: int, o: nat): seq<Recv>
    requires k >= 1 && o < |words|
    decreases |words| - o
  {
    var pk := AsRecv(ChunkPackets(words, o, k, p));
    if o + k >= |words| then pk else pk + Replies(words, k, p, o + k)
  }

  /** Words the client can read back unchanged and that never end a session early. */
  predicate Readable(words: seq<string>)
  {
    AllClean(words) && forall i :: 0 <= i < |words| ==> words[i] != Eof && words[i] != "$$"
  }

  lemma ReadableSlice(words: seq<string>, a: nat, m: nat)
    requires Readable(words) && a < m <= |words|
    ensures words[a..m] != [] && AllClean(words[a..m])
    ensures forall j :: 0 <= j < |words[a..m]| ==> words[a..m][j] != Eof
    ensures words[a..m][0] != "$$"
  {
    assert forall j :: 0 <= j < m - a ==> words[a..m][j] == words[a + j];
  }

  /** One packet of a chunk: its words are tallied and counted. */
  lemma ReadPacket(words: seq<string>, a: nat, m: nat, eof: bool)
    requires Readable(words) && a < m <= |words|
    ensures var toks := Tokens(Packet(words[a..m], eof));
            && Packet(words[a..m], eof) != OutOfRangeReply
            && toks == words[a..m] + (if eof then [Eof] else [])
            && IndexOf(toks, Eof) == m - a
  {
    ReadableSlice(words, a, m);
    TokensOfPacket(words[a..m], eof);
    var toks := Tokens(Packet(words[a..m], eof));
    if eof {
      IndexOfFirst(words[a..m], Eof, []);
      assert toks == words[a..m] + [Eof] + [];
    } else {
      IndexOfAbsent(words[a..m], Eof);
    }
    assert toks[0] == words[a..m][0];
    OutOfRangeTokens();
  }

  /** The `$$\n` reply reads as the single token `$$`. */
  lemma OutOfRangeTokens()
    ensures Tokens(OutOfRangeReply) == ["$$"]
  {
    var s0: string := ['$', '$', '\n'];
    var s1: string := ['$', '\n'];
    var s2: string := ['\n'];
    assert OutOfRangeReply == s0 && s0[1..] == s1 && s1[1..] == s2 && s2[1..] == [];
    var w1: string := ['$'];
    var w2: string := ['$', '$'];
    assert [] + [s0[0]] == w1 && w1 + [s1[0]] == w2 && w2 == "$$";
    assert TokensFrom(w2, s2) == [w2] + TokensFrom([], []);
    assert TokensFrom(w1, s1) == TokensFrom(w2, s2);
    assert TokensFrom([], s0) == TokensFrom(w1, s1);
  }

  lemma TallySlices(t: Tally, words: seq<string>, a: nat, m: nat, e: nat)
    requires a <= m <= e <= |words|
    ensures TallyAll(TallyAll(t, words[a..m]), words[m..e]) == TallyAll(t, words[a..e])
  {
    TallyAppend(t, words[a..m], words[m..e]);
    assert words[a..m] + words[m..e] == words[a..e];
  }

  lemma TallyRest(t: Tally, words: seq<string>, a: nat, m: nat)
    requires a <= m <= |words|
    ensures TallyAll(TallyAll(t, words[a..m]), words[m..]) == TallyAll(t, words[a..])
  {
    TallySlices(t, words, a, m, |words|);
    assert words[a..] == words[a..|words|] && words[m..] == words[m..|words|];
  }

  /** The packets of a chunk that stops short of the corpus end bring exactly
      its words and complete the round, so the next request goes out. */
  lemma {:induction false} MidChunk(k: int, t: Tally, received: nat, words: seq<string>, a: nat, e: nat, w: nat, rest: seq<Recv>)
    requires Readable(words) && a < e < |words| && w >= 1
    requires received + (e - a) == k
    ensures Session(k, t, received, AsRecv(PacketsFrom(words, a, e, w, false)) + rest)
         == Later(Session(k, TallyAll(t, words[a..e]), 0, rest), 1)
    decreases e - a
  {
    var m := if a + w < e then a + w else e;
    var pkt := Packet(words[a..m], false);
    var more := PacketsFrom(words, m, e, w, false);
    var rs := PacketStream(words, a, e, w, false, rest);
    var t' := TallyAll(t, words[a..m]);
    PlainPacket(k, t, received, words, a, m, rs);
    if m == e {
      assert more == [];
      assert rs[1..] == rest;
    } else {
      MidChunk(k, t', received + (m - a), words, m, e, w, rest);
      TallySlices(t, words, a, m, e);
    }
  }

  /** The packets of the final chunk bring its words and then `EOF`. */
  lemma {:induction false} EndChunk(k: int, t: Tally, received: nat, words: seq<string>, a: nat, w: nat, rest: seq<Recv>)
    requires Readable(words) && a < |words| && w >= 1
    requires received + (|words| - a) <= k
    ensures Session(k, t, received, AsRecv(PacketsFrom(words, a, |words|, w, true)) + rest)
         == Run(Finished(TallyAll(t, words[a..])), 1)
    decreases |words| - a
  {
    var e := |words|;
    var m := if a + w < e then a + w else e;
    var rs := PacketStream(words, a, e, w, true, rest);
    assert words[a..] == words[a..e];
    if m == e {
      ReadPacket(words, a, m, true);
      var toks := Tokens(Packet(words[a..m], true));
      assert toks[..m - a] == words[a..m];
    } else {
      PlainPacket(k, t, received, words, a, m, rs);
      EndChunk(k, TallyAll(t, words[a..m]), received + (m - a), words, m, w, rest);
      TallySlices(t, words, a, m, e);
      assert words[m..] == words[m..e];
    }
  }

  /** The buffers of the packets `PacketsFrom(words, a, e, w, atEnd)` followed
      by `rest`: the first packet, then the others. */
  function PacketStream(words: seq<string>, a: nat, e: nat, w: nat, atEnd: bool, rest: seq<Recv>): (rs: seq<Recv>)
    requires a < e <= |words| && w >= 1
    ensures var m := if a + w < e then a + w else e;
            && rs == AsRecv(PacketsFrom(words, a, e, w, atEnd)) + rest
            && rs != [] && rs[0] == Data(Packet(words[a..m], atEnd && m == e))
            && rs[1..] == AsRecv(PacketsFrom(words, m, e, w, atEnd)) + rest
  {
    var m := if a + w < e then a + w else e;
    var pkt := Packet(words[a..m], atEnd && m == e);
    var more := PacketsFrom(words, m, e, w, atEnd);
    assert PacketsFrom(words, a, e, w, atEnd) == [pkt] + more;
    assert AsRecv([pkt] + more) == [Data(pkt)] + AsRecv(more);
    AsRecv(PacketsFrom(words, a, e, w, atEnd)) + rest
  }

  /** A packet without `EOF` at the head of `rs`: its words are tallied and counted. */
  lemma PlainPacket(k: int, t: Tally, received: nat, words: seq<string>, a: nat, m: nat, rs: seq<Recv>)
    requires Readable(words) && a < m <= |words|
    requires rs != [] && rs[0] == Data(Packet(words[a..m], false))
    ensures Session(k, t, received, rs) == Pending(k, TallyAll(t, words[a..m]), received + (m - a), rs[1..])
  {
    ReadPacket(words, a, m, false);
    var toks := Tokens(Packet(words[a..m], false));
    assert toks[..m - a] == words[a..m];
    ReadStep(k, t, received, rs, Packet(words[a..m], false), TallyAll(t, words[a..m]), m - a);
  }

  /** Against a server that answers each request with `ChunkPackets`, one
      packet per buffer, a client reading a corpus of clean, non-`EOF` words
      finishes with the tally of the whole corpus from offset `o` on. */
  lemma {:induction false} ReadsToEnd(words: seq<string>, k: int, p: int, o: nat, t: Tally)
    requires Readable(words) && k >= 1 && o < |words|
    ensures Session(k, t, 0, Replies(words, k, p, o)).outcome == Finished(TallyAll(t, words[o..]))
    decreases |words| - o
  {
    if o + k >= |words| {
      ReadLastChunk(words, k, p, o, t);
    } else {
      var e := o + k;
      var t1 := TallyAll(t, words[o..e]);
      ReadChunk(words, k, p, o, t);
      ReadsToEnd(words, k, p, e, t1);
      TallyRest(t, words, o, e);
    }
  }

  /** One chunk short of the corpus end: its words are read and the next
      request goes out. */
  lemma ReadChunk(words: seq<string>, k: int, p: int, o: nat, t: Tally)
    requires Readable(words) && k >= 1 && o + k < |words|
    ensures Session(k, t, 0, Replies(words, k, p, o))
         == Later(Session(k, TallyAll(t, words[o..o + k]), 0, Replies(words, k, p, o + k)), 1)
  {
    RepliesNext(words, k, p, o);
    MidChunk(k, t, 0, words, o, o + k, Width(p), Replies(words, k, p, o + k));
  }

  /** The chunk that reaches the corpus end: its words, then `EOF`. */
  lemma ReadLastChunk(words: seq<string>, k: int, p: int, o: nat, t: Tally)
    requires Readable(words) && k >= 1 && o < |words| && o + k >= |words|
    ensures Session(k, t, 0, Replies(words, k, p, o)) == Run(Finished(TallyAll(t, words[o..])), 1)
  {
    RepliesLast(words, k, p, o);
    EndChunk(k, t, 0, words, o, Width(p), []);
  }

  lemma RepliesLast(words: seq<string>, k: int, p: int, o: nat)
    requires k >= 1 && o < |words| && o + k >= |words|
    ensures Replies(words, k, p, o) == AsRecv(PacketsFrom(words, o, |words|, Width(p), true)) + []
  {
    assert ChunkEnd(|words|, o, k) == |words|;
  }

  lemma RepliesNext(words: seq<string>, k: int, p: int, o: nat)
    requires k >= 1 && o + k < |words|
    ensures Replies(words, k, p, o) == AsRecv(PacketsFrom(words, o, o + k, Width(p), false)) + Replies(words, k, p, o + k)
  {
    assert ChunkEnd(|words|, o, k) == o + k;
  }

  /** The round trip of lab_2: the client's final tally counts every corpus
      word exactly as often as it occurs in the corpus. */
  lemma CountsEveryWord(words: seq<string>, k: int, p: int, w: string)
    requires Readable(words) && k >= 1 && words != []
    ensures var out := Session(k, map[], 0, Replies(words, k, p, 0)).outcome;
            out.Finished? && Occ(out.tally, w) == multiset(words)[w]
  {
    ReadsToEnd(words, k, p, 0, map[]);
    assert words[0..] == words;
    TallyCounts(map[], words, w);
  }

  // ------------------------------------------------ part2 connect with retry

  const MaxRetries: nat := 50

  /** How part2's connect loop ends. */
  datatype Connect =
    | Connected(attempt: nat)  // `connect` succeeded on attempt `attempt + 1`
    | GaveUp                   // all `MaxRetries` attempts failed
    | NoSocket(call: nat)      // the `call`-th `socket()` (0: the first) failed

  /** The `i`-th result of an environment oracle; results past its end fail. */
  predicate Ok(oks: seq<bool>, i: nat) { i < |oks| && oks[i] }

  /** The connect loop from attempt `attempt` on, a socket being open. */
  function Retry(connectOk: seq<bool>, socketOk: seq<bool>, attempt: nat): Connect
    requires attempt < MaxRetries
    decreases MaxRetries - attempt
  {
    if Ok(connectOk, attempt) then Connected(attempt)
    else if attempt + 1 >= MaxRetries then GaveUp
    else if !Ok(socketOk, attempt + 1) then NoSocket(attempt + 1)
    else Retry(connectOk, socketOk, attempt + 1)
  }

  function Connection(connectOk: seq<bool>, socketOk: seq<bool>): Connect
  {
    if !Ok(socketOk, 0) then NoSocket(0) else Retry(connectOk, socketOk, 0)
  }

  /** part2's socket creation and connect loop: `connectOk[i]` is the result of
      the `i`-th `connect`, `socketOk[i]` that of the `i`-th `socket()`; the
      retry delay is left out. `closes` counts the sockets closed after a failed
      `connect`, `opens` the `socket()` calls made. */
  method ConnectWithRetry(connectOk: seq<bool>, socketOk: seq<bool>)
    returns (c: Connect, closes: nat, opens: nat)
    ensures c == Connection(connectOk, socketOk)
    ensures closes == (match c case Connected(a) => a case GaveUp => MaxRetries case NoSocket(i) => i)
    ensures opens == (match c case Connected(a) => a + 1 case GaveUp => MaxRetries case NoSocket(i) => i + 1)
  {
    opens := 1;
    closes := 0;
    if !(0 < |socketOk| && socketOk[0]) {
      return NoSocket(0), closes, opens;
    }
    var attempt: nat := 0;
    while attempt < MaxRetries
      invariant attempt < MaxRetries && closes == attempt && opens == attempt + 1
      invariant Connection(connectOk, socketOk) == Retry(connectOk, socketOk, attempt)
      decreases MaxRetries - attempt
    {
      if attempt < |connectOk| && connectOk[attempt] {
        return Connected(attempt), closes, opens;
      }
      closes := closes + 1;
      attempt := attempt + 1;
      if attempt >= MaxRetries {
        return GaveUp, closes, opens;
      }
      opens := opens + 1;
      if !(attempt < |socketOk| && socketOk[attempt]) {
        return NoSocket(attempt), closes, opens;
      }
    }
    assert false;
  }

  /** The loop connects on attempt `a` exactly when that is the first
      successful `connect` among the first `MaxRetries`, and every `socket()`
      up to it succeeded. */
  lemma {:induction false} ConnectedIff(connectOk: seq<bool>, socketOk: seq<bool>, a: nat)
    ensures Connection(connectOk, socketOk) == Connected(a) <==>
            a < MaxRetries && Ok(connectOk, a) &&
            (forall j :: 0 <= j < a ==> !Ok(connectOk, j)) &&
            (forall j :: 0 <= j <= a ==> Ok(socketOk, j))
  {
    if Ok(socketOk, 0) {
      RetryConnectedIff(connectOk, socketOk, 0, a);
    }
  }

  lemma {:induction false} RetryConnectedIff(connectOk: seq<bool>, socketOk: seq<bool>, attempt: nat, a: nat)
    requires attempt < MaxRetries && Ok(socketOk, attempt)
    ensures Retry(connectOk, socketOk, attempt) == Connected(a) <==>
            attempt <= a < MaxRetries && Ok(connectOk, a) &&
            (forall j :: attempt <= j < a ==> !Ok(connectOk, j)) &&
            (forall j :: attempt <= j <= a ==> Ok(socketOk, j))
    decreases MaxRetries - attempt
  {
    if !Ok(connectOk, attempt) && attempt + 1 < MaxRetries && Ok(socketOk, attempt + 1) {
      RetryConnectedIff(connectOk, socketOk, attempt + 1, a);
    }
  }

  /** The loop gives up exactly when all `MaxRetries` attempts fail with every
      socket re-created. */
  lemma {:induction false} GaveUpIff(connectOk: seq<bool>, socketOk: seq<bool>)
    ensures Connection(connectOk, socketOk) == GaveUp <==>
            (forall j :: 0 <= j < MaxRetries ==> !Ok(connectOk, j) && Ok(socketOk, j))
  {
    if Ok(socketOk, 0) {
      RetryGaveUpIff(connectOk, socketOk, 0);
    }
  }

  lemma {:induction false} RetryGaveUpIff(connectOk: seq<bool>, socketOk: seq<bool>, attempt: nat)
    requires attempt < MaxRetries && Ok(socketOk, attempt)
    ensures Retry(connectOk, socketOk, attempt) == GaveUp <==>
            (forall j :: attempt <= j < MaxRetries ==> !Ok(connectOk, j) && Ok(socketOk, j))
    decreases MaxRetries - attempt
  {
    if !Ok(connectOk, attempt) && attempt + 1 < MaxRetries && Ok(socketOk, attempt + 1) {
      RetryGaveUpIff(connectOk, socketOk, attempt + 1);
    }
  }
}
