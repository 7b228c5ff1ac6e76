/** The receive side shared by lab_2 part3's two clients (slotted ALOHA and
    binary exponential backoff): the words of a request are held back in
    `this_slot_words` and enter the tally only once all `k` of them have
    arrived, so that a transfer cut short by `HUH!` adds nothing; `EOF`
    commits whatever is pending and ends the session. */
module SlotWords {
  import opened Wire
  import Chunk

  /** Both clients fix `k = 10`, the server's words per transfer. */
  const K: nat := 10

  /** The word accumulator when the scan of `s` ends, from `word`. */
  function TrailFrom(word: string, s: string): string
    decreases |s|
  {
    if s == [] then word
    else if IsSep(s[0]) then TrailFrom([], s[1..])
    else TrailFrom(word + [s[0]], s[1..])
  }

  function Trail(s: string): string { TrailFrom([], s) }

  /** The tokens that stop a scan. */
  predicate IsMark(w: string) { w == Eof || w == Huh }

  /** Index of the first `EOF` or `HUH!` token, or `|ws|`. */
  function MarkAt(ws: seq<string>): (i: nat)
    ensures i <= |ws|
    ensures i < |ws| ==> IsMark(ws[i])
    decreases |ws|
  {
    if ws == [] then 0 else if IsMark(ws[0]) then 0 else 1 + MarkAt(ws[1..])
  }

  lemma {:induction false} MarkAtFirst(ws: seq<string>, w: string, rest: seq<string>)
    requires (forall j :: 0 <= j < |ws| ==> !IsMark(ws[j])) && IsMark(w)
    ensures MarkAt(ws + [w] + rest) == |ws|
    decreases |ws|
  {
    if ws != [] {
      var all := ws + [w] + rest;
      assert all[0] == ws[0] && all[1..] == ws[1..] + [w] + rest;
      MarkAtFirst(ws[1..], w, rest);
    }
  }

  lemma {:induction false} MarkAtNone(ws: seq<string>)
    requires forall j :: 0 <= j < |ws| ==> !IsMark(ws[j])
    ensures MarkAt(ws) == |ws|
    decreases |ws|
  {
    if ws != [] {
      MarkAtNone(ws[1..]);
    }
  }

  /** How the scan of one buffer ends. */
  datatype Mark = AtEof | AtHuh | NoMark

  /** The pending words and tally after one buffer, and whether the
      pending words were committed to the tally. */
  datatype Absorbed = Absorbed(mark: Mark, pending: seq<string>, tally: Tally, committed: bool)

  /** One received buffer: its tokens up to the first `EOF` or `HUH!` join
      the pending words; `EOF` commits them; `HUH!` discards them; with
      neither, they are committed when there are exactly `k` of them and the
      buffer's trailing accumulator is not `HUH!`. */
  function Absorb(k: nat, pending: seq<string>, tally: Tally, text: string): Absorbed
  {
    var toks := Tokens(text);
    var j := MarkAt(toks);
    if j < |toks| && toks[j] == Eof then
      Absorbed(AtEof, pending + toks[..j], TallyAll(tally, pending + toks[..j]), true)
    else if j < |toks| then Absorbed(AtHuh, [], tally, false)
    else if Trail(text) != Huh && |pending + toks| == k then
      Absorbed(NoMark, [], TallyAll(tally, pending + toks), true)
    else Absorbed(NoMark, pending + toks, tally, false)
  }

  /** `for (auto x : this_slot_words) word_count[x]++;` */
  method Commit(t0: Tally, ws: seq<string>) returns (t: Tally)
    ensures t == TallyAll(t0, ws)
  {
    t := t0;
    var i := 0;
    while i < |ws|
      invariant i <= |ws|
      invariant TallyAll(t, ws[i..]) == TallyAll(t0, ws)
      decreases |ws| - i
    {
      assert ws[i..][0] == ws[i] && ws[i..][1..] == ws[i + 1..];
      t := Bump(t, ws[i]);
      i := i + 1;
    }
    assert ws[i..] == [];
  }

  /** The per-character loop over one buffer and the commit test after it. */
  method Scan(k: nat, pending0: seq<string>, t0: Tally, text: string) returns (a: Absorbed)
    ensures a == Absorb(k, pending0, t0, text)
  {
    var pending := pending0;
    var word: string := [];
    ghost var seen: seq<string> := [];
    var i := 0;
    while i < |text|
      invariant i <= |text|
      invariant seen + TokensFrom(word, text[i..]) == Tokens(text)
      invariant TrailFrom(word, text[i..]) == Trail(text)
      invariant forall j :: 0 <= j < |seen| ==> !IsMark(seen[j])
      invariant pending == pending0 + seen
      decreases |text| - i
    {
      var ch := text[i];
      assert text[i..][0] == ch && text[i..][1..] == text[i + 1..];
      if ch == ',' || ch == '\n' {
        if word != [] {
          var rest := TokensFrom([], text[i + 1..]);
          assert TokensFrom(word, text[i..]) == [word] + rest;
          if word == Eof || word == Huh {
            MarkAtFirst(seen, word, rest);
            Chunk.AppendAssoc(seen, [word], rest);
            assert Tokens(text)[..|seen|] == seen;
            if word == Eof {
              var t := Commit(t0, pending);
              return Absorbed(AtEof, pending, t, true);
            }
            return Absorbed(AtHuh, [], t0, false);
          }
          Chunk.AppendAssoc(seen, [word], rest);
          pending := pending + [word];
          seen := seen + [word];
          word := [];
        }
      } else {
        word := word + [ch];
      }
      i := i + 1;
    }
    assert text[i..] == [];
    assert seen == Tokens(text);
    MarkAtNone(seen);
    if word != Huh && |pending| == k {
      var t := Commit(t0, pending);
      return Absorbed(NoMark, [], t, true);
    }
    return Absorbed(NoMark, pending, t0, false);
  }

  // ---------------------------------------------------------- one request

  /** How the receive loop of one request ends. */
  datatype Kind = Committed | Collided | Finished | Dropped | Rejected | Blocked

  /** The end of a receive loop: how, the index of the next unread buffer,
      the pending words and the tally. */
  datatype Round = Round(kind: Kind, next: nat, pending: seq<string>, tally: Tally)

  /** `while (words_received < k)` over the buffers `rs[r..]`. */
  function RoundFrom(k: nat, pending: seq<string>, tally: Tally, rs: seq<Recv>, r: nat): (rd: Round)
    requires r <= |rs|
    ensures r <= rd.next <= |rs|
    ensures rd.kind != Blocked ==> r < rd.next
    decreases |rs| - r
  {
    if r == |rs| then Round(Blocked, r, pending, tally)
    else match rs[r]
      case Closed => Round(Dropped, r + 1, pending, tally)
      case Data(text) =>
        if text == OutOfRangeReply then Round(Rejected, r + 1, pending, tally)
        else
          var a := Absorb(k, pending, tally, text);
          if a.mark == AtEof then Round(Finished, r + 1, a.pending, a.tally)
          else if a.mark == AtHuh then Round(Collided, r + 1, a.pending, a.tally)
          else if a.committed then Round(Committed, r + 1, a.pending, a.tally)
          else RoundFrom(k, a.pending, a.tally, rs, r + 1)
  }

  /** The receive loop of one request; `received` only ever moves from 0
      to `k` or more, by a commit or by `HUH!`. */
  method Receive(k: nat, pending0: seq<string>, t0: Tally, rs: seq<Recv>, r0: nat) returns (round: Round)
    requires r0 <= |rs| && k >= 1
    ensures round == RoundFrom(k, pending0, t0, rs, r0)
  {
    var pending, t, r := pending0, t0, r0;
    var received: nat := 0;
    while received < k
      invariant r0 <= r <= |rs|
      invariant received == 0
      invariant RoundFrom(k, pending, t, rs, r) == RoundFrom(k, pending0, t0, rs, r0)
      decreases |rs| - r
    {
      if r == |rs| {
        return Round(Blocked, r, pending, t);
      }
      var resp := rs[r];
      r := r + 1;
      if resp.Closed? {
        return Round(Dropped, r, pending, t);
      }
      if resp.text == OutOfRangeReply {
        return Round(Rejected, r, pending, t);
      }
      var a := Scan(k, pending, t, resp.text);
      pending, t := a.pending, a.tally;
      if a.mark == AtEof {
        return Round(Finished, r, pending, t);
      }
      if a.mark == AtHuh {
        received := k;
        return Round(Collided, r, pending, t);
      }
      if a.committed {
        received := received + k;
        return Round(Committed, r, pending, t);
      }
    }
    assert false;
  }

  // -------------------------------------------------------------- properties

  /** A buffer commits without `EOF` only when exactly `k` words are pending,
      and then commits just those; otherwise it leaves the tally alone and
      keeps them pending; `HUH!` discards them. */
  lemma AbsorbCommits(k: nat, pending: seq<string>, tally: Tally, text: string)
    ensures var a := Absorb(k, pending, tally, text);
            && (a.mark == NoMark && a.committed ==>
                  |pending + Tokens(text)| == k && a.pending == [] && a.tally == TallyAll(tally, pending + Tokens(text)))
            && (a.mark == NoMark && !a.committed ==> a.pending == pending + Tokens(text))
            && (!a.committed ==> a.tally == tally)
            && (a.mark == AtHuh ==> a.pending == [] && !a.committed)
            && (a.mark == AtEof ==> a.committed)
  {
  }

  /** One buffer of a receive loop that is not its last. */
  lemma RoundStep(k: nat, pending: seq<string>, tally: Tally, rs: seq<Recv>, r: nat)
    requires r < |rs| && rs[r].Data? && rs[r].text != OutOfRangeReply
    ensures var a := Absorb(k, pending, tally, rs[r].text);
            var rd := RoundFrom(k, pending, tally, rs, r);
            && (a.mark != NoMark ==> rd.kind != Committed)
            && (a.mark == NoMark && a.committed ==> rd == Round(Committed, r + 1, a.pending, a.tally))
            && (a.mark == NoMark && !a.committed ==> rd == RoundFrom(k, a.pending, a.tally, rs, r + 1))
  {
  }

  /** A request that ends without a commit adds nothing to the tally; one
      cut short by `HUH!` also leaves nothing pending. */
  lemma {:induction false} UncommittedAddsNothing(k: nat, pending: seq<string>, tally: Tally, rs: seq<Recv>, r: nat)
    requires r <= |rs|
    ensures var rd := RoundFrom(k, pending, tally, rs, r);
            && (rd.kind != Committed && rd.kind != Finished ==> rd.tally == tally)
            && (rd.kind == Collided ==> rd.pending == [])
    decreases |rs| - r
  {
    if r < |rs| && rs[r].Data? && rs[r].text != OutOfRangeReply {
      var a := Absorb(k, pending, tally, rs[r].text);
      if a.mark == NoMark && !a.committed {
        UncommittedAddsNothing(k, a.pending, a.tally, rs, r + 1);
      }
    }
  }

  /** The tokens the receive loop of one request reads from `rs[r..]`: every
      token of each buffer, up to the first `EOF` or `HUH!`, until the loop
      stops. It depends only on the buffers and the words pending. */
  function RoundWords(k: nat, pending: seq<string>, rs: seq<Recv>, r: nat): seq<string>
    requires r <= |rs|
    decreases |rs| - r
  {
    if r == |rs| || rs[r].Closed? || rs[r].text == OutOfRangeReply then []
    else
      var toks := Tokens(rs[r].text);
      var j := MarkAt(toks);
      if j < |toks| then toks[..j]
      else if Trail(rs[r].text) != Huh && |pending + toks| == k then toks
      else toks + RoundWords(k, pending + toks, rs, r + 1)
  }

  /** A committed request adds exactly `k` words, namely the words held
      back before it and the tokens it read, in that order; one that reaches
      `EOF` adds the same, of whatever number. */
  lemma {:induction false} CommittedAddsK(k: nat, pending: seq<string>, tally: Tally, rs: seq<Recv>, r: nat)
    requires r <= |rs|
    ensures var rd := RoundFrom(k, pending, tally, rs, r);
            var w := pending + RoundWords(k, pending, rs, r);
            && (rd.kind == Committed ==> rd.pending == [] && |w| == k && rd.tally == TallyAll(tally, w))
            && (rd.kind == Finished ==> rd.tally == TallyAll(tally, w))
    decreases |rs| - r
  {
    if r < |rs| && rs[r].Data? && rs[r].text != OutOfRangeReply {
      var text := rs[r].text;
      var a := Absorb(k, pending, tally, text);
      var toks := Tokens(text);
      AbsorbCommits(k, pending, tally, text);
      RoundStep(k, pending, tally, rs, r);
      RoundWordsStep(k, pending, tally, rs, r);
      if a.mark == NoMark && !a.committed {
        CommittedAddsK(k, a.pending, a.tally, rs, r + 1);
        var rest := RoundWords(k, a.pending, rs, r + 1);
        Chunk.AppendAssoc(pending, toks, rest);
        TallyAppend(tally, pending, toks);
      }
    }
  }

  /** The words one buffer contributes to a receive loop: up to `EOF`, all
      of them when it commits, and all of them ahead of the next buffer's
      when it does neither. */
  lemma RoundWordsStep(k: nat, pending: seq<string>, tally: Tally, rs: seq<Recv>, r: nat)
    requires r < |rs| && rs[r].Data? && rs[r].text != OutOfRangeReply
    ensures var a := Absorb(k, pending, tally, rs[r].text);
            var toks := Tokens(rs[r].text);
            && (a.mark == AtEof ==>
                  RoundWords(k, pending, rs, r) == toks[..MarkAt(toks)] && a.tally == TallyAll(tally, pending + toks[..MarkAt(toks)]))
            && (a.mark == NoMark && a.committed ==> RoundWords(k, pending, rs, r) == toks)
            && (a.mark == NoMark && !a.committed ==> RoundWords(k, pending, rs, r) == toks + RoundWords(k, pending + toks, rs, r + 1))
  {
    var toks := Tokens(rs[r].text);
    if MarkAt(toks) == |toks| {
      assert toks[..MarkAt(toks)] == toks;
    }
  }

  /** How far a request moves the offset: `offset -= k` on `HUH!` and the
      `offset += k` after every receive loop that does not end the session. */
  function Advance(k: nat, kind: Kind): nat
  {
    if kind == Committed then k else 0
  }

  /** The words a request's receive loop adds to the tally: the pending
      words and those it read when it commits or reaches `EOF`, and none
      when it collides, is rejected, is dropped or blocks. */
  function Counted(k: nat, pending: seq<string>, tally: Tally, rs: seq<Recv>, r: nat): seq<string>
    requires r <= |rs|
  {
    var rd := RoundFrom(k, pending, tally, rs, r);
    if rd.kind == Committed || rd.kind == Finished then pending + RoundWords(k, pending, rs, r) else []
  }

  /** Started with nothing pending, a request adds to the tally exactly the
      words it counted, and unless it ends in `EOF` they are as many as it
      advances the offset: `k` read words after a commit, none otherwise. */
  lemma RoundAccounts(k: nat, tally: Tally, rs: seq<Recv>, r: nat)
    requires r <= |rs|
    ensures var rd := RoundFrom(k, [], tally, rs, r);
            var w := Counted(k, [], tally, rs, r);
            && (rd.kind == Committed || rd.kind == Collided ==> rd.pending == [])
            && rd.tally == TallyAll(tally, w)
            && (rd.kind != Finished ==> |w| == Advance(k, rd.kind))
            && (rd.kind == Committed || rd.kind == Finished ==> w == RoundWords(k, [], rs, r))
  {
    UncommittedAddsNothing(k, [], tally, rs, r);
    CommittedAddsK(k, [], tally, rs, r);
    assert [] + RoundWords(k, [], rs, r) == RoundWords(k, [], rs, r);
  }

  // --------------------------------------------------------------- requests

  /** Consecutive requests repeat an offset (after `HUH!`) or move on by `k`. */
  predicate Steps(k: nat, requests: seq<int>)
  {
    forall j :: 0 < j < |requests| ==> requests[j] == requests[j - 1] || requests[j] == requests[j - 1] + k
  }

  /** `offset` may be the next request after `requests`. */
  predicate Follows(k: nat, requests: seq<int>, offset: int)
  {
    requests == [] || offset == requests[|requests| - 1] || offset == requests[|requests| - 1] + k
  }

  lemma StepsSnoc(k: nat, requests: seq<int>, offset: int)
    requires Steps(k, requests) && Follows(k, requests, offset)
    ensures Steps(k, requests + [offset])
  {
  }
}
