/** Text conventions shared by the chunk servers and word-count clients of lab_2:
    comma joining of words, the comma/newline tokeniser every client runs over a
    received buffer, the reply markers, and the word tally. */
module Wire {

  /** A client's word -> count map (`map<string, int> word_count`). */
  type Tally = map<string, nat>

  const Eof: string := "EOF"
  const Huh: string := "HUH!"
  const OutOfRangeReply: string := "$$\n"
  const CollisionReply: string := "HUH!\n"

  /** The receive side of a socket: one `recv` result. `Closed` stands for a
      result `<= 0` (peer closed or error). */
  datatype Recv = Data(text: string) | Closed

  predicate IsSep(c: char) { c == ',' || c == '\n' }

  predicate SepFree(w: string) { forall i :: 0 <= i < |w| ==> !IsSep(w[i]) }

  /** A word that survives the trip through the tokeniser: non-empty and
      without separators. */
  predicate Clean(w: string) { w != [] && SepFree(w) }

  predicate AllClean(ws: seq<string>) { forall i :: 0 <= i < |ws| ==> Clean(ws[i]) }

  // ---------------------------------------------------------------- joining

  /** `w0 + "," + w1 + "," + ...`, as the servers build a packet. */
  function Join(ws: seq<string>): string
    decreases |ws|
  {
    if ws == [] then "" else if |ws| == 1 then ws[0] else ws[0] + "," + Join(ws[1..])
  }

  /** One server packet: the comma-joined words, `,EOF` when it carries the
      last corpus word, and the terminating newline. */
  function Packet(ws: seq<string>, eof: bool): string
  {
    Join(ws) + (if eof then ",EOF" else "") + "\n"
  }

  lemma {:induction false} JoinSnoc(ws: seq<string>, w: string)
    requires ws != []
    ensures Join(ws + [w]) == Join(ws) + "," + w
    decreases |ws|
  {
    if |ws| == 1 {
      assert ws + [w] == [ws[0], w];
    } else {
      assert (ws + [w])[1..] == ws[1..] + [w];
      JoinSnoc(ws[1..], w);
    }
  }

  // -------------------------------------------------------------- tokenising

  /** The tokens a client's per-character loop emits over `s` when its word
      accumulator starts as `word`: every run of non-separators closed by a
      `,` or `\n`, empty runs skipped; a run still open when `s` ends is not
      emitted (the accumulator is local to one buffer). */
  function TokensFrom(word: string, s: string): seq<string>
    decreases |s|
  {
    if s == [] then []
    else if IsSep(s[0]) then (if word == [] then [] else [word]) + TokensFrom([], s[1..])
    else TokensFrom(word + [s[0]], s[1..])
  }

  function Tokens(s: string): seq<string> { TokensFrom([], s) }

  /** Every emitted token is a maximal run: non-empty and separator-free. */
  lemma {:induction false} TokensAreClean(word: string, s: string)
    requires SepFree(word)
    ensures AllClean(TokensFrom(word, s))
    decreases |s|
  {
    if s != [] {
      if IsSep(s[0]) {
        TokensAreClean([], s[1..]);
      } else {
        TokensAreClean(word + [s[0]], s[1..]);
      }
    }
  }

  /** Reading a separator-free run only extends the accumulator. */
  lemma {:induction false} TokensOverRun(word: string, x: string, rest: string)
    requires SepFree(x)
    ensures TokensFrom(word, x + rest) == TokensFrom(word + x, rest)
    decreases |x|
  {
    if x != [] {
      assert !IsSep(x[0]) && SepFree(x[1..]);
      assert (x + rest)[0] == x[0];
      assert (x + rest)[1..] == x[1..] + rest;
      assert word + [x[0]] + x[1..] == word + x;
      assert TokensFrom(word, x + rest) == TokensFrom(word + [x[0]], x[1..] + rest);
      TokensOverRun(word + [x[0]], x[1..], rest);
    } else {
      assert x + rest == rest && word + x == word;
    }
  }

  /** Buffers that end on a separator tokenise independently. */
  lemma {:induction false} TokensAppend(word: string, a: string, b: string)
    requires a != [] && IsSep(a[|a| - 1])
    ensures TokensFrom(word, a + b) == TokensFrom(word, a) + Tokens(b)
    decreases |a|
  {
    assert (a + b)[0] == a[0];
    assert (a + b)[1..] == a[1..] + b;
    if |a| == 1 {
      assert a[1..] == [];
      assert a[1..] + b == b;
    } else if IsSep(a[0]) {
      TokensAppend([], a[1..], b);
    } else {
      TokensAppend(word + [a[0]], a[1..], b);
    }
  }

  /** Round trip: joining clean words and closing the line with any separator
      tokenises back to exactly those words. */
  lemma {:induction false} TokensOfJoin(ws: seq<string>, c: char)
    requires AllClean(ws) && IsSep(c)
    ensures Tokens(Join(ws) + [c]) == ws
    decreases |ws|
  {
    if ws == [] {
      assert Join(ws) + [c] == [c];
      assert TokensFrom([], [c]) == [] + TokensFrom([], []);
    } else if |ws| == 1 {
      TokensOverRun([], ws[0], [c]);
      assert [] + ws[0] == ws[0];
      assert TokensFrom(ws[0], [c]) == [ws[0]] + TokensFrom([], []);
    } else {
      var tail := Join(ws[1..]) + [c];
      var rest := [','] + tail;
      assert Join(ws) + [c] == ws[0] + rest;
      TokensOverRun([], ws[0], rest);
      assert [] + ws[0] == ws[0];
      assert rest[0] == ',' && rest[1..] == tail;
      assert TokensFrom(ws[0], rest) == [ws[0]] + Tokens(tail);
      TokensOfJoin(ws[1..], c);
      assert ws == [ws[0]] + ws[1..];
    }
  }

  /** A packet of clean words tokenises to its words, followed by `EOF` exactly
      when the packet carries the end-of-corpus marker. */
  lemma TokensOfPacket(ws: seq<string>, eof: bool)
    requires ws != [] && AllClean(ws)
    ensures Tokens(Packet(ws, eof)) == ws + (if eof then [Eof] else [])
  {
    if eof {
      JoinSnoc(ws, Eof);
      assert Packet(ws, eof) == Join(ws + [Eof]) + ['\n'];
      var ws' := ws + [Eof];
      assert AllClean(ws') by {
        forall i | 0 <= i < |ws'| ensures Clean(ws'[i]) {
          if i < |ws| { assert ws'[i] == ws[i]; }
        }
      }
      TokensOfJoin(ws', '\n');
    } else {
      assert Packet(ws, eof) == Join(ws) + ['\n'];
      TokensOfJoin(ws, '\n');
    }
  }

  /** Index of the first occurrence of `w` in `ws`, or `|ws|`. */
  function IndexOf(ws: seq<string>, w: string): (i: nat)
    ensures i <= |ws|
    ensures i < |ws| ==> ws[i] == w
    ensures forall j :: 0 <= j < i ==> ws[j] != w
    decreases |ws|
  {
    if ws == [] then 0 else if ws[0] == w then 0 else 1 + IndexOf(ws[1..], w)
  }

  // ----------------------------------------------------------------- tallies

  function Occ(t: Tally, w: string): nat { if w in t then t[w] else 0 }

  /** `word_count[w]++` */
  function Bump(t: Tally, w: string): Tally { t[w := Occ(t, w) + 1] }

  /** The tally after `word_count[w]++` for each `w` of `ws` in order. */
  function TallyAll(t: Tally, ws: seq<string>): Tally
    decreases |ws|
  {
    if ws == [] then t else TallyAll(Bump(t, ws[0]), ws[1..])
  }

  /** A tally counts occurrences: each word's count grows by the number of
      times it occurs in `ws`, and nothing else is added. */
  lemma {:induction false} TallyCounts(t: Tally, ws: seq<string>, w: string)
    ensures Occ(TallyAll(t, ws), w) == Occ(t, w) + multiset(ws)[w]
    decreases |ws|
  {
    if ws != [] {
      TallyCounts(Bump(t, ws[0]), ws[1..], w);
      assert ws == [ws[0]] + ws[1..];
    }
  }

  lemma {:induction false} TallyAppend(t: Tally, a: seq<string>, b: seq<string>)
    ensures TallyAll(t, a + b) == TallyAll(TallyAll(t, a), b)
    decreases |a|
  {
    if a != [] {
      assert (a + b)[0] == a[0];
      assert (a + b)[1..] == a[1..] + b;
      assert TallyAll(t, a + b) == TallyAll(Bump(t, a[0]), a[1..] + b);
      assert TallyAll(t, a) == TallyAll(Bump(t, a[0]), a[1..]);
      TallyAppend(Bump(t, a[0]), a[1..], b);
    } else {
      assert a + b == b;
    }
  }

  /** `ws` with every `EOF` token removed. */
  function DropEof(ws: seq<string>): seq<string>
    decreases |ws|
  {
    if ws == [] then [] else (if ws[0] == Eof then [] else [ws[0]]) + DropEof(ws[1..])
  }

  function Concat(wss: seq<seq<string>>): seq<string>
    decreases |wss|
  {
    if wss == [] then [] else wss[0] + Concat(wss[1..])
  }

  lemma {:induction false} ConcatSnoc(wss: seq<seq<string>>, ws: seq<string>)
    ensures Concat(wss + [ws]) == Concat(wss) + ws
    decreases |wss|
  {
    if wss == [] {
      assert [] + [ws] == [ws];
    } else {
      assert (wss + [ws])[1..] == wss[1..] + [ws];
      ConcatSnoc(wss[1..], ws);
    }
  }
}
