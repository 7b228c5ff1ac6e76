/** lab_2 part4's rogue client: five sender threads share one socket and one
    atomic offset, each sending the next request (the offset, then `fetch_add`
    of `k`) whenever its `ready_to_send` flag is up; one receiver thread
    tallies every word that arrives and, for every `k` words, raises the flag
    of the next sender in round-robin order. The threads are modelled as steps
    taken in an order given as input. */
module RogueClient {
  import opened Wire

  /** The number of sender threads. */
  const Senders: nat := 5

  /** The shared state: `ready_to_send`, the atomic `offset` and the offsets
      it has handed out so far, `done`, and the receiver's tally,
      `words_received` and `current_thread`. */
  datatype Rogue = Rogue(ready: seq<bool>, offset: int, issued: seq<int>, done: bool,
                         tally: Tally, words: int, current: int)

  /** The state once the threads start: every sender is ready. */
  function Start(): Rogue
  {
    Rogue([true, true, true, true, true], 0, [], false, map[], 0, 0)
  }

  /** What holds between steps: five flags, a thread index in range, a
      non-negative word count, and an offset that is `k` times the number of
      offsets handed out, each a multiple of `k` in turn. */
  predicate Valid(k: int, st: Rogue)
  {
    && |st.ready| == Senders
    && 0 <= st.current < Senders
    && st.words >= 0
    && st.offset == |st.issued| * k
    && forall j :: 0 <= j < |st.issued| ==> st.issued[j] == j * k
  }

  // ---------------------------------------------------------------- senders

  datatype Action =
    | Requested(offset: int)  // a request left and the flag went down
    | Failed(offset: int)     // `send` failed: the thread closes the socket and returns
    | Exited                  // not ready and `done`: the thread ends
    | Idle                    // not ready, not done: sleep and look again

  datatype Pass = Pass(st: Rogue, action: Action)

  /** One pass of `rogueRequest` for thread `id`; whether `send` succeeds is
      an input. */
  function SenderStep(k: int, st: Rogue, id: nat, ok: bool): Pass
    requires id < |st.ready|
  {
    if st.ready[id] then
      var o := st.offset;
      var st1 := st.(offset := o + k, issued := st.issued + [o]);
      if ok then Pass(st1.(ready := st1.ready[id := false]), Requested(o)) else Pass(st1, Failed(o))
    else if st.done then Pass(st, Exited)
    else Pass(st, Idle)
  }

  // --------------------------------------------------------------- receiver

  /** The receiver's arming loop after it has counted `words`: the flags,
      the next thread, the words left over and how many flags it raised. */
  datatype Armed = Armed(ready: seq<bool>, current: int, words: int, arms: nat)

  /** `while (words_received >= k)` raising one flag per `k` words. */
  function Arm(k: int, ready: seq<bool>, current: int, words: int): Armed
    requires k >= 1 && 0 <= current < |ready| == Senders
    decreases words
  {
    if words < k then Armed(ready, current, words, 0)
    else
      var a := Arm(k, ready[current := true], (current + 1) % Senders, words - k);
      a.(arms := a.arms + 1)
  }

  datatype Heard = Heard(st: Rogue, stop: bool)

  /** One pass of `rogueReceiver` over one `recv`: a closed socket sets
      `done` and ends the thread; `$$\n` sets `done` and reads on; any other
      buffer is tallied word by word (`EOF` sets `done` and is not counted,
      and words after it still are), then flags are raised. */
  function Receive(k: int, st: Rogue, r: Recv): Heard
    requires k >= 1 && Valid(k, st)
  {
    match r
    case Closed => Heard(st.(done := true), true)
    case Data(text) =>
      if text == OutOfRangeReply then Heard(st.(done := true), false)
      else
        var toks := Tokens(text);
        var a := Arm(k, st.ready, st.current, st.words + |DropEof(toks)|);
        Heard(st.(ready := a.ready, current := a.current, words := a.words,
                  tally := TallyAll(st.tally, DropEof(toks)),
                  done := st.done || Eof in toks), false)
  }

  // ------------------------------------------------- the buffer scan, as written

  /** The per-character loop as written: after an `EOF` token the code
      `continue`s past `word.clear()`, so the accumulator still holds `EOF`
      and the next characters are appended to it. */
  function StickyTokensFrom(word: string, s: string): (r: seq<string>)
    ensures |r| <= |s|
    decreases |s|
  {
    if s == [] then []
    else if IsSep(s[0]) then
      if word == [] then StickyTokensFrom([], s[1..])
      else if word == Eof then [Eof] + StickyTokensFrom(word, s[1..])
      else [word] + StickyTokensFrom([], s[1..])
    else StickyTokensFrom(word + [s[0]], s[1..])
  }

  /** A buffer holding the `EOF` packet and one more line: as written, the
      next word is tallied glued to `EOF`; clearing the accumulator yields the
      word itself. */
  lemma StickyEof()
    ensures StickyTokensFrom([], "a,EOF\nb\n") == ["a", "EOF", "EOFb"]
    ensures Tokens("a,EOF\nb\n") == ["a", "EOF", "b"]
  {
    StickyTail();
    PlainTail();
    var rest := "\nb\n";
    var text := "a,EOF\nb\n";
    assert text[0] == 'a' && text[1] == ',' && text[2..] == "EOF" + rest;
    assert SepFree("EOF");
    TokensOverRun([], "EOF", rest);
    StickyOverRun([], "EOF", rest);
    assert [] + "EOF" == Eof;
    assert text[1..][0] == ',' && text[1..][1..] == "EOF" + rest;
    assert StickyTokensFrom("a", text[1..]) == ["a"] + StickyTokensFrom([], "EOF" + rest);
    assert TokensFrom("a", text[1..]) == ["a"] + TokensFrom([], "EOF" + rest);
    assert [] + ['a'] == "a";
  }

  lemma StickyTail()
    ensures StickyTokensFrom(Eof, "\nb\n") == [Eof, "EOFb"]
  {
    var tail := "b\n";
    assert tail[0] == 'b' && tail[1..] == "\n" && !IsSep('b');
    assert Eof + ['b'] == "EOFb";
    assert StickyTokensFrom("EOFb", "\n") == ["EOFb"] + StickyTokensFrom([], []);
    assert StickyTokensFrom(Eof, tail) == ["EOFb"];
    var rest := "\nb\n";
    assert rest[0] == '\n' && rest[1..] == tail;
  }

  lemma PlainTail()
    ensures TokensFrom(Eof, "\nb\n") == [Eof, "b"]
  {
    var tail := "b\n";
    assert tail[0] == 'b' && tail[1..] == "\n" && !IsSep('b');
    assert TokensFrom("b", "\n") == ["b"] + TokensFrom([], []);
    assert [] + ['b'] == "b";
    assert TokensFrom([], tail) == ["b"];
    var rest := "\nb\n";
    assert rest[0] == '\n' && rest[1..] == tail;
  }

  /** Reading a separator-free run only extends the accumulator. */
  lemma {:induction false} StickyOverRun(word: string, x: string, rest: string)
    requires SepFree(x)
    ensures StickyTokensFrom(word, x + rest) == StickyTokensFrom(word + x, rest)
    decreases |x|
  {
    if x != [] {
      assert !IsSep(x[0]) && SepFree(x[1..]);
      assert (x + rest)[0] == x[0];
      assert (x + rest)[1..] == x[1..] + rest;
      assert word + [x[0]] + x[1..] == word + x;
      StickyOverRun(word + [x[0]], x[1..], rest);
    } else {
      assert x + rest == rest && word + x == word;
    }
  }

  /** The two scans differ only after an `EOF` token. */
  lemma {:induction false} StickyAgreesBeforeEof(word: string, s: string)
    requires Eof !in TokensFrom(word, s)
    ensures StickyTokensFrom(word, s) == TokensFrom(word, s)
    decreases |s|
  {
    if s != [] {
      if IsSep(s[0]) {
        if word != [] {
          assert TokensFrom(word, s) == [word] + TokensFrom([], s[1..]);
          assert word != Eof;
        }
        StickyAgreesBeforeEof([], s[1..]);
      } else {
        StickyAgreesBeforeEof(word + [s[0]], s[1..]);
      }
    }
  }

  // ----------------------------------------------------------------- methods

  lemma {:induction false} DropEofSnoc(ws: seq<string>, w: string)
    ensures DropEof(ws + [w]) == DropEof(ws) + (if w == Eof then [] else [w])
    decreases |ws|
  {
    if ws == [] {
      assert [] + [w] == [w];
    } else {
      assert (ws + [w])[1..] == ws[1..] + [w];
      DropEofSnoc(ws[1..], w);
    }
  }

  /** One token of the scan. */
  lemma ScanStep(t0: Tally, seen: seq<string>, w: string)
    ensures DropEof(seen + [w]) == DropEof(seen) + (if w == Eof then [] else [w])
    ensures TallyAll(t0, DropEof(seen + [w])) ==
            if w == Eof then TallyAll(t0, DropEof(seen)) else Bump(TallyAll(t0, DropEof(seen)), w)
    ensures (Eof in seen + [w]) <==> (Eof in seen || w == Eof)
  {
    DropEofSnoc(seen, w);
    if w != Eof {
      TallyAppend(t0, DropEof(seen), [w]);
      var t := TallyAll(t0, DropEof(seen));
      assert [w][1..] == [];
      assert TallyAll(t, [w]) == TallyAll(Bump(t, w), []);
    } else {
      assert DropEof(seen) + [] == DropEof(seen);
    }
  }

  /** The receiver's scan of one buffer, with the accumulator cleared after
      every token: the words other than `EOF` are tallied and counted, and
      whether an `EOF` token occurred. */
  method ScanBuffer(t0: Tally, text: string) returns (t: Tally, count: nat, eof: bool)
    ensures var toks := Tokens(text);
            && t == TallyAll(t0, DropEof(toks))
            && count == |DropEof(toks)|
            && eof == (Eof in toks)
  {
    t, count, eof := t0, 0, false;
    var word: string := [];
    ghost var seen: seq<string> := [];
    var i := 0;
    while i < |text|
      invariant 0 <= i <= |text|
      invariant seen + TokensFrom(word, text[i..]) == Tokens(text)
      invariant t == TallyAll(t0, DropEof(seen)) && count == |DropEof(seen)|
      invariant eof == (Eof in seen)
      decreases |text| - i
    {
      var ch := text[i];
      assert text[i..][0] == ch && text[i..][1..] == text[i + 1..];
      if ch == ',' || ch == '\n' {
        if word != [] {
          assert TokensFrom(word, text[i..]) == [word] + TokensFrom([], text[i + 1..]);
          assert seen + [word] + TokensFrom([], text[i + 1..]) == Tokens(text);
          ScanStep(t0, seen, word);
          if word == Eof {
            eof := true;
          } else {
            t := Bump(t, word);
            count := count + 1;
          }
          seen := seen + [word];
        }
        word := [];
      } else {
        word := word + [ch];
      }
      i := i + 1;
    }
    assert text[i..] == [];
    assert seen + [] == seen;
  }

  class Client {
    const k: int
    const ready: array<bool>
    var offset: int
    ghost var issued: seq<int>
    var done: bool
    var tally: Tally
    var words: int
    var current: int

    ghost function State(): Rogue
      reads this, ready
    {
      Rogue(ready[..], offset, issued, done, tally, words, current)
    }

    /** Lines 300-318: all five flags up, nothing sent or received. */
    constructor(k: int)
      ensures this.k == k && ready.Length == Senders
      ensures State() == Start()
    {
      this.k := k;
      ready := new bool[Senders](_ => true);
      offset, issued, done, tally, words, current := 0, [], false, map[], 0, 0;
      new;
      assert ready[..] == [true, true, true, true, true];
    }

    /** One pass of `rogueRequest`'s loop for thread `id`. */
    method SenderPass(id: nat, ok: bool) returns (action: Action)
      requires id < ready.Length
      modifies this, ready
      ensures State() == SenderStep(k, old(State()), id, ok).st
      ensures action == SenderStep(k, old(State()), id, ok).action
    {
      if ready[id] {
        var o := offset;
        offset := offset + k;
        issued := issued + [o];
        if !ok {
          return Failed(o);
        }
        ready[id] := false;
        action := Requested(o);
      } else if done {
        action := Exited;
      } else {
        action := Idle;
      }
    }

    /** Lines 242-247. */
    method ArmSenders()
      requires k >= 1 && ready.Length == Senders && 0 <= current < Senders
      modifies this, ready
      ensures var a := Arm(k, old(ready[..]), old(current), old(words));
              ready[..] == a.ready && current == a.current && words == a.words
      ensures offset == old(offset) && issued == old(issued) && done == old(done) && tally == old(tally)
    {
      ghost var total := Arm(k, ready[..], current, words);
      while words >= k
        invariant 0 <= current < Senders
        invariant Arm(k, ready[..], current, words).(arms := total.arms) == total
        invariant offset == old(offset) && issued == old(issued) && done == old(done) && tally == old(tally)
        decreases words
      {
        ready[current] := true;
        current := (current + 1) % Senders;
        words := words - k;
      }
    }

    /** One pass of `rogueReceiver`'s loop over the buffer `r`; `stop` says
        the thread leaves its loop. */
    method ReceivePass(r: Recv) returns (stop: bool)
      requires k >= 1 && ready.Length == Senders && Valid(k, State())
      modifies this, ready
      ensures Heard(State(), stop) == Receive(k, old(State()), r)
    {
      match r {
        case Closed =>
          done := true;
          return true;
        case Data(text) =>
          if text == OutOfRangeReply {
            done := true;
            return false;
          }
          var t, count, eof := ScanBuffer(tally, text);
          tally := t;
          words := words + count;
          if eof {
            done := true;
          }
          ArmSenders();
          stop := false;
      }
    }
  }

  // -------------------------------------------------------------- properties

  /** For every `k` words one flag goes up: the words left over are fewer
      than `k`, and `current` moves on by one thread per flag raised. */
  lemma {:induction false} ArmCounts(k: int, ready: seq<bool>, current: int, words: int)
    requires k >= 1 && 0 <= current < |ready| == Senders
    ensures var a := Arm(k, ready, current, words);
            && (words >= 0 ==> 0 <= a.words < k)
            && (words < 0 ==> a.words == words && a.arms == 0)
            && words == a.arms * k + a.words
            && a.current == (current + a.arms) % Senders
            && |a.ready| == Senders
    decreases words
  {
    if words >= k {
      var c1 := (current + 1) % Senders;
      ArmCounts(k, ready[current := true], c1, words - k);
      var a := Arm(k, ready[current := true], c1, words - k);
      assert (a.arms + 1) * k == a.arms * k + k;
      ModShift(current, a.arms);
    }
  }

  lemma ModShift(current: int, n: nat)
    requires 0 <= current < Senders
    ensures ((current + 1) % Senders + n) % Senders == (current + n + 1) % Senders
  {
  }

  lemma ModNext(current: int, j: int)
    requires 0 <= current < Senders && 0 <= j < Senders
    ensures (j - (current + 1) % Senders) % Senders == if j == current then Senders - 1 else (j - current) % Senders - 1
  {
  }

  /** The flags raised are those of the next `arms` threads in round-robin
      order from `current`; the others keep their value. */
  lemma {:induction false} ArmRaises(k: int, ready: seq<bool>, current: int, words: int)
    requires k >= 1 && 0 <= current < |ready| == Senders
    ensures var a := Arm(k, ready, current, words);
            |a.ready| == Senders &&
            forall j :: 0 <= j < Senders ==> (a.ready[j] <==> ready[j] || (j - current) % Senders < a.arms)
    decreases words
  {
    if words >= k {
      var c1 := (current + 1) % Senders;
      var r1 := ready[current := true];
      ArmRaises(k, r1, c1, words - k);
      var a := Arm(k, r1, c1, words - k);
      forall j | 0 <= j < Senders
        ensures (a.ready[j] <==> ready[j] || (j - current) % Senders < a.arms + 1)
      {
        ModNext(current, j);
      }
    }
  }

  /** The offsets handed out are 0, k, 2k, ... in order: distinct and
      increasing for `k >= 1`, whatever the interleaving. */
  lemma IssuedIncreasing(k: int, st: Rogue)
    requires k >= 1 && Valid(k, st)
    ensures forall i, j :: 0 <= i < j < |st.issued| ==> st.issued[i] < st.issued[j]
  {
    forall i, j | 0 <= i < j < |st.issued|
      ensures st.issued[i] < st.issued[j]
    {
      assert j * k == i * k + (j - i) * k;
    }
  }

  /** A sender step keeps the invariant; a request leaves only from a ready
      thread, at the next offset, and lowers that thread's flag alone;
      `done` is never cleared. */
  lemma SenderKeepsValid(k: int, st: Rogue, id: nat, ok: bool)
    requires Valid(k, st) && id < |st.ready|
    ensures var ps := SenderStep(k, st, id, ok);
            && Valid(k, ps.st)
            && ps.st.done == st.done
            && (ps.action.Requested? || ps.action.Failed? <==> st.ready[id])
            && (st.ready[id] ==> ps.action.offset == |st.issued| * k && ps.st.issued == st.issued + [ps.action.offset])
            && (!st.ready[id] ==> ps.st == st && (ps.action.Exited? <==> st.done))
            && (ps.action.Requested? ==> !ps.st.ready[id])
            && (forall j :: 0 <= j < |st.ready| && j != id ==> ps.st.ready[j] == st.ready[j])
  {
    if st.ready[id] {
      assert (|st.issued| + 1) * k == |st.issued| * k + k;
    }
  }

  /** A receiver step keeps the invariant and never clears `done`; a buffer
      that is not `$$\n` adds exactly its non-`EOF` words to the tally, and
      the words counted so far are `k` per flag raised plus those left over. */
  lemma ReceiveKeepsValid(k: int, st: Rogue, r: Recv)
    requires k >= 1 && Valid(k, st)
    ensures var h := Receive(k, st, r);
            && Valid(k, h.st)
            && (st.done ==> h.st.done)
            && h.st.offset == st.offset && h.st.issued == st.issued
            && (h.stop <==> r.Closed?)
            && (r.Closed? || r.text == OutOfRangeReply ==> h.st == st.(done := true))
            && (r.Data? && r.text != OutOfRangeReply ==>
                  var toks := Tokens(r.text);
                  && h.st.tally == TallyAll(st.tally, DropEof(toks))
                  && (h.st.done <==> st.done || Eof in toks)
                  && 0 <= h.st.words < k
                  && exists arms: nat :: st.words + |DropEof(toks)| == arms * k + h.st.words)
  {
    if r.Data? && r.text != OutOfRangeReply {
      var toks := Tokens(r.text);
      var a := Arm(k, st.ready, st.current, st.words + |DropEof(toks)|);
      ArmCounts(k, st.ready, st.current, st.words + |DropEof(toks)|);
      assert st.words + |DropEof(toks)| == a.arms * k + a.words;
    }
  }
}
