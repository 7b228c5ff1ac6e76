/** The chunk builder every k/p chunk server of lab_2 runs for one request
    (part1 and part2 `handleClient`, part4 `workerThread` in both schedulers):
    starting at `offset`, send at most `k` words as newline-terminated packets of
    at most `p` comma-joined words, and append `,EOF` to the packet that holds
    the last corpus word. */
module Chunk {
  import opened Wire

  /** `offset >= word_list.size()`: the `int` offset is converted to `size_t`,
      so a negative offset compares as a huge value and is out of range too. */
  predicate OutOfRange(offset: int, n: nat) { offset < 0 || offset >= n }

  /** Words one packet can hold: the inner `for (int i = 1; i < p; ...)` adds at
      most `p - 1` words to the first, so any `p < 1` behaves as `p == 1`. */
  function Width(p: int): nat { if p < 1 then 1 else p }

  /** One past the last word a request at `offset` sends: `words_sent < k`
      and `offset + words_sent < word_list.size()`. */
  function ChunkEnd(n: nat, offset: nat, k: int): (e: nat)
    requires offset <= n
    ensures offset <= e <= n
    ensures k >= 0 ==> e - offset <= k
  {
    if k <= 0 then offset else if offset + k < n then offset + k else n
  }

  /** `ws` cut into consecutive groups of `width` words, the last one shorter. */
  function Groups(ws: seq<string>, width: nat): seq<seq<string>>
    requires width >= 1
    decreases |ws|
  {
    if ws == [] then [] else if |ws| <= width then [ws] else [ws[..width]] + Groups(ws[width..], width)
  }

  /** The packet text of each group; the last group carries `,EOF` when the
      chunk reaches the end of the corpus. */
  function Render(gs: seq<seq<string>>, atEnd: bool): seq<string>
    decreases |gs|
  {
    if gs == [] then [] else [Packet(gs[0], atEnd && |gs| == 1)] + Render(gs[1..], atEnd)
  }

  /** The packets that send the words `words[a..e)` in groups of `w`, the
      last of them with `,EOF` when `atEnd`. */
  function PacketsFrom(words: seq<string>, a: nat, e: nat, w: nat, atEnd: bool): seq<string>
    requires a <= e <= |words| && w >= 1
    decreases e - a
  {
    if a == e then []
    else
      var m := if a + w < e then a + w else e;
      [Packet(words[a..m], atEnd && m == e)] + PacketsFrom(words, m, e, w, atEnd)
  }

  /** The packets one in-range request is answered with. */
  function ChunkPackets(words: seq<string>, offset: nat, k: int, p: int): seq<string>
    requires offset < |words|
  {
    var e := ChunkEnd(|words|, offset, k);
    PacketsFrom(words, offset, e, Width(p), e == |words|)
  }

  /** The nested send loop of `handleClient`. `sent` is `words_sent`. */
  method BuildChunk(words: seq<string>, offset: int, k: int, p: int) returns (pkts: seq<string>, sent: nat)
    requires 0 <= offset < |words|
    ensures offset + sent == ChunkEnd(|words|, offset, k)
    ensures pkts == ChunkPackets(words, offset, k, p)
  {
    var n := |words|;
    var e := ChunkEnd(n, offset, k);
    var w := Width(p);
    var atEnd := e == n;
    ghost var total := PacketsFrom(words, offset, e, w, atEnd);
    pkts := [];
    sent := 0;
    while sent < k && offset + sent < n
      invariant offset + sent <= e
      invariant pkts + PacketsFrom(words, offset + sent, e, w, atEnd) == total
      decreases e - (offset + sent)
    {
      var start := offset + sent;
      var pkt;
      pkt, sent := NextPacket(words, offset, sent, k, p);
      Emit(words, start, offset + sent, e, w, pkts, pkt, total);
      pkts := pkts + [pkt];
    }
  }

  /** One turn of the outer loop: the packet's first word, up to `p - 1` more
      (the inner `for` loop) while the chunk and the corpus last, `,EOF` when
      the corpus is exhausted, and the newline. */
  method NextPacket(words: seq<string>, offset: nat, sent0: nat, k: int, p: int) returns (pkt: string, sent: nat)
    requires offset + sent0 < |words| && sent0 < k
    ensures var e := ChunkEnd(|words|, offset, k);
            && offset + sent0 < offset + sent <= e
            && sent - sent0 <= Width(p) && (sent - sent0 == Width(p) || offset + sent == e)
            && pkt == Packet(words[offset + sent0..offset + sent], offset + sent >= |words|)
  {
    var n := |words|;
    var start := offset + sent0;
    pkt := words[start];
    sent := sent0 + 1;
    assert words[start..offset + sent] == [words[start]];
    var i := 1;
    while i < p && sent < k && offset + sent < n
      invariant 1 <= i <= Width(p) && offset + sent == start + i <= ChunkEnd(n, offset, k)
      invariant pkt == Join(words[start..offset + sent])
      decreases n - (offset + sent)
    {
      JoinSnoc(words[start..offset + sent], words[offset + sent]);
      assert words[start..offset + sent + 1] == words[start..offset + sent] + [words[offset + sent]];
      pkt := pkt + "," + words[offset + sent];
      sent := sent + 1;
      i := i + 1;
    }
    if offset + sent >= n {
      pkt := pkt + ",EOF";
    }
    pkt := pkt + "\n";
  }

  /** One turn of the outer send loop emits the first packet of what is left. */
  lemma Emit(words: seq<string>, start: nat, mid: nat, e: nat, w: nat,
              pkts: seq<string>, pkt: string, total: seq<string>)
    requires start < mid <= e <= |words| && 1 <= mid - start <= w
    requires mid - start == w || mid == e
    requires pkt == Packet(words[start..mid], mid >= |words|)
    requires pkts + PacketsFrom(words, start, e, w, e == |words|) == total
    ensures (pkts + [pkt]) + PacketsFrom(words, mid, e, w, e == |words|) == total
  {
    var rest := PacketsFrom(words, mid, e, w, e == |words|);
    assert PacketsFrom(words, start, e, w, e == |words|) == [pkt] + rest;
    AppendAssoc(pkts, [pkt], rest);
  }

  lemma AppendAssoc(a: seq<string>, b: seq<string>, c: seq<string>)
    ensures (a + b) + c == a + (b + c)
  {
  }

  /** The loop's view of a chunk and the grouping view agree. */
  lemma {:induction false} PacketsFromGroups(words: seq<string>, a: nat, e: nat, w: nat, atEnd: bool)
    requires a <= e <= |words| && w >= 1
    ensures PacketsFrom(words, a, e, w, atEnd) == Render(Groups(words[a..e], w), atEnd)
    decreases e - a
  {
    if a < e {
      var m := if a + w < e then a + w else e;
      var ws := words[a..e];
      PacketsFromGroups(words, m, e, w, atEnd);
      NextGroup(ws, w, m - a, atEnd);
      assert ws[..m - a] == words[a..m];
      assert ws[m - a..] == words[m..e];
    } else {
      assert words[a..e] == [];
    }
  }

  lemma NextGroup(ws: seq<string>, w: nat, i: nat, atEnd: bool)
    requires 1 <= i <= w && i <= |ws|
    requires i == w || i == |ws|
    ensures Render(Groups(ws, w), atEnd) == [Packet(ws[..i], atEnd && i == |ws|)] + Render(Groups(ws[i..], w), atEnd)
  {
    if i == |ws| {
      assert ws[..i] == ws && ws[i..] == [];
    } else {
      assert i == w;
      var rest := ws[w..];
      assert Groups(ws, w) == [ws[..w]] + Groups(rest, w);
      assert rest != [];
      assert |Groups(rest, w)| >= 1;
    }
  }

  // -------------------------------------------------------------- properties

  /** Each group holds between 1 and `width` words ... */
  lemma {:induction false} GroupSizes(ws: seq<string>, width: nat)
    requires width >= 1
    ensures forall j :: 0 <= j < |Groups(ws, width)| ==> 1 <= |Groups(ws, width)[j]| <= width
    decreases |ws|
  {
    if |ws| > width {
      GroupSizes(ws[width..], width);
    }
  }

  /** ... and the groups, in order, are exactly the words. */
  lemma {:induction false} GroupsConcat(ws: seq<string>, width: nat)
    requires width >= 1
    ensures Concat(Groups(ws, width)) == ws
    decreases |ws|
  {
    if ws != [] && |ws| > width {
      GroupsConcat(ws[width..], width);
      assert ws == ws[..width] + ws[width..];
    } else if ws != [] {
      assert Concat([ws]) == ws + Concat([]);
    }
  }

  /** Exactly one packet of a chunk carries `,EOF` when the chunk reaches the
      end of the corpus, and it is the last; otherwise none does. */
  lemma {:induction false} EofOnlyLast(gs: seq<seq<string>>, atEnd: bool, j: nat)
    requires j < |gs|
    ensures |Render(gs, atEnd)| == |gs|
    ensures Render(gs, atEnd)[j] == Packet(gs[j], atEnd && j == |gs| - 1)
    decreases |gs|
  {
    if j > 0 {
      EofOnlyLast(gs[1..], atEnd, j - 1);
    } else if |gs| > 1 {
      EofOnlyLast(gs[1..], atEnd, 0);
    }
  }

  /** A request's packets never hold more than `k` words in total, each packet
      holds between 1 and `p` (at least 1) words, the words are exactly
      `word_list[offset .. min(offset + k, n))` in order, and `,EOF` is on the
      last packet exactly when that slice reaches the end of the corpus. */
  lemma ChunkShape(words: seq<string>, offset: nat, k: int, p: int)
    requires offset < |words| && k >= 1
    ensures var e := ChunkEnd(|words|, offset, k);
            var gs := Groups(words[offset..e], Width(p));
            && e - offset <= k
            && e == (if offset + k < |words| then offset + k else |words|)
            && Concat(gs) == words[offset..e]
            && (forall j :: 0 <= j < |gs| ==> 1 <= |gs[j]| <= Width(p))
            && |ChunkPackets(words, offset, k, p)| == |gs| >= 1
            && (forall j :: 0 <= j < |gs| ==>
                  ChunkPackets(words, offset, k, p)[j] == Packet(gs[j], e == |words| && j == |gs| - 1))
  {
    var e := ChunkEnd(|words|, offset, k);
    var gs := Groups(words[offset..e], Width(p));
    PacketsFromGroups(words, offset, e, Width(p), e == |words|);
    GroupsConcat(words[offset..e], Width(p));
    GroupSizes(words[offset..e], Width(p));
    assert gs != [];
    EofOnlyLast(gs, e == |words|, 0);
    forall j | 0 <= j < |gs|
      ensures ChunkPackets(words, offset, k, p)[j] == Packet(gs[j], e == |words| && j == |gs| - 1)
    {
      EofOnlyLast(gs, e == |words|, j);
    }
  }

  // ------------------------------------------------- what a client reads back

  /** The bytes of several packets, back to back. */
  function Flat(pkts: seq<string>): string
    decreases |pkts|
  {
    if pkts == [] then "" else pkts[0] + Flat(pkts[1..])
  }

  /** Round trip of the wire format: when every corpus word is clean, the
      client's tokeniser reads a chunk back as exactly the words sent,
      followed by `EOF` when the chunk reached the end of the corpus. */
  lemma {:induction false} TokensOfRender(gs: seq<seq<string>>, atEnd: bool)
    requires forall j :: 0 <= j < |gs| ==> gs[j] != [] && AllClean(gs[j])
    ensures Tokens(Flat(Render(gs, atEnd))) == Concat(gs) + (if atEnd && gs != [] then [Eof] else [])
    decreases |gs|
  {
    if gs != [] {
      var last := atEnd && |gs| == 1;
      var first := Packet(gs[0], last);
      var tail := Flat(Render(gs[1..], atEnd));
      assert Flat(Render(gs, atEnd)) == first + tail;
      assert Concat(gs) == gs[0] + Concat(gs[1..]);
      TokensOfPacket(gs[0], last);
      TokensOfRender(gs[1..], atEnd);
      assert first[|first| - 1] == '\n';
      TokensAppend([], first, tail);
      if |gs| == 1 {
        assert tail == [] && Concat(gs[1..]) == [];
      }
    }
  }

  lemma {:induction false} CleanSlice(ws: seq<string>, width: nat, j: nat)
    requires width >= 1 && AllClean(ws) && j < |Groups(ws, width)|
    ensures AllClean(Groups(ws, width)[j])
    decreases |ws|
  {
    if |ws| > width && j > 0 {
      CleanSlice(ws[width..], width, j - 1);
    }
  }
}
