/** The transfer both lab_2 part3 servers run for a granted request: up to ten
    corpus words from the requested offset, one word per packet, `,EOF` on the
    packet of the last corpus word, and `HUH!\n` in place of the first word
    found to collide, which ends the transfer. */
module Burst {
  import opened Wire

  /** Words per transfer (the literal `10` of both send loops). */
  const MaxWords: nat := 10

  /** The packet for corpus word `j`: the word, `,EOF` when it is the last
      one, and a newline. */
  function WordPacket(words: seq<string>, j: nat): string
    requires j < |words|
  {
    Packet([words[j]], j >= |words| - 1)
  }

  /** The words a transfer from `offset` sends when nothing collides. */
  function Planned(n: nat, offset: nat): nat
    requires offset <= n
  {
    if n - offset < MaxWords then n - offset else MaxWords
  }

  /** The packets of words `a` up to `b`, in order. */
  function WordPackets(words: seq<string>, a: nat, b: nat): seq<string>
    requires a <= b <= |words|
    decreases b - a
  {
    if a == b then [] else WordPackets(words, a, b - 1) + [WordPacket(words, b - 1)]
  }

  /** What a transfer that sent `count` words sends: their packets, then
      `HUH!\n` when it stopped on a collision. */
  function Sent(words: seq<string>, offset: nat, count: nat, collided: bool): seq<string>
    requires offset + count <= |words|
  {
    WordPackets(words, offset, offset + count) + (if collided then [CollisionReply] else [])
  }

  /** The packets of a run, one per word, in corpus order. */
  lemma {:induction false} WordPacketsAt(words: seq<string>, a: nat, b: nat, i: nat)
    requires a <= b <= |words| && i < b - a
    ensures |WordPackets(words, a, b)| == b - a
    ensures WordPackets(words, a, b)[i] == WordPacket(words, a + i)
    decreases b - a
  {
    WordPacketsLength(words, a, b - 1);
    if i < b - 1 - a {
      WordPacketsAt(words, a, b - 1, i);
    }
  }

  lemma {:induction false} WordPacketsLength(words: seq<string>, a: nat, b: nat)
    requires a <= b <= |words|
    ensures |WordPackets(words, a, b)| == b - a
    decreases b - a
  {
    if a < b {
      WordPacketsLength(words, a, b - 1);
    }
  }

  /** A word packet reads back as its word, followed by `EOF` exactly for the
      last corpus word. */
  lemma WordPacketTokens(words: seq<string>, j: nat)
    requires j < |words| && Clean(words[j])
    ensures Tokens(WordPacket(words, j)) == [words[j]] + (if j == |words| - 1 then [Eof] else [])
  {
    TokensOfPacket([words[j]], j >= |words| - 1);
  }
}
