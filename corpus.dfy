/** The shared read-only corpus: `splitWordsFromFile`, identical in every lab_2
    server, cuts the input file's text at each comma with `getline(stream, word, ',')`
    and pushes every piece onto `word_list`. */
module Corpus {
  import Wire

  predicate CommaFree(w: string) { forall i :: 0 <= i < |w| ==> w[i] != ',' }

  /** Index of the first comma of `s`, or `|s|`. */
  function CommaAt(s: string): (j: nat)
    ensures j <= |s|
    ensures j < |s| ==> s[j] == ','
    decreases |s|
  {
    if s == [] then 0 else if s[0] == ',' then 0 else 1 + CommaAt(s[1..])
  }

  /** No comma comes before `CommaAt(s)`. */
  lemma {:induction false} CommaAtFirst(s: string)
    ensures CommaFree(s[..CommaAt(s)])
    decreases |s|
  {
    if s != [] && s[0] != ',' {
      var j := CommaAt(s);
      CommaAtFirst(s[1..]);
      assert s[..j] == [s[0]] + s[1..][..j - 1];
    }
  }

  /** The pieces `getline` yields: one per comma-terminated field, plus the
      final field when it is non-empty (a trailing comma yields no empty word,
      and the empty input yields none at all). */
  function Split(s: string): seq<string>
    decreases |s|
  {
    if s == [] then []
    else
      var j := CommaAt(s);
      [s[..j]] + (if j < |s| then Split(s[j + 1..]) else [])
  }

  /** `splitWordsFromFile`: the getline loop, one character at a time. */
  method SplitWords(input: string) returns (words: seq<string>)
    ensures words == Split(input)
  {
    ghost var total := Split(input);
    words := [];
    var i := 0;
    assert input[0..] == input;
    while i < |input|
      invariant 0 <= i <= |input|
      invariant words + Split(input[i..]) == total
      decreases |input| - i
    {
      var j := NextComma(input, i);
      SplitStep(input, i, j, words, total);
      words := words + [input[i..j]];
      i := if j < |input| then j + 1 else j;
    }
    assert input[i..] == [];
  }

  /** `getline(stream, word, ',')`: the extent of the field starting at `i`,
      up to the next comma or the end of the input. */
  method NextComma(input: string, i: nat) returns (j: nat)
    requires i <= |input|
    ensures i <= j <= |input| && (j < |input| ==> input[j] == ',')
    ensures forall m :: i <= m < j ==> input[m] != ','
  {
    j := i;
    while j < |input| && input[j] != ','
      invariant i <= j <= |input|
      invariant forall m :: i <= m < j ==> input[m] != ','
      decreases |input| - j
    {
      j := j + 1;
    }
  }

  lemma SplitStep(s: string, i: nat, j: nat, words: seq<string>, total: seq<string>)
    requires i < |s| && i <= j <= |s|
    requires (forall m :: i <= m < j ==> s[m] != ',') && (j < |s| ==> s[j] == ',')
    requires words + Split(s[i..]) == total
    ensures (words + [s[i..j]]) + Split(s[if j < |s| then j + 1 else j..]) == total
  {
    assert CommaFree(s[i..j]);
    SplitAt(s, i, j);
    var rest := Split(s[if j < |s| then j + 1 else j..]);
    assert (words + [s[i..j]]) + rest == words + ([s[i..j]] + rest);
  }

  /** One getline step: the field from `i` up to the comma at `j` (or the end). */
  lemma SplitAt(s: string, i: nat, j: nat)
    requires i < |s| && i <= j <= |s|
    requires CommaFree(s[i..j]) && (j < |s| ==> s[j] == ',')
    ensures Split(s[i..]) == [s[i..j]] + Split(s[if j < |s| then j + 1 else j..])
  {
    var t := s[i..];
    assert t[..j - i] == s[i..j];
    CommaAtIs(t, j - i);
    if j < |s| {
      assert t[j - i + 1..] == s[j + 1..];
    } else {
      assert s[j..] == [];
    }
  }

  lemma {:induction false} CommaAtIs(s: string, j: nat)
    requires j <= |s| && CommaFree(s[..j]) && (j < |s| ==> s[j] == ',')
    ensures CommaAt(s) == j
    decreases j
  {
    if j > 0 {
      assert s[..j][0] == s[0];
      assert s[1..][..j - 1] == s[..j][1..];
      CommaAtIs(s[1..], j - 1);
    }
  }

  /** Every word of the corpus is comma-free. */
  lemma {:induction false} SplitCommaFree(s: string)
    ensures forall i :: 0 <= i < |Split(s)| ==> CommaFree(Split(s)[i])
    decreases |s|
  {
    if s != [] {
      var j := CommaAt(s);
      CommaAtFirst(s);
      if j < |s| { SplitCommaFree(s[j + 1..]); }
    }
  }

  /** Joining the corpus with commas gives back the input, unless the input
      ends in a comma (whose empty last field `getline` never yields). */
  lemma {:induction false} JoinSplit(s: string)
    requires s == [] || s[|s| - 1] != ','
    ensures Wire.Join(Split(s)) == s
    decreases |s|
  {
    if s != [] {
      var j := CommaAt(s);
      if j == |s| {
        assert s[..j] == s;
      } else {
        var rest := s[j + 1..];
        assert j + 1 < |s|;
        assert rest[|rest| - 1] == s[|s| - 1];
        JoinSplit(rest);
        JoinSplitStep(s, j);
      }
    }
  }

  lemma JoinSplitStep(s: string, j: nat)
    requires j == CommaAt(s) && j + 1 < |s|
    requires Wire.Join(Split(s[j + 1..])) == s[j + 1..]
    ensures Wire.Join(Split(s)) == s
  {
    var rest := s[j + 1..];
    calc {
      Wire.Join(Split(s));
      Wire.Join([s[..j]] + Split(rest));
      { JoinCons(s[..j], Split(rest)); }
      s[..j] + "," + Wire.Join(Split(rest));
      s[..j] + "," + rest;
      { Recompose(s, j); }
      s;
    }
  }

  lemma Recompose(s: string, j: nat)
    requires j < |s| && s[j] == ','
    ensures s == s[..j] + "," + s[j + 1..]
  {
  }

  lemma JoinCons(w: string, ws: seq<string>)
    requires ws != []
    ensures Wire.Join([w] + ws) == w + "," + Wire.Join(ws)
  {
    assert ([w] + ws)[1..] == ws;
  }

  /** Conversely, comma-free words whose last word is non-empty are recovered
      exactly from their comma-joined text. */
  lemma {:induction false} SplitJoin(ws: seq<string>)
    requires ws != [] && ws[|ws| - 1] != []
    requires forall i :: 0 <= i < |ws| ==> CommaFree(ws[i])
    ensures Split(Wire.Join(ws)) == ws
    decreases |ws|
  {
    var s := Wire.Join(ws);
    if |ws| == 1 {
      CommaAtIs(s, |s|);
      assert s[..|s|] == s;
    } else {
      var rest := Wire.Join(ws[1..]);
      assert s == ws[0] + "," + rest;
      assert s[..|ws[0]|] == ws[0];
      CommaAtIs(s, |ws[0]|);
      assert s[|ws[0]| + 1..] == rest;
      assert rest != [] by { JoinNonEmpty(ws[1..]); }
      SplitJoin(ws[1..]);
      assert ws == [ws[0]] + ws[1..];
    }
  }

  lemma {:induction false} JoinNonEmpty(ws: seq<string>)
    requires ws != [] && ws[|ws| - 1] != []
    ensures Wire.Join(ws) != []
    decreases |ws|
  {
    if |ws| > 1 {
      assert Wire.Join(ws) == ws[0] + "," + Wire.Join(ws[1..]);
    }
  }
}
