/** Walks and reachability over an adjacency map, shared by the shortest-path
    and spanning-tree models of lab_3. */
module Reach {
  datatype Option<T> = None | Some(value: T)

  function Elems(s: seq<int>): set<int>
  {
    set x | x in s
  }

  predicate Distinct(s: seq<int>)
  {
    forall i, j :: 0 <= i < j < |s| ==> s[i] != s[j]
  }

  /** Index of the first `x` in `s`, or `|s|`. */
  function Position(s: seq<int>, x: int): (n: nat)
    ensures n <= |s|
    ensures x in s ==> n < |s| && s[n] == x
    ensures x !in s ==> n == |s|
    decreases |s|
  {
    if s == [] then 0 else if s[0] == x then 0 else 1 + Position(s[1..], x)
  }

  lemma {:induction false} PositionSnoc(s: seq<int>, y: int, x: int)
    ensures x in s ==> Position(s + [y], x) == Position(s, x)
    ensures x !in s && x == y ==> Position(s + [y], x) == |s|
    decreases |s|
  {
    if s != [] {
      assert (s + [y])[1..] == s[1..] + [y];
      PositionSnoc(s[1..], y, x);
    } else {
      assert [] + [y] == [y];
    }
  }

  /** The neighbours of each switch. */
  type Adj = map<int, set<int>>

  function Out(adj: Adj, u: int): set<int>
  {
    if u in adj then adj[u] else {}
  }

  /** `p` follows edges of `adj`. */
  ghost predicate Walk(adj: Adj, p: seq<int>)
  {
    |p| >= 1 && forall j :: 0 <= j < |p| - 1 ==> p[j + 1] in Out(adj, p[j])
  }

  ghost predicate Reachable(adj: Adj, a: int, b: int)
  {
    exists p :: Walk(adj, p) && p[0] == a && p[|p| - 1] == b
  }

  lemma ReachRefl(adj: Adj, a: int)
    ensures Reachable(adj, a, a)
  {
    assert Walk(adj, [a]);
  }

  /** A reachable node's neighbour is reachable. */
  lemma ReachStep(adj: Adj, a: int, b: int, c: int)
    requires Reachable(adj, a, b) && c in Out(adj, b)
    ensures Reachable(adj, a, c)
  {
    var p :| Walk(adj, p) && p[0] == a && p[|p| - 1] == b;
    var q := p + [c];
    assert forall j :: 0 <= j < |p| ==> q[j] == p[j];
    assert Walk(adj, q);
  }

  /** Prepending an edge to a walk. */
  lemma ReachPrepend(adj: Adj, a: int, b: int, c: int)
    requires b in Out(adj, a) && Reachable(adj, b, c)
    ensures Reachable(adj, a, c)
  {
    var p :| Walk(adj, p) && p[0] == b && p[|p| - 1] == c;
    var q := [a] + p;
    assert forall j :: 1 <= j < |q| - 1 ==> q[j] == p[j - 1] && q[j + 1] == p[j];
    assert Walk(adj, q);
  }

  /** `S` contains the neighbours of its members. */
  ghost predicate Closed(adj: Adj, s: set<int>)
  {
    forall u :: u in s ==> Out(adj, u) <= s
  }

  /** A set closed under the edges holds every node reachable from it. */
  lemma ClosedHoldsReachable(adj: Adj, s: set<int>, a: int, b: int)
    requires Closed(adj, s) && a in s && Reachable(adj, a, b)
    ensures b in s
  {
    var p :| Walk(adj, p) && p[0] == a && p[|p| - 1] == b;
    WalkInside(adj, s, p, |p| - 1);
  }

  lemma {:induction false} WalkInside(adj: Adj, s: set<int>, p: seq<int>, n: nat)
    requires Closed(adj, s) && Walk(adj, p) && p[0] in s && n < |p|
    ensures p[n] in s
  {
    if n > 0 {
      WalkInside(adj, s, p, n - 1);
      assert p[n - 1 + 1] in Out(adj, p[n - 1]);
    }
  }
}
