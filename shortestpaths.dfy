/** The `Graph` class of lab_3's shortest-path switch: nodes in first-seen
    order, successor lists and edge weights, Dijkstra's algorithm with a
    binary heap and a visited set, the predecessor walk that yields the
    first hop, and the all-pairs next-hop table. Weights are natural numbers
    (the measured delays are not modelled). */
module ShortestPaths {
  import opened Reach

  /** `shortest_paths[v]`: the predecessor and the cost. */
  datatype Entry = Entry(pred: Option<int>, cost: nat)

  /** A heap entry `(cost, node)`. */
  datatype Item = Item(cost: nat, node: int)

  /** What `get_shortest_path` yields: `None` (`Stay`), the node after
      `start` (`Via`), or the `KeyError` raised for an unreachable `end`
      (`Missing`). */
  datatype Hop = Stay | Via(node: int) | Missing

  type Edges = map<int, seq<int>>
  type Weights = map<(int, int), nat>

  /** `self.edges[u]` of a `defaultdict(list)`. */
  function Succ(edges: Edges, u: int): seq<int>
  {
    if u in edges then edges[u] else []
  }

  /** The graph as an adjacency map. */
  function AdjOf(edges: Edges): Adj
  {
    map u | u in edges :: Elems(edges[u])
  }

  lemma OutOf(edges: Edges, u: int, v: int)
    ensures v in Out(AdjOf(edges), u) <==> v in Succ(edges, u)
  {
  }

  function Weight(weights: Weights, a: int, b: int): nat
  {
    if (a, b) in weights then weights[(a, b)] else 0
  }

  /** `if x not in self.nodes: self.nodes.append(x)` */
  function Remember(nodes: seq<int>, x: int): seq<int>
  {
    if x in nodes then nodes else nodes + [x]
  }

  /** Remembering a node keeps the list duplicate-free, keeps its old
      entries in place, and leaves the node in it. */
  lemma RememberFacts(nodes: seq<int>, x: int)
    ensures var r := Remember(nodes, x);
            && x in r && nodes <= r && |r| <= |nodes| + 1
            && (forall y :: y in r <==> y in nodes || y == x)
            && (Distinct(nodes) ==> Distinct(r))
  {
  }

  // -------------------------------------------------------- Dijkstra's state

  /** `shortest_paths[initial] == (None, 0)`. */
  ghost predicate Rooted(i: int, dist: map<int, Entry>)
  {
    i in dist && dist[i] == Entry(None, 0)
  }

  /** A recorded node's predecessor was expanded, has an edge to it, and its
      cost plus the weight is the node's cost; once the node itself is
      expanded its predecessor was expanded first. */
  ghost predicate TreeEdge(edges: Edges, weights: Weights, dist: map<int, Entry>,
                           visited: set<int>, order: seq<int>, v: int)
    requires v in dist
  {
    && dist[v].pred.Some?
    && var u := dist[v].pred.value;
       && u in visited && u in dist && v in Succ(edges, u)
       && dist[v].cost == dist[u].cost + Weight(weights, u, v)
       && (v in visited ==> Position(order, u) < Position(order, v))
  }

  ghost predicate Tree(edges: Edges, weights: Weights, i: int, dist: map<int, Entry>,
                       visited: set<int>, order: seq<int>)
  {
    && Rooted(i, dist)
    && (forall v {:trigger TreeEdge(edges, weights, dist, visited, order, v)} ::
          v in dist && v != i ==> TreeEdge(edges, weights, dist, visited, order, v))
    && Distinct(order)
    && (forall v :: v in order <==> v in visited)
    && (forall v :: v in visited ==> v in dist)
  }

  /** Every heap entry is at or above its node's recorded cost, and every
      recorded node not yet expanded has an entry at its recorded cost. */
  ghost predicate Queued(dist: map<int, Entry>, visited: set<int>, pq: seq<Item>)
  {
    && (forall x :: x in pq ==> x.node in dist && dist[x.node].cost <= x.cost)
    && (forall v :: v in dist && v !in visited ==> Item(dist[v].cost, v) in pq)
  }

  /** Expanded nodes cost at most `c`, and every heap entry at least `c`. */
  ghost predicate Below(dist: map<int, Entry>, visited: set<int>, pq: seq<Item>, c: nat)
  {
    && (forall v :: v in visited && v in dist ==> dist[v].cost <= c)
    && (forall x :: x in pq ==> c <= x.cost)
  }

  /** Expanded nodes cost at most every heap entry. */
  ghost predicate Frozen(dist: map<int, Entry>, visited: set<int>, pq: seq<Item>)
  {
    forall v, x :: v in visited && v in dist && x in pq ==> dist[v].cost <= x.cost
  }

  /** The first `k` successors of `u` are recorded, at most their weight
      above `u`. */
  ghost predicate RelaxedUpTo(edges: Edges, weights: Weights, dist: map<int, Entry>, u: int, k: nat)
    requires u in dist
  {
    forall j :: 0 <= j < k && j < |Succ(edges, u)| ==>
      Succ(edges, u)[j] in dist && dist[Succ(edges, u)[j]].cost <= dist[u].cost + Weight(weights, u, Succ(edges, u)[j])
  }

  /** Every edge out of an expanded node is relaxed. */
  ghost predicate Relaxed(edges: Edges, weights: Weights, dist: map<int, Entry>, s: set<int>)
  {
    forall u :: u in s && u in dist ==> RelaxedUpTo(edges, weights, dist, u, |Succ(edges, u)|)
  }

  ghost predicate Within(dist: map<int, Entry>, un: set<int>)
  {
    forall v :: v in dist ==> v in un
  }

  /** `heapq.heappop`: the least entry, by cost and then by node. */
  predicate Least(x: Item, y: Item)
  {
    x.cost < y.cost || (x.cost == y.cost && x.node <= y.node)
  }

  method PopMin(pq: seq<Item>) returns (top: Item, rest: seq<Item>)
    requires pq != []
    ensures top in pq && forall y :: y in pq ==> Least(top, y)
    ensures multiset(rest) + multiset{top} == multiset(pq) && |rest| == |pq| - 1
    ensures forall y :: y in rest ==> y in pq
    ensures forall y :: y in pq && y != top ==> y in rest
  {
    var m := 0;
    var i := 1;
    while i < |pq|
      invariant 0 <= m < i <= |pq|
      invariant forall j :: 0 <= j < i ==> Least(pq[m], pq[j])
    {
      if Least(pq[i], pq[m]) {
        m := i;
      }
      i := i + 1;
    }
    top := pq[m];
    rest := pq[..m] + pq[m + 1..];
    assert pq == pq[..m] + [top] + pq[m + 1..];
    assert multiset(pq) == multiset(pq[..m]) + multiset{top} + multiset(pq[m + 1..]);
    forall y | y in pq
      ensures Least(top, y)
    {
      var j :| 0 <= j < |pq| && pq[j] == y;
    }
    forall y | y in pq && y != top
      ensures y in rest
    {
      var j :| 0 <= j < |pq| && pq[j] == y;
      if j < m {
        assert rest[j] == y;
      } else {
        assert j > m;
        assert rest[j - 1] == y;
      }
    }
  }

  // ------------------------------------------------------------ step lemmas

  /** Expanding one more node of `un` leaves fewer to expand. */
  lemma Shrink(un: set<int>, visited: set<int>, u: int)
    requires u in un && u !in visited
    ensures |un - (visited + {u})| < |un - visited|
  {
    assert un - (visited + {u}) == (un - visited) - {u};
  }

  /** Once the heap is empty every recorded node has been expanded. */
  lemma Drained(dist: map<int, Entry>, visited: set<int>, pq: seq<Item>)
    requires Queued(dist, visited, pq) && pq == [] && forall v :: v in visited ==> v in dist
    ensures visited == dist.Keys
  {
    assert forall v :: v in visited <==> v in dist.Keys;
  }

  lemma Thaw(dist: map<int, Entry>, visited: set<int>, pq: seq<Item>, c: nat)
    requires Below(dist, visited, pq, c)
    ensures Frozen(dist, visited, pq)
  {
  }

  /** Expanding the popped least entry `(c, u)` of an unexpanded node. */
  lemma Expand(edges: Edges, weights: Weights, i: int, dist: map<int, Entry>,
               visited: set<int>, order: seq<int>, pq: seq<Item>, top: Item, rest: seq<Item>)
    requires Tree(edges, weights, i, dist, visited, order) && Queued(dist, visited, pq)
    requires Frozen(dist, visited, pq) && Relaxed(edges, weights, dist, visited)
    requires top in pq && (forall y :: y in pq ==> Least(top, y)) && top.node !in visited
    requires (forall y :: y in rest ==> y in pq) && (forall y :: y in pq && y != top ==> y in rest)
    ensures var u := top.node;
            && u in dist && dist[u].cost == top.cost
            && Tree(edges, weights, i, dist, visited + {u}, order + [u])
            && Queued(dist, visited + {u}, rest)
            && Below(dist, visited + {u}, rest, top.cost)
            && Relaxed(edges, weights, dist, visited)
            && RelaxedUpTo(edges, weights, dist, u, 0)
  {
    var u := top.node;
    assert Item(dist[u].cost, u) in pq;
    assert dist[u].cost == top.cost;
    var order1 := order + [u];
    forall v | v in dist && v != i
      ensures TreeEdge(edges, weights, dist, visited + {u}, order1, v)
    {
      assert TreeEdge(edges, weights, dist, visited, order, v);
      var p := dist[v].pred.value;
      PositionSnoc(order, u, p);
      PositionSnoc(order, u, v);
    }
    assert Distinct(order1) by {
      assert u !in order;
    }
  }

  /** Recording `u` as the predecessor of its successor `v`, which is
      not expanded, at `u`'s cost plus the edge weight. */
  lemma RelaxTree(edges: Edges, weights: Weights, i: int, dist: map<int, Entry>,
                  visited: set<int>, order: seq<int>, u: int, v: int, e: Entry)
    requires Tree(edges, weights, i, dist, visited, order)
    requires u in visited && v in Succ(edges, u) && v !in visited && v != i
    requires u in dist && e == Entry(Some(u), dist[u].cost + Weight(weights, u, v))
    ensures Tree(edges, weights, i, dist[v := e], visited, order)
  {
    var dist1 := dist[v := e];
    forall w | w in dist1 && w != i
      ensures TreeEdge(edges, weights, dist1, visited, order, w)
    {
      if w != v {
        assert TreeEdge(edges, weights, dist, visited, order, w);
      }
    }
  }

  /** The new heap entry for `v` is at its new, lower cost. */
  lemma RelaxQueued(dist: map<int, Entry>, visited: set<int>, pq: seq<Item>, v: int, e: Entry)
    requires Queued(dist, visited, pq) && v !in visited
    requires v in dist ==> e.cost < dist[v].cost
    ensures Queued(dist[v := e], visited, pq + [Item(e.cost, v)])
  {
    var dist1 := dist[v := e];
    forall x | x in pq + [Item(e.cost, v)]
      ensures x.node in dist1 && dist1[x.node].cost <= x.cost
    {
      if x != Item(e.cost, v) {
        assert x in pq;
      }
    }
  }

  lemma RelaxBelow(dist: map<int, Entry>, visited: set<int>, pq: seq<Item>, c: nat, v: int, e: Entry)
    requires Below(dist, visited, pq, c) && v !in visited && c <= e.cost
    ensures Below(dist[v := e], visited, pq + [Item(e.cost, v)], c)
  {
  }

  /** Lowering the cost of an unexpanded node keeps every expanded node's
      edges relaxed. */
  lemma RelaxKeep(edges: Edges, weights: Weights, dist: map<int, Entry>,
                  s: set<int>, u: int, k: nat, v: int, e: Entry)
    requires Relaxed(edges, weights, dist, s) && v !in s && u in dist && u != v
    requires RelaxedUpTo(edges, weights, dist, u, k)
    requires v in dist ==> e.cost < dist[v].cost
    ensures Relaxed(edges, weights, dist[v := e], s)
    ensures RelaxedUpTo(edges, weights, dist[v := e], u, k)
  {
    var dist1 := dist[v := e];
    forall w | w in s && w in dist1
      ensures RelaxedUpTo(edges, weights, dist1, w, |Succ(edges, w)|)
    {
      assert RelaxedUpTo(edges, weights, dist, w, |Succ(edges, w)|);
    }
  }

  lemma RelaxNext(edges: Edges, weights: Weights, dist: map<int, Entry>, u: int, k: nat)
    requires u in dist && RelaxedUpTo(edges, weights, dist, u, k) && k < |Succ(edges, u)|
    requires Succ(edges, u)[k] in dist
    requires dist[Succ(edges, u)[k]].cost <= dist[u].cost + Weight(weights, u, Succ(edges, u)[k])
    ensures RelaxedUpTo(edges, weights, dist, u, k + 1)
  {
  }

  // ------------------------------------------------- what the result means

  /** The predecessor chain from `v` back to the root: the `path` list that
      `get_shortest_path` builds. */
  ghost function Back(edges: Edges, weights: Weights, i: int, dist: map<int, Entry>, order: seq<int>, v: int): seq<int>
    requires Tree(edges, weights, i, dist, dist.Keys, order) && v in dist
    decreases Position(order, v)
  {
    if v == i then [i]
    else
      assert TreeEdge(edges, weights, dist, dist.Keys, order, v);
      [v] + Back(edges, weights, i, dist, order, dist[v].pred.value)
  }

  ghost function Rev(s: seq<int>): (r: seq<int>)
    ensures |r| == |s|
  {
    if s == [] then [] else Rev(s[1..]) + [s[0]]
  }

  /** The weight of a walk. */
  ghost function WalkCost(weights: Weights, p: seq<int>): nat
  {
    if |p| <= 1 then 0 else WalkCost(weights, p[..|p| - 1]) + Weight(weights, p[|p| - 2], p[|p| - 1])
  }

  /** The predecessor chain starts at `v`, ends at the root, is of length
      one only for the root, and follows edges backwards through recorded
      nodes. */
  lemma {:induction false} BackShape(edges: Edges, weights: Weights, i: int, dist: map<int, Entry>, order: seq<int>, v: int)
    requires Tree(edges, weights, i, dist, dist.Keys, order) && v in dist
    ensures var b := Back(edges, weights, i, dist, order, v);
            && |b| >= 1 && b[0] == v && b[|b| - 1] == i
            && (|b| == 1 <==> v == i)
            && (forall j :: 0 <= j < |b| ==> b[j] in dist)
            && (forall j :: 0 <= j < |b| - 1 ==> b[j] in Succ(edges, b[j + 1]) && b[j] != i)
    decreases Position(order, v)
  {
    if v != i {
      assert TreeEdge(edges, weights, dist, dist.Keys, order, v);
      var u := dist[v].pred.value;
      BackShape(edges, weights, i, dist, order, u);
      var b := Back(edges, weights, i, dist, order, v);
      var c := Back(edges, weights, i, dist, order, u);
      assert b == [v] + c;
      assert forall j :: 0 < j < |b| ==> b[j] == c[j - 1];
    }
  }

  /** Read forwards, the predecessor chain is a walk from the root to `v`
      whose weight is exactly the recorded cost. */
  lemma {:induction false} BackWalk(edges: Edges, weights: Weights, i: int, dist: map<int, Entry>, order: seq<int>, v: int)
    requires Tree(edges, weights, i, dist, dist.Keys, order) && v in dist
    ensures var p := Rev(Back(edges, weights, i, dist, order, v));
            && Walk(AdjOf(edges), p) && p[0] == i && p[|p| - 1] == v
            && WalkCost(weights, p) == dist[v].cost
    decreases Position(order, v)
  {
    BackShape(edges, weights, i, dist, order, v);
    if v != i {
      assert TreeEdge(edges, weights, dist, dist.Keys, order, v);
      var u := dist[v].pred.value;
      BackWalk(edges, weights, i, dist, order, u);
      var q := Rev(Back(edges, weights, i, dist, order, u));
      assert Back(edges, weights, i, dist, order, v) == [v] + Back(edges, weights, i, dist, order, u);
      var p := q + [v];
      assert Rev(Back(edges, weights, i, dist, order, v)) == p;
      assert p[..|p| - 1] == q;
      OutOf(edges, u, v);
      assert forall j :: 0 <= j < |q| ==> p[j] == q[j];
      assert Walk(AdjOf(edges), p);
    }
  }

  /** Every node of the predecessor chain reaches `v`. */
  lemma {:induction false} BackReach(edges: Edges, weights: Weights, i: int, dist: map<int, Entry>, order: seq<int>,
                                     v: int, j: nat)
    requires Tree(edges, weights, i, dist, dist.Keys, order) && v in dist
    requires j < |Back(edges, weights, i, dist, order, v)|
    ensures Reachable(AdjOf(edges), Back(edges, weights, i, dist, order, v)[j], v)
    decreases Position(order, v)
  {
    if j == 0 {
      BackShape(edges, weights, i, dist, order, v);
      ReachRefl(AdjOf(edges), v);
    } else {
      assert v != i;
      assert TreeEdge(edges, weights, dist, dist.Keys, order, v);
      var u := dist[v].pred.value;
      var c := Back(edges, weights, i, dist, order, u);
      assert Back(edges, weights, i, dist, order, v) == [v] + c;
      BackReach(edges, weights, i, dist, order, u, j - 1);
      OutOf(edges, u, v);
      ReachStep(AdjOf(edges), c[j - 1], u, v);
    }
  }

  /** Every recorded node is reachable from the root. */
  lemma KeysReachable(edges: Edges, weights: Weights, i: int, dist: map<int, Entry>, order: seq<int>, v: int)
    requires Tree(edges, weights, i, dist, dist.Keys, order) && v in dist
    ensures Reachable(AdjOf(edges), i, v)
  {
    BackShape(edges, weights, i, dist, order, v);
    var b := Back(edges, weights, i, dist, order, v);
    BackReach(edges, weights, i, dist, order, v, |b| - 1);
  }

  /** Recorded nodes with every edge relaxed hold everything reachable. */
  lemma ReachableKeys(edges: Edges, weights: Weights, i: int, dist: map<int, Entry>, v: int)
    requires i in dist && Relaxed(edges, weights, dist, dist.Keys) && Reachable(AdjOf(edges), i, v)
    ensures v in dist
  {
    forall u | u in dist.Keys
      ensures Out(AdjOf(edges), u) <= dist.Keys
    {
      forall w | w in Out(AdjOf(edges), u)
        ensures w in dist.Keys
      {
        OutOf(edges, u, w);
        assert RelaxedUpTo(edges, weights, dist, u, |Succ(edges, u)|);
        var j :| 0 <= j < |Succ(edges, u)| && Succ(edges, u)[j] == w;
      }
    }
    ClosedHoldsReachable(AdjOf(edges), dist.Keys, i, v);
  }

  /** No walk from the root is cheaper than the recorded cost of its end. */
  lemma {:induction false} Optimal(edges: Edges, weights: Weights, i: int, dist: map<int, Entry>, p: seq<int>)
    requires Rooted(i, dist) && Relaxed(edges, weights, dist, dist.Keys)
    requires Walk(AdjOf(edges), p) && p[0] == i
    ensures p[|p| - 1] in dist && dist[p[|p| - 1]].cost <= WalkCost(weights, p)
    decreases |p|
  {
    if |p| > 1 {
      var q := p[..|p| - 1];
      assert Walk(AdjOf(edges), q) by {
        assert forall j :: 0 <= j < |q| ==> q[j] == p[j];
      }
      Optimal(edges, weights, i, dist, q);
      var u, v := p[|p| - 2], p[|p| - 1];
      assert q[|q| - 1] == u;
      assert v in Out(AdjOf(edges), u);
      OutOf(edges, u, v);
      assert RelaxedUpTo(edges, weights, dist, u, |Succ(edges, u)|);
      var j :| 0 <= j < |Succ(edges, u)| && Succ(edges, u)[j] == v;
    }
  }

  // ------------------------------------------------------------- next hops

  /** `p` is a least-cost walk from `start` to `end`: no walk between them
      weighs less. */
  ghost predicate Shortest(edges: Edges, weights: Weights, start: int, end: int, p: seq<int>)
  {
    && Walk(AdjOf(edges), p) && p[0] == start && p[|p| - 1] == end
    && forall q :: Walk(AdjOf(edges), q) && q[0] == start && q[|q| - 1] == end ==> WalkCost(weights, p) <= WalkCost(weights, q)
  }

  /** What `get_shortest_path(start, end)` yields: `Missing` (the
      `KeyError`) exactly when `end` is unreachable, `Stay` (`None`)
      exactly when `end` is `start`, and otherwise the second node of a
      least-cost walk from `start` to `end`: a successor of `start` other
      than `start` from which `end` is reachable. */
  ghost predicate HopSpec(edges: Edges, weights: Weights, start: int, end: int, hop: Hop)
  {
    && (hop == Missing <==> !Reachable(AdjOf(edges), start, end))
    && (hop == Stay <==> Reachable(AdjOf(edges), start, end) && start == end)
    && (hop.Via? ==> hop.node in Succ(edges, start) && hop.node != start && Reachable(AdjOf(edges), hop.node, end))
    && (hop.Via? ==> exists p :: Shortest(edges, weights, start, end, p) && |p| >= 2 && p[1] == hop.node)
  }

  /** `{sw2: None for sw2 in self.nodes}` */
  function Blank(nodes: seq<int>): (row: map<int, Hop>)
    ensures row.Keys == Elems(nodes)
    ensures forall b :: b in row ==> row[b] == Stay
  {
    map b | b in Elems(nodes) :: Stay
  }

  /** A filled row of the next-hop table. */
  ghost predicate RowSpec(edges: Edges, weights: Weights, nodes: seq<int>, a: int, row: map<int, Hop>)
  {
    row.Keys == Elems(nodes) && forall b :: b in row ==> HopSpec(edges, weights, a, b, row[b])
  }

  ghost predicate ReachesAll(edges: Edges, a: int, nodes: seq<int>)
  {
    forall b :: b in nodes ==> Reachable(AdjOf(edges), a, b)
  }

  /** An end the search never recorded is unreachable. */
  lemma Unreached(edges: Edges, weights: Weights, i: int, dist: map<int, Entry>, v: int)
    requires Rooted(i, dist) && Relaxed(edges, weights, dist, dist.Keys) && v !in dist
    ensures HopSpec(edges, weights, i, v, Missing)
  {
    if Reachable(AdjOf(edges), i, v) {
      ReachableKeys(edges, weights, i, dist, v);
    }
  }

  lemma {:induction false} RevIndex(s: seq<int>, j: nat)
    requires j < |s|
    ensures Rev(s)[j] == s[|s| - 1 - j]
    decreases |s|
  {
    if j < |s| - 1 {
      RevIndex(s[1..], j);
    }
  }

  /** The answer read off a recorded end's predecessor chain: the node after
      the root on the chain read forwards, which is a least-cost walk. */
  lemma BackHop(edges: Edges, weights: Weights, i: int, dist: map<int, Entry>, order: seq<int>, v: int, hop: Hop)
    requires Tree(edges, weights, i, dist, dist.Keys, order) && v in dist
    requires Relaxed(edges, weights, dist, dist.Keys)
    requires var b := Back(edges, weights, i, dist, order, v);
             hop == if |b| < 2 then Stay else Via(b[|b| - 2])
    ensures HopSpec(edges, weights, i, v, hop)
  {
    var b := Back(edges, weights, i, dist, order, v);
    BackShape(edges, weights, i, dist, order, v);
    KeysReachable(edges, weights, i, dist, order, v);
    if |b| >= 2 {
      BackReach(edges, weights, i, dist, order, v, |b| - 2);
      BackWalk(edges, weights, i, dist, order, v);
      var p := Rev(b);
      RevIndex(b, 1);
      forall q | Walk(AdjOf(edges), q) && q[0] == i && q[|q| - 1] == v
        ensures WalkCost(weights, p) <= WalkCost(weights, q)
      {
        Optimal(edges, weights, i, dist, q);
      }
      assert Shortest(edges, weights, i, v, p) && |p| >= 2 && p[1] == hop.node;
    }
  }

  /** The entries of `row` for the first `j` nodes are filled. */
  ghost predicate Filled(edges: Edges, weights: Weights, nodes: seq<int>, a: int, row: map<int, Hop>, j: nat)
  {
    forall t :: 0 <= t < j && t < |nodes| ==> nodes[t] in row && HopSpec(edges, weights, a, nodes[t], row[nodes[t]])
  }

  /** `a` reaches the first `j` nodes. */
  ghost predicate ReachUpTo(edges: Edges, a: int, nodes: seq<int>, j: nat)
  {
    forall t :: 0 <= t < j && t < |nodes| ==> Reachable(AdjOf(edges), a, nodes[t])
  }

  lemma ReachUpToStep(edges: Edges, a: int, nodes: seq<int>, j: nat)
    requires j < |nodes|
    ensures ReachUpTo(edges, a, nodes, j + 1) <==> ReachUpTo(edges, a, nodes, j) && Reachable(AdjOf(edges), a, nodes[j])
  {
  }

  /** Storing the answer for the `j`-th node. */
  lemma RowStep(edges: Edges, weights: Weights, nodes: seq<int>, a: int, row: map<int, Hop>, j: nat, hop: Hop)
    requires Distinct(nodes) && j < |nodes| && row.Keys == Elems(nodes)
    requires Filled(edges, weights, nodes, a, row, j) && forall t :: j <= t < |nodes| ==> row[nodes[t]] == Stay
    requires HopSpec(edges, weights, a, nodes[j], hop)
    ensures row[nodes[j] := hop].Keys == Elems(nodes)
    ensures Filled(edges, weights, nodes, a, row[nodes[j] := hop], j + 1)
    ensures forall t :: j + 1 <= t < |nodes| ==> row[nodes[j] := hop][nodes[t]] == Stay
  {
    var row1 := row[nodes[j] := hop];
    forall t | 0 <= t < j + 1
      ensures nodes[t] in row1 && HopSpec(edges, weights, a, nodes[t], row1[nodes[t]])
    {
      if t < j {
        assert nodes[t] != nodes[j];
      }
    }
    forall t | j + 1 <= t < |nodes|
      ensures row1[nodes[t]] == Stay
    {
      assert nodes[t] != nodes[j];
    }
  }

  /** The diagonal keeps its `None`. */
  lemma RowSkip(edges: Edges, weights: Weights, nodes: seq<int>, a: int, row: map<int, Hop>, j: nat)
    requires j < |nodes| && row.Keys == Elems(nodes) && a == nodes[j]
    requires Filled(edges, weights, nodes, a, row, j) && forall t :: j <= t < |nodes| ==> row[nodes[t]] == Stay
    requires Reachable(AdjOf(edges), a, a)
    ensures Filled(edges, weights, nodes, a, row, j + 1)
  {
    assert row[nodes[j]] == Stay;
  }

  /** A row filled for every position is filled for every key. */
  lemma RowDone(edges: Edges, weights: Weights, nodes: seq<int>, a: int, row: map<int, Hop>)
    requires row.Keys == Elems(nodes) && Filled(edges, weights, nodes, a, row, |nodes|)
    ensures RowSpec(edges, weights, nodes, a, row)
    ensures ReachUpTo(edges, a, nodes, |nodes|) <==> ReachesAll(edges, a, nodes)
  {
    forall b | b in row
      ensures HopSpec(edges, weights, a, b, row[b])
    {
      var t :| 0 <= t < |nodes| && nodes[t] == b;
    }
    if ReachUpTo(edges, a, nodes, |nodes|) {
      forall b | b in nodes
        ensures Reachable(AdjOf(edges), a, b)
      {
        var t :| 0 <= t < |nodes| && nodes[t] == b;
      }
    }
  }

  /** The first `i` nodes reach every node. */
  ghost predicate RowsReach(edges: Edges, nodes: seq<int>, i: nat)
  {
    forall t :: 0 <= t < i && t < |nodes| ==> ReachesAll(edges, nodes[t], nodes)
  }

  lemma RowsReachStep(edges: Edges, nodes: seq<int>, i: nat)
    requires i < |nodes|
    ensures RowsReach(edges, nodes, i + 1) <==> RowsReach(edges, nodes, i) && ReachesAll(edges, nodes[i], nodes)
  {
  }

  /** Filling row `i` keeps the rows already filled. */
  lemma TableStep(edges: Edges, weights: Weights, nodes: seq<int>, table: map<int, map<int, Hop>>, i: nat, row: map<int, Hop>)
    requires Distinct(nodes) && i < |nodes|
    requires forall t :: 0 <= t < i ==> nodes[t] in table && RowSpec(edges, weights, nodes, nodes[t], table[nodes[t]])
    requires RowSpec(edges, weights, nodes, nodes[i], row) && table.Keys == Elems(nodes)
    ensures table[nodes[i] := row].Keys == Elems(nodes)
    ensures forall t :: 0 <= t < i + 1 ==> RowSpec(edges, weights, nodes, nodes[t], table[nodes[i] := row][nodes[t]])
  {
    forall t | 0 <= t < i + 1
      ensures RowSpec(edges, weights, nodes, nodes[t], table[nodes[i] := row][nodes[t]])
    {
      if t < i {
        assert nodes[t] != nodes[i];
      }
    }
  }

  /** Facts about the rows, indexed by position in `nodes`, are facts
      about the table's keys. */
  lemma TableDone(edges: Edges, weights: Weights, nodes: seq<int>, table: map<int, map<int, Hop>>, complete: bool)
    requires table.Keys == Elems(nodes)
    requires forall t :: 0 <= t < |nodes| ==> RowSpec(edges, weights, nodes, nodes[t], table[nodes[t]])
    requires complete <==> RowsReach(edges, nodes, |nodes|)
    ensures forall a :: a in table ==> RowSpec(edges, weights, nodes, a, table[a])
    ensures complete <==> forall a :: a in table ==> ReachesAll(edges, a, nodes)
  {
    forall a | a in table
      ensures RowSpec(edges, weights, nodes, a, table[a])
    {
      var t :| 0 <= t < |nodes| && nodes[t] == a;
    }
    if complete {
      forall a | a in table
        ensures ReachesAll(edges, a, nodes)
      {
        var t :| 0 <= t < |nodes| && nodes[t] == a;
      }
    } else {
      var t :| 0 <= t < |nodes| && !ReachesAll(edges, nodes[t], nodes);
      assert nodes[t] in table;
    }
  }

  // -------------------------------------------------------------- the class

  class Graph {
    var nodes: seq<int>
    var edges: Edges
    var weights: Weights

    /** `nodes` holds no duplicate and every endpoint; every listed edge
        has a weight. */
    ghost predicate Valid()
      reads this
    {
      && Distinct(nodes)
      && (forall u :: u in edges ==> u in nodes)
      && (forall u, j :: u in edges && 0 <= j < |edges[u]| ==> edges[u][j] in nodes && (u, edges[u][j]) in weights)
    }

    constructor()
      ensures nodes == [] && edges == map[] && weights == map[]
      ensures Valid()
    {
      nodes, edges, weights := [], map[], map[];
    }

    /** `add_edge`: record both endpoints in first-seen order, append `dst`
        to `src`'s list and overwrite the weight. */
    method AddEdge(src: int, dst: int, weight: nat)
      requires Valid()
      modifies this
      ensures Valid()
      ensures nodes == Remember(Remember(old(nodes), src), dst)
      ensures edges == old(edges)[src := Succ(old(edges), src) + [dst]]
      ensures weights == old(weights)[(src, dst) := weight]
    {
      if src !in nodes {
        nodes := nodes + [src];
      }
      if dst !in nodes {
        nodes := nodes + [dst];
      }
      RememberFacts(old(nodes), src);
      edges := edges[src := Succ(edges, src) + [dst]];
      weights := weights[(src, dst) := weight];
    }

    /** The path through `u` at cost `c` improves on the record of its
        `k`-th successor. */
    predicate Better(u: int, c: nat, k: nat, dist: map<int, Entry>)
      reads this
      requires k < |Succ(edges, u)|
    {
      var v := Succ(edges, u)[k];
      v !in dist || c + Weight(weights, u, v) < dist[v].cost
    }

    /** One turn of the loop over `self.edges[current_node]`: the `k`-th
        successor `v` of `u` is recorded with predecessor `u` and pushed
        exactly when the path through `u` beats its recorded cost strictly. */
    method RelaxOne(u: int, c: nat, k: nat, dist0: map<int, Entry>, pq0: seq<Item>, ghost visited: set<int>,
                    ghost order: seq<int>, ghost un: set<int>, ghost i: int)
      returns (dist: map<int, Entry>, pq: seq<Item>)
      requires Valid() && k < |Succ(edges, u)|
      requires Tree(edges, weights, i, dist0, visited, order) && Queued(dist0, visited, pq0)
      requires u in visited && u in dist0 && dist0[u].cost == c && Below(dist0, visited, pq0, c)
      requires Relaxed(edges, weights, dist0, visited - {u}) && RelaxedUpTo(edges, weights, dist0, u, k)
      requires Within(dist0, un) && forall v :: v in nodes ==> v in un
      ensures Tree(edges, weights, i, dist, visited, order) && Queued(dist, visited, pq)
      ensures u in dist && dist[u].cost == c && Below(dist, visited, pq, c)
      ensures Relaxed(edges, weights, dist, visited - {u}) && RelaxedUpTo(edges, weights, dist, u, k + 1)
      ensures Within(dist, un)
      ensures Better(u, c, k, dist0) ==> dist == dist0[Succ(edges, u)[k] := Entry(Some(u), c + Weight(weights, u, Succ(edges, u)[k]))]
      ensures Better(u, c, k, dist0) ==> pq == pq0 + [Item(c + Weight(weights, u, Succ(edges, u)[k]), Succ(edges, u)[k])]
      ensures !Better(u, c, k, dist0) ==> dist == dist0 && pq == pq0
    {
      var v := Succ(edges, u)[k];
      assert v in nodes && (u, v) in weights;
      var total := c + Weight(weights, u, v);
      if v !in dist0 || total < dist0[v].cost {
        assert v !in visited && v != i && v != u;
        var e := Entry(Some(u), total);
        RelaxTree(edges, weights, i, dist0, visited, order, u, v, e);
        RelaxQueued(dist0, visited, pq0, v, e);
        RelaxKeep(edges, weights, dist0, visited - {u}, u, k, v, e);
        RelaxBelow(dist0, visited, pq0, c, v, e);
        dist := dist0[v := e];
        pq := pq0 + [Item(total, v)];
        assert Tree(edges, weights, i, dist, visited, order);
        assert Queued(dist, visited, pq);
        assert Below(dist, visited, pq, c);
        assert Relaxed(edges, weights, dist, visited - {u});
        assert RelaxedUpTo(edges, weights, dist, u, k);
        assert Within(dist, un);
      } else {
        dist, pq := dist0, pq0;
      }
      RelaxNext(edges, weights, dist, u, k);
    }

    /** The loop over `self.edges[current_node]` once `u` is expanded at
        cost `c`. A recorded cost only ever falls, and only strictly. */
    method RelaxAll(u: int, c: nat, dist0: map<int, Entry>, pq0: seq<Item>, ghost visited: set<int>,
                    ghost order: seq<int>, ghost un: set<int>, ghost i: int)
      returns (dist: map<int, Entry>, pq: seq<Item>)
      requires Valid()
      requires Tree(edges, weights, i, dist0, visited, order) && Queued(dist0, visited, pq0)
      requires u in visited && u in dist0 && dist0[u].cost == c && Below(dist0, visited, pq0, c)
      requires Relaxed(edges, weights, dist0, visited - {u}) && Within(dist0, un)
      requires forall v :: v in nodes ==> v in un
      ensures Tree(edges, weights, i, dist, visited, order) && Queued(dist, visited, pq)
      ensures Below(dist, visited, pq, c) && Relaxed(edges, weights, dist, visited)
      ensures Within(dist, un)
      ensures forall v :: v in dist0 ==> v in dist && dist[v].cost <= dist0[v].cost
      ensures forall v :: v in dist0 && dist[v] != dist0[v] ==> dist[v].cost < dist0[v].cost
      ensures forall v :: v in dist ==> v in dist0 || v in Succ(edges, u)
    {
      dist, pq := dist0, pq0;
      var k := 0;
      while k < |Succ(edges, u)|
        invariant 0 <= k <= |Succ(edges, u)|
        invariant Tree(edges, weights, i, dist, visited, order) && Queued(dist, visited, pq)
        invariant u in dist && dist[u].cost == c && Below(dist, visited, pq, c)
        invariant Relaxed(edges, weights, dist, visited - {u}) && RelaxedUpTo(edges, weights, dist, u, k)
        invariant Within(dist, un)
        invariant forall v :: v in dist0 ==> v in dist && dist[v].cost <= dist0[v].cost
        invariant forall v :: v in dist0 && dist[v] != dist0[v] ==> dist[v].cost < dist0[v].cost
        invariant forall v :: v in dist ==> v in dist0 || v in Succ(edges, u)
      {
        dist, pq := RelaxOne(u, c, k, dist, pq, visited, order, un, i);
        k := k + 1;
      }
    }

    /** `dijkstra(initial)`; `order` lists the nodes in the order they
        were taken off the heap for the first time. */
    method Dijkstra(initial: int) returns (paths: map<int, Entry>, ghost order: seq<int>)
      requires Valid()
      ensures Rooted(initial, paths)
      ensures Tree(edges, weights, initial, paths, paths.Keys, order)
      ensures Relaxed(edges, weights, paths, paths.Keys)
    {
      ghost var un := Elems(nodes) + {initial};
      var dist := map[initial := Entry(None, 0)];
      var visited: set<int> := {};
      order := [];
      var pq := [Item(0, initial)];
      while pq != []
        invariant Tree(edges, weights, initial, dist, visited, order) && Queued(dist, visited, pq)
        invariant Frozen(dist, visited, pq) && Relaxed(edges, weights, dist, visited)
        invariant Within(dist, un)
        decreases |un - visited|, |pq|
      {
        var top, rest := PopMin(pq);
        var u := top.node;
        if u in visited {
          pq := rest;
          continue;
        }
        Expand(edges, weights, initial, dist, visited, order, pq, top, rest);
        Shrink(un, visited, u);
        visited := visited + {u};
        order := order + [u];
        dist, pq := RelaxAll(u, top.cost, dist, rest, visited, order, un, initial);
        Thaw(dist, visited, pq, top.cost);
      }
      paths := dist;
      Drained(dist, visited, pq);
    }

    /** The `path` loop of `get_shortest_path`: append the node and move
        to its predecessor until the root's `None` is met. */
    method PredWalk(paths: map<int, Entry>, end: int, ghost start: int, ghost order: seq<int>) returns (path: seq<int>)
      requires Tree(edges, weights, start, paths, paths.Keys, order) && end in paths
      ensures path == Back(edges, weights, start, paths, order, end)
    {
      path := [];
      var node := Some(end);
      while node.Some?
        invariant node.Some? ==> node.value in paths
        invariant node.Some? ==> path + Back(edges, weights, start, paths, order, node.value) == Back(edges, weights, start, paths, order, end)
        invariant node.None? ==> path == Back(edges, weights, start, paths, order, end)
        decreases if node.Some? then Position(order, node.value) + 1 else 0
      {
        var n := node.value;
        if n != start {
          assert TreeEdge(edges, weights, paths, paths.Keys, order, n);
        }
        path := path + [n];
        node := paths[n].pred;
      }
    }

    /** `get_shortest_path(start, end)`: the node just before `start` on
        the predecessor chain of `end`. */
    method GetShortestPath(start: int, end: int) returns (hop: Hop)
      requires Valid()
      ensures HopSpec(edges, weights, start, end, hop)
    {
      var paths, order := Dijkstra(start);
      if end !in paths {
        Unreached(edges, weights, start, paths, end);
        return Missing;
      }
      var path := PredWalk(paths, end, start, order);
      if |path| < 2 {
        hop := Stay;
      } else {
        hop := Via(path[|path| - 2]);
      }
      BackHop(edges, weights, start, paths, order, end, hop);
    }

    /** The row `next_hop[nodes[i]]`: `None` for `nodes[i]` itself and
        `get_shortest_path(nodes[i], b)` for every other node `b`. */
    method NextHopRow(i: nat) returns (row: map<int, Hop>, ok: bool)
      requires Valid() && i < |nodes|
      ensures RowSpec(edges, weights, nodes, nodes[i], row)
      ensures ok <==> ReachesAll(edges, nodes[i], nodes)
    {
      row := Blank(nodes);
      ok := true;
      var j := 0;
      while j < |nodes|
        invariant 0 <= j <= |nodes| && row.Keys == Elems(nodes)
        invariant Filled(edges, weights, nodes, nodes[i], row, j)
        invariant forall t :: j <= t < |nodes| ==> row[nodes[t]] == Stay
        invariant ok <==> ReachUpTo(edges, nodes[i], nodes, j)
      {
        ReachUpToStep(edges, nodes[i], nodes, j);
        if i == j {
          ReachRefl(AdjOf(edges), nodes[i]);
          RowSkip(edges, weights, nodes, nodes[i], row, j);
        } else {
          var hop := GetShortestPath(nodes[i], nodes[j]);
          RowStep(edges, weights, nodes, nodes[i], row, j, hop);
          row := row[nodes[j] := hop];
          ok := ok && hop != Missing;
        }
        j := j + 1;
      }
      RowDone(edges, weights, nodes, nodes[i], row);
    }

    /** `get_next_hops()`: a row for every node. The Python function raises
        on the first unreachable pair; `complete` tells whether it returns. */
    method NextHops() returns (table: map<int, map<int, Hop>>, complete: bool)
      requires Valid()
      ensures table.Keys == Elems(nodes)
      ensures forall a :: a in table ==> RowSpec(edges, weights, nodes, a, table[a])
      ensures complete <==> forall a :: a in table ==> ReachesAll(edges, a, nodes)
    {
      table := map a | a in Elems(nodes) :: Blank(nodes);
      complete := true;
      var i := 0;
      while i < |nodes|
        invariant 0 <= i <= |nodes| && table.Keys == Elems(nodes)
        invariant forall t :: 0 <= t < i ==> RowSpec(edges, weights, nodes, nodes[t], table[nodes[t]])
        invariant complete <==> RowsReach(edges, nodes, i)
      {
        var row, ok := NextHopRow(i);
        RowsReachStep(edges, nodes, i);
        TableStep(edges, weights, nodes, table, i, row);
        table := table[nodes[i] := row];
        complete := complete && ok;
        i := i + 1;
      }
      TableDone(edges, weights, nodes, table, complete);
    }
  }
}
