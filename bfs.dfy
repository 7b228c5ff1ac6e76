/** The breadth-first search both spanning-tree switches of lab_3 run: a
    FIFO queue, a visited set, and a parent recorded for each switch when it
    is first seen. The state predicates here are shared by both models; the
    search itself lives in each model, since each records the tree in its
    own form. */
module Bfs {
  import opened Reach

  /** `visited` holds the root and the switches discovered after it, in
      `order`; every discovered switch other than the root has a parent
      that was discovered before it and has an edge to it. */
  ghost predicate Discovered(adj: Adj, root: int, visited: set<int>, order: seq<int>, parent: map<int, int>)
  {
    && |order| >= 1 && order[0] == root
    && Distinct(order)
    && (forall v :: v in order <==> v in visited)
    && (forall v :: v in parent <==> v in visited && v != root)
    && (forall v {:trigger parent[v]} :: v in parent ==>
          parent[v] in visited && v in Out(adj, parent[v]) && Position(order, parent[v]) < Position(order, v))
  }

  /** The queue is the tail of `order` after its first `done` entries, and
      those entries have had all their neighbours discovered. */
  ghost predicate Frontier(adj: Adj, visited: set<int>, order: seq<int>, done: nat, queue: seq<int>)
  {
    && done <= |order| && queue == order[done..]
    && forall j :: 0 <= j < done ==> Out(adj, order[j]) <= visited
  }

  /** What makes the tree breadth-first: no discovered switch with an edge
      to `v` was discovered before `v`'s parent. */
  ghost predicate Earliest(adj: Adj, visited: set<int>, order: seq<int>, parent: map<int, int>)
  {
    forall v, u :: v in parent && u in visited && v in Out(adj, u) ==> Position(order, parent[v]) <= Position(order, u)
  }

  lemma Start(adj: Adj, root: int)
    ensures Discovered(adj, root, {root}, [root], map[])
    ensures Frontier(adj, {root}, [root], 0, [root])
    ensures Earliest(adj, {root}, [root], map[])
  {
  }

  /** Discovering `n` through the switch being expanded keeps the parents
      earliest: every switch discovered before `cur` has already had all its
      neighbours discovered, so none of them has an edge to `n`. */
  lemma DiscoverEarliest(adj: Adj, root: int, visited: set<int>, order: seq<int>, parent: map<int, int>,
                         done: nat, n: int)
    requires Discovered(adj, root, visited, order, parent) && Earliest(adj, visited, order, parent)
    requires done < |order| && forall j :: 0 <= j < done ==> Out(adj, order[j]) <= visited
    requires n in Out(adj, order[done]) && n !in visited
    ensures Earliest(adj, visited + {n}, order + [n], parent[n := order[done]])
  {
    var cur := order[done];
    var order1, parent1 := order + [n], parent[n := cur];
    assert Position(order, cur) == done by {
      assert cur in order;
    }
    forall v, u | v in parent1 && u in visited + {n} && v in Out(adj, u)
      ensures Position(order1, parent1[v]) <= Position(order1, u)
    {
      assert n !in order;
      PositionSnoc(order, n, u);
      if v == n {
        PositionSnoc(order, n, cur);
        if u in visited {
          var j := Position(order, u);
          assert order[j] == u;
        }
      } else {
        assert parent1[v] == parent[v] && parent[v] in order && v in order;
        PositionSnoc(order, n, parent[v]);
      }
    }
  }

  /** Discovering the neighbour `n` of `cur` through `cur`. */
  lemma Discover(adj: Adj, root: int, visited: set<int>, order: seq<int>, parent: map<int, int>, cur: int, n: int)
    requires Discovered(adj, root, visited, order, parent)
    requires cur in visited && n in Out(adj, cur) && n !in visited
    ensures Discovered(adj, root, visited + {n}, order + [n], parent[n := cur])
  {
    var order1 := order + [n];
    var parent1 := parent[n := cur];
    forall v | v in parent1
      ensures parent1[v] in visited + {n} && v in Out(adj, parent1[v])
      ensures Position(order1, parent1[v]) < Position(order1, v)
    {
      PositionSnoc(order, n, parent1[v]);
      PositionSnoc(order, n, v);
      if v != n {
        assert parent1[v] == parent[v];
      }
    }
    assert Distinct(order1) by {
      assert n !in order;
    }
  }

  /** On the triangle 1-2-3 searched from 1 with 2 discovered first, the
      only breadth-first tree hangs both 2 and 3 from 1: the depth-first
      tree `2 -> 1, 3 -> 2` is not one. */
  lemma TriangleTree(parent: map<int, int>)
    requires var adj := map[1 := {2, 3}, 2 := {1, 3}, 3 := {1, 2}];
             Discovered(adj, 1, {1, 2, 3}, [1, 2, 3], parent) && Earliest(adj, {1, 2, 3}, [1, 2, 3], parent)
    ensures parent.Keys == {2, 3} && parent[2] == 1 && parent[3] == 1
  {
    var adj := map[1 := {2, 3}, 2 := {1, 3}, 3 := {1, 2}];
    var order := [1, 2, 3];
    assert Position(order, 1) == 0;
    assert parent[3] == 1 by {
      assert 3 in Out(adj, 1);
    }
    forall v | v in parent
      ensures v in {2, 3}
    {
      assert v in {1, 2, 3};
    }
    assert 2 in parent && 3 in parent;
  }

  /** Every discovered switch is reachable from the root. */
  lemma {:induction false} DiscoveredReachable(adj: Adj, root: int, visited: set<int>, order: seq<int>,
                                               parent: map<int, int>, v: int)
    requires Discovered(adj, root, visited, order, parent) && v in visited
    ensures Reachable(adj, root, v)
    decreases Position(order, v)
  {
    if v == root {
      ReachRefl(adj, root);
    } else {
      var u := parent[v];
      DiscoveredReachable(adj, root, visited, order, parent, u);
      ReachStep(adj, root, u, v);
    }
  }

  /** Once every discovered switch has had its neighbours discovered, the
      discovered switches are exactly those reachable from the root. */
  lemma Exhausted(adj: Adj, root: int, visited: set<int>, order: seq<int>, parent: map<int, int>)
    requires Discovered(adj, root, visited, order, parent)
    requires Frontier(adj, visited, order, |order|, [])
    ensures forall v :: v in visited <==> Reachable(adj, root, v)
  {
    forall u | u in visited
      ensures Out(adj, u) <= visited
    {
      var j := Position(order, u);
      assert order[j] == u;
    }
    forall v
      ensures v in visited <==> Reachable(adj, root, v)
    {
      if v in visited {
        DiscoveredReachable(adj, root, visited, order, parent, v);
      }
      if Reachable(adj, root, v) {
        assert root in visited;
        ClosedHoldsReachable(adj, visited, root, v);
      }
    }
  }

  /** The discovered switches are the root and the switches with a parent. */
  lemma Domain(adj: Adj, root: int, visited: set<int>, order: seq<int>, parent: map<int, int>)
    requires Discovered(adj, root, visited, order, parent)
    ensures visited == parent.Keys + {root}
  {
    assert order[0] in order;
    forall v | v in visited
      ensures v in parent.Keys + {root}
    {
      if v != root {
        assert v in parent;
      }
    }
    forall v | v in parent.Keys + {root}
      ensures v in visited
    {
      if v != root {
        assert v in parent;
      }
    }
  }

  /** Taking the head off the queue. */
  lemma Pop(adj: Adj, visited: set<int>, order: seq<int>, done: nat, queue: seq<int>)
    requires Frontier(adj, visited, order, done, queue) && queue != []
    ensures done < |order| && queue[0] == order[done] && queue[1..] == order[done + 1..]
  {
  }

  /** Appending a newly discovered switch to the queue. */
  lemma Push(order: seq<int>, done: nat, queue: seq<int>, n: int)
    requires done <= |order| && queue == order[done..]
    ensures queue + [n] == (order + [n])[done..]
  {
  }

  /** Every neighbour of the popped switch has been discovered. */
  lemma Finish(adj: Adj, visited: set<int>, order: seq<int>, done: nat, queue: seq<int>)
    requires done < |order| && queue == order[done + 1..]
    requires forall j :: 0 <= j < done ==> Out(adj, order[j]) <= visited
    requires Out(adj, order[done]) <= visited
    ensures Frontier(adj, visited, order, done + 1, queue)
  {
  }
}
