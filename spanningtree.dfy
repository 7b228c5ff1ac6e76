/** `SpanningTreeCreator` of lab_3's shortest-path switch: a breadth-first
    spanning tree over the switch graph rooted at the least switch id, the
    ports of each switch that are not on the tree, and the ports a flooded
    frame leaves by. */
module SpanningTreeCreator {
  import opened Reach
  import opened Bfs
  import opened Sets

  /** `network[s][n]`: the port of switch `s` that faces its neighbour `n`. */
  type Network = map<int, map<int, int>>

  /** The switch graph. */
  function Links(network: Network): Adj
  {
    map s | s in network :: network[s].Keys
  }

  /** Every neighbour is itself a switch of the network, as the topology
      update builds it (a link to an unknown switch raises there). */
  predicate Linked(network: Network)
  {
    forall s, n :: s in network && n in network[s] ==> n in network
  }

  /** `spanning_tree.get(neighbor) == switch or spanning_tree.get(switch) == neighbor` */
  predicate TreeLink(tree: map<int, Option<int>>, s: int, n: int)
  {
    (n in tree && tree[n] == Some(s)) || (s in tree && tree[s] == Some(n))
  }

  function AllPorts(network: Network, s: int): set<int>
    requires s in network
  {
    set n | n in network[s] :: network[s][n]
  }

  function TreePorts(network: Network, tree: map<int, Option<int>>, s: int): set<int>
    requires s in network
  {
    set n | n in network[s] && TreeLink(tree, s, n) :: network[s][n]
  }

  /** `self.host_ports.get(switch, set())` */
  function HostPortsOf(hostPorts: map<int, set<int>>, s: int): set<int>
  {
    if s in hostPorts then hostPorts[s] else {}
  }

  /** The tree as `bfs` leaves it: each switch discovered through a parent
      records that parent, every other entry is as before. */
  function Recorded(tree0: map<int, Option<int>>, parent: map<int, int>): map<int, Option<int>>
  {
    map v | v in tree0 :: if v in parent then Some(parent[v]) else tree0[v]
  }

  lemma RecordStep(tree0: map<int, Option<int>>, parent: map<int, int>, n: int, cur: int)
    requires n in tree0
    ensures Recorded(tree0, parent)[n := Some(cur)] == Recorded(tree0, parent[n := cur])
  {
  }

  /** Tree ports and non-tree ports split a switch's ports. */
  lemma PortsSplit(network: Network, tree: map<int, Option<int>>, s: int)
    requires s in network
    ensures TreePorts(network, tree, s) <= AllPorts(network, s)
    ensures (AllPorts(network, s) - TreePorts(network, tree, s)) + TreePorts(network, tree, s) == AllPorts(network, s)
    ensures (AllPorts(network, s) - TreePorts(network, tree, s)) * TreePorts(network, tree, s) == {}
  {
  }

  /** In a tree recorded by `bfs` from all-`None` entries, a link is on the
      tree exactly when one end is the other's parent. */
  lemma TreeLinkIsParent(tree0: map<int, Option<int>>, parent: map<int, int>, s: int, n: int)
    requires forall v :: v in tree0 ==> tree0[v] == None
    requires forall v :: v in parent ==> v in tree0
    ensures TreeLink(Recorded(tree0, parent), s, n) <==>
            (n in parent && parent[n] == s) || (s in parent && parent[s] == n)
  {
  }

  /** The state of the neighbour loop of `bfs` at `cur`, the `done`-th
      switch discovered: the neighbours outside `rest` have been discovered,
      and the queue and undiscovered count moved with each discovery. */
  ghost predicate Visiting(adj: Adj, keys: set<int>, root: int, tree0: map<int, Option<int>>, tree: map<int, Option<int>>,
                           cur: int, done: nat, visited0: set<int>, queue0: seq<int>, rest: set<int>,
                           visited: set<int>, queue: seq<int>, order: seq<int>, parent: map<int, int>)
  {
    && Closed(adj, keys) && tree0.Keys == keys && cur in keys
    && Discovered(adj, root, visited, order, parent) && visited <= keys
    && Earliest(adj, visited, order, parent)
    && done < |order| && order[done] == cur && queue == order[done + 1..]
    && (forall j :: 0 <= j < done ==> Out(adj, order[j]) <= visited)
    && rest <= Out(adj, cur) && Out(adj, cur) - rest <= visited
    && tree == Recorded(tree0, parent)
    && visited0 <= visited && (visited == visited0 ==> queue == queue0)
    && (visited != visited0 ==> |keys - visited| < |keys - visited0|)
  }

  lemma VisitStart(network: Network, root: int, tree0: map<int, Option<int>>, tree: map<int, Option<int>>,
                   cur: int, done: nat, visited0: set<int>, queue0: seq<int>, order0: seq<int>, parent0: map<int, int>)
    requires Linked(network) && tree0.Keys == network.Keys
    requires Discovered(Links(network), root, visited0, order0, parent0) && visited0 <= network.Keys
    requires Earliest(Links(network), visited0, order0, parent0)
    requires done < |order0| && order0[done] == cur && queue0 == order0[done + 1..]
    requires forall j :: 0 <= j < done ==> Out(Links(network), order0[j]) <= visited0
    requires tree == Recorded(tree0, parent0)
    ensures cur in network
    ensures Visiting(Links(network), network.Keys, root, tree0, tree, cur, done, visited0, queue0, network[cur].Keys,
                     visited0, queue0, order0, parent0)
  {
    assert cur in order0;
    forall u | u in network
      ensures Out(Links(network), u) <= network.Keys
    {
      assert Out(Links(network), u) == network[u].Keys;
      assert forall n :: n in network[u] ==> n in network;
    }
    assert Closed(Links(network), network.Keys);
  }

  /** Once every neighbour of `cur` is discovered, `cur` leaves the frontier. */
  lemma VisitDone(adj: Adj, keys: set<int>, root: int, tree0: map<int, Option<int>>, tree: map<int, Option<int>>,
                  cur: int, done: nat, visited0: set<int>, queue0: seq<int>,
                  visited: set<int>, queue: seq<int>, order: seq<int>, parent: map<int, int>)
    requires Visiting(adj, keys, root, tree0, tree, cur, done, visited0, queue0, {}, visited, queue, order, parent)
    ensures Discovered(adj, root, visited, order, parent) && visited <= keys
    ensures Earliest(adj, visited, order, parent)
    ensures Frontier(adj, visited, order, done + 1, queue)
    ensures tree == Recorded(tree0, parent)
    ensures visited == visited0 ==> queue == queue0
    ensures visited != visited0 ==> |keys - visited| < |keys - visited0|
  {
    Finish(adj, visited, order, done, queue);
  }

  /** Discovering the neighbour `n` of `cur`. */
  lemma VisitDiscover(adj: Adj, keys: set<int>, root: int, tree0: map<int, Option<int>>, tree: map<int, Option<int>>,
                      cur: int, done: nat, visited0: set<int>, queue0: seq<int>, rest: set<int>,
                      visited: set<int>, queue: seq<int>, order: seq<int>, parent: map<int, int>, n: int)
    requires Visiting(adj, keys, root, tree0, tree, cur, done, visited0, queue0, rest, visited, queue, order, parent)
    requires n in rest && n !in visited
    ensures Visiting(adj, keys, root, tree0, tree[n := Some(cur)], cur, done, visited0, queue0, rest - {n},
                     visited + {n}, queue + [n], order + [n], parent[n := cur])
  {
    assert n in keys;
    Discover(adj, root, visited, order, parent, cur, n);
    DiscoverEarliest(adj, root, visited, order, parent, done, n);
    Push(order, done + 1, queue, n);
    RecordStep(tree0, parent, n, cur);
    Fewer(keys, visited, n);
  }

  /** The `for neighbor in self.network[current_switch]` loop of `bfs`:
      every undiscovered neighbour is discovered through `cur`, queued,
      and records `cur` as its parent in the tree. */
  method Visit(network: Network, tree: map<int, Option<int>>, ghost root: int, ghost tree0: map<int, Option<int>>,
               cur: int, visited0: set<int>, queue0: seq<int>,
               ghost order0: seq<int>, ghost parent0: map<int, int>, ghost done: nat)
    returns (visited: set<int>, queue: seq<int>, tree': map<int, Option<int>>, ghost order: seq<int>, ghost parent: map<int, int>)
    requires Linked(network) && tree0.Keys == network.Keys
    requires Discovered(Links(network), root, visited0, order0, parent0) && visited0 <= network.Keys
    requires Earliest(Links(network), visited0, order0, parent0)
    requires done < |order0| && order0[done] == cur && queue0 == order0[done + 1..]
    requires forall j :: 0 <= j < done ==> Out(Links(network), order0[j]) <= visited0
    requires tree == Recorded(tree0, parent0)
    ensures Discovered(Links(network), root, visited, order, parent) && visited <= network.Keys
    ensures Earliest(Links(network), visited, order, parent)
    ensures Frontier(Links(network), visited, order, done + 1, queue)
    ensures tree' == Recorded(tree0, parent)
    ensures visited == visited0 ==> queue == queue0
    ensures visited != visited0 ==> |network.Keys - visited| < |network.Keys - visited0|
  {
    visited, queue, tree', order, parent := visited0, queue0, tree, order0, parent0;
    var rest := network[cur].Keys;
    ghost var adj, keys := Links(network), network.Keys;
    VisitStart(network, root, tree0, tree, cur, done, visited0, queue0, order0, parent0);
    while rest != {}
      invariant Visiting(adj, keys, root, tree0, tree', cur, done, visited0, queue0, rest, visited, queue, order, parent)
      decreases |rest|
    {
      HasElement(rest);
      var neighbor :| neighbor in rest;
      if neighbor !in visited {
        VisitDiscover(adj, keys, root, tree0, tree', cur, done, visited0, queue0, rest, visited, queue, order, parent, neighbor);
        visited := visited + {neighbor};
        queue := queue + [neighbor];
        order := order + [neighbor];
        parent := parent[neighbor := cur];
        tree' := tree'[neighbor := Some(cur)];
      }
      rest := rest - {neighbor};
    }
    VisitDone(adj, keys, root, tree0, tree', cur, done, visited0, queue0, visited, queue, order, parent);
  }

  /** The queue loop of `bfs`, on the tree it fills in. */
  method Search(network: Network, tree0: map<int, Option<int>>, start: int)
    returns (tree: map<int, Option<int>>, ghost visited: set<int>, ghost order: seq<int>, ghost parent: map<int, int>)
    requires Linked(network) && start in network && tree0.Keys == network.Keys
    ensures Discovered(Links(network), start, visited, order, parent)
    ensures Earliest(Links(network), visited, order, parent)
    ensures forall v :: v in visited <==> Reachable(Links(network), start, v)
    ensures tree == Recorded(tree0, parent)
  {
    ghost var adj := Links(network);
    Start(adj, start);
    var queue := [start];
    var seen := {start};
    tree, order, parent := tree0, [start], map[];
    ghost var done := 0;
    assert Recorded(tree0, parent) == tree0;
    while queue != []
      invariant Discovered(adj, start, seen, order, parent) && seen <= network.Keys
      invariant Earliest(adj, seen, order, parent)
      invariant Frontier(adj, seen, order, done, queue)
      invariant tree == Recorded(tree0, parent)
      decreases |network.Keys - seen|, |queue|
    {
      Pop(adj, seen, order, done, queue);
      var current := queue[0];
      seen, queue, tree, order, parent := Visit(network, tree, start, tree0, current, seen, queue[1..], order, parent, done);
      done := done + 1;
    }
    visited := seen;
    Exhausted(adj, start, visited, order, parent);
  }

  class Creator {
    var network: Network
    var spanningTree: map<int, Option<int>>
    var nonTreePorts: map<int, set<int>>
    var hostPorts: map<int, set<int>>

    /** `__init__` followed by the assignments of `network` and
        `host_ports` the switch makes; the tree starts without entries. */
    constructor(network: Network, hostPorts: map<int, set<int>>)
      ensures this.network == network && this.hostPorts == hostPorts
      ensures spanningTree == map[] && nonTreePorts == map[]
    {
      this.network := network;
      this.hostPorts := hostPorts;
      spanningTree := map[];
      nonTreePorts := map[];
    }

    /** `bfs(start_switch)`: the switches discovered are exactly those
        reachable from `start`, and each records the parent it was
        discovered through; the other entries are untouched. */
    method Bfs(start: int) returns (ghost visited: set<int>, ghost order: seq<int>, ghost parent: map<int, int>)
      requires Linked(network) && start in network && spanningTree.Keys == network.Keys
      modifies this
      ensures network == old(network) && hostPorts == old(hostPorts) && nonTreePorts == old(nonTreePorts)
      ensures Discovered(Links(network), start, visited, order, parent)
      ensures Earliest(Links(network), visited, order, parent)
      ensures forall v :: v in visited <==> Reachable(Links(network), start, v)
      ensures spanningTree == Recorded(old(spanningTree), parent)
    {
      var tree;
      tree, visited, order, parent := Search(network, spanningTree, start);
      spanningTree := tree;
    }

    /** The port loop shared by `identify_non_tree_ports` and
        `get_spanning_tree_ports`. */
    method PortSets(s: int) returns (all: set<int>, tree: set<int>)
      requires s in network
      ensures all == AllPorts(network, s) && tree == TreePorts(network, spanningTree, s)
    {
      all, tree := {}, {};
      var rest := network[s].Keys;
      while rest != {}
        invariant rest <= network[s].Keys
        invariant all == set n | n in network[s] && n !in rest :: network[s][n]
        invariant tree == set n | n in network[s] && n !in rest && TreeLink(spanningTree, s, n) :: network[s][n]
        decreases |rest|
      {
        HasElement(rest);
        var neighbor :| neighbor in rest;
        all := all + {network[s][neighbor]};
        if TreeLink(spanningTree, s, neighbor) {
          tree := tree + {network[s][neighbor]};
        }
        rest := rest - {neighbor};
      }
    }

    /** `identify_non_tree_ports`: for every switch, its ports minus its tree
        ports; entries for switches no longer in the network stay. */
    method IdentifyNonTreePorts()
      modifies this
      ensures network == old(network) && spanningTree == old(spanningTree) && hostPorts == old(hostPorts)
      ensures nonTreePorts == old(nonTreePorts) + NonTree(network, spanningTree)
    {
      var rest := network.Keys;
      while rest != {}
        invariant network == old(network) && spanningTree == old(spanningTree) && hostPorts == old(hostPorts)
        invariant rest <= network.Keys
        invariant nonTreePorts == old(nonTreePorts) + NonTreeOutside(network, spanningTree, rest)
        decreases |rest|
      {
        HasElement(rest);
        var s :| s in rest;
        var all, tree := PortSets(s);
        NonTreeStep(old(nonTreePorts), network, spanningTree, rest, s);
        nonTreePorts := nonTreePorts[s := all - tree];
        rest := rest - {s};
      }
      assert NonTreeOutside(network, spanningTree, {}) == NonTree(network, spanningTree);
    }

    /** `create_spanning_tree`: nothing happens for an empty network;
        otherwise every switch gets a `None` entry, the search runs from the
        least switch id, and the non-tree ports are recomputed. */
    method CreateSpanningTree() returns (ghost root: int, ghost order: seq<int>, ghost parent: map<int, int>)
      requires Linked(network)
      modifies this
      ensures network == old(network) && hostPorts == old(hostPorts)
      ensures network == map[] ==> spanningTree == old(spanningTree) && nonTreePorts == old(nonTreePorts)
      ensures network != map[] ==>
                && root in network && (forall s :: s in network ==> root <= s)
                && Discovered(Links(network), root, parent.Keys + {root}, order, parent)
                && Earliest(Links(network), parent.Keys + {root}, order, parent)
                && (forall v :: v in parent.Keys + {root} <==> Reachable(Links(network), root, v))
                && spanningTree == Recorded(map s | s in network :: None, parent)
                && nonTreePorts == old(nonTreePorts) + NonTree(network, spanningTree)
    {
      root, order, parent := 0, [], map[];
      if network == map[] {
        return;
      }
      var start := Least(network.Keys);
      root := start;
      spanningTree := map s | s in network :: None;
      ghost var visited;
      visited, order, parent := Bfs(start);
      Domain(Links(network), root, visited, order, parent);
      IdentifyNonTreePorts();
    }

    /** `get_spanning_tree_ports(switch, in_port)`: the tree ports and the
        host ports of `switch`, without `in_port`; `None` for a switch the
        network does not know (a `KeyError`). */
    method GetSpanningTreePorts(s: int, inPort: int) returns (ports: Option<set<int>>)
      ensures s !in network <==> ports == None
      ensures ports.Some? ==> ports.value == (TreePorts(network, spanningTree, s) + HostPortsOf(hostPorts, s)) - {inPort}
    {
      if s !in network {
        return None;
      }
      var all, tree := PortSets(s);
      ports := Some((tree + HostPortsOf(hostPorts, s)) - {inPort});
    }
  }

  /** The non-tree ports of every switch. */
  function NonTree(network: Network, tree: map<int, Option<int>>): map<int, set<int>>
  {
    map s | s in network :: AllPorts(network, s) - TreePorts(network, tree, s)
  }

  /** The non-tree ports of the switches already handled. */
  function NonTreeOutside(network: Network, tree: map<int, Option<int>>, rest: set<int>): map<int, set<int>>
  {
    map s | s in network && s !in rest :: AllPorts(network, s) - TreePorts(network, tree, s)
  }

  lemma NonTreeStep(base: map<int, set<int>>, network: Network, tree: map<int, Option<int>>, rest: set<int>, s: int)
    requires s in rest && s in network
    ensures (base + NonTreeOutside(network, tree, rest))[s := AllPorts(network, s) - TreePorts(network, tree, s)]
            == base + NonTreeOutside(network, tree, rest - {s})
  {
  }

}
