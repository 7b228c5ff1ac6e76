/** `ExampleSwitch13` of lab_3 part 2: a learning switch that floods
    unknown destinations only along a breadth-first spanning tree of the
    switch graph (and out of host ports), so that floods cannot loop. */
module TreeSwitch {
  import opened Reach
  import opened Bfs
  import opened Sets
  import HostPorts

  type Mac = string

  /** `links[(a, b)]`: the port of `a` and the port of `b` on a link
      between switches `a` and `b`. */
  type LinkTable = map<(int, int), (int, int)>

  /** `tree[s]`: the (neighbour, port of `s`) pairs of the tree edges at `s`. */
  type TreeLists = map<int, seq<(int, int)>>

  /** The link table `get_links` builds from the discovered links: each
      link is entered in both directions with its ports swapped, and a
      later link between the same switches overwrites an earlier one. */
  function LinksOf(ls: seq<HostPorts.Link>): LinkTable
  {
    if ls == [] then map[]
    else
      var l := ls[|ls| - 1];
      LinksOf(ls[..|ls| - 1])[(l.src.dpid, l.dst.dpid) := (l.src.portNo, l.dst.portNo)]
                             [(l.dst.dpid, l.src.dpid) := (l.dst.portNo, l.src.portNo)]
  }

  /** `topology.setdefault(a, set()).add(b)` */
  function AddNeighbour(adj: Adj, a: int, b: int): Adj
  {
    adj[a := Out(adj, a) + {b}]
  }

  /** The topology `get_links` builds: each link makes its ends neighbours. */
  function TopologyOf(ls: seq<HostPorts.Link>): Adj
  {
    if ls == [] then map[]
    else
      var l := ls[|ls| - 1];
      AddNeighbour(AddNeighbour(TopologyOf(ls[..|ls| - 1]), l.src.dpid, l.dst.dpid), l.dst.dpid, l.src.dpid)
  }

  /** The link table has an entry exactly for each pair of neighbours, the
      neighbour relation is symmetric, and the entry of a pair of distinct
      switches is the entry of the reverse pair with its ports swapped. */
  ghost predicate Consistent(topology: Adj, links: LinkTable)
  {
    && (forall a, b :: (a, b) in links ==> a in topology && b in topology[a])
    && (forall a :: a in topology ==> forall b :: b in topology[a] ==> (a, b) in links)
    && (forall a :: a in topology ==> forall b :: b in topology[a] ==> b in topology && a in topology[b])
    && (forall a, b :: (a, b) in links && a != b ==>
          (b, a) in links && links[(b, a)] == (links[(a, b)].1, links[(a, b)].0))
  }

  /** What the search needs of the tables: neighbours are switches and have
      a link table entry. */
  ghost predicate Searchable(topology: Adj, links: LinkTable)
  {
    && Closed(topology, topology.Keys)
    && (forall a :: a in topology ==> forall b :: b in topology[a] ==> (a, b) in links)
  }

  lemma ConsistentSearchable(topology: Adj, links: LinkTable)
    requires Consistent(topology, links)
    ensures Searchable(topology, links)
  {
    forall u | u in topology
      ensures Out(topology, u) <= topology.Keys
    {
      assert forall b :: b in topology[u] ==> b in topology;
    }
  }

  /** Adding one link in both directions keeps the table consistent. */
  lemma AddLinkConsistent(topology: Adj, links: LinkTable, src: HostPorts.End, dst: HostPorts.End)
    requires Consistent(topology, links)
    ensures Consistent(AddNeighbour(AddNeighbour(topology, src.dpid, dst.dpid), dst.dpid, src.dpid),
                       links[(src.dpid, dst.dpid) := (src.portNo, dst.portNo)]
                            [(dst.dpid, src.dpid) := (dst.portNo, src.portNo)])
  {
    var t := AddNeighbour(AddNeighbour(topology, src.dpid, dst.dpid), dst.dpid, src.dpid);
    var l := links[(src.dpid, dst.dpid) := (src.portNo, dst.portNo)][(dst.dpid, src.dpid) := (dst.portNo, src.portNo)];
    AddLinkKeys(topology, links, src.dpid, dst.dpid, src.portNo, dst.portNo);
    AddLinkSymmetric(topology, src.dpid, dst.dpid);
    AddLinkSwapped(links, src.dpid, dst.dpid, src.portNo, dst.portNo);
  }

  lemma AddLinkKeys(topology: Adj, links: LinkTable, a: int, b: int, pa: int, pb: int)
    requires forall x, y :: (x, y) in links ==> x in topology && y in topology[x]
    requires forall x :: x in topology ==> forall y :: y in topology[x] ==> (x, y) in links
    ensures var t := AddNeighbour(AddNeighbour(topology, a, b), b, a);
            var l := links[(a, b) := (pa, pb)][(b, a) := (pb, pa)];
            && (forall x, y :: (x, y) in l ==> x in t && y in t[x])
            && (forall x :: x in t ==> forall y :: y in t[x] ==> (x, y) in l)
  {
  }

  lemma AddLinkSymmetric(topology: Adj, a: int, b: int)
    requires forall x :: x in topology ==> forall y :: y in topology[x] ==> y in topology && x in topology[y]
    ensures var t := AddNeighbour(AddNeighbour(topology, a, b), b, a);
            forall x :: x in t ==> forall y :: y in t[x] ==> y in t && x in t[y]
  {
  }

  lemma AddLinkSwapped(links: LinkTable, a: int, b: int, pa: int, pb: int)
    requires forall x, y :: (x, y) in links && x != y ==>
               (y, x) in links && links[(y, x)] == (links[(x, y)].1, links[(x, y)].0)
    ensures var l := links[(a, b) := (pa, pb)][(b, a) := (pb, pa)];
            forall x, y :: (x, y) in l && x != y ==> (y, x) in l && l[(y, x)] == (l[(x, y)].1, l[(x, y)].0)
  {
  }

  /** What `get_links` builds is consistent. */
  lemma {:induction false} GetLinksConsistent(ls: seq<HostPorts.Link>)
    ensures Consistent(TopologyOf(ls), LinksOf(ls))
  {
    if ls != [] {
      var l := ls[|ls| - 1];
      GetLinksConsistent(ls[..|ls| - 1]);
      AddLinkConsistent(TopologyOf(ls[..|ls| - 1]), LinksOf(ls[..|ls| - 1]), l.src, l.dst);
    }
  }

  /** The loop of `get_links`: both tables rebuilt from nothing, link by
      link in the order the topology reports them. */
  method BuildLinks(ls: seq<HostPorts.Link>) returns (links: LinkTable, topology: Adj)
    ensures links == LinksOf(ls) && topology == TopologyOf(ls)
  {
    links, topology := map[], map[];
    var i := 0;
    while i < |ls|
      invariant 0 <= i <= |ls|
      invariant links == LinksOf(ls[..i]) && topology == TopologyOf(ls[..i])
    {
      var src, dst := ls[i].src.dpid, ls[i].dst.dpid;
      var srcPort, dstPort := ls[i].src.portNo, ls[i].dst.portNo;
      links := links[(src, dst) := (srcPort, dstPort)];
      links := links[(dst, src) := (dstPort, srcPort)];
      topology := AddNeighbour(topology, src, dst);
      topology := AddNeighbour(topology, dst, src);
      assert ls[..i + 1][..i] == ls[..i];
      i := i + 1;
    }
    assert ls[..i] == ls;
  }

  /** `spanning_tree.setdefault(k, []).append(e)` */
  function AddEntry(tree: TreeLists, k: int, e: (int, int)): TreeLists
  {
    tree[k := (if k in tree then tree[k] else []) + [e]]
  }

  /** Entry `e` of the list of `s` is a tree edge discovered in either
      direction, paired with the port of `s` on it. */
  ghost predicate TreeEntry(parent: map<int, int>, links: LinkTable, s: int, e: (int, int))
  {
    || (e.0 in parent && parent[e.0] == s && (s, e.0) in links && e.1 == links[(s, e.0)].0)
    || (s in parent && parent[s] == e.0 && (e.0, s) in links && e.1 == links[(e.0, s)].1)
  }

  /** The lists hold exactly the tree edges, each at both of its ends. */
  ghost predicate Lists(tree: TreeLists, parent: map<int, int>, links: LinkTable)
  {
    && (forall s, i :: s in tree && 0 <= i < |tree[s]| ==> TreeEntry(parent, links, s, tree[s][i]))
    && (forall v {:trigger parent[v]} :: v in parent ==>
          && (parent[v], v) in links && parent[v] in tree && v in tree
          && (v, links[(parent[v], v)].0) in tree[parent[v]]
          && (parent[v], links[(parent[v], v)].1) in tree[v])
  }

  /** Entering the edge from `cur` to its newly discovered neighbour `n` at
      both ends. */
  lemma ListsStep(tree: TreeLists, parent: map<int, int>, links: LinkTable, cur: int, n: int)
    requires Lists(tree, parent, links) && parent.Keys <= tree.Keys
    requires cur in tree && n !in tree && (cur, n) in links
    ensures Lists(AddEntry(AddEntry(tree, cur, (n, links[(cur, n)].0)), n, (cur, links[(cur, n)].1)), parent[n := cur], links)
  {
    var tree1 := AddEntry(AddEntry(tree, cur, (n, links[(cur, n)].0)), n, (cur, links[(cur, n)].1));
    var parent1 := parent[n := cur];
    forall s, i | s in tree1 && 0 <= i < |tree1[s]|
      ensures TreeEntry(parent1, links, s, tree1[s][i])
    {
      if s != cur && s != n {
        assert tree1[s][i] == tree[s][i] && TreeEntry(parent, links, s, tree[s][i]);
      } else if s == cur && i < |tree[cur]| {
        assert tree1[s][i] == tree[s][i] && TreeEntry(parent, links, s, tree[s][i]);
      }
    }
    forall v | v in parent1
      ensures (parent1[v], v) in links && parent1[v] in tree1 && v in tree1
      ensures (v, links[(parent1[v], v)].0) in tree1[parent1[v]]
      ensures (parent1[v], links[(parent1[v], v)].1) in tree1[v]
    {
      if v != n {
        assert parent1[v] == parent[v];
        assert (v, links[(parent[v], v)].0) in tree[parent[v]];
        assert (parent[v], links[(parent[v], v)].1) in tree[v];
      }
    }
  }

  /** Every list entry is an edge to another switch, paired with the local
      port `links` records for it. */
  lemma LocalPort(topology: Adj, links: LinkTable, root: int, tree: TreeLists, order: seq<int>,
                  parent: map<int, int>, s: int, e: (int, int))
    requires Consistent(topology, links) && Discovered(topology, root, tree.Keys, order, parent)
    requires Lists(tree, parent, links) && s in tree && e in tree[s]
    ensures e.0 != s && (s, e.0) in links && e.1 == links[(s, e.0)].0
  {
    var i :| 0 <= i < |tree[s]| && tree[s][i] == e;
    assert TreeEntry(parent, links, s, e);
    if e.0 in parent && parent[e.0] == s && (s, e.0) in links && e.1 == links[(s, e.0)].0 {
      assert Position(order, parent[e.0]) < Position(order, e.0);
    } else {
      assert Position(order, parent[s]) < Position(order, s);
    }
  }

  /** Every tree edge is entered at both of its ends. */
  lemma BothEnds(links: LinkTable, tree: TreeLists, parent: map<int, int>, s: int, e: (int, int))
    requires Lists(tree, parent, links) && s in tree && e in tree[s]
    ensures e.0 in tree && exists p :: (s, p) in tree[e.0]
  {
    var i :| 0 <= i < |tree[s]| && tree[s][i] == e;
    assert TreeEntry(parent, links, s, e);
    if e.0 in parent && parent[e.0] == s {
      assert (s, links[(s, e.0)].1) in tree[e.0];
    } else {
      assert (s, links[(e.0, s)].0) in tree[e.0];
    }
  }

  /** The search state of the neighbour loop of `construct_spanning_tree`
      at `cur`, the `done`-th switch discovered. */
  ghost predicate Scanning(topology: Adj, root: int, cur: int, done: nat,
                           visited0: set<int>, queue0: seq<int>, rest: set<int>,
                           visited: set<int>, queue: seq<int>, order: seq<int>, parent: map<int, int>)
  {
    && Closed(topology, topology.Keys) && cur in topology
    && Discovered(topology, root, visited, order, parent) && visited <= topology.Keys
    && Earliest(topology, visited, order, parent)
    && done < |order| && order[done] == cur && queue == order[done + 1..]
    && (forall j :: 0 <= j < done ==> Out(topology, order[j]) <= visited)
    && rest <= Out(topology, cur) && Out(topology, cur) - rest <= visited
    && visited0 <= visited && (visited == visited0 ==> queue == queue0)
    && (visited != visited0 ==> |topology.Keys - visited| < |topology.Keys - visited0|)
  }

  lemma ScanStart(topology: Adj, links: LinkTable, root: int, cur: int, done: nat,
                  visited0: set<int>, queue0: seq<int>, order0: seq<int>, parent0: map<int, int>)
    requires Searchable(topology, links)
    requires Discovered(topology, root, visited0, order0, parent0) && visited0 <= topology.Keys
    requires Earliest(topology, visited0, order0, parent0)
    requires done < |order0| && order0[done] == cur && queue0 == order0[done + 1..]
    requires forall j :: 0 <= j < done ==> Out(topology, order0[j]) <= visited0
    ensures cur in topology
    ensures Scanning(topology, root, cur, done, visited0, queue0, topology[cur], visited0, queue0, order0, parent0)
  {
    assert cur in order0;
  }

  /** Discovering the neighbour `n` of `cur`. */
  lemma ScanDiscover(topology: Adj, root: int, cur: int, done: nat,
                     visited0: set<int>, queue0: seq<int>, rest: set<int>,
                     visited: set<int>, queue: seq<int>, order: seq<int>, parent: map<int, int>, n: int)
    requires Scanning(topology, root, cur, done, visited0, queue0, rest, visited, queue, order, parent)
    requires n in rest && n !in visited
    ensures cur in visited && parent.Keys <= visited
    ensures Scanning(topology, root, cur, done, visited0, queue0, rest - {n},
                     visited + {n}, queue + [n], order + [n], parent[n := cur])
  {
    assert n in topology;
    assert cur in visited by {
      assert order[done] in order;
    }
    forall v | v in parent
      ensures v in visited
    {
    }
    Discover(topology, root, visited, order, parent, cur, n);
    DiscoverEarliest(topology, root, visited, order, parent, done, n);
    Push(order, done + 1, queue, n);
    Fewer(topology.Keys, visited, n);
  }

  /** Once every neighbour of `cur` is discovered, `cur` leaves the frontier. */
  lemma ScanDone(topology: Adj, root: int, cur: int, done: nat, visited0: set<int>, queue0: seq<int>,
                 visited: set<int>, queue: seq<int>, order: seq<int>, parent: map<int, int>)
    requires Scanning(topology, root, cur, done, visited0, queue0, {}, visited, queue, order, parent)
    ensures Discovered(topology, root, visited, order, parent) && visited <= topology.Keys
    ensures Earliest(topology, visited, order, parent)
    ensures Frontier(topology, visited, order, done + 1, queue)
    ensures visited == visited0 ==> queue == queue0
    ensures visited != visited0 ==> |topology.Keys - visited| < |topology.Keys - visited0|
  {
    Finish(topology, visited, order, done, queue);
  }

  /** Neighbours have an entry in the link table. */
  lemma Linked(topology: Adj, links: LinkTable, a: int, b: int)
    requires Searchable(topology, links) && a in topology && b in topology[a]
    ensures (a, b) in links
  {
  }

  /** The whole state of the neighbour loop: the search state and the
      lists built so far. */
  ghost predicate Expanding(topology: Adj, links: LinkTable, root: int, cur: int, done: nat,
                            visited0: set<int>, queue0: seq<int>, rest: set<int>,
                            visited: set<int>, queue: seq<int>, tree: TreeLists, order: seq<int>, parent: map<int, int>)
  {
    && Searchable(topology, links)
    && Scanning(topology, root, cur, done, visited0, queue0, rest, visited, queue, order, parent)
    && tree.Keys == visited && Lists(tree, parent, links)
  }

  lemma ExpandStep(topology: Adj, links: LinkTable, root: int, cur: int, done: nat,
                   visited0: set<int>, queue0: seq<int>, rest: set<int>,
                   visited: set<int>, queue: seq<int>, tree: TreeLists, order: seq<int>, parent: map<int, int>, n: int)
    requires Expanding(topology, links, root, cur, done, visited0, queue0, rest, visited, queue, tree, order, parent)
    requires n in rest && n !in visited
    ensures (cur, n) in links
    ensures Expanding(topology, links, root, cur, done, visited0, queue0, rest - {n},
                      visited + {n}, queue + [n],
                      AddEntry(AddEntry(tree, cur, (n, links[(cur, n)].0)), n, (cur, links[(cur, n)].1)),
                      order + [n], parent[n := cur])
  {
    Linked(topology, links, cur, n);
    ScanDiscover(topology, root, cur, done, visited0, queue0, rest, visited, queue, order, parent, n);
    ListsStep(tree, parent, links, cur, n);
  }

  /** The `for neighbor in self.topology[current]` loop: each undiscovered
      neighbour is discovered, queued, and its edge to `cur` entered at
      both ends with the ports `links` records. */
  method Expand(topology: Adj, links: LinkTable, ghost root: int, cur: int, visited0: set<int>, queue0: seq<int>,
                tree0: TreeLists, ghost order0: seq<int>, ghost parent0: map<int, int>, ghost done: nat)
    returns (visited: set<int>, queue: seq<int>, tree: TreeLists, ghost order: seq<int>, ghost parent: map<int, int>)
    requires Searchable(topology, links)
    requires Discovered(topology, root, visited0, order0, parent0) && visited0 <= topology.Keys
    requires Earliest(topology, visited0, order0, parent0)
    requires done < |order0| && order0[done] == cur && queue0 == order0[done + 1..]
    requires forall j :: 0 <= j < done ==> Out(topology, order0[j]) <= visited0
    requires tree0.Keys == visited0 && Lists(tree0, parent0, links)
    ensures Discovered(topology, root, visited, order, parent) && visited <= topology.Keys
    ensures Earliest(topology, visited, order, parent)
    ensures Frontier(topology, visited, order, done + 1, queue)
    ensures tree.Keys == visited && Lists(tree, parent, links)
    ensures visited == visited0 ==> queue == queue0
    ensures visited != visited0 ==> |topology.Keys - visited| < |topology.Keys - visited0|
  {
    visited, queue, tree, order, parent := visited0, queue0, tree0, order0, parent0;
    ScanStart(topology, links, root, cur, done, visited0, queue0, order0, parent0);
    var rest := topology[cur];
    while rest != {}
      invariant Expanding(topology, links, root, cur, done, visited0, queue0, rest, visited, queue, tree, order, parent)
      decreases |rest|
    {
      HasElement(rest);
      var neighbor :| neighbor in rest;
      if neighbor !in visited {
        ExpandStep(topology, links, root, cur, done, visited0, queue0, rest, visited, queue, tree, order, parent, neighbor);
        visited := visited + {neighbor};
        queue := queue + [neighbor];
        var ports := links[(cur, neighbor)];
        tree := AddEntry(AddEntry(tree, cur, (neighbor, ports.0)), neighbor, (cur, ports.1));
        order := order + [neighbor];
        parent := parent[neighbor := cur];
      }
      rest := rest - {neighbor};
    }
    ScanDone(topology, root, cur, done, visited0, queue0, visited, queue, order, parent);
  }

  /** The queue loop of `construct_spanning_tree` from `root`. */
  method Search(topology: Adj, links: LinkTable, root: int)
    returns (tree: TreeLists, ghost order: seq<int>, ghost parent: map<int, int>)
    requires Searchable(topology, links) && root in topology
    ensures Discovered(topology, root, tree.Keys, order, parent)
    ensures Earliest(topology, tree.Keys, order, parent)
    ensures forall v :: v in tree <==> Reachable(topology, root, v)
    ensures Lists(tree, parent, links)
  {
    Start(topology, root);
    var queue := [root];
    var visited := {root};
    tree, order, parent := map[root := []], [root], map[];
    ghost var done := 0;
    while queue != []
      invariant Discovered(topology, root, visited, order, parent) && visited <= topology.Keys
      invariant Earliest(topology, visited, order, parent)
      invariant Frontier(topology, visited, order, done, queue)
      invariant tree.Keys == visited && Lists(tree, parent, links)
      decreases |topology.Keys - visited|, |queue|
    {
      Pop(topology, visited, order, done, queue);
      var current := queue[0];
      visited, queue, tree, order, parent := Expand(topology, links, root, current, visited, queue[1..], tree, order, parent, done);
      done := done + 1;
    }
    Exhausted(topology, root, visited, order, parent);
  }

  /** What `construct_spanning_tree` returns: a breadth-first tree from the
      least switch id, holding exactly the switches reachable from it, with
      each tree edge listed at both of its ends. Breadth-first: each
      switch's parent was discovered before it, and before every other
      discovered switch with an edge to it. */
  ghost predicate Built(topology: Adj, links: LinkTable, tree: TreeLists, root: int, order: seq<int>, parent: map<int, int>)
  {
    && root in topology && (forall s :: s in topology ==> root <= s)
    && Discovered(topology, root, tree.Keys, order, parent)
    && Earliest(topology, tree.Keys, order, parent)
    && (forall v :: v in tree <==> Reachable(topology, root, v))
    && Lists(tree, parent, links)
  }

  /** A nonempty consistent link table comes with a nonempty topology. */
  lemma SomeSwitch(topology: Adj, links: LinkTable)
    requires forall a, b :: (a, b) in links ==> a in topology && b in topology[a]
    requires links != map[]
    ensures topology != map[]
  {
    var k :| k in links;
    var a, b := k.0, k.1;
    assert (a, b) in links;
    assert a in topology;
  }

  /** `[port for _, port in lst]` */
  function Ports(lst: seq<(int, int)>): (r: seq<int>)
    ensures |r| == |lst| && forall i :: 0 <= i < |lst| ==> r[i] == lst[i].1
  {
    if lst == [] then [] else [lst[0].1] + Ports(lst[1..])
  }

  /** `[port for port in ports if port != in_port]` */
  function Without(ports: seq<int>, inPort: int): (r: seq<int>)
    ensures forall p :: p in r <==> p in ports && p != inPort
    ensures |r| <= |ports|
  {
    if ports == [] then []
    else if ports[0] == inPort then Without(ports[1..], inPort)
    else [ports[0]] + Without(ports[1..], inPort)
  }

  /** What the switch does with a frame it was sent: nothing, forward it
      out of one port after installing a flow for its destination, flood
      it out of several ports, or drop it for want of a port. */
  datatype Action = Ignore | Forward(port: int) | Flood(ports: seq<int>) | Drop

  const EthTypeLldp: int := 0x88CC

  class Switch13 {
    var switches: seq<int>
    var topology: Adj
    var links: LinkTable
    var macToPort: map<int, map<Mac, int>>
    var spanningTree: TreeLists
    var switchToOpenports: map<int, seq<int>>

    constructor()
      ensures switches == [] && topology == map[] && links == map[]
      ensures macToPort == map[] && spanningTree == map[] && switchToOpenports == map[]
    {
      switches, topology, links := [], map[], map[];
      macToPort, spanningTree, switchToOpenports := map[], map[], map[];
    }

    /** `get_switches`: the ids of the switches the topology reports. */
    method GetSwitches(ids: seq<int>)
      modifies this
      ensures switches == ids
      ensures topology == old(topology) && links == old(links) && macToPort == old(macToPort)
      ensures spanningTree == old(spanningTree) && switchToOpenports == old(switchToOpenports)
    {
      switches := ids;
    }

    /** `construct_spanning_tree`: a breadth-first tree from the least
        switch id, reaching exactly the switches reachable from it, with
        each tree edge entered at both of its ends. `min()` of no switches
        raises, so there must be one. */
    method ConstructSpanningTree() returns (tree: TreeLists, ghost root: int, ghost order: seq<int>, ghost parent: map<int, int>)
      requires Consistent(topology, links) && topology != map[]
      ensures Built(topology, links, tree, root, order, parent)
    {
      var r := Least(topology.Keys);
      root := r;
      ConsistentSearchable(topology, links);
      tree, order, parent := Search(topology, links, r);
    }

    /** `get_links`: rebuild the link table and the topology from the
        discovered links, and then the tree if switches and links are known. */
    method GetLinks(ls: seq<HostPorts.Link>) returns (ghost root: int, ghost order: seq<int>, ghost parent: map<int, int>)
      modifies this
      ensures links == LinksOf(ls) && topology == TopologyOf(ls)
      ensures switches == old(switches) && macToPort == old(macToPort) && switchToOpenports == old(switchToOpenports)
      ensures !(switches != [] && links != map[]) ==> spanningTree == old(spanningTree)
      ensures switches != [] && links != map[] ==> Built(topology, links, spanningTree, root, order, parent)
    {
      root, order, parent := 0, [], map[];
      var lk, tp := BuildLinks(ls);
      links, topology := lk, tp;
      if switches != [] && lk != map[] {
        GetLinksConsistent(ls);
        SomeSwitch(tp, lk);
        var tree;
        tree, root, order, parent := ConstructSpanningTree();
        spanningTree := tree;
      }
    }

    /** `host_add_handler`: the host's port joins its switch's open ports. */
    method HostAdd(dpid: int, portNo: int)
      modifies this
      ensures switchToOpenports == old(switchToOpenports)[dpid := OpenPorts(old(switchToOpenports), dpid) + [portNo]]
      ensures switches == old(switches) && topology == old(topology) && links == old(links)
      ensures macToPort == old(macToPort) && spanningTree == old(spanningTree)
    {
      switchToOpenports := switchToOpenports[dpid := OpenPorts(switchToOpenports, dpid) + [portNo]];
    }

    /** `get_spanning_tree_ports`: the switch's tree ports in list order,
        followed by its host ports in the order the hosts appeared. */
    function GetSpanningTreePorts(dpid: int): (r: seq<int>)
      reads this
      ensures var t := if dpid in spanningTree then spanningTree[dpid] else [];
              && |r| == |t| + |OpenPorts(switchToOpenports, dpid)|
              && (forall i :: 0 <= i < |t| ==> r[i] == t[i].1)
              && r[|t|..] == OpenPorts(switchToOpenports, dpid)
    {
      Ports(if dpid in spanningTree then spanningTree[dpid] else []) + OpenPorts(switchToOpenports, dpid)
    }

    /** `_packet_in_handler`: LLDP frames and frames of type 0x0026 are
        ignored; any other frame teaches the switch that `src` is behind
        `inPort`; a known destination is forwarded out of its learned port,
        an unknown one flooded out of the tree and host ports other than
        `inPort`, and dropped when there are none. */
    method PacketIn(dpid: int, inPort: int, ethertype: int, src: Mac, dst: Mac) returns (action: Action)
      modifies this
      ensures switches == old(switches) && topology == old(topology) && links == old(links)
      ensures spanningTree == old(spanningTree) && switchToOpenports == old(switchToOpenports)
      ensures ethertype == EthTypeLldp || ethertype == 0x0026 ==> action == Ignore && macToPort == old(macToPort)
      ensures ethertype != EthTypeLldp && ethertype != 0x0026 ==>
                macToPort == old(macToPort)[dpid := Learned(old(macToPort), dpid)[src := inPort]]
      ensures action.Forward? <==> ethertype != EthTypeLldp && ethertype != 0x0026 && dst in macToPort[dpid]
      ensures action.Forward? ==> action.port == macToPort[dpid][dst]
      ensures action.Flood? ==> action.ports == Without(GetSpanningTreePorts(dpid), inPort) && action.ports != []
      ensures action.Drop? <==>
                ethertype != EthTypeLldp && ethertype != 0x0026 && dst !in macToPort[dpid] &&
                Without(GetSpanningTreePorts(dpid), inPort) == []
    {
      if ethertype == EthTypeLldp || ethertype == 0x0026 {
        return Ignore;
      }
      macToPort := macToPort[dpid := Learned(macToPort, dpid)[src := inPort]];
      if dst in macToPort[dpid] {
        action := Forward(macToPort[dpid][dst]);
      } else {
        var ports := Without(GetSpanningTreePorts(dpid), inPort);
        if ports == [] {
          return Drop;
        }
        action := Flood(ports);
      }
    }
  }

  /** `switch_to_openports.get(dpid, [])` */
  function OpenPorts(open: map<int, seq<int>>, dpid: int): seq<int>
  {
    if dpid in open then open[dpid] else []
  }

  /** `mac_to_port.setdefault(dpid, {})` */
  function Learned(table: map<int, map<Mac, int>>, dpid: int): map<Mac, int>
  {
    if dpid in table then table[dpid] else map[]
  }
}
