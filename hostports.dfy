/** `detect_host_ports` of lab_3's shortest-path switch: the ports of each
    switch that no discovered link ends at, i.e. the ports hosts hang off. */
module HostPorts {
  /** A link end: a switch id and one of its port numbers. */
  datatype End = End(dpid: int, portNo: int)
  datatype Link = Link(src: End, dst: End)
  /** A switch as the topology reports it: its id and its port numbers. */
  datatype Switch = Switch(dpid: int, ports: set<int>)

  /** `switch_ports`: both ends of every link. */
  function LinkEnds(links: seq<Link>): (ends: set<End>)
    ensures forall e :: e in ends <==> exists k :: 0 <= k < |links| && (links[k].src == e || links[k].dst == e)
  {
    (set k | 0 <= k < |links| :: links[k].src) + (set k | 0 <= k < |links| :: links[k].dst)
  }

  /** The ports of switch `s` that no link ends at on `s` itself. */
  function Free(s: Switch, ends: set<End>): set<int>
  {
    set p | p in s.ports && End(s.dpid, p) !in ends
  }

  /** The table built from the switch list in order: each switch
      overwrites the entry of its id, so a repeated id keeps the last. */
  function Table(switches: seq<Switch>, ends: set<End>): map<int, set<int>>
  {
    if switches == [] then map[]
    else Table(switches[..|switches| - 1], ends)[switches[|switches| - 1].dpid := Free(switches[|switches| - 1], ends)]
  }

  /** Index of the last switch with id `d`, which exists. */
  function LastWith(switches: seq<Switch>, d: int): (k: nat)
    requires exists i :: 0 <= i < |switches| && switches[i].dpid == d
    ensures k < |switches| && switches[k].dpid == d
    ensures forall i :: k < i < |switches| ==> switches[i].dpid != d
  {
    if switches[|switches| - 1].dpid == d then |switches| - 1
    else
      var front := switches[..|switches| - 1];
      assert exists i :: 0 <= i < |front| && front[i].dpid == d by {
        var i :| 0 <= i < |switches| && switches[i].dpid == d;
        assert front[i] == switches[i];
      }
      LastWith(front, d)
  }

  /** What the table means: it has an entry for exactly the reported
      switch ids, and port `p` is a host port of `d` exactly when the last
      switch reported with id `d` has `p` and no link ends at `(d, p)`. */
  lemma {:induction false} TableMeaning(switches: seq<Switch>, ends: set<End>, d: int, p: int)
    ensures d in Table(switches, ends) <==> exists i :: 0 <= i < |switches| && switches[i].dpid == d
    ensures d in Table(switches, ends) ==>
              var k := LastWith(switches, d);
              (p in Table(switches, ends)[d] <==> p in switches[k].ports && End(d, p) !in ends)
  {
    if switches != [] {
      var front := switches[..|switches| - 1];
      var last := switches[|switches| - 1];
      TableMeaning(front, ends, d, p);
      if d != last.dpid {
        forall i | 0 <= i < |switches| && switches[i].dpid == d
          ensures 0 <= i < |front| && front[i].dpid == d
        {
        }
      }
    }
  }

  /** The table `detect_host_ports` fills in. */
  class Detector {
    var hostPorts: map<int, set<int>>

    constructor()
      ensures hostPorts == map[]
    {
      hostPorts := map[];
    }

    /** `detect_host_ports(switch_list, links_list)`, with each switch's free
        ports taken against the link ends on that switch only. */
    method DetectHostPorts(switches: seq<Switch>, links: seq<Link>)
      modifies this
      ensures hostPorts == Table(switches, LinkEnds(links))
    {
      var ends := LinkEnds(links);
      hostPorts := map[];
      var n := 0;
      while n < |switches|
        invariant 0 <= n <= |switches|
        invariant hostPorts == Table(switches[..n], ends)
      {
        var s := switches[n];
        var ports := set p | p in s.ports && End(s.dpid, p) !in ends;
        assert switches[..n + 1][..n] == switches[..n];
        hostPorts := hostPorts[s.dpid := ports];
        n := n + 1;
      }
      assert switches[..n] == switches;
    }
  }

  /** The table as the source writes it: every port number that ends a link
      on ANY switch is removed from every switch. */
  function TableAsWritten(switches: seq<Switch>, ends: set<End>): (t: map<int, set<int>>)
    ensures forall d :: d in t <==> exists i :: 0 <= i < |switches| && switches[i].dpid == d
    ensures forall d, e :: d in t && e in ends ==> e.portNo !in t[d]
  {
    if switches == [] then map[]
    else
      var s := switches[|switches| - 1];
      TableAsWritten(switches[..|switches| - 1], ends)[s.dpid := s.ports - set e | e in ends :: e.portNo]
  }

  /** Switch 1 has ports 1 and 2, switch 2 has ports 1, 2 and 3, and the one
      link joins port 1 of switch 1 to port 3 of switch 2. Port 1 of switch
      2 faces a host, but the source drops it because port number 1 is a link
      end on switch 1. */
  lemma SharedPortNumber()
    ensures var switches := [Switch(1, {1, 2}), Switch(2, {1, 2, 3})];
            var links := [Link(End(1, 1), End(2, 3))];
            && TableAsWritten(switches, LinkEnds(links))[2] == {2}
            && Table(switches, LinkEnds(links))[2] == {1, 2}
  {
    var switches := [Switch(1, {1, 2}), Switch(2, {1, 2, 3})];
    var links := [Link(End(1, 1), End(2, 3))];
    var ends := LinkEnds(links);
    assert End(1, 1) in ends by { assert links[0].src == End(1, 1); }
    assert End(2, 3) in ends by { assert links[0].dst == End(2, 3); }
    assert ends == {End(1, 1), End(2, 3)};
    assert (set e | e in ends :: e.portNo) == {1, 3};
    assert switches[..1] == [Switch(1, {1, 2})];
    assert [Switch(1, {1, 2})][..0] == [];
    assert Free(Switch(2, {1, 2, 3}), ends) == {1, 2};
  }
}
