/** `SimpleSwitch` of lab_3 part 1: an OpenFlow 1.0 learning switch. Each
    frame the switch sends up teaches the controller which port its source
    address sits behind, on that switch; the frame then goes out of the
    port learned for its destination, with a flow installed so that later
    frames skip the controller, or is flooded when the destination is
    still unknown. */
module Learning {
  type Mac = string

  const EthTypeLldp: int := 0x88CC
  /** `OFPP_FLOOD` and `OFP_NO_BUFFER` of OpenFlow 1.0. */
  const PortFlood: int := 0xFFFB
  const NoBuffer: int := 0xFFFF_FFFF

  datatype Option<T> = None | Some(value: T)

  /** `OFPFlowMod`: frames from `inPort` with these addresses go out of `outPort`. */
  datatype FlowMod = FlowMod(inPort: int, dst: Mac, src: Mac, outPort: int)

  /** `OFPPacketOut`: the frame in the switch's buffer `bufferId`, or the
      frame carried in `data`, goes out of `outPort`. */
  datatype PacketOut = PacketOut(bufferId: int, inPort: int, outPort: int, data: Option<seq<int>>)

  /** `mac_to_port.setdefault(dpid, {})[src] = in_port` */
  function Learn(table: map<int, map<Mac, int>>, dpid: int, src: Mac, inPort: int): (t: map<int, map<Mac, int>>)
    ensures dpid in t && src in t[dpid] && t[dpid][src] == inPort
    ensures t.Keys == table.Keys + {dpid}
    ensures forall d :: d in table && d != dpid ==> t[d] == table[d]
    ensures forall m :: m in t[dpid] <==> m == src || (dpid in table && m in table[dpid])
    ensures forall m :: m != src && dpid in table && m in table[dpid] ==> t[dpid][m] == table[dpid][m]
  {
    table[dpid := (if dpid in table then table[dpid] else map[])[src := inPort]]
  }

  /** The port a frame for `dst` leaves by after learning. */
  function OutPort(table: map<int, map<Mac, int>>, dpid: int, dst: Mac): (p: int)
    ensures dpid in table && dst in table[dpid] ==> p == table[dpid][dst]
    ensures !(dpid in table && dst in table[dpid]) ==> p == PortFlood
  {
    if dpid in table && dst in table[dpid] then table[dpid][dst] else PortFlood
  }

  /** Learning a source again, from the same port, changes nothing. */
  lemma LearnIdempotent(table: map<int, map<Mac, int>>, dpid: int, src: Mac, inPort: int)
    ensures Learn(Learn(table, dpid, src, inPort), dpid, src, inPort) == Learn(table, dpid, src, inPort)
  {
    var t := Learn(table, dpid, src, inPort);
    assert t[dpid][src := inPort] == t[dpid];
  }

  /** Two different sources can be learned in either order, on any switches. */
  lemma LearnCommutes(table: map<int, map<Mac, int>>, d1: int, s1: Mac, p1: int, d2: int, s2: Mac, p2: int)
    requires d1 != d2 || s1 != s2
    ensures Learn(Learn(table, d1, s1, p1), d2, s2, p2) == Learn(Learn(table, d2, s2, p2), d1, s1, p1)
  {
    var t1 := if d1 in table then table[d1] else map[];
    var t2 := if d2 in table then table[d2] else map[];
    if d1 == d2 {
      assert t1[s1 := p1][s2 := p2] == t1[s2 := p2][s1 := p1];
      assert Learn(table, d1, s1, p1) == table[d1 := t1[s1 := p1]];
      assert Learn(table, d2, s2, p2) == table[d1 := t1[s2 := p2]];
    } else {
      assert table[d1 := t1[s1 := p1]][d2 := t2[s2 := p2]] == table[d2 := t2[s2 := p2]][d1 := t1[s1 := p1]];
    }
  }

  /** Once a source has been learned, frames for it on that switch go out of
      the port it was learned on, until it is learned again elsewhere: later
      frames from other sources do not move it. */
  lemma LearnedIsUsed(table: map<int, map<Mac, int>>, dpid: int, a: Mac, p: int, d2: int, s2: Mac, p2: int)
    requires d2 != dpid || s2 != a
    ensures OutPort(Learn(table, dpid, a, p), dpid, a) == p
    ensures OutPort(Learn(Learn(table, dpid, a, p), d2, s2, p2), dpid, a) == p
  {
  }

  /** Every port the table holds is one frames arrived on: learning keeps
      the table within any set of ports the arrival port belongs to. */
  lemma LearnWithin(table: map<int, map<Mac, int>>, ports: set<int>, dpid: int, src: Mac, inPort: int)
    requires forall d, m :: d in table && m in table[d] ==> table[d][m] in ports
    requires inPort in ports
    ensures var t := Learn(table, dpid, src, inPort);
            forall d, m :: d in t && m in t[d] ==> t[d][m] in ports
  {
  }

  class SimpleSwitch {
    var macToPort: map<int, map<Mac, int>>

    constructor()
      ensures macToPort == map[]
    {
      macToPort := map[];
    }

    /** `_packet_in_handler`: an LLDP frame is dropped with the table
        untouched; any other frame is learned, then sent out of the learned
        port of its destination (with a flow installed for that port) or
        flooded (with no flow). The frame itself travels in the message only
        when the switch kept no copy of it in a buffer. */
    method PacketIn(dpid: int, inPort: int, ethertype: int, src: Mac, dst: Mac, bufferId: int, data: seq<int>)
      returns (flow: Option<FlowMod>, out: Option<PacketOut>)
      modifies this
      ensures ethertype == EthTypeLldp ==> macToPort == old(macToPort) && flow == None && out == None
      ensures ethertype != EthTypeLldp ==> macToPort == Learn(old(macToPort), dpid, src, inPort)
      ensures ethertype != EthTypeLldp ==>
                && out.Some?
                && out.value.outPort == OutPort(macToPort, dpid, dst)
                && out.value.bufferId == bufferId && out.value.inPort == inPort
                && (out.value.data.Some? <==> bufferId == NoBuffer)
                && (out.value.data.Some? ==> out.value.data.value == data)
      ensures flow.Some? <==> ethertype != EthTypeLldp && OutPort(macToPort, dpid, dst) != PortFlood
      ensures flow.Some? ==> flow.value == FlowMod(inPort, dst, src, out.value.outPort)
    {
      if ethertype == EthTypeLldp {
        return None, None;
      }
      macToPort := Learn(macToPort, dpid, src, inPort);
      var outPort := if dst in macToPort[dpid] then macToPort[dpid][dst] else PortFlood;
      flow := None;
      if outPort != PortFlood {
        flow := Some(FlowMod(inPort, dst, src, outPort));
      }
      var payload := None;
      if bufferId == NoBuffer {
        payload := Some(data);
      }
      out := Some(PacketOut(bufferId, inPort, outPort, payload));
    }
  }
}
