/** The receiving side of lab_4's reliable transfer over UDP
    (`receive_file`): packets carry a byte offset into the file, those that
    arrive early wait in a buffer keyed by offset, every packet is answered
    with a cumulative acknowledgement of the bytes written so far, and the
    receive timeout doubles while the sender stays silent. */
module ReliableReceiver {
  newtype byte = x: int | 0 <= x < 256

  /** `TIMEOUT`, in seconds. */
  const Timeout: nat := 1

  /** A datagram as `parse_packet` reads it; one it cannot read is `Malformed`. */
  datatype Packet = Packet(seqNum: int, fin: int, data: seq<byte>) | Malformed

  /** What the client sends: an acknowledgement, the connection request
      `START`, or nothing more once it closes. */
  datatype Message = Ack(number: int) | Start

  /** Where the reassembly stands: the next offset expected, the packets
      waiting, and the bytes to append to the file. */
  datatype Reassembly = Reassembly(expected: int, buffer: map<int, seq<byte>>, written: seq<byte>)

  lemma Smaller(buffer: map<int, seq<byte>>, k: int)
    requires k in buffer
    ensures |buffer - {k}| < |buffer|
  {
    assert buffer.Keys - {k} < buffer.Keys;
    assert (buffer - {k}).Keys == buffer.Keys - {k};
  }

  /** The inner `while expected_seq_num in received_buffer` loop: write
      the buffered packet at the expected offset, drop it, move past it.
      Only the packets it walks over leave the buffer: every other one stays
      with its data. */
  function Drain(expected: int, buffer: map<int, seq<byte>>): (r: Reassembly)
    ensures r.expected !in r.buffer && r.expected == expected + |r.written|
    ensures r.buffer.Keys <= buffer.Keys && forall k :: k in r.buffer ==> r.buffer[k] == buffer[k]
    decreases |buffer|
  {
    if expected in buffer then
      var d := buffer[expected];
      Smaller(buffer, expected);
      var r := Drain(expected + |d|, buffer - {expected});
      Reassembly(r.expected, r.buffer, d + r.written)
    else Reassembly(expected, buffer, [])
  }

  lemma SliceAfter(d: seq<byte>, w: seq<byte>, i: int, n: nat)
    requires |d| <= i && i - |d| + n <= |w|
    ensures (d + w)[i .. i + n] == w[i - |d| .. i - |d| + n]
  {
  }

  /** One step of the drain: it writes the packet at `expected` and goes on
      with the rest of the buffer. */
  lemma DrainStep(expected: int, buffer: map<int, seq<byte>>)
    requires expected in buffer
    ensures var d := buffer[expected];
            var r' := Drain(expected + |d|, buffer - {expected});
            Drain(expected, buffer) == Reassembly(r'.expected, r'.buffer, d + r'.written)
  {
  }

  /** The packets off the drained run stay buffered: those before the
      expected offset and those past the offset the drain stops at. */
  lemma {:induction false} DrainKeeps(expected: int, buffer: map<int, seq<byte>>)
    ensures var r := Drain(expected, buffer);
            forall k :: k in buffer && (k < expected || k > r.expected) ==> k in r.buffer
    decreases |buffer|
  {
    if expected in buffer {
      var d := buffer[expected];
      Smaller(buffer, expected);
      DrainStep(expected, buffer);
      DrainKeeps(expected + |d|, buffer - {expected});
    }
  }

  /** Every packet the drain takes out of the buffer was written, at its own
      offset. */
  lemma {:induction false} DrainRemovesWritten(expected: int, buffer: map<int, seq<byte>>, k: int)
    requires k in buffer && k !in Drain(expected, buffer).buffer
    ensures var r := Drain(expected, buffer);
            expected <= k && k + |buffer[k]| <= r.expected
            && r.written[k - expected .. k - expected + |buffer[k]|] == buffer[k]
    decreases |buffer|
  {
    if expected !in buffer {
      return;
    }
    var d := buffer[expected];
    var rest := buffer - {expected};
    Smaller(buffer, expected);
    DrainStep(expected, buffer);
    var r' := Drain(expected + |d|, rest);
    if k != expected {
      assert k in rest && rest[k] == buffer[k];
      DrainRemovesWritten(expected + |d|, rest, k);
      SliceAfter(d, r'.written, k - expected, |buffer[k]|);
    } else {
      assert (d + r'.written)[..|d|] == d;
    }
  }

  /** What one readable packet does to the reassembly: at the expected
      offset it is written, followed by whatever buffered packets now follow
      on; ahead of it, it is buffered (replacing an earlier copy); behind it,
      it changes nothing. */
  function Deliver(expected: int, buffer: map<int, seq<byte>>, seqNum: int, data: seq<byte>): (r: Reassembly)
    ensures r.expected >= expected && r.expected == expected + |r.written|
    ensures seqNum == expected ==> r.expected !in r.buffer && |r.written| >= |data| && r.written[..|data|] == data
    ensures seqNum == expected ==>
              && r.buffer.Keys <= buffer.Keys && (forall k :: k in r.buffer ==> r.buffer[k] == buffer[k])
              && (forall k :: k in buffer && (k < expected + |data| || k > r.expected) ==> k in r.buffer)
    ensures expected !in buffer ==> r.expected !in r.buffer
    ensures seqNum > expected ==> r == Reassembly(expected, buffer[seqNum := data], [])
    ensures seqNum < expected ==> r == Reassembly(expected, buffer, [])
  {
    if seqNum == expected then
      var d := Drain(expected + |data|, buffer);
      DrainKeeps(expected + |data|, buffer);
      Reassembly(d.expected, d.buffer, data + d.written)
    else if seqNum > expected then Reassembly(expected, buffer[seqNum := data], [])
    else Reassembly(expected, buffer, [])
  }

  /** `data` is the slice of `stream` starting at `offset`. */
  ghost predicate SliceOf(stream: seq<byte>, offset: int, data: seq<byte>)
  {
    0 <= offset && offset + |data| <= |stream| && data == stream[offset..offset + |data|]
  }

  /** Every buffered packet is the slice of `stream` at its offset. */
  ghost predicate Slices(stream: seq<byte>, buffer: map<int, seq<byte>>)
  {
    forall k :: k in buffer ==> SliceOf(stream, k, buffer[k])
  }

  /** Draining a buffer of slices of `stream` writes exactly the next bytes
      of `stream`. */
  lemma {:induction false} DrainFaithful(stream: seq<byte>, expected: int, buffer: map<int, seq<byte>>)
    requires 0 <= expected <= |stream| && Slices(stream, buffer)
    ensures var r := Drain(expected, buffer);
            r.expected <= |stream| && r.written == stream[expected..r.expected] && Slices(stream, r.buffer)
    decreases |buffer|
  {
    if expected in buffer {
      var d := buffer[expected];
      Smaller(buffer, expected);
      assert Slices(stream, buffer - {expected});
      DrainFaithful(stream, expected + |d|, buffer - {expected});
    }
  }

  /** If every packet is a slice of one `stream` (the file the server
      reads), the file written so far is always a prefix of `stream`, the
      one ending at the acknowledged offset. */
  lemma DeliverFaithful(stream: seq<byte>, expected: int, buffer: map<int, seq<byte>>, written: seq<byte>,
                        seqNum: int, data: seq<byte>)
    requires 0 <= expected <= |stream| && written == stream[..expected] && Slices(stream, buffer)
    requires SliceOf(stream, seqNum, data)
    ensures var r := Deliver(expected, buffer, seqNum, data);
            r.expected <= |stream| && written + r.written == stream[..r.expected] && Slices(stream, r.buffer)
  {
    if seqNum == expected {
      DrainFaithful(stream, expected + |data|, buffer);
      var d := Drain(expected + |data|, buffer);
      assert stream[..d.expected] == stream[..expected] + data + stream[expected + |data|..d.expected];
    }
  }

  /** A packet that overtakes its predecessor waits in the buffer, and is
      written right after the predecessor once that arrives. */
  lemma ReorderRepaired(expected: int, first: seq<byte>, second: seq<byte>)
    requires |first| > 0
    ensures var r1 := Deliver(expected, map[], expected + |first|, second);
            var r2 := Deliver(r1.expected, r1.buffer, expected, first);
            && r1.expected == expected && r1.written == []
            && r2.expected == expected + |first| + |second| && r2.written == first + second && r2.buffer == map[]
  {
    var k := expected + |first|;
    var b := map[k := second];
    assert b - {k} == map[];
    assert Drain(k + |second|, map[]) == Reassembly(k + |second|, map[], []);
  }

  /** The reassembly step of one readable packet, with the drain loop. */
  method Receive(expected: int, buffer: map<int, seq<byte>>, seqNum: int, data: seq<byte>) returns (r: Reassembly)
    ensures r == Deliver(expected, buffer, seqNum, data)
  {
    if seqNum == expected {
      var e, b, w := expected + |data|, buffer, data;
      ghost var target := Drain(e, b);
      while e in b
        invariant Drain(e, b).expected == target.expected && Drain(e, b).buffer == target.buffer
        invariant w + Drain(e, b).written == data + target.written
        decreases |b|
      {
        var d := b[e];
        Smaller(b, e);
        w := w + d;
        b := b - {e};
        e := e + |d|;
      }
      r := Reassembly(e, b, w);
    } else if seqNum > expected {
      r := Reassembly(expected, buffer[seqNum := data], []);
    } else {
      r := Reassembly(expected, buffer, []);
    }
  }

  /** The acknowledgements in `sent` never go backwards and none exceeds `bound`. */
  ghost predicate AcksUpTo(sent: seq<Message>, bound: int)
  {
    && (forall i, j :: 0 <= i < j < |sent| && sent[i].Ack? && sent[j].Ack? ==> sent[i].number <= sent[j].number)
    && (forall i :: 0 <= i < |sent| && sent[i].Ack? ==> sent[i].number <= bound)
  }

  lemma AckSent(sent: seq<Message>, bound: int, n: int)
    requires AcksUpTo(sent, bound) && bound <= n
    ensures AcksUpTo(sent + [Ack(n)], n)
  {
  }

  lemma StartSent(sent: seq<Message>, bound: int)
    requires AcksUpTo(sent, bound)
    ensures AcksUpTo(sent + [Start], bound)
  {
  }

  class Receiver {
    var expected: int
    var buffer: map<int, seq<byte>>
    /** The contents of `received_file.txt`. */
    var written: seq<byte>
    var done: int
    var timeout: nat
    var timeoutCount: nat
    /** Every datagram sent to the server, oldest first. */
    var sent: seq<Message>
    var closed: bool

    /** Acknowledgements never go backwards and never run ahead of the
        expected offset, which is not a buffer key; the timeout is positive
        and the count of idle timeouts is below three while open. */
    ghost predicate Valid()
      reads this
    {
      && 0 <= expected && expected !in buffer && timeout >= 1
      && (!closed ==> timeoutCount < 3)
      && AcksUpTo(sent, expected)
    }

    /** The start of `receive_file`, which sends `START` right away. */
    constructor()
      ensures Valid()
      ensures expected == 0 && buffer == map[] && written == [] && done == -1
      ensures timeout == Timeout && timeoutCount == 0 && sent == [Start] && !closed
    {
      expected, buffer, written, done := 0, map[], [], -1;
      timeout, timeoutCount, sent, closed := Timeout, 0, [Start], false;
    }

    /** One packet received. An unreadable one, or one with `fin == 2`
        while `done` is non-zero (which it is from the start, as -1), ends
        the transfer. Otherwise `fin == 1` records where the file ends, the
        packet is delivered, the expected offset is acknowledged, and the
        timeout and the idle count are reset. */
    method OnPacket(p: Packet)
      requires Valid() && !closed
      modifies this
      ensures Valid()
      ensures expected >= old(expected)
      ensures p.Malformed? || (p.fin == 2 && old(done) != 0) ==>
                && closed && expected == old(expected) && buffer == old(buffer) && written == old(written)
                && done == old(done) && timeout == old(timeout) && timeoutCount == old(timeoutCount) && sent == old(sent)
      ensures p.Packet? && !(p.fin == 2 && old(done) != 0) ==>
                && !closed
                && done == (if p.fin == 1 then p.seqNum + |p.data| else old(done))
                && var r := Deliver(old(expected), old(buffer), p.seqNum, p.data);
                && expected == r.expected && buffer == r.buffer && written == old(written) + r.written
                && sent == old(sent) + [Ack(expected)] && timeout == Timeout && timeoutCount == 0
    {
      if p.Malformed? || (p.fin == 2 && done != 0) {
        closed := true;
        return;
      }
      if p.fin == 1 {
        done := p.seqNum + |p.data|;
      }
      var r := Receive(expected, buffer, p.seqNum, p.data);
      AckSent(sent, expected, r.expected);
      expected, buffer, written := r.expected, r.buffer, written + r.written;
      sent := sent + [Ack(expected)];
      timeoutCount := 0;
      timeout := Timeout;
    }

    /** The receive timed out. Once data has arrived, the expected offset is
        acknowledged again, and a third idle timeout in a row after the last
        byte (`done == expected`) ends the transfer; before any data, `START`
        is sent again. Either way the next wait is twice as long. */
    method OnTimeout()
      requires Valid() && !closed
      modifies this
      ensures Valid()
      ensures expected == old(expected) && buffer == old(buffer) && written == old(written) && done == old(done)
      ensures old(expected) > 0 ==> sent == old(sent) + [Ack(expected)]
      ensures old(expected) <= 0 ==> sent == old(sent) + [Start]
      ensures timeoutCount == (if old(expected) > 0 && done == expected then old(timeoutCount) + 1 else old(timeoutCount))
      ensures closed <==> timeoutCount == 3
      ensures !closed ==> timeout == 2 * old(timeout)
      ensures closed ==> timeout == old(timeout)
    {
      if expected > 0 {
        AckSent(sent, expected, expected);
        sent := sent + [Ack(expected)];
        if done == expected {
          timeoutCount := timeoutCount + 1;
          if timeoutCount == 3 {
            closed := true;
            return;
          }
        }
      } else {
        StartSent(sent, expected);
        sent := sent + [Start];
      }
      timeout := timeout * 2;
    }
  }
}
