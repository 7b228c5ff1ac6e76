/** The custom LLDP TLV lab_3's shortest-path switch appends to the LLDP
    frames it sends to measure link latency, and the test that recognises
    such a frame when it comes back. A TLV header is two bytes, big-endian:
    the type in the top seven bits and the value length in the low nine. */
module Tlv {
  newtype byte = x: int | 0 <= x < 256

  const LldpEthertype: int := 0x88CC
  const CustomType: int := 127
  const MarkerText: string := "latency_measurement"

  datatype Result<T> = Ok(value: T) | Overflow | IndexError

  /** `b"latency_measurement"`: the ASCII codes of the marker text. */
  function Marker(): (m: seq<byte>)
    ensures |m| == |MarkerText| == 19
    ensures forall i :: 0 <= i < |m| ==> m[i] as int == MarkerText[i] as int
  {
    [108, 97, 116, 101, 110, 99, 121, 95, 109, 101, 97, 115, 117, 114, 101, 109, 101, 110, 116]
  }

  function Pow2(k: nat): (p: nat)
    ensures p >= 1
  {
    if k == 0 then 1 else 2 * Pow2(k - 1)
  }

  /** Python's `|` on non-negative integers, bit by bit from the lowest. */
  function Or(a: nat, b: nat): nat
    decreases a + b
  {
    if a == 0 then b
    else if b == 0 then a
    else 2 * Or(a / 2, b / 2) + (if a % 2 == 1 || b % 2 == 1 then 1 else 0)
  }

  /** The low bit of `a | b` and the rest, for every `a` and `b`. */
  lemma OrStep(a: nat, b: nat)
    ensures Or(a, b) == 2 * Or(a / 2, b / 2) + (if a % 2 == 1 || b % 2 == 1 then 1 else 0)
  {
  }

  /** `a | b` is at least each of `a` and `b`. */
  lemma {:induction false} OrBounds(a: nat, b: nat)
    ensures Or(a, b) >= a && Or(a, b) >= b
    decreases a + b
  {
    if a != 0 && b != 0 {
      OrBounds(a / 2, b / 2);
    }
  }

  /** `(m << k) | ((q << k) + r)` for `r` below `2^k` is `((m | q) << k) + r`. */
  lemma {:induction false} OrShift(m: nat, q: nat, r: nat, k: nat)
    requires r < Pow2(k)
    ensures Or(m * Pow2(k), q * Pow2(k) + r) == Or(m, q) * Pow2(k) + r
  {
    if k > 0 {
      var p := Pow2(k - 1);
      var a, b := m * Pow2(k), q * Pow2(k) + r;
      Twice(m, p);
      Twice(q, p);
      Twice(Or(m, q), p);
      Halve(a, m * p, 0);
      Halve(b, q * p + r / 2, r % 2);
      OrShift(m, q, r / 2, k - 1);
      OrStep(a, b);
    }
  }

  lemma Twice(m: nat, p: nat)
    ensures m * (2 * p) == 2 * (m * p)
  {
  }

  lemma Halve(x: nat, y: nat, bit: nat)
    requires bit < 2 && x == 2 * y + bit
    ensures x / 2 == y && x % 2 == bit
  {
  }

  /** `(2^k - 1) | q` for `q` below `2^k` is `2^k - 1`. */
  lemma {:induction false} OrOnes(k: nat, q: nat)
    requires q < Pow2(k)
    ensures Or(Pow2(k) - 1, q) == Pow2(k) - 1
  {
    if k > 0 {
      OrOnes(k - 1, q / 2);
      OrStep(Pow2(k) - 1, q);
    }
  }

  /** `(tlv_type << 9) | len(tlv_value)` followed by `to_bytes(2, 'big')`,
      which raises once the header needs a third byte. */
  function Header(len: nat): (r: Result<seq<byte>>)
    ensures r.Ok? ==> |r.value| == 2
  {
    var h := Or(CustomType * 512, len);
    if h >= 0x1_0000 then Overflow else Ok([(h / 256) as byte, (h % 256) as byte])
  }

  /** The type a header's first byte carries: `custom_tlv[0] >> 1`. */
  function TypeOf(b0: byte): (t: int)
    ensures 0 <= t < 128 && t * 2 <= b0 as int < t * 2 + 2
  {
    b0 as int / 2
  }

  /** The value length a header carries. */
  function LengthOf(b0: byte, b1: byte): (n: int)
    ensures 0 <= n < 512 && n % 256 == b1 as int && n / 256 == b0 as int % 2
  {
    (b0 as int % 2) * 256 + b1 as int
  }

  /** A header written for a value shorter than 512 bytes carries the custom
      type and that length; a longer one still carries the type but only
      the length's low nine bits; from 2^16 bytes on, writing it raises. */
  lemma HeaderRoundTrip(len: nat)
    ensures Header(len).Overflow? <==> len >= 0x1_0000
    ensures len < 0x1_0000 ==> Header(len).Ok?
    ensures len < 0x1_0000 ==> TypeOf(Header(len).value[0]) == CustomType
    ensures len < 0x1_0000 ==> LengthOf(Header(len).value[0], Header(len).value[1]) == len % 512
  {
    var h := Or(CustomType * 512, len);
    OrBounds(CustomType * 512, len);
    if len < 0x1_0000 {
      assert Pow2(9) == 512 && Pow2(7) == 128;
      OrShift(CustomType, len / 512, len % 512, 9);
      OrOnes(7, len / 512);
      assert h == 0xFE00 + len % 512;
      var v := Header(len).value;
      assert v[0] as int == 0xFE + (len % 512) / 256;
    }
  }

  /** `custom_tlv = tlv_header_bytes + tlv_value` */
  function CustomTlv(value: seq<byte>): (r: Result<seq<byte>>)
    ensures r.Overflow? <==> |value| >= 0x1_0000
    ensures r.Ok? ==> |r.value| == |value| + 2 && r.value[2..] == value && Header(|value|).Ok? && r.value[..2] == Header(|value|).value
  {
    HeaderRoundTrip(|value|);
    match Header(|value|)
    case Ok(h) => Ok(h + value)
    case Overflow => Overflow
    case IndexError => IndexError
  }

  /** `is_our_lldp_packet`: an LLDP frame whose last 21 bytes are a header
      of the custom type followed by the marker text. The slice `[-21:]` of
      a shorter frame is the whole frame, and reading its first byte raises
      when the frame is empty. */
  function IsOurLldp(ethertype: int, data: seq<byte>): (r: Result<bool>)
    ensures ethertype != LldpEthertype ==> r == Ok(false)
    ensures r == IndexError <==> ethertype == LldpEthertype && data == []
    ensures ethertype == LldpEthertype && 0 < |data| < 21 ==> r == Ok(false)
  {
    if ethertype != LldpEthertype then Ok(false)
    else
      var tail := if |data| >= 21 then data[|data| - 21..] else data;
      if tail == [] then IndexError
      else Ok(TypeOf(tail[0]) == CustomType && (if |tail| >= 2 then tail[2..] else []) == Marker())
  }

  /** Exactly when the test accepts, when it rejects, and when it raises. */
  lemma IsOurLldpMeaning(ethertype: int, data: seq<byte>)
    ensures IsOurLldp(ethertype, data) == Ok(true) <==>
              ethertype == LldpEthertype && |data| >= 21 &&
              TypeOf(data[|data| - 21]) == CustomType && data[|data| - 19..] == Marker()
    ensures IsOurLldp(ethertype, data) == IndexError <==> ethertype == LldpEthertype && data == []
  {
    if ethertype == LldpEthertype && |data| >= 21 {
      var tail := data[|data| - 21..];
      assert tail[0] == data[|data| - 21];
      assert tail[2..] == data[|data| - 19..];
    }
  }

  /** Any LLDP frame the switch sends, with the custom TLV appended, is
      recognised as its own. */
  lemma SentIsRecognised(frame: seq<byte>)
    ensures CustomTlv(Marker()).Ok?
    ensures IsOurLldp(LldpEthertype, frame + CustomTlv(Marker()).value) == Ok(true)
  {
    var t := CustomTlv(Marker()).value;
    HeaderRoundTrip(|Marker()|);
    var data := frame + t;
    assert data[|data| - 21..] == t;
    assert t[0] == Header(19).value[0];
    IsOurLldpMeaning(LldpEthertype, data);
  }
}
