/**
 Packets as the store sees them: raw bytes whose Ethernet/IPv4/TCP-UDP header
 fields are read at fixed offsets, plus the range filters applied to them.
 */
module Packets {

  type Byte = b: int | 0 <= b < 256

  /** A captured frame. Reads past its end are modelled as zero bytes. */
  type Packet = seq<Byte>

  const IPPROTO_TCP := 6
  const IPPROTO_UDP := 17

  /** Largest value of a 64-bit word; the upper end of an unrestricted range. */
  const UINT64_MAX: nat := 0xFFFF_FFFF_FFFF_FFFF

  function ByteAt(p: Packet, k: nat): Byte {
    if k < |p| then p[k] else 0
  }

  function Word16(p: Packet, k: nat): nat {
    ByteAt(p, k) + 0x100 * ByteAt(p, k + 1)
  }

  function Word32(p: Packet, k: nat): nat {
    Word16(p, k) + 0x1_0000 * Word16(p, k + 2)
  }

  // Ethernet header: 14 bytes; IPv4 header: 20 bytes, taken without options.
  function Proto(p: Packet): nat { ByteAt(p, 23) }
  function SrcAddr(p: Packet): nat { Word32(p, 26) }
  function DstAddr(p: Packet): nat { Word32(p, 30) }
  function SrcPort(p: Packet): nat { Word16(p, 34) }
  function DstPort(p: Packet): nat { Word16(p, 36) }

  predicate HasPorts(p: Packet) {
    Proto(p) == IPPROTO_TCP || Proto(p) == IPPROTO_UDP
  }

  /** Seconds that a 32-bit time, and so a key of the time index, can tell apart. */
  const SECONDS: nat := 0x1_0000_0000

  function Seconds32(ts: nat): nat { if ts < SECONDS then ts else ts % SECONDS }

  datatype Range = Range(first: nat, second: nat) {
    predicate Contains(x: nat) { first <= x <= second }
  }

  const FULL := Range(0, UINT64_MAX)

  datatype PacketFilter = PacketFilter(
    srcAddr: Range, dstAddr: Range, srcPort: Range, dstPort: Range, timestamp: Range)
  {
    /** Ignores the timestamp range; used when a packet is inserted. */
    predicate Apply(p: Packet) {
      if HasPorts(p) then
        && srcAddr.Contains(SrcAddr(p)) && dstAddr.Contains(DstAddr(p))
        && srcPort.Contains(SrcPort(p)) && dstPort.Contains(DstPort(p))
      else
        srcAddr.Contains(SrcAddr(p)) && dstAddr.Contains(DstAddr(p))
    }

    /** Used when a stored packet is re-examined by a query; the time is cut to 32 bits. */
    predicate ApplyAt(p: Packet, ts: nat) {
      Apply(p) && timestamp.Contains(Seconds32(ts))
    }
  }

  type FilterList = seq<PacketFilter>

  /** Some filter of the list accepts the packet. */
  predicate Matches(fl: FilterList, p: Packet) {
    exists i :: 0 <= i < |fl| && fl[i].Apply(p)
  }

  /** One stored packet together with the second in which its burst arrived. */
  datatype Record = Record(now: nat, pkt: Packet)

  datatype Index = SrcIp | DstIp | SrcPrt | DstPrt | Timestamp | Character(id: nat)

  datatype Option<+T> = None | Some(value: T)

  /** The token under which a record is entered in an index, if it is entered at all. */
  function TokenOf(filters: seq<FilterList>, ix: Index, r: Record): Option<nat> {
    match ix
    case SrcIp => Some(SrcAddr(r.pkt))
    case DstIp => Some(DstAddr(r.pkt))
    case SrcPrt => if HasPorts(r.pkt) then Some(SrcPort(r.pkt)) else None
    case DstPrt => if HasPorts(r.pkt) then Some(DstPort(r.pkt)) else None
    case Timestamp => Some(r.now)
    case Character(c) => if c < |filters| && Matches(filters[c], r.pkt) then Some(r.now) else None
  }

  // ----- eight-byte little-endian words -----

  function EncodeWord(x: nat, n: nat): (bytes: seq<Byte>)
    ensures |bytes| == n
  {
    if n == 0 then [] else [x % 256] + EncodeWord(x / 256, n - 1)
  }

  function DecodeWord(bytes: seq<Byte>): nat {
    if bytes == [] then 0 else bytes[0] + 256 * DecodeWord(bytes[1..])
  }

  function Pow256(n: nat): nat { if n == 0 then 1 else 256 * Pow256(n - 1) }

  lemma {:induction false} DecodeEncode(x: nat, n: nat)
    requires x < Pow256(n)
    ensures DecodeWord(EncodeWord(x, n)) == x
  {
    if n > 0 {
      DecodeEncode(x / 256, n - 1);
      assert EncodeWord(x, n)[1..] == EncodeWord(x / 256, n - 1);
    }
  }
}
