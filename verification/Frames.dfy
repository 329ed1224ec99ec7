/** Frames byte by byte: packets with any header, and where a frame is entered. */
module Frames {
  import opened Packets
  import opened PublishProtocol
  import opened PublishTheorems

  // ----- packets with any header -----

  function Zeros(n: nat): (p: Packet)
    ensures |p| == n && forall k :: 0 <= k < n ==> p[k] == 0
  { if n == 0 then [] else [0] + Zeros(n - 1) }

  function Le(b0: nat, b1: nat): nat { b0 + 0x100 * b1 }

  function Bytes2(x: nat): (b: seq<Byte>)
    requires x < 0x1_0000
    ensures |b| == 2 && Le(b[0], b[1]) == x
  { [x % 0x100, x / 0x100] }

  function Bytes4(x: nat): (b: seq<Byte>)
    requires x < 0x1_0000_0000
    ensures |b| == 4 && Le(b[0], b[1]) + 0x1_0000 * Le(b[2], b[3]) == x
  { Bytes2(x % 0x1_0000) + Bytes2(x / 0x1_0000) }

  /** A packet with a given protocol, addresses and ports. */
  function PacketWith(proto: Byte, src: nat, dst: nat, sport: nat, dport: nat): (p: Packet)
    requires src < 0x1_0000_0000 && dst < 0x1_0000_0000 && sport < 0x1_0000 && dport < 0x1_0000
    ensures |p| == 38
  { Zeros(23) + [proto] + Zeros(2) + Bytes4(src) + Bytes4(dst) + Bytes2(sport) + Bytes2(dport) }

  /** Protocols 6 and 17, and no others, have ports; every header is that of some packet. */
  lemma PacketFields(proto: Byte, src: nat, dst: nat, sport: nat, dport: nat)
    requires src < 0x1_0000_0000 && dst < 0x1_0000_0000 && sport < 0x1_0000 && dport < 0x1_0000
    ensures var p := PacketWith(proto, src, dst, sport, dport);
            && (HasPorts(p) <==> proto == 6 || proto == 17)
            && SrcAddr(p) == src && DstAddr(p) == dst && SrcPort(p) == sport && DstPort(p) == dport
  {
    var p := PacketWith(proto, src, dst, sport, dport);
    assert |p| == 38 && p[23] == proto;
    assert p[26..30] == Bytes4(src) && p[30..34] == Bytes4(dst) && p[34..36] == Bytes2(sport) && p[36..38] == Bytes2(dport);
    assert p[26] == p[26..30][0] && p[27] == p[26..30][1] && p[28] == p[26..30][2] && p[29] == p[26..30][3];
    assert p[30] == p[30..34][0] && p[31] == p[30..34][1] && p[32] == p[30..34][2] && p[33] == p[30..34][3];
    assert p[34] == p[34..36][0] && p[35] == p[34..36][1] && p[36] == p[36..38][0] && p[37] == p[36..38][1];
  }

  lemma SomePacket(proto: Byte, src: nat, dst: nat, sport: nat, dport: nat) returns (p: Packet)
    requires src < 0x1_0000_0000 && dst < 0x1_0000_0000 && sport < 0x1_0000 && dport < 0x1_0000
    ensures |p| == 38 && (HasPorts(p) <==> proto == 6 || proto == 17)
    ensures SrcAddr(p) == src && DstAddr(p) == dst && SrcPort(p) == sport && DstPort(p) == dport
  {
    PacketFields(proto, src, dst, sport, dport);
    p := PacketWith(proto, src, dst, sport, dport);
  }

  /** Header fields are read as the machine stores words, low byte first, and headers are sent
      high byte first: a token is the number that was sent exactly if its bytes mirror. */
  lemma WireOrderExactly(p: Packet)
    ensures SrcPort(p) == 0x100 * ByteAt(p, 34) + ByteAt(p, 35) <==> ByteAt(p, 34) == ByteAt(p, 35)
    ensures DstPort(p) == 0x100 * ByteAt(p, 36) + ByteAt(p, 37) <==> ByteAt(p, 36) == ByteAt(p, 37)
    ensures SrcAddr(p) == Sent32(p, 26) <==> ByteAt(p, 26) == ByteAt(p, 29) && ByteAt(p, 27) == ByteAt(p, 28)
    ensures DstAddr(p) == Sent32(p, 30) <==> ByteAt(p, 30) == ByteAt(p, 33) && ByteAt(p, 31) == ByteAt(p, 32)
  {
  }

  function Sent32(p: Packet, k: nat): nat {
    0x100_0000 * ByteAt(p, k) + 0x1_0000 * ByteAt(p, k + 1) + 0x100 * ByteAt(p, k + 2) + ByteAt(p, k + 3)
  }

  // ----- where a frame is entered -----

  /** Byte 23 says TCP or UDP. */
  predicate PortFrame(p: Packet) { ByteAt(p, 23) == 6 || ByteAt(p, 23) == 17 }

  /** The id is entered in the index once, under token t. */
  ghost predicate Once(s: State, ix: Index, id: nat, t: nat) { exists n :: Occurrences(s, ix, id) == {(t, n)} }

  ghost predicate Never(s: State, ix: Index, id: nat) { Occurrences(s, ix, id) == {} }

  /** A published frame is entered once under the two ports behind its IPv4 header if it is TCP
      or UDP, and never in a port index otherwise. */
  lemma PortEntries(fs: seq<FilterList>, steps: seq<Step>, id: nat)
    requires RunOk(Init(fs), steps) && id < Run(Init(fs), steps).readId
    ensures var s := Run(Init(fs), steps);
            var p := RecordAt(s, id).pkt;
            if PortFrame(p) then
              Once(s, SrcPrt, id, ByteAt(p, 34) + 256 * ByteAt(p, 35)) && Once(s, DstPrt, id, ByteAt(p, 36) + 256 * ByteAt(p, 37))
            else Never(s, SrcPrt, id) && Never(s, DstPrt, id)
  {
    EachEntryOnce(fs, steps, SrcPrt, id);
    EachEntryOnce(fs, steps, DstPrt, id);
  }

  function Quad(p: Packet, k: nat): nat {
    ByteAt(p, k) + 0x100 * ByteAt(p, k + 1) + 0x1_0000 * ByteAt(p, k + 2) + 0x100_0000 * ByteAt(p, k + 3)
  }

  /** Whatever its protocol, it is entered once under each address and under the second of its burst. */
  lemma HeaderEntries(fs: seq<FilterList>, steps: seq<Step>, id: nat)
    requires RunOk(Init(fs), steps) && id < Run(Init(fs), steps).readId
    ensures var s := Run(Init(fs), steps);
            var p := RecordAt(s, id).pkt;
            Once(s, SrcIp, id, Quad(p, 26)) && Once(s, DstIp, id, Quad(p, 30)) && Once(s, Timestamp, id, RecordAt(s, id).now)
  {
    EachEntryOnce(fs, steps, SrcIp, id);
    EachEntryOnce(fs, steps, DstIp, id);
    EachEntryOnce(fs, steps, Timestamp, id);
  }

  /** The ranges of a filter hold the frame's addresses and, if it is TCP or UDP, its ports. */
  predicate FilterHolds(f: PacketFilter, p: Packet) {
    && f.srcAddr.first <= Quad(p, 26) <= f.srcAddr.second
    && f.dstAddr.first <= Quad(p, 30) <= f.dstAddr.second
    && (PortFrame(p) ==>
          && f.srcPort.first <= ByteAt(p, 34) + 256 * ByteAt(p, 35) <= f.srcPort.second
          && f.dstPort.first <= ByteAt(p, 36) + 256 * ByteAt(p, 37) <= f.dstPort.second)
  }

  /** A published frame is entered under a character once, under its second, if it fits one of the
      character's filters, and never otherwise. */
  lemma CharacterEntries(fs: seq<FilterList>, steps: seq<Step>, c: nat, id: nat)
    requires RunOk(Init(fs), steps) && id < Run(Init(fs), steps).readId && c < |fs|
    ensures var s := Run(Init(fs), steps);
            var r := RecordAt(s, id);
            if exists i :: 0 <= i < |fs[c]| && FilterHolds(fs[c][i], r.pkt) then Once(s, Character(c), id, r.now)
            else Never(s, Character(c), id)
  {
    var r := RecordAt(Run(Init(fs), steps), id);
    forall i | 0 <= i < |fs[c]| ensures fs[c][i].Apply(r.pkt) <==> FilterHolds(fs[c][i], r.pkt) {}
    EachEntryOnce(fs, steps, Character(c), id);
  }
}
