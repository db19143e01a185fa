/** The IPv4 packets written for a recorded flow: layout, checksums, and the code that fills
    the buffer. */
module SyntheticPacket {
  import opened Bytes
  import opened InternetChecksum

  /** The two ends of a flow as seen by one packet: where it comes from and where it goes. */
  datatype Ends = Ends(src: bytes, dst: bytes, sport: nat, dport: nat)

  predicate ValidEnds(e: Ends) { |e.src| == 4 && |e.dst| == 4 && e.sport < 0x1_0000 && e.dport < 0x1_0000 }

  function Reverse(e: Ends): Ends { Ends(e.dst, e.src, e.dport, e.sport) }

  /** What a packet says beyond its ends: for UDP only the data matters. */
  datatype Body = Body(udp: bool, seqno: nat, ack: nat, flags: nat, data: bytes)

  function HeaderSize(udp: bool): nat { if udp then 8 else 20 }
  function Proto(udp: bool): byte { if udp then 17 else 6 }

  /** Larger payloads are not written at all. */
  predicate Fits(b: Body) { |b.data| + HeaderSize(b.udp) + 20 <= 0xffff }

  // ---------------------------------------------------------------- layout

  function IpHeader(e: Ends, proto: byte, total: nat, sum: bytes): bytes {
    IpHead(proto, total) + sum + (e.src + e.dst)
  }

  function IpHead(proto: byte, total: nat): (h: bytes)
    ensures |h| == 10
  {
    [0x45, 0] + Be(total, 2) + [0, 0, 0, 0, 64, proto]
  }

  /** A segment split at its checksum field: ports and numbers before it, the rest after. */
  function Before(e: Ends, b: Body): (h: bytes)
    ensures |h| == if b.udp then 6 else 16
  {
    Be(e.sport, 2) + Be(e.dport, 2) +
    if b.udp then Be(8 + |b.data|, 2)
    else Be(b.seqno, 4) + Be(if HasAck(b.flags) then b.ack else 0, 4) + [0x50, b.flags % 256] + Be(0xffff, 2)
  }

  predicate HasAck(flags: nat) { flags / 16 % 2 == 1 }

  function After(b: Body): bytes { (if b.udp then [] else [0, 0]) + b.data }

  function Segment(e: Ends, b: Body, sum: bytes): bytes { Before(e, b) + sum + After(b) }

  /** RFC 768 and RFC 9293: the addresses, protocol and length that the checksum also covers. */
  function PseudoHead(e: Ends, proto: byte, length: nat): bytes { e.src + e.dst + [0, proto] + Be(length, 2) }

  function SegmentSum(e: Ends, b: Body): (c: nat)
    ensures c < 0x1_0000
  {
    var zeroed := Segment(e, b, [0, 0]);
    var c := Checksum(PseudoHead(e, Proto(b.udp), |zeroed|) + zeroed);
    if b.udp && c == 0 then 0xffff else c
  }

  function Packet(e: Ends, b: Body): (p: bytes)
    requires ValidEnds(e)
    ensures |p| == 20 + HeaderSize(b.udp) + |b.data|
  {
    var total := 20 + HeaderSize(b.udp) + |b.data|;
    IpHeader(e, Proto(b.udp), total, Be(Checksum(IpHeader(e, Proto(b.udp), total, [0, 0])), 2))
    + Segment(e, b, Be(SegmentSum(e, b), 2))
  }

  // ---------------------------------------------------------------- verification

  lemma HeaderVerifies(e: Ends, proto: byte, total: nat)
    ensures Checksum(IpHeader(e, proto, total, Be(Checksum(IpHeader(e, proto, total, [0, 0])), 2))) == 0
  {
    hide Checksum;
    FieldVerifies(IpHead(proto, total), e.src + e.dst, Checksum(IpHeader(e, proto, total, [0, 0])));
  }

  lemma SegmentVerifies(e: Ends, b: Body)
    requires ValidEnds(e)
    ensures var s := Segment(e, b, Be(SegmentSum(e, b), 2));
      Checksum(PseudoHead(e, Proto(b.udp), |s|) + s) == 0
  {
    var zeroed := Segment(e, b, [0, 0]);
    var pseudo := PseudoHead(e, Proto(b.udp), |zeroed|);
    var head, c := pseudo + Before(e, b), SegmentSum(e, b);
    assert pseudo + zeroed == head + [0, 0] + After(b);
    hide Checksum, Before, After;
    FieldVerifies(head, After(b), c);
    var s := Segment(e, b, Be(c, 2));
    assert |s| == |zeroed|;
    assert pseudo + s == head + Be(c, 2) + After(b);
  }

  lemma PacketParts(e: Ends, b: Body)
    requires ValidEnds(e)
    ensures var p := Packet(e, b);
      && p[..20] == IpHeader(e, Proto(b.udp), |p|, Be(Checksum(IpHeader(e, Proto(b.udp), |p|, [0, 0])), 2))
      && p[9] == Proto(b.udp) && p[12..16] == e.src && p[16..20] == e.dst
      && p[20..] == Segment(e, b, Be(SegmentSum(e, b), 2))
  {
    hide Checksum, Segment, SegmentSum;
    var p := Packet(e, b);
    var header := p[..20];
    assert header[10..] == Be(Checksum(IpHeader(e, Proto(b.udp), |p|, [0, 0])), 2) + (e.src + e.dst);
    assert header[12..] == e.src + e.dst;
    assert header[9] == IpHead(Proto(b.udp), |p|)[9];
  }

  /** Recomputing the checksum of any packet written gives zero, over its IPv4 header and over
      its own addresses, protocol and segment, whatever the length of the data. */
  lemma ChecksumsVerify(e: Ends, b: Body)
    requires ValidEnds(e) && Fits(b)
    ensures var p := Packet(e, b);
      && |p| <= 0xffff
      && Checksum(p[..20]) == 0
      && Checksum(p[12..16] + p[16..20] + [0, p[9]] + Be(|p[20..]|, 2) + p[20..]) == 0
  {
    PacketParts(e, b);
    HeaderVerifies(e, Proto(b.udp), |Packet(e, b)|);
    SegmentVerifies(e, b);
    hide Checksum, Packet, Segment, SegmentSum, IpHeader;
    var p := Packet(e, b);
    assert PseudoHead(e, Proto(b.udp), |p[20..]|) == p[12..16] + p[16..20] + [0, p[9]] + Be(|p[20..]|, 2);
  }

  lemma HeaderBytes(proto: byte, total: nat, sum: bytes, rest: bytes)
    requires |sum| == 2
    ensures var p := IpHead(proto, total) + sum + rest;
      && p[0] == 0x45 && p[2..4] == Be(total, 2) && p[4..8] == [0, 0, 0, 0] && p[8] == 64 && p[9] == proto
  {
    hide Be;
  }

  /** The IPv4 header read at the offsets of RFC 791, section 3.1: version 4 and five words, the
      packet's own length, an unfragmented packet, a time to live of 64. */
  lemma HeaderReadable(e: Ends, b: Body)
    requires ValidEnds(e) && Fits(b)
    ensures var p := Packet(e, b);
      p[0] == 0x45 && FromBe(p[2..4]) == |p| && p[4..8] == [0, 0, 0, 0] && p[8] == 64 && p[9] == if b.udp then 17 else 6
  {
    var p := Packet(e, b);
    PacketParts(e, b);
    Widths();
    BeRoundTrip(|p|, 2);
    hide *;
    var sum := Be(Checksum(IpHeader(e, Proto(b.udp), |p|, [0, 0])), 2);
    HeaderOf(e, Proto(b.udp), |p|, sum);
    ReadFront(p, p[..20]);
    assert Proto(b.udp) == if b.udp then 17 else 6 by { ProtoIs(b.udp); }
  }

  lemma ProtoIs(udp: bool)
    ensures Proto(udp) == if udp then 17 else 6
  {
  }

  lemma HeaderOf(e: Ends, proto: byte, total: nat, sum: bytes)
    requires |sum| == 2
    ensures var h := IpHeader(e, proto, total, sum);
      |h| >= 12 && h[0] == 0x45 && h[2..4] == Be(total, 2) && h[4..8] == [0, 0, 0, 0] && h[8] == 64 && h[9] == proto
  {
    hide Be, IpHead;
    HeaderBytes(proto, total, sum, e.src + e.dst);
  }

  lemma ReadFront(p: bytes, h: bytes)
    requires |h| >= 12 && h <= p
    ensures p[0] == h[0] && p[2..4] == h[2..4] && p[4..8] == h[4..8] && p[8] == h[8] && p[9] == h[9]
  {
  }

  lemma UdpFields(sport: bytes, dport: bytes, length: bytes, sum: bytes, data: bytes)
    requires |sport| == |dport| == |length| == |sum| == 2
    ensures var s := sport + dport + length + sum + ([] + data);
      s[..2] == sport && s[2..4] == dport && s[4..6] == length && s[6..8] == sum && s[8..] == data
  {
  }

  /** A UDP packet read at the offsets of RFC 768: ports, length, a checksum that is present, data. */
  lemma UdpReadable(e: Ends, b: Body)
    requires ValidEnds(e) && Fits(b) && b.udp
    ensures var s := Packet(e, b)[20..];
      && |s| == 8 + |b.data| && FromBe(s[..2]) == e.sport && FromBe(s[2..4]) == e.dport
      && FromBe(s[4..6]) == |s| && FromBe(s[6..8]) != 0 && s[8..] == b.data
  {
    PacketParts(e, b);
    Widths();
    BeRoundTrip(e.sport, 2);
    BeRoundTrip(e.dport, 2);
    BeRoundTrip(8 + |b.data|, 2);
    var c := SegmentSum(e, b);
    assert c != 0;
    BeRoundTrip(c, 2);
    assert Segment(e, b, Be(c, 2)) == Be(e.sport, 2) + Be(e.dport, 2) + Be(8 + |b.data|, 2) + Be(c, 2) + ([] + b.data);
    hide Checksum, SegmentSum, Segment, FromBe, Be, Packet;
    UdpFields(Be(e.sport, 2), Be(e.dport, 2), Be(8 + |b.data|, 2), Be(c, 2), b.data);
  }

  // ---------------------------------------------------------------- filling the buffer

  /** Overwrites a two-byte field between two known parts of the buffer. */
  method PutField(b: array<byte>, ghost before: bytes, ghost after: bytes, at: nat, value: bytes)
    requires |before| == at && |value| == 2
    requires exists zero :: |zero| == 2 && b[..] == before + zero + after
    modifies b
    ensures b[..] == before + value + after
  {
    ghost var zero :| |zero| == 2 && b[..] == before + zero + after;
    Put(b, at, value);
    assert (before + zero + after)[..at] == before && (before + zero + after)[at + 2..] == after;
  }

  lemma Regroup(a: bytes, b: bytes, c: bytes, d: bytes)
    ensures a + b + c + d == a + b + (c + d)
  {
  }

  method PutIpHeader(b: array<byte>, e: Ends, proto: byte, total: nat)
    requires ValidEnds(e) && b.Length >= 20
    modifies b
    ensures b[..] == IpHeader(e, proto, total, Be(Checksum(IpHeader(e, proto, total, [0, 0])), 2)) + old(b[..])[20..]
  {
    hide Checksum, Be, IpHead;
    ghost var rest, head := b[..][20..], IpHead(proto, total);
    var zeroed := IpHeader(e, proto, total, [0, 0]);
    assert |zeroed| == 20;
    Put(b, 0, zeroed);
    assert b[..] == zeroed + rest;
    assert b[..20] == zeroed;
    var sum := Sum(zeroed);
    Regroup(head, [0, 0], e.src + e.dst, rest);
    Regroup(head, Be(sum, 2), e.src + e.dst, rest);
    PutField(b, head, e.src + e.dst + rest, 10, Be(sum, 2));
  }

  method PutSegment(b: array<byte>, e: Ends, body: Body)
    requires ValidEnds(e) && Fits(body) && b.Length == 20 + HeaderSize(body.udp) + |body.data|
    modifies b
    ensures b[..] == old(b[..])[..20] + Segment(e, body, Be(SegmentSum(e, body), 2))
  {
    hide Checksum, Be, Before, After;
    ghost var ip := b[..][..20];
    var zeroed := Segment(e, body, [0, 0]);
    assert |zeroed| == HeaderSize(body.udp) + |body.data| by { SegmentLength(e, body); }
    Put(b, 20, zeroed);
    assert b[..] == ip + zeroed;
    assert b[20..] == zeroed;
    var sum := Sum(PseudoHead(e, Proto(body.udp), |zeroed|) + b[20..]);
    if body.udp && sum == 0 { sum := 0xffff; }
    assert ip + zeroed == (ip + Before(e, body)) + [0, 0] + After(body);
    PutField(b, ip + Before(e, body), After(body), if body.udp then 26 else 36, Be(sum, 2));
    assert (ip + Before(e, body)) + Be(sum, 2) + After(body) == ip + Segment(e, body, Be(sum, 2));
  }

  lemma SegmentLength(e: Ends, b: Body)
    ensures |Segment(e, b, [0, 0])| == HeaderSize(b.udp) + |b.data|
  {
  }

  /** Writes the packet into a fresh buffer; nothing for data too long. */
  method Build(e: Ends, body: Body) returns (p: Option<bytes>)
    requires ValidEnds(e)
    ensures p == if Fits(body) then Some(Packet(e, body)) else None
  {
    var header := HeaderSize(body.udp);
    if |body.data| + header + 20 > 0xffff { return None; }
    var b := new byte[20 + header + |body.data|](_ => 0);
    PutIpHeader(b, e, Proto(body.udp), b.Length);
    ghost var ip := IpHeader(e, Proto(body.udp), b.Length,
      Be(Checksum(IpHeader(e, Proto(body.udp), b.Length, [0, 0])), 2));
    assert b[..][..20] == ip;
    PutSegment(b, e, body);
    return Some(b[..]);
  }
}
