/** Captures of the AmneziaWG interface: converted packet blocks are opened at fixed offsets,
    reduced to the user's IPv4 packets and written again with a comment. */
module AwgCapture {
  import opened Bytes
  import opened Pcapng
  import opened PcapConversion

  lemma Overwrite(front: bytes, n: nat, s: bytes)
    requires |s| <= n
    ensures var was := front + Zeros(n);
      was[..|front|] + s + was[|front| + |s|..] == front + s + Zeros(n - |s|)
  {
  }

  /** Copies `s` behind `front` into a buffer that is still zero from there on. */
  method Append(a: array<byte>, ghost front: bytes, at: nat, s: bytes)
    requires at == |front| && at + |s| <= a.Length && a[..] == front + Zeros(a.Length - at)
    modifies a
    ensures a[..] == front + s + Zeros(a.Length - at - |s|)
  {
    Overwrite(front, a.Length - at, s);
    hide Zeros;
    Put(a, at, s);
  }

  lemma Padded(front: bytes, body: bytes, pad: nat, last: bytes)
    ensures front + body + Zeros(pad) + last + Zeros(0) == front + (body + Zeros(pad)) + last
  {
  }

  /** Builds a block in place, as the program does. */
  method BuildBlock(kind: nat, body: bytes) returns (b: array<byte>)
    ensures fresh(b) && b[..] == Block(kind, body)
  {
    var n, pad := BlockSize(|body|), Padding(|body|);
    b := new byte[n](_ => 0);
    assert b[..] == [] + Zeros(n);
    ghost var head := Le(kind, 4) + Le(n, 4);
    assert [] + Le(kind, 4) == Le(kind, 4);
    Padded(head, body, pad, Le(n, 4));
    hide Le, Padding, Zeros;
    Append(b, [], 0, Le(kind, 4));
    Append(b, Le(kind, 4), 4, Le(n, 4));
    Append(b, head, 8, body);
    Regroup4(head + body, pad);
    Append(b, head + body + Zeros(pad), n - 4, Le(n, 4));
  }

  lemma Regroup4(front: bytes, pad: nat)
    ensures front + Zeros(pad + 4) == front + Zeros(pad) + Zeros(4)
  {
  }

  // ---------------------------------------------------------------- opening a block

  /** Bytes in front of the IP header for each supported link type. */
  function LinkOffset(link: nat): Option<nat> {
    if link == 1 then Some(14)
    else if link == 113 then Some(16)
    else if link == 276 then Some(20)
    else if link == 101 || link == 228 then Some(0)
    else None
  }

  datatype Verdict = Failed | Ignored | Inner(packet: bytes)

  /** The user's IPv4 packet inside a captured frame. */
  function InnerPacket(link: nat, frame: bytes, ip: bytes): Verdict {
    match LinkOffset(link)
    case None => Failed
    case Some(offset) =>
      if |frame| < offset + 20 then Ignored
      else
        var p := frame[offset..];
        if p[0] / 16 == 4 && (p[12..16] == ip || p[16..20] == ip) then Inner(p) else Ignored
  }

  /** Frames are opened as their link types say: an Ethernet header of 14 bytes, a Linux cooked header
      of 16 or in its second version of 20, or none, and behind it the packet; kept are exactly the
      IPv4 packets from or to the user's address. Any other link type is an error. */
  lemma OpenedExactly(link: nat, header: bytes, p: bytes, ip: bytes)
    requires |ip| == 4 && |p| >= 20
    requires match link
      case 1 => |header| == 14
      case 113 => |header| == 16
      case 276 => |header| == 20
      case _ => header == []
    ensures InnerPacket(link, header + p, ip) ==
      if link !in {1, 113, 276, 101, 228} then Failed
      else if p[0] / 16 == 4 && (p[12..16] == ip || p[16..20] == ip) then Inner(p) else Ignored
    ensures forall short: bytes :: |short| < 20 && link in {1, 113, 276, 101, 228} ==>
      InnerPacket(link, header + short, ip) == Ignored
  {
    assert (header + p)[|header|..] == p;
  }

  /** The sink's reading of a packet block: everything sits at a fixed offset. */
  function Frame(b: bytes): (r: Option<(nat, bytes)>)
    requires |b| >= 32
  {
    var size := FromLe(b[20..24]);
    if 28 + size > |b| - 4 then None
    else Some((FromLe(b[12..16]) * WORD + FromLe(b[16..20]), b[28..28 + size]))
  }

  lemma Offsets(head: bytes, zero: bytes, hi: bytes, lo: bytes, size: bytes, orig: bytes, rest: bytes)
    requires |head| == 8 && |zero| == |hi| == |lo| == |size| == |orig| == 4
    ensures var b := head + zero + hi + lo + size + orig + rest;
      b[12..16] == hi && b[16..20] == lo && b[20..24] == size && b[28..] == rest
  {
  }

  lemma DataInside(b: bytes, data: bytes, tail: bytes)
    requires |b| >= 28 && b[28..] == data + tail
    ensures b[28..28 + |data|] == data && |b| == 28 + |data| + |tail|
  {
    assert b[28..28 + |data|] == b[28..][..|data|];
  }

  lemma BlockKind(kind: nat, body: bytes)
    requires kind < WORD
    ensures FromLe(Block(kind, body)[..4]) == kind
  {
    Widths();
    LeRoundTrip(kind, 4);
    hide Le, FromLe, Padding;
    assert Block(kind, body)[..4] == Le(kind, 4);
  }

  /** The fixed offsets agree with the format: the frame read from a packet block is the
      recorded one, and the length check never turns a converted record away. */
  lemma FrameOfPacket(ts: nat, data: bytes, orig: nat)
    requires ts < WORD * WORD && |data| < WORD && orig < WORD
    ensures |Captured(ts, data, orig)| >= 32 && FromLe(Captured(ts, data, orig)[..4]) == PACKET
    ensures Frame(Captured(ts, data, orig)) == Some((ts, data))
  {
    Widths();
    LeRoundTrip(ts / WORD, 4);
    LeRoundTrip(ts % WORD, 4);
    LeRoundTrip(|data|, 4);
    var body := PacketHead(ts, |data|, orig) + data;
    BlockKind(PACKET, body);
    CapturedParts(ts, data, orig);
    hide Le, FromLe, Padding, Captured;
  }

  lemma CapturedParts(ts: nat, data: bytes, orig: nat)
    ensures var b := Captured(ts, data, orig);
      && |b| >= 32 + |data| && b[12..16] == Le(ts / WORD, 4) && b[16..20] == Le(ts % WORD, 4)
      && b[20..24] == Le(|data|, 4) && b[28..28 + |data|] == data
  {
    var body := PacketHead(ts, |data|, orig) + data;
    var n := BlockSize(|body|);
    hide Le, Padding;
    var head, tail := Le(PACKET, 4) + Le(n, 4), Zeros(Padding(|body|)) + Le(n, 4);
    Offsets(head, [0, 0, 0, 0], Le(ts / WORD, 4), Le(ts % WORD, 4), Le(|data|, 4), Le(orig, 4), data + tail);
    Regroup(head, [0, 0, 0, 0], Le(ts / WORD, 4), Le(ts % WORD, 4), Le(|data|, 4), Le(orig, 4), data, tail);
    assert Captured(ts, data, orig) == head + body + tail;
    DataInside(Captured(ts, data, orig), data, tail);
  }

  lemma Regroup(head: bytes, zero: bytes, hi: bytes, lo: bytes, size: bytes, orig: bytes, data: bytes, tail: bytes)
    ensures head + (zero + hi + lo + size + orig + data) + tail
         == head + zero + hi + lo + size + orig + (data + tail)
  {
  }

  lemma BodyOfBlock(kind: nat, body: bytes)
    ensures Block(kind, body)[8..8 + |body|] == body
  {
    var n := BlockSize(|body|);
    var padded := body + Zeros(Padding(|body|));
    BlockParts(Le(kind, 4), Le(n, 4), padded, Le(n, 4), []);
    hide Le, Padding;
    var b := Block(kind, body);
    assert b == Le(kind, 4) + Le(n, 4) + padded + Le(n, 4) + [];
    assert b[8..8 + |body|] == b[8..n - 4][..|body|];
  }

  lemma SecondBlock(a: bytes, b: bytes, body: bytes)
    requires |a| == 28 && |b| >= 8 + |body| && b[8..8 + |body|] == body && |body| >= 2
    ensures (a + b)[..4] == a[..4] && (a + b)[36..38] == body[..2]
  {
    assert (a + b)[36..38] == b[8..8 + |body|][..2];
  }

  /** The link type is found 36 bytes into the section the converter emits first. */
  lemma LinkOfSection(link: nat)
    requires link <= 65535
    ensures |Section(link)| >= 38 && FromLe(Section(link)[..4]) == SECTION
    ensures FromLe(Section(link)[36..38]) == link
  {
    hide SectionBody, InterfaceBody, Block, Le, FromLe, BlockSize;
    Widths();
    LeRoundTrip(link, 2);
    var a, b := Block(SECTION, SectionBody()), Block(INTERFACE, InterfaceBody(link));
    BlockKind(SECTION, SectionBody());
    BodyOfBlock(INTERFACE, InterfaceBody(link));
    SectionSize(SectionBody());
    LinkFirst(link);
    SecondBlock(a, b, InterfaceBody(link));
  }

  lemma SectionSize(body: bytes)
    requires |body| == 16
    ensures |Block(SECTION, body)| == 28
  {
  }

  lemma LinkFirst(link: nat)
    ensures InterfaceBody(link)[..2] == Le(link, 2)
  {
    hide Le;
  }

  // ---------------------------------------------------------------- writing it again

  /** A packet block that carries a comment option after the padded data. */
  function Annotated(ts: nat, p: bytes, comment: bytes): bytes {
    Block(PACKET, PacketHead(ts, |p|, |p|) + p + Options(|p|, comment))
  }

  function Options(size: nat, comment: bytes): bytes {
    Zeros(Padding(size)) + Le(1, 2) + Le(|comment|, 2) + comment + Zeros(Padding(|comment|)) + [0, 0, 0, 0]
  }

  predicate Writable(p: bytes) { 0 < |p| <= 65535 }

  lemma ItemsOfAnnotated(ts: nat, p: bytes, comment: bytes, rest: bytes)
    requires ts < WORD * WORD && |p| <= 65535 && |comment| <= 65535 && Items(rest).Some?
    ensures Items(Annotated(ts, p, comment) + rest) == Some([Packet(ts, p, |p|)] + Items(rest).value)
  {
    var opts := Options(|p|, comment);
    var body := PacketHead(ts, |p|, |p|) + p + opts;
    ItemsOfBlock(PACKET, body, rest);
    var pad := Zeros(Padding(|body|));
    MeaningOfPacket(ts, p, |p|, opts + pad);
    hide *;
    assert body + pad == PacketHead(ts, |p|, |p|) + p + (opts + pad);
  }

  // ---------------------------------------------------------------- a whole capture

  /** Blocks long enough for the offsets they are read at. */
  predicate Shaped(b: bytes) { |b| >= 32 && (FromLe(b[..4]) == SECTION ==> |b| >= 38) }

  predicate AllShaped(bs: seq<bytes>) { forall i :: 0 <= i < |bs| ==> Shaped(bs[i]) }

  /** The blocks recorded for a run of converted blocks: a section sets the link type, a packet
      is opened, filtered and written again, and an error ends the capture. */
  function Recorded(link: nat, ip: bytes, comment: bytes, bs: seq<bytes>): seq<bytes>
    requires AllShaped(bs)
    decreases |bs|
  {
    if bs == [] then []
    else
      assert AllShaped(bs[1..]) by { ShapedRest(bs); }
      if FromLe(bs[0][..4]) == SECTION then Recorded(FromLe(bs[0][36..38]), ip, comment, bs[1..])
      else match Frame(bs[0])
        case None => []
        case Some((ts, frame)) =>
          match InnerPacket(link, frame, ip)
          case Failed => []
          case Ignored => Recorded(link, ip, comment, bs[1..])
          case Inner(p) =>
            if Writable(p) then [Annotated(ts, p, comment)] + Recorded(link, ip, comment, bs[1..])
            else Recorded(link, ip, comment, bs[1..])
  }

  lemma ShapedRest(bs: seq<bytes>)
    requires AllShaped(bs) && bs != []
    ensures AllShaped(bs[1..])
  {
    forall i | 0 <= i < |bs[1..]| ensures Shaped(bs[1..][i]) { assert bs[1..][i] == bs[i + 1]; }
  }

  lemma ShapedCons(b: bytes, bs: seq<bytes>)
    requires Shaped(b) && AllShaped(bs)
    ensures AllShaped([b] + bs)
  {
  }

  /** What the capture should hold: the user's packets with their own instants. */
  function UserPackets(link: nat, ip: bytes, rs: seq<Record>): seq<Item> {
    if rs == [] then []
    else
      var v := InnerPacket(link, rs[0].data, ip);
      (if v.Inner? && Writable(v.packet) then [Packet(Time(rs[0]), v.packet, |v.packet|)] else [])
        + UserPackets(link, ip, rs[1..])
  }

  lemma {:induction false} UnsupportedLink(link: nat, ip: bytes, rs: seq<Record>)
    requires LinkOffset(link).None?
    ensures UserPackets(link, ip, rs) == []
  {
    if rs != [] { UnsupportedLink(link, ip, rs[1..]); }
  }

  lemma {:induction false} PacketsAreShaped(rs: seq<Record>)
    requires forall r :: r in rs ==> ValidRecord(r)
    ensures AllShaped(PacketBlocks(rs))
  {
    hide FromLe;
    if rs != [] {
      PacketsAreShaped(rs[1..]);
      TimeFits(rs[0]);
      FrameOfPacket(Time(rs[0]), rs[0].data, rs[0].orig);
      ShapedCons(PacketBlock(rs[0]), PacketBlocks(rs[1..]));
    }
  }

  lemma RecordedStep(link: nat, ip: bytes, comment: bytes, b: bytes, more: seq<bytes>, ts: nat, frame: bytes)
    requires Shaped(b) && AllShaped(more) && FromLe(b[..4]) == PACKET && Frame(b) == Some((ts, frame))
    ensures AllShaped([b] + more)
    ensures Recorded(link, ip, comment, [b] + more)
         == match InnerPacket(link, frame, ip)
            case Failed => []
            case Ignored => Recorded(link, ip, comment, more)
            case Inner(p) =>
              (if Writable(p) then [Annotated(ts, p, comment)] else []) + Recorded(link, ip, comment, more)
  {
    ShapedCons(b, more);
    hide Frame, InnerPacket, Annotated, FromLe;
    assert ([b] + more)[0] == b && ([b] + more)[1..] == more;
  }

  lemma SectionStep(was: nat, link: nat, ip: bytes, comment: bytes, more: seq<bytes>)
    requires link <= 65535 && AllShaped(more)
    ensures AllShaped([Section(link)] + more)
    ensures Recorded(was, ip, comment, [Section(link)] + more) == Recorded(link, ip, comment, more)
  {
    LinkOfSection(link);
    ShapedCons(Section(link), more);
    hide Frame, InnerPacket, Annotated, FromLe, Section;
    var bs := [Section(link)] + more;
    assert bs[0] == Section(link) && bs[1..] == more;
  }

  /** Convert, open, filter and write again: for the packet blocks of a link type, a pcapng
      reader finds exactly the user's IPv4 packets, in order and with the original instants. */
  lemma {:induction false} PacketsRecorded(link: nat, ip: bytes, comment: bytes, rs: seq<Record>)
    requires |comment| <= 65535 && forall r :: r in rs ==> ValidRecord(r)
    ensures AllShaped(PacketBlocks(rs))
    ensures Items(Concat(Recorded(link, ip, comment, PacketBlocks(rs)))) == Some(UserPackets(link, ip, rs))
  {
    PacketsAreShaped(rs);
    hide Items, Frame, Captured, Time, Recorded, InnerPacket, LinkOffset, FromLe, AllShaped, Shaped;
    if rs == [] {
      assert Recorded(link, ip, comment, []) == [] by { NothingRecorded(link, ip, comment); }
      NoItems();
    } else {
      var r, more := rs[0], PacketBlocks(rs[1..]);
      TimeFits(r);
      FrameOfPacket(Time(r), r.data, r.orig);
      PacketsAreShaped(rs[1..]);
      PacketsRecorded(link, ip, comment, rs[1..]);
      assert Shaped(PacketBlock(r)) by { PacketIsShaped(r); }
      RecordedStep(link, ip, comment, PacketBlock(r), more, Time(r), r.data);
      hide PacketBlocks, ValidRecord, Concat;
      var v := InnerPacket(link, r.data, ip);
      if v.Failed? {
        assert LinkOffset(link).None? by { FailedLink(link, r.data, ip); }
        UnsupportedLink(link, ip, rs);
        NoItems();
      } else if v.Inner? && Writable(v.packet) {
        OneMore(Time(r), v.packet, comment, Recorded(link, ip, comment, more));
      } else {
        assert [] + Recorded(link, ip, comment, more) == Recorded(link, ip, comment, more);
        assert UserPackets(link, ip, rs) == UserPackets(link, ip, rs[1..]);
      }
    }
  }

  lemma PacketIsShaped(r: Record)
    requires ValidRecord(r)
    ensures Shaped(PacketBlock(r))
  {
    TimeFits(r);
    FrameOfPacket(Time(r), r.data, r.orig);
    hide FromLe, Captured;
  }

  /** From the bytes tcpdump wrote, in either byte order, through conversion, the link type at
      its offset, the opening of each packet and the filter, to the bytes of the capture: a
      pcapng reader finds exactly the user's IPv4 packets of the original, in order and with
      the original instants. */
  lemma AwgCaptureKeepsPackets(o: Order, link: nat, filler: bytes, rs: seq<Record>, ip: bytes, comment: bytes)
    requires |filler| == 12 && link <= 65535 && |comment| <= 65535 && forall r :: r in rs ==> ValidRecord(r)
    ensures var bs := Blocks(FileHeader(o, link, filler) + AllBytes(o, rs));
      AllShaped(bs) && Items(Concat(Recorded(0, ip, comment, bs))) == Some(UserPackets(link, ip, rs))
  {
    BlocksOfFile(o, link, filler, rs);
    PacketsRecorded(link, ip, comment, rs);
    SectionStep(0, link, ip, comment, PacketBlocks(rs));
    hide Blocks, FileHeader, AllBytes, Section, PacketBlocks, Recorded, AllShaped, Items, UserPackets, Concat;
  }

  lemma FailedLink(link: nat, frame: bytes, ip: bytes)
    requires InnerPacket(link, frame, ip).Failed?
    ensures LinkOffset(link).None?
  {
  }

  lemma NothingRecorded(link: nat, ip: bytes, comment: bytes)
    ensures AllShaped([]) && Recorded(link, ip, comment, []) == []
  {
  }

  lemma NoItems()
    ensures Items(Concat([])) == Some([])
  {
  }

  lemma OneMore(ts: nat, p: bytes, comment: bytes, more: seq<bytes>)
    requires ts < WORD * WORD && |p| <= 65535 && |comment| <= 65535 && Items(Concat(more)).Some?
    ensures Items(Concat([Annotated(ts, p, comment)] + more))
         == Some([Packet(ts, p, |p|)] + Items(Concat(more)).value)
  {
    ItemsOfAnnotated(ts, p, comment, Concat(more));
    hide Items, Annotated;
    assert ([Annotated(ts, p, comment)] + more)[1..] == more;
  }
}
