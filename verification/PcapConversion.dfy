/** The conversion of tcpdump's classic microsecond pcap stream into pcapng blocks. */
module PcapConversion {
  import opened Bytes
  import opened Pcapng

  const MAGIC: nat := 0xa1b2c3d4
  const SWAPPED: nat := 0xd4c3b2a1
  const SNAPLEN: nat := 262144
  const MILLION: nat := 1_000_000

  datatype Order = Little | Big

  datatype Record = Record(sec: nat, us: nat, data: bytes, orig: nat)

  predicate ValidRecord(r: Record) {
    r.sec < WORD && r.us < MILLION && |r.data| <= SNAPLEN && |r.data| <= r.orig < WORD
  }

  function Time(r: Record): nat { r.sec * MILLION + r.us }

  // ---------------------------------------------------------------- the classic format

  function Num(o: Order, n: nat, width: nat): (s: bytes)
    ensures |s| == width
  {
    if o.Little? then Le(n, width) else Be(n, width)
  }

  function Value(o: Order, s: bytes): (n: nat)
    ensures n < Values(|s|)
  {
    if o.Little? then FromLe(s) else FromBe(s)
  }

  lemma NumRoundTrip(o: Order, n: nat, width: nat)
    requires n < Values(width)
    ensures Value(o, Num(o, n, width)) == n
  {
    if o.Little? { LeRoundTrip(n, width); } else { BeRoundTrip(n, width); }
  }

  /** A file header; `filler` is the zone, accuracy and snapshot length nobody reads. */
  function FileHeader(o: Order, link: nat, filler: bytes): bytes
    requires |filler| == 12
  {
    Num(o, MAGIC, 4) + Num(o, 2, 2) + Num(o, 4, 2) + filler + Num(o, link, 4)
  }

  function RecordBytes(o: Order, r: Record): (s: bytes)
    ensures |s| == 16 + |r.data|
  {
    Num(o, r.sec, 4) + Num(o, r.us, 4) + Num(o, |r.data|, 4) + Num(o, r.orig, 4) + r.data
  }

  function AllBytes(o: Order, rs: seq<Record>): bytes {
    if rs == [] then [] else RecordBytes(o, rs[0]) + AllBytes(o, rs[1..])
  }

  // ---------------------------------------------------------------- what the converter understands

  datatype Start = Refused | Start(order: Order, link: nat)

  function ReadHeader(h: bytes): Start
    requires |h| == 24
  {
    var magic := FromLe(h[..4]);
    if magic != MAGIC && magic != SWAPPED then Refused
    else
      var o := if magic == MAGIC then Little else Big;
      if Value(o, h[4..6]) != 2 || Value(o, h[6..8]) != 4 || Value(o, h[20..24]) > 65535 then Refused
      else Start(o, Value(o, h[20..24]))
  }

  /** The record at the front of `s`, if it is whole and valid. */
  function ReadRecord(o: Order, s: bytes): (r: Option<Record>)
    ensures r.Some? ==> ValidRecord(r.value) && 16 + |r.value.data| <= |s|
  {
    if |s| < 16 then None
    else
      Widths();
      var size, orig, us := Value(o, s[8..12]), Value(o, s[12..16]), Value(o, s[4..8]);
      if size > SNAPLEN || size > orig || us >= MILLION || |s| < 16 + size then None
      else Some(Record(Value(o, s[..4]), us, s[16..16 + size], orig))
  }

  function Records(o: Order, s: bytes): seq<Record>
    decreases |s|
  {
    var r := ReadRecord(o, s);
    if r.None? then [] else [r.value] + Records(o, s[16 + |r.value.data|..])
  }

  function PacketBlock(r: Record): bytes { Captured(Time(r), r.data, r.orig) }

  function PacketBlocks(rs: seq<Record>): (bs: seq<bytes>)
    ensures |bs| == |rs|
  {
    if rs == [] then [] else [PacketBlock(rs[0])] + PacketBlocks(rs[1..])
  }

  /** Every block the converter offers to its sink for the input `s`. */
  function Blocks(s: bytes): seq<bytes> {
    if |s| < 24 then []
    else match ReadHeader(s[..24])
      case Refused => []
      case Start(o, link) => [Section(link)] + PacketBlocks(Records(o, s[24..]))
  }

  lemma {:induction false} PacketBlocksSnoc(rs: seq<Record>, r: Record)
    ensures PacketBlocks(rs + [r]) == PacketBlocks(rs) + [PacketBlock(r)]
  {
    if rs == [] {
      assert rs + [r] == [r];
    } else {
      PacketBlocksSnoc(rs[1..], r);
      assert (rs + [r])[1..] == rs[1..] + [r];
    }
  }

  lemma {:induction false} PacketBlocksPrefix(rs: seq<Record>, more: seq<Record>)
    ensures PacketBlocks(rs + more)[..|rs|] == PacketBlocks(rs)
  {
    if rs != [] {
      PacketBlocksPrefix(rs[1..], more);
      assert (rs + more)[1..] == rs[1..] + more;
    }
  }

  /** The record loop: the sink takes `accepts` more blocks and then refuses. */
  method ConvertRecords(o: Order, input: bytes, accepts: nat) returns (emitted: seq<bytes>)
    ensures var all := PacketBlocks(Records(o, input)); emitted == all[..Min(accepts, |all|)]
  {
    hide PacketBlocks, ReadRecord, PacketBlock;
    var rest := input;
    ghost var done: seq<Record> := [];
    emitted := [];
    assert PacketBlocks(done) == [];
    while true
      invariant emitted == PacketBlocks(done) && |emitted| <= accepts
      invariant Records(o, input) == done + Records(o, rest)
      decreases |rest|
    {
      var r := ReadRecord(o, rest);
      if r.None? {
        assert Records(o, input) == done;
        return;
      }
      if |emitted| == accepts {
        PacketBlocksPrefix(done, Records(o, rest));
        return;
      }
      PacketBlocksSnoc(done, r.value);
      rest := rest[16 + |r.value.data|..];
      done := done + [r.value];
      emitted := emitted + [PacketBlock(r.value)];
    }
  }

  lemma TakeCons(b: bytes, bs: seq<bytes>, n: nat)
    ensures ([b] + bs)[..Min(n + 1, |bs| + 1)] == [b] + bs[..Min(n, |bs|)]
  {
  }

  /** The converter: its sink takes `accepts` blocks and then refuses. */
  method Convert(input: bytes, accepts: nat) returns (emitted: seq<bytes>, ready: bool)
    ensures emitted == Blocks(input)[..Min(accepts, |Blocks(input)|)]
    ensures ready <==> emitted != []
  {
    emitted, ready := [], false;
    if |input| < 24 { return; }
    var start := ReadHeader(input[..24]);
    if start.Refused? || accepts == 0 { return; }
    ready := true;
    hide ReadHeader, PacketBlocks, Records, Section, FromLe;
    var more := ConvertRecords(start.order, input[24..], accepts - 1);
    TakeCons(Section(start.link), PacketBlocks(Records(start.order, input[24..])), accepts - 1);
    emitted := [Section(start.link)] + more;
  }

  // ---------------------------------------------------------------- nothing is lost

  lemma HeaderParts(m: bytes, v: bytes, w: bytes, filler: bytes, link: bytes)
    requires |m| == |link| == 4 && |v| == |w| == 2 && |filler| == 12
    ensures var h := m + v + w + filler + link;
      |h| == 24 && h[..4] == m && h[4..6] == v && h[6..8] == w && h[20..24] == link
  {
  }

  lemma MagicSwaps()
    ensures FromLe(Be(MAGIC, 4)) == SWAPPED
  {
    assert Be(0xa1, 1) == [0xa1];
    assert Be(0xa1b2, 2) == [0xa1, 0xb2];
    assert Be(0xa1b2c3, 3) == [0xa1, 0xb2, 0xc3];
    assert Be(MAGIC, 4) == [0xa1, 0xb2, 0xc3, 0xd4];
    assert FromLe([0xd4]) == 0xd4;
    assert FromLe([0xc3, 0xd4]) == 0xd4c3;
    assert FromLe([0xb2, 0xc3, 0xd4]) == 0xd4c3b2;
  }

  lemma ReadOfHeader(o: Order, link: nat, filler: bytes)
    requires |filler| == 12 && link <= 65535
    ensures |FileHeader(o, link, filler)| == 24 && ReadHeader(FileHeader(o, link, filler)) == Start(o, link)
  {
    Widths();
    NumRoundTrip(o, MAGIC, 4);
    NumRoundTrip(o, 2, 2);
    NumRoundTrip(o, 4, 2);
    NumRoundTrip(o, link, 4);
    MagicSwaps();
    hide FromLe, FromBe, Le, Be;
    HeaderParts(Num(o, MAGIC, 4), Num(o, 2, 2), Num(o, 4, 2), filler, Num(o, link, 4));
  }

  lemma RecordParts(sec: bytes, us: bytes, size: bytes, orig: bytes, data: bytes, rest: bytes)
    requires |sec| == |us| == |size| == |orig| == 4
    ensures var s := sec + us + size + orig + data + rest;
      && s[..4] == sec && s[4..8] == us && s[8..12] == size && s[12..16] == orig
      && s[16..16 + |data|] == data && s[16 + |data|..] == rest
  {
  }

  lemma ReadOfRecord(o: Order, r: Record, rest: bytes)
    requires ValidRecord(r)
    ensures ReadRecord(o, RecordBytes(o, r) + rest) == Some(r)
    ensures (RecordBytes(o, r) + rest)[16 + |r.data|..] == rest
  {
    Widths();
    NumRoundTrip(o, r.sec, 4);
    NumRoundTrip(o, r.us, 4);
    NumRoundTrip(o, |r.data|, 4);
    NumRoundTrip(o, r.orig, 4);
    hide Num, Value;
    RecordParts(Num(o, r.sec, 4), Num(o, r.us, 4), Num(o, |r.data|, 4), Num(o, r.orig, 4), r.data, rest);
  }

  lemma RecordsCons(o: Order, r: Record, rest: bytes)
    requires ValidRecord(r)
    ensures Records(o, RecordBytes(o, r) + rest) == [r] + Records(o, rest)
  {
    ReadOfRecord(o, r, rest);
    hide ReadRecord, RecordBytes;
  }

  lemma {:induction false} RecordsOfAll(o: Order, rs: seq<Record>, rest: bytes)
    requires forall r :: r in rs ==> ValidRecord(r)
    ensures Records(o, AllBytes(o, rs) + rest) == rs + Records(o, rest)
  {
    hide Records, RecordBytes, ValidRecord;
    if rs == [] {
      assert AllBytes(o, rs) + rest == rest;
    } else {
      var more := AllBytes(o, rs[1..]) + rest;
      RecordsOfAll(o, rs[1..], rest);
      RecordsCons(o, rs[0], more);
      assert AllBytes(o, rs) + rest == RecordBytes(o, rs[0]) + more;
      assert [rs[0]] + (rs[1..] + Records(o, rest)) == rs + Records(o, rest);
    }
  }

  function Seen(rs: seq<Record>): seq<Item> {
    if rs == [] then [] else [Packet(Time(rs[0]), rs[0].data, rs[0].orig)] + Seen(rs[1..])
  }

  lemma TimeFits(r: Record)
    requires ValidRecord(r)
    ensures Time(r) < WORD * WORD
  {
  }

  lemma {:induction false} ItemsOfBlocks(rs: seq<Record>)
    requires forall r :: r in rs ==> ValidRecord(r)
    ensures Items(Concat(PacketBlocks(rs))) == Some(Seen(rs))
  {
    if rs != [] {
      ItemsOfBlocks(rs[1..]);
      TimeFits(rs[0]);
      hide Items, Captured, Time;
      assert PacketBlocks(rs)[1..] == PacketBlocks(rs[1..]);
      ItemsOfPacket(Time(rs[0]), rs[0].data, rs[0].orig, Concat(PacketBlocks(rs[1..])));
    }
  }

  lemma BlocksOfFile(o: Order, link: nat, filler: bytes, rs: seq<Record>)
    requires |filler| == 12 && link <= 65535 && forall r :: r in rs ==> ValidRecord(r)
    ensures Blocks(FileHeader(o, link, filler) + AllBytes(o, rs)) == [Section(link)] + PacketBlocks(rs)
  {
    var h := FileHeader(o, link, filler);
    ReadOfHeader(o, link, filler);
    assert (h + AllBytes(o, rs))[..24] == h && (h + AllBytes(o, rs))[24..] == AllBytes(o, rs) + [];
    RecordsOfAll(o, rs, []);
    assert rs + [] == rs;
  }

  /** A capture in either byte order reads back from the emitted pcapng as the same link type
      and, packet by packet, the same instant, bytes and original length. */
  lemma ConversionKeepsCapture(o: Order, link: nat, filler: bytes, rs: seq<Record>)
    requires |filler| == 12 && link <= 65535 && forall r :: r in rs ==> ValidRecord(r)
    ensures Items(Concat(Blocks(FileHeader(o, link, filler) + AllBytes(o, rs))))
         == Some([Header, Interface(link)] + Seen(rs))
  {
    BlocksOfFile(o, link, filler, rs);
    ItemsOfBlocks(rs);
    ItemsOfSection(link, Concat(PacketBlocks(rs)));
    hide Items, Section, Blocks;
    assert ([Section(link)] + PacketBlocks(rs))[1..] == PacketBlocks(rs);
  }

  lemma CutRecord(s: bytes, n: nat)
    requires 16 <= n <= |s|
    ensures s == s[..4] + s[4..8] + s[8..12] + s[12..16] + s[16..n] + s[n..]
  {
  }

  lemma ReadInverse(o: Order, s: bytes)
    requires ReadRecord(o, s).Some?
    ensures var r := ReadRecord(o, s).value; s == RecordBytes(o, r) + s[16 + |r.data|..]
  {
    var r := ReadRecord(o, s).value;
    NumInverse(o, s[..4]);
    NumInverse(o, s[4..8]);
    NumInverse(o, s[8..12]);
    NumInverse(o, s[12..16]);
    hide *;
    CutRecord(s, 16 + |r.data|);
  }

  lemma {:induction false} LeInverse(s: bytes)
    ensures Le(FromLe(s), |s|) == s
  {
    if s != [] {
      LeInverse(s[1..]);
      assert FromLe(s) / 256 == FromLe(s[1..]) && FromLe(s) % 256 == s[0];
      assert s == [s[0]] + s[1..];
    }
  }

  lemma NumInverse(o: Order, s: bytes)
    ensures Num(o, Value(o, s), |s|) == s
  {
    if o.Little? { LeInverse(s); } else { BeInverse(s); }
  }

  lemma CutHeader(h: bytes)
    requires |h| == 24
    ensures h == h[..4] + h[4..6] + h[6..8] + h[8..20] + h[20..24]
  {
  }

  /** Only file headers are understood: what passes is one, of version 2.4, in that byte order and
      with that link type. */
  lemma HeaderInverse(h: bytes)
    requires |h| == 24 && ReadHeader(h).Start?
    ensures var start := ReadHeader(h);
      start.link <= 65535 && h == FileHeader(start.order, start.link, h[8..20])
  {
    var start := ReadHeader(h);
    var o := start.order;
    LeInverse(h[..4]);
    LeInverse(Be(MAGIC, 4));
    MagicSwaps();
    NumInverse(o, h[4..6]);
    NumInverse(o, h[6..8]);
    NumInverse(o, h[20..24]);
    CutHeader(h);
    hide FromLe, FromBe, Le, Be;
  }

  /** Any input at all: what is converted is exactly the longest run of valid records in front. */
  lemma {:induction false} LongestValidPrefix(o: Order, s: bytes)
    ensures forall r :: r in Records(o, s) ==> ValidRecord(r)
    ensures |AllBytes(o, Records(o, s))| <= |s|
    ensures s == AllBytes(o, Records(o, s)) + s[|AllBytes(o, Records(o, s))|..]
    ensures ReadRecord(o, s[|AllBytes(o, Records(o, s))|..]).None?
    decreases |s|
  {
    var r := ReadRecord(o, s);
    if r.Some? {
      var head, rest := RecordBytes(o, r.value), s[16 + |r.value.data|..];
      LongestValidPrefix(o, rest);
      ReadInverse(o, s);
      hide ReadRecord, RecordBytes;
      var rs := Records(o, rest);
      assert Records(o, s)[1..] == rs;
      var tail := AllBytes(o, rs);
      assert AllBytes(o, Records(o, s)) == head + tail;
      assert s == head + (tail + rest[|tail|..]);
      assert s[|head + tail|..] == rest[|tail|..];
    }
  }
}
