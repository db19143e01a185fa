/** pcapng blocks (draft-ietf-opsawg-pcapng, sections 3.1 and 4.3) as this program writes them,
    and an independent reader for them. */
module Pcapng {
  import opened Bytes

  const SECTION: nat := 0x0a0d0d0a
  const INTERFACE: nat := 1
  const PACKET: nat := 6
  const WORD: nat := 0x1_0000_0000

  // ---------------------------------------------------------------- writing

  function Padding(n: nat): (k: nat)
    ensures k < 4 && (n + k) % 4 == 0
  {
    (4 - n % 4) % 4
  }

  /** Type and total length in front, the body padded to 32 bits, the total length again. */
  function Block(kind: nat, body: bytes): (b: bytes)
    ensures |b| == BlockSize(|body|)
  {
    Le(kind, 4) + Le(BlockSize(|body|), 4) + (body + Zeros(Padding(|body|))) + Le(BlockSize(|body|), 4)
  }

  function BlockSize(n: nat): (t: nat)
    ensures t % 4 == 0 && t >= n + 12
  {
    n + Padding(n) + 12
  }

  /** A section header and the description of its one interface, always emitted together. */
  function Section(link: nat): bytes {
    Block(SECTION, SectionBody()) + Block(INTERFACE, InterfaceBody(link))
  }

  function SectionBody(): (b: bytes)
    ensures |b| == 16
  {
    Le(0x1a2b3c4d, 4) + Le(1, 2) + [0, 0] + [255, 255, 255, 255, 255, 255, 255, 255]
  }

  function InterfaceBody(link: nat): (b: bytes)
    ensures |b| == 8
  {
    Le(link, 2) + [0, 0] + Le(262144, 4)
  }

  /** The fixed part of an enhanced packet block: interface 0, time, captured and original size. */
  function PacketHead(ts: nat, size: nat, orig: nat): (h: bytes)
    ensures |h| == 20
  {
    [0, 0, 0, 0] + Le(ts / WORD, 4) + Le(ts % WORD, 4) + Le(size, 4) + Le(orig, 4)
  }

  function Captured(ts: nat, data: bytes, orig: nat): bytes {
    Block(PACKET, PacketHead(ts, |data|, orig) + data)
  }

  // ---------------------------------------------------------------- reading

  datatype Parsed = Bad | Parsed(kind: nat, content: bytes, rest: bytes)

  /** The first block of `s`: both lengths must agree, be whole words and lie within `s`. */
  function FirstBlock(s: bytes): (p: Parsed)
    ensures p.Parsed? ==> |p.rest| < |s|
  {
    if |s| < 12 then Bad
    else
      var t := FromLe(s[4..8]);
      if t < 12 || t % 4 != 0 || t > |s| || FromLe(s[t - 4..t]) != t then Bad
      else Parsed(FromLe(s[..4]), s[8..t - 4], s[t..])
  }

  datatype Item = Header | Interface(link: nat) | Packet(ts: nat, data: bytes, orig: nat) | Other(kind: nat)

  function Meaning(kind: nat, c: bytes): Item {
    if kind == SECTION then Header
    else if kind == INTERFACE && |c| >= 2 then Interface(FromLe(c[..2]))
    else if kind == PACKET && |c| >= 20 && FromLe(c[12..16]) <= |c| - 20 then
      Packet(FromLe(c[4..8]) * WORD + FromLe(c[8..12]), c[20..20 + FromLe(c[12..16])], FromLe(c[16..20]))
    else Other(kind)
  }

  /** Every block of `s` in order, if `s` is exactly a sequence of blocks. */
  function Items(s: bytes): Option<seq<Item>>
    decreases |s|
  {
    if s == [] then Some([])
    else match FirstBlock(s)
      case Bad => None
      case Parsed(kind, content, rest) =>
        var more := Items(rest);
        if more.None? then None else Some([Meaning(kind, content)] + more.value)
  }

  // ---------------------------------------------------------------- one undoes the other

  lemma BlockParts(kind: bytes, size: bytes, body: bytes, again: bytes, rest: bytes)
    requires |kind| == 4 && |size| == 4 && |again| == 4
    ensures var s := kind + size + body + again + rest; var t := |body| + 12;
      s[..4] == kind && s[4..8] == size && s[8..t - 4] == body && s[t - 4..t] == again && s[t..] == rest
  {
  }

  /** A block followed by anything reads back as itself: its lengths fix where it ends. */
  lemma FirstOfBlock(kind: nat, body: bytes, rest: bytes)
    requires kind < WORD && BlockSize(|body|) < WORD
    ensures FirstBlock(Block(kind, body) + rest) == Parsed(kind, body + Zeros(Padding(|body|)), rest)
  {
    var t := BlockSize(|body|);
    var padded := body + Zeros(Padding(|body|));
    Widths();
    LeRoundTrip(kind, 4);
    LeRoundTrip(t, 4);
    hide Le, FromLe, Padding;
    BlockParts(Le(kind, 4), Le(t, 4), padded, Le(t, 4), rest);
    var s := Block(kind, body) + rest;
    assert s == Le(kind, 4) + Le(t, 4) + padded + Le(t, 4) + rest;
  }

  lemma PacketParts(zero: bytes, hi: bytes, lo: bytes, size: bytes, orig: bytes, data: bytes, pad: bytes)
    requires |zero| == |hi| == |lo| == |size| == |orig| == 4
    ensures var c := zero + hi + lo + size + orig + data + pad;
      c[4..8] == hi && c[8..12] == lo && c[12..16] == size && c[16..20] == orig && c[20..20 + |data|] == data
  {
  }

  lemma MeaningOfPacket(ts: nat, data: bytes, orig: nat, pad: bytes)
    requires ts < WORD * WORD && |data| < WORD && orig < WORD
    ensures Meaning(PACKET, PacketHead(ts, |data|, orig) + data + pad) == Packet(ts, data, orig)
  {
    Widths();
    LeRoundTrip(ts / WORD, 4);
    LeRoundTrip(ts % WORD, 4);
    LeRoundTrip(|data|, 4);
    LeRoundTrip(orig, 4);
    hide Le, FromLe;
    PacketParts([0, 0, 0, 0], Le(ts / WORD, 4), Le(ts % WORD, 4), Le(|data|, 4), Le(orig, 4), data, pad);
  }

  lemma MeaningOfInterface(link: nat, pad: bytes)
    requires link < 0x1_0000
    ensures Meaning(INTERFACE, InterfaceBody(link) + pad) == Interface(link)
  {
    Widths();
    LeRoundTrip(link, 2);
    hide Le, FromLe;
    assert (InterfaceBody(link) + pad)[..2] == Le(link, 2);
  }

  lemma ItemsOfBlock(kind: nat, body: bytes, rest: bytes)
    requires kind < WORD && BlockSize(|body|) < WORD && Items(rest).Some?
    ensures Items(Block(kind, body) + rest)
         == Some([Meaning(kind, body + Zeros(Padding(|body|)))] + Items(rest).value)
  {
    FirstOfBlock(kind, body, rest);
    hide FirstBlock, Meaning, Block, Padding;
    assert Block(kind, body) + rest != [];
  }

  lemma ItemsOfPacket(ts: nat, data: bytes, orig: nat, rest: bytes)
    requires ts < WORD * WORD && |data| <= 262144 && orig < WORD && Items(rest).Some?
    ensures Items(Captured(ts, data, orig) + rest) == Some([Packet(ts, data, orig)] + Items(rest).value)
  {
    var body := PacketHead(ts, |data|, orig) + data;
    ItemsOfBlock(PACKET, body, rest);
    MeaningOfPacket(ts, data, orig, Zeros(Padding(|body|)));
  }

  lemma ItemsOfInterface(link: nat, rest: bytes)
    requires link < 0x1_0000 && Items(rest).Some?
    ensures Items(Block(INTERFACE, InterfaceBody(link)) + rest) == Some([Interface(link)] + Items(rest).value)
  {
    var body := InterfaceBody(link);
    ItemsOfBlock(INTERFACE, body, rest);
    MeaningOfInterface(link, Zeros(Padding(|body|)));
  }

  lemma ItemsOfHeader(body: bytes, rest: bytes)
    requires BlockSize(|body|) < WORD && Items(rest).Some?
    ensures Items(Block(SECTION, body) + rest) == Some([Header] + Items(rest).value)
  {
    ItemsOfBlock(SECTION, body, rest);
    hide Items, Block, Zeros;
  }

  lemma ItemsOfSection(link: nat, rest: bytes)
    requires link < 0x1_0000 && Items(rest).Some?
    ensures Items(Section(link) + rest) == Some([Header, Interface(link)] + Items(rest).value)
  {
    hide Items, SectionBody, InterfaceBody, Block;
    ItemsOfInterface(link, rest);
    var shb, idb := Block(SECTION, SectionBody()), Block(INTERFACE, InterfaceBody(link));
    ItemsOfHeader(SectionBody(), idb + rest);
    assert Section(link) + rest == shb + (idb + rest);
    assert [Header] + ([Interface(link)] + Items(rest).value) == [Header, Interface(link)] + Items(rest).value;
  }
}
