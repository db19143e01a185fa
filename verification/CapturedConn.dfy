/** A proxied connection whose reads and writes are recorded into the running session. */
module CapturedConn {
  import opened Bytes
  import opened Modular
  import opened TcpTrace
  import opened CaptureSession
  import Pcapng
  import AwgCapture
  import SyntheticPacket

  // ---------------------------------------------------------------- segments as blocks

  function Bits(k: Kind): (b: byte)
    ensures b == 2 || b == 16 || b == 18 || b == 24
  {
    match k
    case Syn => 2
    case SynAck => 18
    case Ack => 16
    case Push => 24
  }

  function BodyOf(s: Seg): SyntheticPacket.Body { SyntheticPacket.Body(false, s.seqno, s.ack, Bits(s.kind), s.data) }

  function Toward(e: SyntheticPacket.Ends, up: bool): SyntheticPacket.Ends {
    if up then e else SyntheticPacket.Reverse(e)
  }

  function PacketOf(e: SyntheticPacket.Ends, s: Seg): bytes
    requires SyntheticPacket.ValidEnds(e)
  {
    SyntheticPacket.Packet(Toward(e, s.up), BodyOf(s))
  }

  function BlockOf(e: SyntheticPacket.Ends, comment: bytes, now: nat, s: Seg): bytes
    requires SyntheticPacket.ValidEnds(e)
  {
    AwgCapture.Annotated(now, PacketOf(e, s), comment)
  }

  /** The blocks of consecutive segments, the first being the connection's packet number `from`;
      `clock` gives the instant of each packet. */
  function BlocksFor(e: SyntheticPacket.Ends, comment: bytes, clock: nat -> nat, from: nat, ss: seq<Seg>): seq<bytes>
    requires SyntheticPacket.ValidEnds(e)
    decreases |ss|
  {
    if ss == [] then [] else [BlockOf(e, comment, clock(from), ss[0])] + BlocksFor(e, comment, clock, from + 1, ss[1..])
  }

  lemma {:induction false} BlocksForAppend(e: SyntheticPacket.Ends, comment: bytes, clock: nat -> nat, from: nat,
          a: seq<Seg>, b: seq<Seg>)
    requires SyntheticPacket.ValidEnds(e)
    ensures BlocksFor(e, comment, clock, from, a + b)
         == BlocksFor(e, comment, clock, from, a) + BlocksFor(e, comment, clock, from + |a|, b)
    decreases |a|
  {
    hide BlockOf;
    if a == [] {
      assert a + b == b;
    } else {
      BlocksForAppend(e, comment, clock, from + 1, a[1..], b);
      assert (a + b)[1..] == a[1..] + b;
    }
  }

  lemma TcpParts(ip: bytes, ports: bytes, seqno: bytes, ack: bytes, off: byte, flags: byte, rest: bytes, data: bytes)
    requires |ip| == 20 && |ports| == 4 && |seqno| == 4 && |ack| == 4 && |rest| == 6
    ensures var p := ip + (ports + seqno + ack + [off, flags] + rest + data);
      && p[20..24] == ports && p[24..28] == seqno && p[28..32] == ack && p[32] == off && p[33] == flags
      && p[34..40] == rest && p[40..] == data
  {
  }

  /** Numbers that fit their fields, and none acknowledged by the first segment. */
  predicate Numbered(s: Seg) { s.seqno < CYCLE && s.ack < CYCLE && (s.kind.Syn? ==> s.ack == 0) }

  /** A TCP packet read at the offsets of RFC 9293, section 3.1, gives back its segment. */
  lemma SegmentReadable(e: SyntheticPacket.Ends, s: Seg)
    requires SyntheticPacket.ValidEnds(e) && Numbered(s)
    ensures var p, t := PacketOf(e, s), Toward(e, s.up);
      && |p| == 40 + |s.data| && p[9] == 6 && p[12..16] == t.src && p[16..20] == t.dst
      && p[20..24] == Be(t.sport, 2) + Be(t.dport, 2)
      && FromBe(p[24..28]) == s.seqno && FromBe(p[28..32]) == s.ack
      && p[32] == 0x50 && p[33] == Bits(s.kind) && p[34..36] == [0xff, 0xff] && p[40..] == s.data
  {
    var t, b := Toward(e, s.up), BodyOf(s);
    Widths();
    BeRoundTrip(s.seqno, 4);
    BeRoundTrip(s.ack, 4);
    SyntheticPacket.PacketParts(t, b);
    var p, sum := PacketOf(e, s), Be(SyntheticPacket.SegmentSum(t, b), 2);
    assert SyntheticPacket.HeaderSize(b.udp) == 20 && SyntheticPacket.Proto(b.udp) == 6;
    assert Be(0xffff, 2) == [0xff, 0xff];
    Layout(t, s, sum);
    hide *;
    TcpParts(p[..20], Ports(t), Be(s.seqno, 4), AckField(s), 0x50, Bits(s.kind), Be(0xffff, 2) + sum + [0, 0], s.data);
    assert p == p[..20] + p[20..];
    assert p[34..36] == p[34..40][..2] && (Be(0xffff, 2) + sum + [0, 0])[..2] == Be(0xffff, 2);
    AckCarried(s);
    assert Ports(t) == Be(t.sport, 2) + Be(t.dport, 2) by { PortsAre(t); }
  }

  function Ports(t: SyntheticPacket.Ends): (p: bytes)
    ensures |p| == 4
  {
    Be(t.sport, 2) + Be(t.dport, 2)
  }

  lemma PortsAre(t: SyntheticPacket.Ends)
    ensures Ports(t) == Be(t.sport, 2) + Be(t.dport, 2)
  {
  }

  function AckField(s: Seg): (a: bytes)
    ensures |a| == 4
  {
    Be(if s.kind.Syn? then 0 else s.ack, 4)
  }

  lemma AckCarried(s: Seg)
    requires Numbered(s)
    ensures AckField(s) == Be(s.ack, 4)
  {
  }

  lemma Layout(t: SyntheticPacket.Ends, s: Seg, sum: bytes)
    requires |sum| == 2
    ensures SyntheticPacket.Segment(t, BodyOf(s), sum)
         == Ports(t) + Be(s.seqno, 4) + AckField(s) + [0x50, Bits(s.kind)] + (Be(0xffff, 2) + sum + [0, 0]) + s.data
  {
    hide Be;
    SegmentGroups(Ports(t), Be(s.seqno, 4), AckField(s), [0x50, Bits(s.kind)], Be(0xffff, 2), sum, s.data);
  }

  lemma SegmentGroups(ports: bytes, seqno: bytes, ack: bytes, flags: bytes, window: bytes, sum: bytes, data: bytes)
    ensures ports + (seqno + ack + flags + window) + sum + ([0, 0] + data)
         == ports + seqno + ack + flags + (window + sum + [0, 0]) + data
  {
  }

  // ---------------------------------------------------------------- what a record adds

  /** The capture this connection is part of and its counters there. */
  datatype Progress = Progress(session: Option<nat>, counters: Counters)

  function Joined(p: Progress, id: nat): Counters {
    if p.session == Some(id) then p.counters else Opened()
  }

  function RecordSegments(p: Progress, id: nat, r: Rec): seq<Seg> {
    (if p.session == Some(id) then [] else Handshake()) + Segments(Joined(p, id), r.up, r.data)
  }

  function RecordNext(p: Progress, id: nat, r: Rec): Progress {
    Progress(Some(id), Counted(Joined(p, id), r.up, r.data))
  }

  /** A record, with the session that was the running one when it began. The session is looked up
      before the connection's lock is taken, so a record for an earlier session may come late. */
  datatype Entry = Entry(id: nat, rec: Rec)

  /** The segments that a connection's records, in the order of its lock, put into session `id`. */
  function Deposited(p: Progress, es: seq<Entry>, id: nat): seq<Seg>
    decreases |es|
  {
    if es == [] then []
    else
      (if es[0].id == id then RecordSegments(p, id, es[0].rec) else [])
      + Deposited(RecordNext(p, es[0].id, es[0].rec), es[1..], id)
  }

  /** The records made for session `id`. */
  function Recorded(es: seq<Entry>, id: nat): seq<Rec> {
    if es == [] then [] else (if es[0].id == id then [es[0].rec] else []) + Recorded(es[1..], id)
  }

  /** No record for another session falls between two for session `id`. */
  predicate Unbroken(es: seq<Entry>, id: nat) {
    forall i, j, k :: 0 <= i < j < k < |es| && es[i].id == id && es[k].id == id ==> es[j].id == id
  }

  /** Once a record is for another session, all later ones are. */
  predicate Left(es: seq<Entry>, id: nat) {
    forall j, k :: 0 <= j < k < |es| && es[k].id == id ==> es[j].id == id
  }

  predicate Absent(es: seq<Entry>, id: nat) { forall j :: 0 <= j < |es| ==> es[j].id != id }

  lemma {:induction false} NothingDeposited(p: Progress, es: seq<Entry>, id: nat)
    requires Absent(es, id)
    ensures Deposited(p, es, id) == [] && Recorded(es, id) == []
    decreases |es|
  {
    hide RecordSegments;
    if es != [] { NothingDeposited(RecordNext(p, es[0].id, es[0].rec), es[1..], id); }
  }

  lemma {:induction false} JoinedBody(p: Progress, es: seq<Entry>, id: nat)
    requires p.session == Some(id) && Left(es, id)
    ensures Deposited(p, es, id) == Body(p.counters, Recorded(es, id))
    decreases |es|
  {
    if es != [] {
      if es[0].id == id {
        JoinedBody(RecordNext(p, id, es[0].rec), es[1..], id);
        var r := es[0].rec;
        assert [] + Segments(p.counters, r.up, r.data) == Segments(p.counters, r.up, r.data);
        assert Recorded(es, id)[1..] == Recorded(es[1..], id);
      } else {
        assert Absent(es, id);
        NothingDeposited(p, es, id);
      }
    }
  }

  lemma {:induction false} UnbrokenTrace(p: Progress, es: seq<Entry>, id: nat)
    requires p.session != Some(id) && Unbroken(es, id)
    ensures Deposited(p, es, id) == Trace(Recorded(es, id))
    decreases |es|
  {
    if es != [] {
      var r, rest := es[0].rec, es[1..];
      hide Unbroken, Left, Absent, Handshake, Segments, Counted, Opened;
      ShowRest(es, id);
      if es[0].id == id {
        JoinedBody(RecordNext(p, id, r), rest, id);
        assert Recorded(es, id)[1..] == Recorded(rest, id);
        var head, more := Segments(Opened(), r.up, r.data), Body(Counted(Opened(), r.up, r.data), Recorded(rest, id));
        assert Handshake() + head + more == Handshake() + (head + more);
      } else {
        var n := RecordNext(p, es[0].id, r);
        UnbrokenTrace(n, rest, id);
        assert [] + Recorded(rest, id) == Recorded(rest, id) && [] + Deposited(n, rest, id) == Deposited(n, rest, id);
      }
    }
  }

  /** The handshakes among segments. */
  function Syns(ss: seq<Seg>): nat { if ss == [] then 0 else (if ss[0].kind.Syn? then 1 else 0) + Syns(ss[1..]) }

  lemma {:induction false} SynsAppend(a: seq<Seg>, b: seq<Seg>)
    ensures Syns(a + b) == Syns(a) + Syns(b)
  {
    if a == [] {
      assert a + b == b;
    } else {
      SynsAppend(a[1..], b);
      assert (a + b)[1..] == a[1..] + b;
    }
  }

  lemma {:induction false} DataHasNoSyn(c: Counters, up: bool, data: bytes)
    ensures Syns(Segments(c, up, data)) == 0
    decreases |data|
  {
    if data != [] {
      var n := Min(CHUNK, |data|);
      var d := Advance(c, up, n);
      DataHasNoSyn(d, up, data[n..]);
      SynsAppend([Make(c, up, Push, data[..n]), Make(d, !up, Ack, [])], Segments(d, up, data[n..]));
      assert [Make(c, up, Push, data[..n]), Make(d, !up, Ack, [])][1..] == [Make(d, !up, Ack, [])];
    }
  }

  lemma {:induction false} BodyHasNoSyn(c: Counters, rs: seq<Rec>)
    ensures Syns(Body(c, rs)) == 0
    decreases |rs|
  {
    if rs != [] {
      DataHasNoSyn(c, rs[0].up, rs[0].data);
      BodyHasNoSyn(Counted(c, rs[0].up, rs[0].data), rs[1..]);
      SynsAppend(Segments(c, rs[0].up, rs[0].data), Body(Counted(c, rs[0].up, rs[0].data), rs[1..]));
    }
  }

  lemma OneSyn()
    ensures Syns(Handshake()) == 1
  {
    var h := Handshake();
    HandshakeParts();
    hide Handshake;
    assert h == [h[0]] + ([h[1]] + [h[2]]);
    SynsAppend([h[0]], [h[1]] + [h[2]]);
    SynsAppend([h[1]], [h[2]]);
  }

  /** How often the records come to session `id` from elsewhere. */
  function Entrances(inside: bool, es: seq<Entry>, id: nat): nat
    decreases |es|
  {
    if es == [] then 0
    else (if es[0].id == id && !inside then 1 else 0) + Entrances(es[0].id == id, es[1..], id)
  }

  lemma {:induction false} HandshakePerEntrance(p: Progress, es: seq<Entry>, id: nat)
    ensures Syns(Deposited(p, es, id)) == Entrances(p.session == Some(id), es, id)
    decreases |es|
  {
    if es != [] {
      var r, n := es[0].rec, RecordNext(p, es[0].id, es[0].rec);
      HandshakePerEntrance(n, es[1..], id);
      DataHasNoSyn(Joined(p, id), r.up, r.data);
      OneSyn();
      hide Handshake, Segments;
      SynsAppend(if p.session == Some(id) then [] else Handshake(), Segments(Joined(p, id), r.up, r.data));
      SynsAppend(if es[0].id == id then RecordSegments(p, id, r) else [], Deposited(n, es[1..], id));
    }
  }

  lemma {:induction false} EntrancesShow(es: seq<Entry>, id: nat)
    ensures Entrances(false, es, id) == 0 <==> Absent(es, id)
    ensures Entrances(true, es, id) == 0 <==> Left(es, id)
    ensures Entrances(false, es, id) <= 1 <==> Unbroken(es, id)
    decreases |es|
  {
    if es != [] {
      EntrancesShow(es[1..], id);
      ShowRest(es, id);
      hide Absent, Left, Unbroken;
    }
  }

  lemma ShowRest(es: seq<Entry>, id: nat)
    requires es != []
    ensures Absent(es, id) <==> es[0].id != id && Absent(es[1..], id)
    ensures Left(es, id) <==> if es[0].id == id then Left(es[1..], id) else Absent(es[1..], id)
    ensures Unbroken(es, id) <==> if es[0].id == id then Left(es[1..], id) else Unbroken(es[1..], id)
  {
  }

  /** What a connection's records put into a session is its trace, one handshake and then every
      byte recorded there, if and only if no record for another session falls between them. */
  lemma RecordsMakeTrace(p: Progress, es: seq<Entry>, id: nat)
    requires p.session != Some(id)
    ensures Deposited(p, es, id) == Trace(Recorded(es, id)) <==> Unbroken(es, id)
  {
    EntrancesShow(es, id);
    HandshakePerEntrance(p, es, id);
    OneTraceSyn(Recorded(es, id));
    hide Deposited, Trace, Unbroken, Syns, Entrances, Recorded;
    if Unbroken(es, id) { UnbrokenTrace(p, es, id); }
  }

  lemma OneTraceSyn(rs: seq<Rec>)
    ensures Syns(Trace(rs)) <= 1
  {
    OneSyn();
    BodyHasNoSyn(Opened(), rs);
    SynsAppend(Handshake(), Body(Opened(), rs));
  }

  // ---------------------------------------------------------------- the connection object

  class Connection {
    const udp: bool
    const ends: SyntheticPacket.Ends
    const comment: bytes
    var session: Option<nat>
    var counters: Counters
    var emitted: nat // packets offered so far

    ghost predicate Valid() { SyntheticPacket.ValidEnds(ends) }

    ghost function State(): Progress
      reads this
    {
      Progress(session, counters)
    }

    constructor (udp: bool, ends: SyntheticPacket.Ends, comment: bytes)
      requires SyntheticPacket.ValidEnds(ends)
      ensures Valid() && session == None && this.udp == udp && this.ends == ends && this.comment == comment
    {
      this.udp, this.ends, this.comment := udp, ends, comment;
      session, counters, emitted := None, First(), 0;
    }

    /** Builds a packet and offers its block to the session; nothing for data too long. */
    method EmitBody(s: Session, up: bool, body: SyntheticPacket.Body, now: nat)
      requires Valid() && s.Valid()
      modifies s
      ensures s.Valid() && unchanged(this)
      ensures s.State() == if SyntheticPacket.Fits(body)
                           then Offer(old(s.State()),
                             AwgCapture.Annotated(now, SyntheticPacket.Packet(Toward(ends, up), body), comment))
                           else old(s.State())
    {
      hide SyntheticPacket.Packet, AwgCapture.Options, Pcapng.PacketHead, Pcapng.Block, Offer;
      var p := SyntheticPacket.Build(Toward(ends, up), body);
      if p.None? { return; }
      var packet := p.value;
      var block := AwgCapture.BuildBlock(Pcapng.PACKET,
        Pcapng.PacketHead(now, |packet|, |packet|) + packet + AwgCapture.Options(|packet|, comment));
      var ok := s.Emit(block[..], now);
    }

    method EmitSegment(s: Session, up: bool, kind: Kind, data: bytes, clock: nat -> nat)
      requires Valid() && s.Valid() && |data| <= CHUNK
      modifies s, this`emitted
      ensures s.Valid() && emitted == old(emitted) + 1
      ensures s.State() == Offer(old(s.State()),
        BlockOf(ends, comment, clock(old(emitted)), Make(counters, up, kind, data)))
    {
      hide AwgCapture.Annotated, SyntheticPacket.Packet, Offer;
      EmitBody(s, up, BodyOf(Make(counters, up, kind, data)), clock(emitted));
      emitted := emitted + 1;
    }

    method Open(s: Session, clock: nat -> nat)
      requires Valid() && s.Valid()
      modifies s, this`counters, this`emitted
      ensures s.Valid() && counters == Opened() && emitted == old(emitted) + 3
      ensures s.State() == OfferAll(old(s.State()), BlocksFor(ends, comment, clock, old(emitted), Handshake()))
    {
      hide BlockOf, Offer, OfferAll, BlocksFor, Make;
      ghost var k := s.State();
      HandshakeOffers(ends, comment, clock, emitted, k);
      HandshakeParts();
      hide Handshake;
      counters := First();
      EmitSegment(s, true, Syn, [], clock);
      counters := counters.(up := Wrap(counters.up + 1, CYCLE));
      assert counters == Counters(1001, 2000);
      EmitSegment(s, false, SynAck, [], clock);
      counters := counters.(down := Wrap(counters.down + 1, CYCLE));
      assert counters == Opened();
      EmitSegment(s, true, Ack, [], clock);
    }

    method RecordData(s: Session, up: bool, data: bytes, clock: nat -> nat)
      requires Valid() && s.Valid()
      modifies s, this`counters, this`emitted
      ensures s.Valid() && counters == Counted(old(counters), up, data)
      ensures emitted == old(emitted) + |Segments(old(counters), up, data)|
      ensures s.State()
           == OfferAll(old(s.State()), BlocksFor(ends, comment, clock, old(emitted), Segments(old(counters), up, data)))
    {
      hide BlockOf, Offer, BlocksFor, OfferAll;
      var p := data;
      ghost var done: seq<Seg> := [];
      NoOffers(s.State(), ends, comment, clock, emitted);
      while p != []
        invariant s.Valid()
        invariant Segments(old(counters), up, data) == done + Segments(counters, up, p)
        invariant Counted(old(counters), up, data) == Counted(counters, up, p)
        invariant emitted == old(emitted) + |done|
        invariant s.State() == OfferAll(old(s.State()), BlocksFor(ends, comment, clock, old(emitted), done))
        decreases |p|
      {
        var n := Min(CHUNK, |p|);
        ghost var first := Make(counters, up, Push, p[..n]);
        EmitSegment(s, up, Push, p[..n], clock);
        OfferedOne(old(s.State()), ends, comment, clock, old(emitted), done, first);
        counters := Advance(counters, up, n);
        ghost var second := Make(counters, !up, Ack, []);
        EmitSegment(s, !up, Ack, [], clock);
        OfferedOne(old(s.State()), ends, comment, clock, old(emitted), done + [first], second);
        PairUp(done, first, second, Segments(counters, up, p[n..]));
        done := done + [first] + [second];
        p := p[n..];
      }
      assert done + [] == done;
    }

    /** Records one read or write into the session `id` that is running for this user. */
    method Record(s: Session, id: nat, up: bool, data: bytes, clock: nat -> nat)
      requires Valid() && s.Valid()
      modifies s, this
      ensures s.Valid()
      ensures !udp ==> State() == RecordNext(old(State()), id, Rec(up, data))
      ensures !udp ==> s.State() == OfferAll(old(s.State()),
        BlocksFor(ends, comment, clock, old(emitted), RecordSegments(old(State()), id, Rec(up, data))))
      ensures udp && |data| + 28 > 0xffff ==> s.State() == old(s.State())
      ensures udp && |data| + 28 <= 0xffff ==> exists n, a :: s.State() == Offer(old(s.State()),
        AwgCapture.Annotated(clock(old(emitted)),
          SyntheticPacket.Packet(Toward(ends, up), SyntheticPacket.Body(true, n, a, 0, data)), comment))
    {
      hide Segments, Counted, Handshake, BlocksFor, OfferAll, Offer, SyntheticPacket.Packet, AwgCapture.Annotated;
      ghost var joined := session == Some(id);
      ghost var k := s.State();
      if session != Some(id) {
        session, counters := Some(id), First();
        if !udp { Open(s, clock); }
      }
      if udp {
        var seqno, ack := if up then counters.up else counters.down, if up then counters.down else counters.up;
        EmitBody(s, up, SyntheticPacket.Body(true, seqno, ack, 0, data), clock(emitted));
        emitted := emitted + 1;
        return;
      }
      ghost var from := counters;
      RecordData(s, up, data, clock);
      if joined {
        assert [] + Segments(from, up, data) == Segments(from, up, data);
      } else {
        HandshakeParts();
        OfferedRun(k, ends, comment, clock, old(emitted), Handshake(), Segments(from, up, data));
      }
    }
  }

  lemma HandshakeParts()
    ensures var h := Handshake();
      && |h| == 3 && h[0] == Make(First(), true, Syn, [])
      && h[1] == Make(Counters(1001, 2000), false, SynAck, []) && h[2] == Make(Opened(), true, Ack, [])
  {
  }

  lemma NoOffers(k: Kept, e: SyntheticPacket.Ends, comment: bytes, clock: nat -> nat, from: nat)
    requires SyntheticPacket.ValidEnds(e)
    ensures OfferAll(k, BlocksFor(e, comment, clock, from, [])) == k
  {
  }

  lemma OfferedRun(k: Kept, e: SyntheticPacket.Ends, comment: bytes, clock: nat -> nat, from: nat, a: seq<Seg>,
          b: seq<Seg>)
    requires SyntheticPacket.ValidEnds(e)
    ensures OfferAll(OfferAll(k, BlocksFor(e, comment, clock, from, a)), BlocksFor(e, comment, clock, from + |a|, b))
         == OfferAll(k, BlocksFor(e, comment, clock, from, a + b))
  {
    BlocksForAppend(e, comment, clock, from, a, b);
    OfferAllAppend(k, BlocksFor(e, comment, clock, from, a), BlocksFor(e, comment, clock, from + |a|, b));
  }

  lemma OfferedOne(k: Kept, e: SyntheticPacket.Ends, comment: bytes, clock: nat -> nat, from: nat, done: seq<Seg>,
          s: Seg)
    requires SyntheticPacket.ValidEnds(e)
    ensures Offer(OfferAll(k, BlocksFor(e, comment, clock, from, done)), BlockOf(e, comment, clock(from + |done|), s))
         == OfferAll(k, BlocksFor(e, comment, clock, from, done + [s]))
  {
    OfferedRun(k, e, comment, clock, from, done, [s]);
    hide Offer, BlockOf;
    var b := BlockOf(e, comment, clock(from + |done|), s);
    assert BlocksFor(e, comment, clock, from + |done|, [s]) == [b];
    var x := OfferAll(k, BlocksFor(e, comment, clock, from, done));
    assert OfferAll(x, [b]) == Offer(x, b);
  }

  lemma PairUp(done: seq<Seg>, a: Seg, b: Seg, more: seq<Seg>)
    ensures done + ([a, b] + more) == done + [a] + [b] + more
  {
  }

  lemma HandshakeOffers(e: SyntheticPacket.Ends, comment: bytes, clock: nat -> nat, from: nat, k: Kept)
    requires SyntheticPacket.ValidEnds(e)
    ensures var h := Handshake();
      Offer(Offer(Offer(k, BlockOf(e, comment, clock(from), h[0])), BlockOf(e, comment, clock(from + 1), h[1])),
            BlockOf(e, comment, clock(from + 2), h[2]))
      == OfferAll(k, BlocksFor(e, comment, clock, from, h))
  {
    var h := Handshake();
    assert |h| == 3 && h == [h[0], h[1], h[2]];
    hide Handshake;
    ThreeOffers(e, comment, clock, from, k, h[0], h[1], h[2]);
  }

  lemma ThreeOffers(e: SyntheticPacket.Ends, comment: bytes, clock: nat -> nat, from: nat, k: Kept, a: Seg, b: Seg,
          c: Seg)
    requires SyntheticPacket.ValidEnds(e)
    ensures Offer(Offer(Offer(k, BlockOf(e, comment, clock(from), a)), BlockOf(e, comment, clock(from + 1), b)),
                  BlockOf(e, comment, clock(from + 2), c))
         == OfferAll(k, BlocksFor(e, comment, clock, from, [a, b, c]))
  {
    hide *;
    NoOffers(k, e, comment, clock, from);
    OfferedOne(k, e, comment, clock, from, [], a);
    assert [] + [a] == [a];
    OfferedOne(k, e, comment, clock, from, [a], b);
    assert [a] + [b] == [a, b];
    OfferedOne(k, e, comment, clock, from, [a, b], c);
    assert [a, b] + [c] == [a, b, c];
  }

  // ---------------------------------------------------------------- reading a capture back

  function KindOf(bits: nat): Option<Kind> {
    if bits == 2 then Some(Syn)
    else if bits == 18 then Some(SynAck)
    else if bits == 16 then Some(Ack)
    else if bits == 24 then Some(Push)
    else None
  }

  /** Where an IPv4 packet with ports comes from and goes to. */
  function EndsOf(p: bytes): SyntheticPacket.Ends
    requires |p| >= 24
  {
    SyntheticPacket.Ends(p[12..16], p[16..20], FromBe(p[20..22]), FromBe(p[22..24]))
  }

  /** A packet as a segment of the connection between `e`, if it is one. */
  function ReadSegment(e: SyntheticPacket.Ends, p: bytes): Option<Seg> {
    if |p| < 40 || p[9] != 6 || KindOf(p[33]).None? || (EndsOf(p) != e && EndsOf(p) != SyntheticPacket.Reverse(e))
      then None
    else Some(Seg(EndsOf(p) == e, KindOf(p[33]).value, FromBe(p[24..28]), FromBe(p[28..32]), p[40..]))
  }

  /** The segments of one connection among the items of a capture. */
  function Conversation(e: SyntheticPacket.Ends, items: seq<Pcapng.Item>): seq<Seg> {
    if items == [] then []
    else
      var s := if items[0].Packet? then ReadSegment(e, items[0].data) else None;
      (if s.Some? then [s.value] else []) + Conversation(e, items[1..])
  }

  predicate AllValid(ends: map<nat, SyntheticPacket.Ends>) {
    forall a :: a in ends ==> SyntheticPacket.ValidEnds(ends[a])
  }

  /** Connections can be told apart: different ends, in either direction. */
  predicate Separate(ends: map<nat, SyntheticPacket.Ends>) {
    && AllValid(ends)
    && (forall a :: a in ends ==> ends[a] != SyntheticPacket.Reverse(ends[a]))
    && (forall a, b :: a in ends && b in ends && a != b ==>
          ends[a] != ends[b] && ends[a] != SyntheticPacket.Reverse(ends[b]))
  }

  lemma EndsRead(t: SyntheticPacket.Ends, p: bytes)
    requires SyntheticPacket.ValidEnds(t) && |p| >= 24
    requires p[12..16] == t.src && p[16..20] == t.dst && p[20..24] == Be(t.sport, 2) + Be(t.dport, 2)
    ensures EndsOf(p) == t
  {
    Widths();
    BeRoundTrip(t.sport, 2);
    BeRoundTrip(t.dport, 2);
    hide Be, FromBe;
    TwoPorts(p, Be(t.sport, 2), Be(t.dport, 2));
  }

  lemma TwoPorts(p: bytes, a: bytes, b: bytes)
    requires |p| >= 24 && |a| == |b| == 2 && p[20..24] == a + b
    ensures p[20..22] == a && p[22..24] == b
  {
    assert p[20..22] == p[20..24][..2] && p[22..24] == p[20..24][2..];
  }

  /** A packet is read as its segment for its own connection and as nothing for another. */
  lemma PacketRead(e: SyntheticPacket.Ends, f: SyntheticPacket.Ends, s: Seg)
    requires SyntheticPacket.ValidEnds(e) && SyntheticPacket.ValidEnds(f) && Numbered(s)
      && e != SyntheticPacket.Reverse(e)
    ensures f == e ==> ReadSegment(e, PacketOf(f, s)) == Some(s)
    ensures f != e && f != SyntheticPacket.Reverse(e) ==> ReadSegment(e, PacketOf(f, s)) == None
  {
    SegmentReadable(f, s);
    hide PacketOf, Be, FromBe;
    EndsRead(Toward(f, s.up), PacketOf(f, s));
    hide EndsOf;
  }

  /** What may be offered: a connection's block of a segment, or a packet of no connection. */
  ghost predicate Honest(ends: map<nat, SyntheticPacket.Ends>, e: Event)
    requires AllValid(ends)
  {
    e.Offered? ==>
      if e.segment.Some? then
        && e.conn in ends && Numbered(e.segment.value) && |e.segment.value.data| <= CHUNK
        && exists now, comment :: Dated(now, comment) && e.block == BlockOf(ends[e.conn], comment, now, e.segment.value)
      else
        exists now, comment, p: bytes :: Dated(now, comment) && |p| <= 65535
          && e.block == AwgCapture.Annotated(now, p, comment)
          && forall c :: c in ends ==> ReadSegment(ends[c], p).None?
  }

  predicate Dated(now: nat, comment: bytes) { now < Pcapng.WORD * Pcapng.WORD && |comment| <= 65535 }

  lemma {:induction false} SegmentsCons(e: Event, es: seq<Event>, conn: nat)
    ensures SegmentsOf([e] + es, conn)
         == (if e.Offered? && e.conn == conn && e.segment.Some? then [e.segment.value] else []) + SegmentsOf(es, conn)
    decreases |es|
  {
    var all := [e] + es;
    if es == [] {
      assert all[..0] == [];
    } else {
      var n := |es| - 1;
      SegmentsCons(e, es[..n], conn);
      assert all[..|all| - 1] == [e] + es[..n] && all[|all| - 1] == es[n];
    }
  }

  /** One offered block read back: one packet, and of a connection exactly its own segment. */
  lemma BlockRead(ends: map<nat, SyntheticPacket.Ends>, e: Event, conn: nat, more: seq<bytes>)
    requires Separate(ends) && Honest(ends, e) && e.Offered? && conn in ends && Pcapng.Items(Concat(more)).Some?
    ensures var items := Pcapng.Items(Concat([e.block] + more));
      && items.Some?
      && Conversation(ends[conn], items.value)
         == (if e.conn == conn && e.segment.Some? then [e.segment.value] else [])
            + Conversation(ends[conn], Pcapng.Items(Concat(more)).value)
  {
    hide Pcapng.Items, Concat, AwgCapture.Annotated, ReadSegment, PacketOf;
    var now, comment, p;
    if e.segment.Some? {
      var s := e.segment.value;
      now, comment :| Dated(now, comment) && e.block == BlockOf(ends[e.conn], comment, now, s);
      p := PacketOf(ends[e.conn], s);
      SegmentReadable(ends[e.conn], s);
      PacketRead(ends[conn], ends[e.conn], s);
    } else {
      now, comment, p :| Dated(now, comment) && |p| <= 65535 && e.block == AwgCapture.Annotated(now, p, comment)
        && forall c :: c in ends ==> ReadSegment(ends[c], p).None?;
    }
    AwgCapture.OneMore(now, p, comment, more);
    var rest := Pcapng.Items(Concat(more)).value;
    assert ([Pcapng.Packet(now, p, |p|)] + rest)[1..] == rest;
  }

  lemma BlocksOfCons(e: Event, es: seq<Event>)
    requires e.Offered?
    ensures BlocksOf([e] + es) == [e.block] + BlocksOf(es)
  {
  }

  ghost predicate AllHonest(ends: map<nat, SyntheticPacket.Ends>, os: seq<Event>)
    requires AllValid(ends)
  {
    forall i :: 0 <= i < |os| ==> os[i].Offered? && Honest(ends, os[i])
  }

  lemma HonestRest(ends: map<nat, SyntheticPacket.Ends>, os: seq<Event>)
    requires AllValid(ends) && AllHonest(ends, os) && os != []
    ensures os[0].Offered? && Honest(ends, os[0]) && AllHonest(ends, os[1..])
  {
    hide Honest, AllValid;
    assert forall i :: 0 <= i < |os[1..]| ==> os[1..][i] == os[i + 1];
  }

  lemma NothingRead(e: SyntheticPacket.Ends, conn: nat)
    ensures Pcapng.Items(Concat(BlocksOf([]))) == Some([]) && Conversation(e, []) == [] && SegmentsOf([], conn) == []
  {
    assert BlocksOf([]) == [];
    AwgCapture.NoItems();
  }

  lemma {:induction false} OffersRead(ends: map<nat, SyntheticPacket.Ends>, os: seq<Event>, conn: nat)
    requires Separate(ends) && conn in ends && AllHonest(ends, os)
    ensures Pcapng.Items(Concat(BlocksOf(os))).Some?
    ensures Conversation(ends[conn], Pcapng.Items(Concat(BlocksOf(os))).value) == SegmentsOf(os, conn)
    decreases |os|
  {
    assert AllValid(ends);
    hide Honest, AllHonest, Separate, AllValid, Conversation, Concat, Pcapng.Items, BlocksOf, SegmentsOf;
    if os == [] {
      NothingRead(ends[conn], conn);
    } else {
      var rest := os[1..];
      HonestRest(ends, os);
      BlocksOfCons(os[0], rest);
      assert os == [os[0]] + rest;
      OffersRead(ends, rest, conn);
      BlockRead(ends, os[0], conn, BlocksOf(rest));
      SegmentsCons(os[0], rest, conn);
    }
  }

  lemma {:induction false} OffersHonest(ends: map<nat, SyntheticPacket.Ends>, es: seq<Event>)
    requires AllValid(ends) && forall i :: 0 <= i < |es| ==> Honest(ends, es[i])
    ensures AllHonest(ends, Offers(es))
  {
    hide Honest, AllValid;
    if es != [] { OffersHonest(ends, es[..|es| - 1]); }
  }

  /** The bytes of a capture, however its connections interleave with each other and with other
      packets and whenever it fills up or is stopped, read back as pcapng: what belongs to one
      connection is a prefix of that connection's trace, a valid conversation carrying a prefix
      of the recorded bytes of each side; while the capture runs, all that was offered. */
  lemma KeptBytes(ends: map<nat, SyntheticPacket.Ends>, es: seq<Event>, conn: nat, rs: seq<Rec>)
    requires Separate(ends) && conn in ends && forall i :: 0 <= i < |es| ==> Honest(ends, es[i])
    requires SegmentsOf(Offers(es), conn) <= Trace(rs)
    ensures var k := Run(Start(), es); var items := Pcapng.Items(Concat(k.blocks));
      && items.Some?
      && var heard := Conversation(ends[conn], items.value);
        && heard <= Trace(rs) && !Watch(Fresh, heard).Broken?
        && (Watch(Fresh, heard).Established? ==>
              Watch(Fresh, heard).up <= Said(rs, true) && Watch(Fresh, heard).down <= Said(rs, false))
        && (k.running ==> heard == SegmentsOf(Offers(es), conn))
  {
    assert AllValid(ends);
    hide *;
    var k := Run(Start(), es);
    KeptAreOffers(ends, es);
    KeptConversation(es, conn, rs);
    OffersRead(ends, Offers(es)[..|k.blocks|], conn);
  }

  lemma BlocksOfPrefix(os: seq<Event>, n: nat)
    requires n <= |os|
    ensures BlocksOf(os[..n]) == BlocksOf(os)[..n]
  {
  }

  lemma HonestPrefix(ends: map<nat, SyntheticPacket.Ends>, os: seq<Event>, n: nat)
    requires AllValid(ends) && AllHonest(ends, os) && n <= |os|
    ensures AllHonest(ends, os[..n])
  {
    hide Honest, AllValid;
    assert forall i :: 0 <= i < n ==> os[..n][i] == os[i];
  }

  lemma KeptAreOffers(ends: map<nat, SyntheticPacket.Ends>, es: seq<Event>)
    requires AllValid(ends) && forall i :: 0 <= i < |es| ==> Honest(ends, es[i])
    ensures var k := Run(Start(), es);
      && |k.blocks| <= |Offers(es)| && k.blocks == BlocksOf(Offers(es)[..|k.blocks|])
      && AllHonest(ends, Offers(es)[..|k.blocks|])
  {
    hide *;
    var n := |Run(Start(), es).blocks|;
    KeepsFirstOffers(es);
    OffersHonest(ends, es);
    BlocksOfPrefix(Offers(es), n);
    HonestPrefix(ends, Offers(es), n);
  }
}
