/** The TCP conversation written for a recorded connection, and an independent observer that
    accepts only gap-free conversations in the sense of RFC 9293, sections 3.4 and 3.5. */
module TcpTrace {
  import opened Bytes
  import opened Modular

  const CYCLE: nat := 0x1_0000_0000 // 32-bit sequence numbers
  const CHUNK: nat := 1400

  datatype Kind = Syn | SynAck | Ack | Push

  datatype Seg = Seg(up: bool, kind: Kind, seqno: nat, ack: nat, data: bytes)

  /** Next sequence number of either end, as unsigned 32-bit counters. */
  datatype Counters = Counters(up: nat, down: nat)

  /** One successful read or write of the proxied connection. */
  datatype Rec = Rec(up: bool, data: bytes)

  // ---------------------------------------------------------------- what is written

  /** A segment of one end; only the very first acknowledges nothing. */
  function Make(c: Counters, up: bool, kind: Kind, data: bytes): Seg {
    var mine, theirs := if up then c.up else c.down, if up then c.down else c.up;
    Seg(up, kind, mine, if kind.Syn? then 0 else theirs, data)
  }

  function Advance(c: Counters, up: bool, n: nat): Counters {
    if up then Counters(Wrap(c.up + n, CYCLE), c.down) else Counters(c.up, Wrap(c.down + n, CYCLE))
  }

  function First(): Counters { Counters(1000, 2000) }
  function Opened(): Counters { Counters(1001, 2001) }

  function Handshake(): seq<Seg> {
    [Make(First(), true, Syn, []), Make(Counters(1001, 2000), false, SynAck, []), Make(Opened(), true, Ack, [])]
  }

  function Segments(c: Counters, up: bool, data: bytes): seq<Seg>
    decreases |data|
  {
    if data == [] then []
    else
      var n := Min(CHUNK, |data|);
      var d := Advance(c, up, n);
      [Make(c, up, Push, data[..n]), Make(d, !up, Ack, [])] + Segments(d, up, data[n..])
  }

  /** A record is cut into pieces of 1400 bytes, each with its acknowledgement; only the last piece
      may be shorter. */
  lemma {:induction false} SegmentSizes(c: Counters, up: bool, data: bytes, i: nat)
    requires 2 * i < |Segments(c, up, data)|
    ensures |Segments(c, up, data)| % 2 == 0 && 1400 * i < |data|
    ensures var s := Segments(c, up, data)[2 * i];
      s.up == up && s.kind.Push? && s.data == data[1400 * i..Min(1400 * i + 1400, |data|)]
    ensures Segments(c, up, data)[2 * i + 1].kind.Ack? && Segments(c, up, data)[2 * i + 1].up != up
    decreases |data|
  {
    EvenSegments(c, up, data);
    assert CHUNK == 1400;
    hide *;
    var n := Min(CHUNK, |data|);
    assert n == if |data| < 1400 then |data| else 1400 by { Smaller(1400, |data|); }
    var d := Advance(c, up, n);
    var rest := Segments(d, up, data[n..]);
    SegmentsStep(c, up, data);
    EvenSegments(d, up, data[n..]);
    PairMade(c, d, up, data[..n]);
    if i > 0 {
      var all := Segments(c, up, data);
      assert all[2 * i] == rest[2 * (i - 1)] && all[2 * i + 1] == rest[2 * (i - 1) + 1];
      SegmentSizes(d, up, data[n..], i - 1);
      Slice(data, n, i);
    } else {
      Smaller(1400, |data|);
    }
  }

  lemma Smaller(a: nat, b: nat)
    ensures Min(a, b) == if b < a then b else a
  {
  }

  lemma PairMade(c: Counters, d: Counters, up: bool, data: bytes)
    ensures var s, a := Make(c, up, Push, data), Make(d, !up, Ack, []);
      s.up == up && s.kind.Push? && s.data == data && a.kind.Ack? && a.up != up
  {
  }

  lemma Slice(data: bytes, n: nat, i: nat)
    requires n == 1400 <= |data| && i > 0 && 1400 * (i - 1) < |data| - n
    ensures data[n..][1400 * (i - 1)..Min(1400 * (i - 1) + 1400, |data| - n)]
         == data[1400 * i..Min(1400 * i + 1400, |data|)]
  {
  }

  lemma SegmentsStep(c: Counters, up: bool, data: bytes)
    requires data != []
    ensures var n := Min(CHUNK, |data|); var d := Advance(c, up, n);
      Segments(c, up, data) == [Make(c, up, Push, data[..n]), Make(d, !up, Ack, [])] + Segments(d, up, data[n..])
  {
  }

  lemma {:induction false} EvenSegments(c: Counters, up: bool, data: bytes)
    ensures |Segments(c, up, data)| % 2 == 0
    ensures Segments(c, up, data) == [] <==> data == []
    decreases |data|
  {
    if data != [] {
      var n := Min(CHUNK, |data|);
      EvenSegments(Advance(c, up, n), up, data[n..]);
    }
  }

  /** The counters after the segments of `data`, chunk by chunk. */
  function Counted(c: Counters, up: bool, data: bytes): Counters
    decreases |data|
  {
    if data == [] then c
    else var n := Min(CHUNK, |data|); Counted(Advance(c, up, n), up, data[n..])
  }

  function Body(c: Counters, rs: seq<Rec>): seq<Seg>
    decreases |rs|
  {
    if rs == [] then []
    else Segments(c, rs[0].up, rs[0].data) + Body(Counted(c, rs[0].up, rs[0].data), rs[1..])
  }

  /** Everything written for a connection, from the first record of a capture on. */
  function Trace(rs: seq<Rec>): seq<Seg> { if rs == [] then [] else Handshake() + Body(Opened(), rs) }

  // ---------------------------------------------------------------- the observer

  /** What either end has said; `due` is the end that owes an acknowledgement. */
  datatype Observer =
    | Fresh
    | SynSent(up0: nat)
    | SynReceived(up0: nat, down0: nat)
    | Established(up0: nat, down0: nat, up: bytes, down: bytes, due: Option<bool>)
    | Broken

  /** The next number an end uses: its initial one, one for the SYN, one for each byte. */
  function NextNumber(initial: nat, said: bytes): nat { Wrap(initial + 1 + |said|, CYCLE) }

  function See(o: Observer, s: Seg): Observer {
    match o
    case Fresh => if s.up && s.kind.Syn? && s.data == [] then SynSent(s.seqno) else Broken
    case SynSent(i) =>
      if !s.up && s.kind.SynAck? && s.ack == NextNumber(i, []) && s.data == [] then SynReceived(i, s.seqno) else Broken
    case SynReceived(i, j) =>
      if s.up && s.kind.Ack? && s.seqno == NextNumber(i, []) && s.ack == NextNumber(j, []) && s.data == []
      then Established(i, j, [], [], None) else Broken
    case Established(i, j, u, d, due) =>
      var mine, theirs := NextNumber(i, u), NextNumber(j, d);
      if s.seqno != (if s.up then mine else theirs) || s.ack != (if s.up then theirs else mine) then Broken
      else if s.kind.Push? && 0 < |s.data| <= CHUNK && due.None? then
        if s.up then Established(i, j, u + s.data, d, Some(false)) else Established(i, j, u, d + s.data, Some(true))
      else if s.kind.Ack? && s.data == [] && due == Some(s.up) then Established(i, j, u, d, None)
      else Broken
    case Broken => Broken
  }

  function Watch(o: Observer, ss: seq<Seg>): Observer
    decreases |ss|
  {
    if ss == [] then o else Watch(See(o, ss[0]), ss[1..])
  }

  lemma {:induction false} WatchAppend(o: Observer, a: seq<Seg>, b: seq<Seg>)
    ensures Watch(o, a + b) == Watch(Watch(o, a), b)
    decreases |a|
  {
    hide See;
    if a == [] {
      assert a + b == b;
    } else {
      WatchAppend(See(o, a[0]), a[1..], b);
      assert (a + b)[1..] == a[1..] + b;
    }
  }

  lemma {:induction false} StaysBroken(ss: seq<Seg>)
    ensures Watch(Broken, ss) == Broken
  {
    if ss != [] { StaysBroken(ss[1..]); }
  }

  // ---------------------------------------------------------------- the trace is accepted

  /** The observer between records: both counters stand where the bytes said put them. */
  function Idle(u: bytes, d: bytes): Observer { Established(1000, 2000, u, d, None) }
  function Standing(u: bytes, d: bytes): Counters { Counters(NextNumber(1000, u), NextNumber(2000, d)) }

  function Said(rs: seq<Rec>, up: bool): bytes {
    if rs == [] then [] else (if rs[0].up == up then rs[0].data else []) + Said(rs[1..], up)
  }

  lemma StandingAdvances(u: bytes, d: bytes, up: bool, more: bytes)
    ensures Advance(Standing(u, d), up, |more|) == if up then Standing(u + more, d) else Standing(u, d + more)
  {
    if up { WrapAdd(1000 + 1 + |u|, |more|, CYCLE); } else { WrapAdd(2000 + 1 + |d|, |more|, CYCLE); }
  }

  lemma ChunkAccepted(u: bytes, d: bytes, up: bool, more: bytes)
    requires 0 < |more| <= CHUNK
    ensures var c := Standing(u, d);
      Watch(Idle(u, d), [Make(c, up, Push, more), Make(Advance(c, up, |more|), !up, Ack, [])])
      == if up then Idle(u + more, d) else Idle(u, d + more)
  {
    StandingAdvances(u, d, up, more);
    hide NextNumber, Advance;
    var c := Standing(u, d);
    var o := See(Idle(u, d), Make(c, up, Push, more));
    var s := Make(Advance(c, up, |more|), !up, Ack, []);
    assert Watch(o, [s]) == See(o, s);
  }

  lemma Assoc(a: bytes, b: bytes, c: bytes)
    ensures a + (b + c) == (a + b) + c
  {
  }

  lemma {:induction false} RecordAccepted(u: bytes, d: bytes, up: bool, data: bytes)
    ensures var c := Standing(u, d);
      && Counted(c, up, data) == (if up then Standing(u + data, d) else Standing(u, d + data))
      && Watch(Idle(u, d), Segments(c, up, data)) == (if up then Idle(u + data, d) else Idle(u, d + data))
    decreases |data|
  {
    if data == [] {
      assert u + data == u && d + data == d;
    } else {
      var c, n := Standing(u, d), Min(CHUNK, |data|);
      var chunk, more := data[..n], data[n..];
      var u', d' := if up then u + chunk else u, if up then d else d + chunk;
      ChunkAccepted(u, d, up, chunk);
      StandingAdvances(u, d, up, chunk);
      hide Standing, Idle, Advance, Make;
      RecordAccepted(u', d', up, more);
      var pair := [Make(c, up, Push, chunk), Make(Advance(c, up, n), !up, Ack, [])];
      WatchAppend(Idle(u, d), pair, Segments(Advance(c, up, n), up, more));
      assert data == chunk + more;
      Assoc(u, chunk, more);
      Assoc(d, chunk, more);
    }
  }

  lemma {:induction false} BodyAccepted(u: bytes, d: bytes, rs: seq<Rec>)
    ensures Watch(Idle(u, d), Body(Standing(u, d), rs)) == Idle(u + Said(rs, true), d + Said(rs, false))
    decreases |rs|
  {
    hide Standing, Idle, Segments, Counted;
    if rs == [] {
      assert u + [] == u && d + [] == d;
    } else {
      var r := rs[0];
      var u', d' := if r.up then u + r.data else u, if r.up then d else d + r.data;
      RecordAccepted(u, d, r.up, r.data);
      BodyAccepted(u', d', rs[1..]);
      WatchAppend(Idle(u, d), Segments(Standing(u, d), r.up, r.data), Body(Standing(u', d'), rs[1..]));
      Assoc(u, if r.up then r.data else [], Said(rs[1..], true));
      Assoc(d, if r.up then [] else r.data, Said(rs[1..], false));
      assert u + [] == u && d + [] == d;
    }
  }

  lemma HandshakeAccepted()
    ensures Watch(Fresh, Handshake()) == Idle([], []) && Standing([], []) == Opened()
  {
    var h := Handshake();
    assert h[1..][1..] == [h[2]] && h[1..][0] == h[1];
    assert See(Fresh, h[0]) == SynSent(1000);
    assert See(SynSent(1000), h[1]) == SynReceived(1000, 2000);
    assert See(SynReceived(1000, 2000), h[2]) == Idle([], []);
    assert Watch(SynReceived(1000, 2000), [h[2]]) == Idle([], []);
    assert Watch(SynSent(1000), h[1..]) == Idle([], []);
  }

  /** Whatever was recorded, in chunks of any size and however far the counters wrap, the
      observer accepts the whole trace and has heard exactly the recorded bytes of each side. */
  lemma ValidConversation(rs: seq<Rec>)
    requires rs != []
    ensures Watch(Fresh, Trace(rs)) == Established(1000, 2000, Said(rs, true), Said(rs, false), None)
  {
    HandshakeAccepted();
    BodyAccepted([], [], rs);
    WatchAppend(Fresh, Handshake(), Body(Opened(), rs));
    assert [] + Said(rs, true) == Said(rs, true) && [] + Said(rs, false) == Said(rs, false);
  }

  lemma {:induction false} HeardOnlyGrows(o: Observer, ss: seq<Seg>)
    requires o.Established? && Watch(o, ss).Established?
    ensures o.up <= Watch(o, ss).up && o.down <= Watch(o, ss).down
    decreases |ss|
  {
    if ss != [] {
      var p := See(o, ss[0]);
      if p.Broken? {
        StaysBroken(ss[1..]);
        assert false;
      }
      HeardOnlyGrows(p, ss[1..]);
    }
  }

  /** A trace cut anywhere, as a full capture cuts it, is still a valid conversation, and what
      it carries is a prefix of what was recorded in each direction. */
  lemma CutConversation(rs: seq<Rec>, cut: seq<Seg>)
    requires cut <= Trace(rs)
    ensures !Watch(Fresh, cut).Broken?
    ensures Watch(Fresh, cut).Established? ==>
      Watch(Fresh, cut).up <= Said(rs, true) && Watch(Fresh, cut).down <= Said(rs, false)
  {
    if rs != [] {
      ValidConversation(rs);
      var rest := Trace(rs)[|cut|..];
      assert Trace(rs) == cut + rest;
      WatchAppend(Fresh, cut, rest);
      var o := Watch(Fresh, cut);
      if o.Broken? { StaysBroken(rest); }
      if o.Established? { HeardOnlyGrows(o, rest); }
    }
  }
}
