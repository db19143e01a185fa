/** Datagrams framed inside a framed byte stream: a first-in first-out queue that keeps
    packet boundaries, the empty packet included. */
module PacketRuns {
  import opened Bytes
  import opened Limits
  import opened Framing
  import opened FramingRuns

  // ---------------------------------------------------------------- what is ready to be read

  function Ready(c: Conn): bytes
    requires c.raw.Ordered()
  {
    Content(c.reader, c.raw.Available())
  }

  /** Same writer, same raw bytes: only the reading end moved. */
  ghost predicate OnlyRead(c: Conn, c': Conn) {
    c'.written == c.written && c'.closed == c.closed && c'.raw.sent == c.raw.sent && c'.raw.arrived == c.raw.arrived
  }

  /** What is ready extends what was read within what was written, to the end once all arrived. */
  lemma ReadyPrefix(c: Conn)
    requires Invariant(c)
    ensures c.read + Ready(c) <= c.written
    ensures c.raw.arrived == |c.raw.sent| ==> c.read + Ready(c) == c.written
  {
    hide NextFrame, Decode, Payload;
    var a, late := c.raw.Available(), c.raw.sent[c.raw.arrived..];
    assert c.raw.Unread() == a + late;
    PayloadPrefix(a, late);
    if c.reader.eof { EndReached(c); }
    assert c.read + Ready(c) == c.read + c.reader.pending + if c.reader.eof then [] else Payload(a);
  }

  lemma CopyReady(c: Conn, n: nat)
    requires c.raw.Ordered() && n > 0 && c.reader.pending != []
    ensures ResultOf(c, n).Data? && Step(c, ReadUpTo(n)).raw.Ordered()
    ensures var b, c' := ResultOf(c, n).b, Step(c, ReadUpTo(n));
      Ready(c) == b + Ready(c') && c'.read == c.read + b
  {
    hide NextFrame, FromBe, Payload;
    var k := Min(n, |c.reader.pending|);
    assert c.reader.pending == c.reader.pending[..k] + c.reader.pending[k..];
    assert Step(c, ReadUpTo(n)).raw.Available() == c.raw.Available();
  }

  lemma RefillReady(c: Conn)
    requires c.raw.Ordered() && c.reader == Reader([], false)
    requires NextFrame(c.raw.Available()).Got? && NextFrame(c.raw.Available()).payload != []
    ensures Refill(c).raw.Ordered() && Ready(Refill(c)) == Ready(c)
  {
    hide NextFrame;
    NextRest(c.raw.Available());
    assert Refill(c).raw.Available() == NextFrame(c.raw.Available()).rest;
  }

  lemma ReadReady(c: Conn, n: nat)
    requires Invariant(c) && n > 0 && Ready(c) != []
    ensures ResultOf(c, n).Data?
    ensures var b, c' := ResultOf(c, n).b, Step(c, ReadUpTo(n));
      && Invariant(c') && OnlyRead(c, c')
      && Ready(c) == b + Ready(c') && c'.read == c.read + b
  {
    ReadRefines(c, n);
    hide NextFrame, Read, Decode;
    if c.reader.pending != [] {
      CopyReady(c, n);
    } else {
      assert c.reader == Reader([], false);
      RefillKeeps(c);
      RefillReady(c);
      RefillThenCopy(c, n);
      CopyReady(Refill(c), n);
    }
  }

  lemma NothingPayload(r: Reader, a: bytes)
    requires Content(r, a) == []
    ensures r.pending == [] && (r.eof || NextFrame(a).Waiting? || NextFrame(a).payload == [])
  {
    hide NextFrame;
  }

  /** With nothing ready a read waits or sees the end. */
  lemma NothingReady(c: Conn, n: nat)
    requires Invariant(c) && n > 0 && Ready(c) == []
    ensures ResultOf(c, n).Wait? || ResultOf(c, n).End?
    ensures var c' := Step(c, ReadUpTo(n));
      && Invariant(c') && OnlyRead(c, c') && c'.read == c.read && Ready(c') == []
      && (ResultOf(c, n).End? ==> c'.reader.eof) && (ResultOf(c, n).Wait? ==> c' == c)
  {
    ReadRefines(c, n);
    NothingPayload(c.reader, c.raw.Available());
    hide NextFrame, Decode, FromBe, Payload;
    if c.reader.eof {
      assert Read(c.reader, c.raw.Available(), n) == Taken(c.reader, c.raw.Available(), End);
    }
  }

  // ---------------------------------------------------------------- reading a packet

  /** A reader between two reads of the inner stream: `held` is what it has of a packet so far. */
  datatype Reading = Reading(conn: Conn, held: bytes)
  datatype Outcome = More | Packet(p: bytes) | Blocked | Failed

  /** How much the reader asks for next: the rest of the length, then the rest of the packet. */
  function Needs(held: bytes): nat {
    if |held| < 2 then 2 - |held|
    else if |held| < 2 + FromBe(held[..2]) then 2 + FromBe(held[..2]) - |held|
    else 0
  }

  function Backlog(c: Conn): nat
    requires c.raw.Ordered()
  {
    |c.reader.pending| + |c.raw.Available()|
  }

  lemma ReadShrinks(c: Conn, n: nat)
    requires c.raw.Ordered() && n > 0 && ResultOf(c, n).Data?
    ensures Step(c, ReadUpTo(n)).raw.Ordered() && Backlog(Step(c, ReadUpTo(n))) < Backlog(c)
  {
    hide FromBe;
  }

  predicate TooLong(held: bytes) { |held| >= 2 && FromBe(held[..2]) > MAX_UDP }

  /** One read of the inner stream for a packet: it may bring only part of what was asked for.
      A length over the limit and the end of the stream are errors. */
  function Pull(r: Reading): (o: (Reading, Outcome))
    requires r.conn.raw.Ordered()
    ensures o.0.conn.raw.Ordered()
    ensures o.1.More? ==> Backlog(o.0.conn) < Backlog(r.conn)
  {
    var n := Needs(r.held);
    var c := Step(r.conn, ReadUpTo(n));
    match ResultOf(r.conn, n)
    case Data(b) =>
      var held := r.held + b;
      if TooLong(held) then (Reading(c, []), Failed)
      else (
        match NextFrame(held)
        case Waiting =>
          assert n == 0 ==> held == r.held;
          ReadShrinks(r.conn, n); (Reading(c, held), More)
        case Got(p, _) => (Reading(c, []), Packet(p))
      )
    case Wait => (Reading(c, r.held), Blocked)
    case End => (Reading(c, []), Failed)
    case FrameLimit => (Reading(c, []), Failed)
  }

  /** Reads of the inner stream until the packet is complete, none is there yet, or one fails. */
  function ReadOn(r: Reading): (o: (Reading, Outcome))
    requires r.conn.raw.Ordered()
    ensures o.0.conn.raw.Ordered()
    decreases Backlog(r.conn)
  {
    var (r', o) := Pull(r);
    if o.More? then ReadOn(r') else (r', o)
  }

  /** The beginning of a packet that a reader may hold. */
  predicate Partial(held: bytes) { NextFrame(held).Waiting? && !TooLong(held) }

  // ---------------------------------------------------------------- packets

  /** The byte stream a list of packets becomes. */
  function Wire(packets: seq<bytes>): bytes {
    if packets == [] then [] else Frame(packets[0]) + Wire(packets[1..])
  }

  lemma {:induction false} WireAppend(ps: seq<bytes>, qs: seq<bytes>)
    ensures Wire(ps + qs) == Wire(ps) + Wire(qs)
  {
    hide Frame;
    if ps == [] {
      assert ps + qs == qs;
    } else {
      WireAppend(ps[1..], qs);
      assert (ps + qs)[1..] == ps[1..] + qs && (ps + qs)[0] == ps[0];
      assert Frame(ps[0]) + (Wire(ps[1..]) + Wire(qs)) == Frame(ps[0]) + Wire(ps[1..]) + Wire(qs);
    }
  }

  lemma Regroup(w: bytes, held: bytes, b: bytes, more: bytes)
    ensures w + held + b == w + (held + b) && held + (b + more) == held + b + more
  {
  }

  /** The bytes brought complete the packet in front, however many `more` are ready behind it. */
  lemma Completes(held: bytes, b: bytes, more: bytes)
    requires NextFrame(held).Waiting? && |b| <= Needs(held) && NextFrame(held + b).Got?
    ensures var p := NextFrame(held + b).payload; held + b == Frame(p) && NextFrame(held + b + more) == Got(p, more)
  {
    WholeFrame(held, b);
    NextMonotone(held + b, more);
    hide *;
    assert [] + more == more;
  }

  /** Asking for no more than is needed, the reader never gets past the packet. */
  lemma WholeFrame(held: bytes, b: bytes)
    requires NextFrame(held).Waiting? && |b| <= Needs(held) && NextFrame(held + b).Got?
    ensures NextFrame(held + b).rest == [] && Frame(NextFrame(held + b).payload) == held + b
  {
    var s := held + b;
    BeInverse(s[..2]);
    hide Be, FromBe;
    if |held| >= 2 { assert s[..2] == held[..2]; }
    assert s == s[..2] + s[2..];
  }

  /** One read of the inner stream, for a reader that took `w` before what it holds: it brings
      the next bytes, completes exactly the packet in front, or finds nothing ready. */
  lemma PullReady(r: Reading, w: bytes)
    requires Invariant(r.conn) && Partial(r.held) && r.conn.read == w + r.held
    ensures var (n, o) := Pull(r); var s := r.held + Ready(r.conn);
      && Invariant(n.conn) && OnlyRead(r.conn, n.conn)
      && match o
         case More => Partial(n.held) && n.conn.read == w + n.held && n.held + Ready(n.conn) == s
         case Packet(p) =>
           && |p| <= MAX_UDP && n.held == [] && n.conn.read == w + Frame(p)
           && NextFrame(s) == Got(p, Ready(n.conn))
         case Blocked => n == r && Ready(r.conn) == [] && ResultOf(r.conn, Needs(r.held)).Wait?
         case Failed =>
           && n.held == []
           && (TooLong(s) || (Ready(r.conn) == [] && Ready(n.conn) == [] && n.conn.reader.eof
             && n.conn.read == r.conn.read))
  {
    assert r.conn.raw.Ordered();
    hide NextFrame, Content, Decode, FromBe, Invariant, Frame;
    var k := Needs(r.held);
    NeedsSome(r.held);
    if Ready(r.conn) == [] {
      NothingReady(r.conn, k);
    } else {
      ReadReady(r.conn, k);
      var b, c := ResultOf(r.conn, k).b, Step(r.conn, ReadUpTo(k));
      Regroup(w, r.held, b, Ready(c));
      if TooLong(r.held + b) {
        assert (r.held + b + Ready(c))[..2] == (r.held + b)[..2];
      } else if NextFrame(r.held + b).Got? {
        Completes(r.held, b, Ready(c));
        PayloadLength(r.held + b);
      }
    }
  }

  lemma NeedsSome(held: bytes)
    requires NextFrame(held).Waiting?
    ensures Needs(held) > 0
  {
  }

  lemma PayloadLength(s: bytes)
    requires NextFrame(s).Got? && !TooLong(s)
    ensures |NextFrame(s).payload| <= MAX_UDP
  {
  }

  lemma PermittedLength(s: bytes)
    requires NextFrame(s).Got? && |NextFrame(s).payload| <= MAX_UDP
    ensures !TooLong(s)
  {
  }

  lemma PartialIs(held: bytes)
    requires Partial(held)
    ensures NextFrame(held).Waiting? && !TooLong(held)
  {
  }

  /** Reading on, however the stream was chunked and however much of the packet was held before,
      completes a packet exactly when a whole one of permitted length is there, and it is it;
      without one the reader holds all there is, or fails at the end or at an excessive length. */
  lemma {:induction false} ReadOnReady(r: Reading, w: bytes)
    requires Invariant(r.conn) && Partial(r.held) && r.conn.read == w + r.held
    ensures var (n, o) := ReadOn(r); var s := r.held + Ready(r.conn);
      && Invariant(n.conn) && OnlyRead(r.conn, n.conn)
      && (o.Packet? <==> NextFrame(s).Got? && !TooLong(s))
      && match o
         case More => false
         case Packet(p) => NextFrame(s) == Got(p, Ready(n.conn)) && n.held == [] && n.conn.read == w + Frame(p)
         case Blocked => n.held == s && Ready(n.conn) == [] && Needs(s) > 0 && ResultOf(n.conn, Needs(s)).Wait?
         case Failed => n.held == [] && (TooLong(s) || (Ready(n.conn) == [] && n.conn.reader.eof))
    decreases Backlog(r.conn)
  {
    assert r.conn.raw.Ordered();
    hide Pull, NextFrame, Content, Decode, FromBe, Invariant, Frame, TooLong, Partial;
    PullReady(r, w);
    var (n, o) := Pull(r);
    var s := r.held + Ready(r.conn);
    match o {
      case More => ReadOnReady(n, w);
      case Packet(p) => PermittedLength(s);
      case Blocked =>
        assert s == r.held && NextFrame(s).Waiting? by { PartialIs(r.held); }
        NeedsSome(s);
      case Failed => if !TooLong(s) { assert s == r.held && NextFrame(s).Waiting? by { PartialIs(r.held); } }
    }
  }

  // ---------------------------------------------------------------- the queue

  /** Packets whose write succeeded, in the order their writers held the lock, and packets
      received. A write is two writes of the inner stream: `writing` is the packet between them,
      and `cut` one whose second write came too late, after a half-close. A read is any number of
      reads of the inner stream: `held` is what the reader has of a packet between them, and
      `lost` what it had when the stream ended. */
  datatype Queue = Queue(conn: Conn, sent: seq<bytes>, received: seq<bytes>, writing: Option<bytes>, cut: Option<bytes>,
                         held: bytes, lost: bytes)
  datatype Action = Begin(p: bytes) | Body | Finish | Deliver(k: nat) | Take

  const EMPTY := Queue(IDLE, [], [], None, None, [], [])

  function ReaderOf(q: Queue): Reading { Reading(q.conn, q.held) }

  /** The packet lock keeps other writers out between the two inner writes, but not a
      half-close, which only takes the inner stream's own lock. */
  ghost predicate Able(q: Queue, a: Action) {
    && q.conn.raw.Ordered()
    && match a
       case Begin(p) => q.writing.None?
       case Body => q.writing.Some?
       case Finish => true
       case Deliver(k) => Enabled(q.conn, Arrive(k))
       case Take => true
  }

  /** A packet over the UDP limit is refused, and so is any write after the half-close. A taking
      step is one read of the inner stream. */
  function Act(q: Queue, a: Action): Queue
    requires Able(q, a)
  {
    match a
    case Begin(p) =>
      if |p| > MAX_UDP || q.conn.closed then q
      else q.(conn := Step(q.conn, Write(Be(|p|, 2))), writing := Some(p))
    case Body =>
      if q.conn.closed then q.(writing := None, cut := q.writing)
      else q.(conn := Step(q.conn, Write(q.writing.value)), sent := q.sent + [q.writing.value], writing := None)
    case Finish => q.(conn := Step(q.conn, CloseWrite))
    case Deliver(k) => q.(conn := Step(q.conn, Arrive(k)))
    case Take =>
      var (r, o) := Pull(ReaderOf(q));
      Took(q, r, o)
  }

  /** The queue after an inner read that left the reader as `r`. */
  function Took(q: Queue, r: Reading, o: Outcome): Queue {
    q.(conn := r.conn, held := r.held,
       lost := if o.Failed? then q.lost + q.held else q.lost,
       received := if o.Packet? then q.received + [o.p] else q.received)
  }

  /** A packet of which the stream holds only the length so far, or forever. */
  function Half(q: Queue): Option<bytes> { if q.writing.Some? then q.writing else q.cut }

  function Tail(p: Option<bytes>): bytes { if p.Some? then Be(|p.value|, 2) else [] }

  /** What has been received is a prefix of what was sent, except that an empty packet is whole
      with its length alone: it may be received before, or without, its write succeeding. */
  ghost predicate InOrder(q: Queue) {
    q.received <= q.sent || (Half(q) == Some([]) && q.received == q.sent + [[]])
  }

  /** What the reader holds, or lost at the end of the stream, is the beginning of a packet. */
  ghost predicate Holding(q: Queue) {
    && Partial(q.held) && Partial(q.lost)
    && (q.lost != [] ==> q.held == [] && q.conn.reader.eof)
    && q.conn.read == Wire(q.received) + (q.lost + q.held)
  }

  ghost predicate Fifo(q: Queue) {
    && Invariant(q.conn)
    && (q.cut.Some? ==> q.conn.closed && q.writing.None?)
    && q.conn.written == Wire(q.sent) + Tail(Half(q))
    && Holding(q)
    && InOrder(q)
    && (forall i :: 0 <= i < |q.sent| ==> |q.sent[i]| <= MAX_UDP)
    && (Half(q).Some? ==> |Half(q).value| <= MAX_UDP)
  }

  lemma BeginKeeps(q: Queue, p: bytes)
    requires Fifo(q) && |p| <= MAX_UDP && !q.conn.closed && q.writing.None?
    ensures Fifo(Act(q, Begin(p)))
  {
    hide Decode, Chunked, Read, Wire, Partial;
    WriteKeeps(q.conn, Be(|p|, 2));
    assert q.conn.written + [] == q.conn.written;
  }

  lemma BodyKeeps(q: Queue)
    requires Fifo(q) && q.writing.Some?
    ensures Fifo(Act(q, Body))
  {
    hide Decode, Chunked, Read, Partial;
    if !q.conn.closed {
      var p := q.writing.value;
      WriteKeeps(q.conn, p);
      WireAppend(q.sent, [p]);
      WireOne(p);
      hide Wire;
      assert Wire(q.sent) + Be(|p|, 2) + p == Wire(q.sent) + (Be(|p|, 2) + p);
      assert Wire(q.sent + [p]) + [] == Wire(q.sent + [p]);
    }
  }

  lemma WireOne(p: bytes)
    ensures Wire([p]) == Frame(p)
  {
    assert Frame(p) + [] == Frame(p);
  }

  /** An empty packet's frame is its length. */
  lemma EmptyFrame()
    ensures Frame([]) == Be(0, 2)
  {
    assert Be(0, 2) + [] == Be(0, 2);
  }

  /** The bytes behind those of received packets: the frames of packets not yet received and the
      length of a half-written one; nothing once that one, being empty, was received. */
  function Todo(q: Queue): bytes {
    if |q.received| <= |q.sent| then Wire(q.sent[|q.received|..]) + Tail(Half(q)) else []
  }

  lemma Unreceived(q: Queue)
    requires Fifo(q)
    ensures q.conn.written == Wire(q.received) + Todo(q)
  {
    hide Decode, Content, Frame, Invariant, Partial;
    if |q.received| <= |q.sent| {
      var rest := q.sent[|q.received|..];
      assert q.sent == q.received + rest;
      WireAppend(q.received, rest);
      assert Wire(q.received) + Wire(rest) + Tail(Half(q)) == Wire(q.received) + (Wire(rest) + Tail(Half(q)));
    } else {
      WireAppend(q.sent, [[]]);
      WireOne([]);
      EmptyFrame();
      assert Wire(q.received) + [] == Wire(q.received);
    }
  }

  /** What is held and ready is a prefix of what is still to come, and all of it once arrived. */
  lemma Outstanding(q: Queue)
    requires Fifo(q)
    ensures var had := q.lost + q.held;
      had + Ready(q.conn) <= Todo(q) && (q.conn.raw.arrived == |q.conn.raw.sent| ==> had + Ready(q.conn) == Todo(q))
  {
    ReadyPrefix(q.conn);
    Unreceived(q);
    hide Decode, Content, Frame, Wire, Todo, Partial;
    Behind(Wire(q.received), q.lost + q.held, Ready(q.conn), q.conn.written, Todo(q));
  }

  lemma Behind(w: bytes, had: bytes, ready: bytes, all: bytes, todo: bytes)
    requires w + had + ready <= all && all == w + todo
    ensures had + ready <= todo && (w + had + ready == all ==> had + ready == todo)
  {
    assert all[|w|..] == todo && (w + had + ready)[|w|..] == had + ready;
  }

  /** The packet that comes next out of the stream, if the whole of it is there. */
  function Upcoming(q: Queue): Option<bytes> {
    if |q.received| < |q.sent| then Some(q.sent[|q.received|])
    else if |q.received| == |q.sent| && Half(q) == Some([]) then Some([])
    else None
  }

  lemma TodoFrame(q: Queue)
    requires Fifo(q)
    ensures !TooLong(Todo(q))
    ensures match Upcoming(q)
      case Some(p) => |p| <= MAX_UDP && NextFrame(Todo(q)).Got? && NextFrame(Todo(q)).payload == p
      case None => NextFrame(Todo(q)).Waiting?
  {
    hide Invariant, Holding;
    if |q.received| < |q.sent| {
      var todo := q.sent[|q.received|..];
      var more := Wire(todo[1..]) + Tail(Half(q));
      NextOfFrame(todo[0], more);
      hide NextFrame, Frame, Tail, TooLong;
      assert Todo(q) == Frame(todo[0]) + more;
      PermittedLength(Todo(q));
    } else {
      var half := Half(q);
      assert q.sent[|q.sent|..] == [];
      assert |q.received| == |q.sent| ==> Todo(q) == Tail(half) by { assert [] + Tail(half) == Tail(half); }
      if |q.received| == |q.sent| && half.Some? { LengthAlone(half.value); }
    }
  }

  /** The length of a packet is a whole frame only for the empty packet. */
  lemma LengthAlone(p: bytes)
    requires |p| <= MAX_UDP
    ensures !TooLong(Be(|p|, 2))
    ensures p == [] ==> NextFrame(Be(|p|, 2)) == Got([], [])
    ensures p != [] ==> NextFrame(Be(|p|, 2)).Waiting?
  {
    Widths();
    BeRoundTrip(|p|, 2);
    hide Be, FromBe, Values;
    assert Be(|p|, 2)[..2] == Be(|p|, 2);
  }

  /** The only packet that can come out is the upcoming one, and it does once all has arrived;
      no length over the limit is ever read. */
  lemma NextPacket(q: Queue)
    requires Fifo(q)
    ensures var s := q.lost + q.held + Ready(q.conn);
      && !TooLong(s)
      && (NextFrame(s).Got? ==> Upcoming(q) == Some(NextFrame(s).payload))
      && (q.conn.raw.arrived == |q.conn.raw.sent| ==> (NextFrame(s).Got? <==> Upcoming(q).Some?))
  {
    Outstanding(q);
    TodoFrame(q);
    var s := q.lost + q.held + Ready(q.conn);
    assert TooLong(s) ==> TooLong(Todo(q)) by { assert |s| >= 2 ==> s[..2] == Todo(q)[..2]; }
    hide NextFrame, Frame, Content, Todo, Upcoming, Invariant, Wire, TooLong, Partial;
    if NextFrame(s).Got? {
      NextMonotone(s, Todo(q)[|s|..]);
      assert s + Todo(q)[|s|..] == Todo(q);
    }
  }

  /** A reader that lost the beginning of a packet is at the end and stays there. */
  lemma LostForGood(q: Queue)
    requires Fifo(q) && q.lost != []
    ensures Pull(ReaderOf(q)) == (ReaderOf(q), Failed)
  {
    hide Decode, Partial, Wire;
    assert q.conn.raw.Available() == [] by { assert q.conn.raw.Unread() == []; }
    assert ResultOf(q.conn, 2) == End && Step(q.conn, ReadUpTo(2)) == q.conn;
  }

  lemma TakeKeeps(q: Queue)
    requires Fifo(q)
    ensures Fifo(Act(q, Take))
  {
    hide NextFrame, Frame, Content, Decode, Invariant, Wire, TooLong, Pull, Partial;
    if q.lost != [] {
      LostForGood(q);
      assert q.lost + [] == q.lost;
    } else {
      TakeNext(q);
    }
  }

  lemma WireMore(ps: seq<bytes>, p: bytes)
    ensures Wire(ps + [p]) + ([] + []) == Wire(ps) + Frame(p)
  {
    WireAppend(ps, [p]);
    WireOne(p);
    hide *;
    assert Wire(ps + [p]) + ([] + []) == Wire(ps + [p]);
  }

  /** What an inner read leaves the reader with. */
  lemma TookHolds(q: Queue, r: Reading, o: Outcome)
    requires Holding(q) && q.lost == [] && Partial([])
    requires match o
      case More => Partial(r.held) && r.conn.read == Wire(q.received) + r.held
      case Packet(p) => r.held == [] && r.conn.read == Wire(q.received) + Frame(p)
      case Blocked => r == ReaderOf(q)
      case Failed => r.held == [] && r.conn.read == q.conn.read && r.conn.reader.eof
    ensures Holding(Took(q, r, o))
  {
    hide Partial, Wire, Frame;
    match o {
      case More => assert [] + r.held == r.held;
      case Packet(p) => WireMore(q.received, p);
      case Blocked =>
      case Failed => assert [] + q.held == q.held && q.held + [] == q.held;
    }
  }

  lemma TookOrder(q: Queue, r: Reading, o: Outcome)
    requires InOrder(q) && (o.Packet? ==> Upcoming(q) == Some(o.p))
    ensures InOrder(Took(q, r, o))
  {
    if o.Packet? {
      if |q.received| < |q.sent| {
        assert q.sent[..|q.received| + 1] == q.received + [o.p];
      } else {
        assert q.received == q.sent;
      }
    }
  }

  lemma TakeNext(q: Queue)
    requires Fifo(q) && q.lost == []
    ensures Fifo(Act(q, Take))
  {
    NextPacket(q);
    var (r, o) := Pull(ReaderOf(q));
    assert q.lost + q.held == q.held && Partial([]);
    assert Act(q, Take) == Took(q, r, o);
    hide Act, Pull, NextFrame, Frame, Content, TooLong, Partial, Wire, InOrder, Upcoming, Decode;
    PullReady(ReaderOf(q), Wire(q.received));
    TookHolds(q, r, o);
    TookOrder(q, r, o);
    hide Holding;
  }

  lemma ActKeeps(q: Queue, a: Action)
    requires Fifo(q) && Able(q, a)
    ensures Fifo(Act(q, a))
  {
    match a
    case Begin(p) => if |p| <= MAX_UDP && !q.conn.closed { BeginKeeps(q, p); }
    case Body => BodyKeeps(q);
    case Finish => StepRefines(q.conn, CloseWrite);
    case Deliver(k) => StepRefines(q.conn, Arrive(k));
    case Take => TakeKeeps(q);
  }

  ghost predicate Possible(q: Queue, actions: seq<Action>)
    decreases |actions|
  {
    actions == [] || (Able(q, actions[0]) && Possible(Act(q, actions[0]), actions[1..]))
  }

  function After(q: Queue, actions: seq<Action>): Queue
    requires Possible(q, actions)
    decreases |actions|
  {
    if actions == [] then q else After(Act(q, actions[0]), actions[1..])
  }

  lemma {:induction false} AfterKeeps(q: Queue, actions: seq<Action>)
    requires Fifo(q) && Possible(q, actions)
    ensures Fifo(After(q, actions))
    decreases |actions|
  {
    hide Fifo, Act, Able;
    if actions != [] {
      ActKeeps(q, actions[0]);
      AfterKeeps(Act(q, actions[0]), actions[1..]);
    }
  }

  /** What reading on brings: the upcoming packet or none, and once all has arrived exactly it. */
  lemma NextRead(q: Queue)
    requires Fifo(q)
    ensures var o := ReadOn(ReaderOf(q)).1;
      && (o.Packet? ==> Upcoming(q) == Some(o.p))
      && (q.conn.raw.arrived == |q.conn.raw.sent| ==>
            o == match Upcoming(q) case Some(p) => Packet(p) case None => if q.conn.closed then Failed else Blocked)
  {
    NextPacket(q);
    if q.lost != [] {
      LostForGood(q);
      LostNone(q);
    } else {
      assert q.lost + q.held == q.held;
      ReadOnReady(ReaderOf(q), Wire(q.received));
      hide NextFrame, Frame, Content, Decode, TooLong, Partial, Pull, ReadOn, Wire, Upcoming, Holding;
      var (n, o) := ReadOn(ReaderOf(q));
      if o.Blocked? && q.conn.raw.arrived == |q.conn.raw.sent| {
        Progress(n.conn, Needs(n.held));
      } else if o.Failed? {
        EndReached(n.conn);
      }
    }
  }

  lemma LostNone(q: Queue)
    requires Fifo(q) && q.lost != []
    ensures q.conn.closed && NextFrame(q.lost + q.held + Ready(q.conn)).Waiting?
  {
    hide Wire, NextFrame, Decode, TooLong;
    assert Ready(q.conn) == [];
    assert q.lost + q.held + Ready(q.conn) == q.lost;
  }

  // ---------------------------------------------------------------- schedules

  /** Action `i` starts a write of `p`: nothing refuses it. */
  predicate Starts(actions: seq<Action>, i: nat, p: bytes)
    requires i < |actions|
  {
    actions[i] == Begin(p) && |p| <= MAX_UDP && Finish !in actions[..i]
  }

  /** A write of `p` was started and not ended. */
  ghost predicate Underway(actions: seq<Action>, p: bytes) {
    exists i :: 0 <= i < |actions| && Starts(actions, i, p) && Body !in actions[i..]
  }

  /** A half-close fell between the start of a write of `p` and its end. */
  ghost predicate CutShort(actions: seq<Action>, p: bytes) {
    exists i: nat, k: nat :: CutBetween(actions, i, k, p)
  }

  lemma SnocUnderway(actions: seq<Action>, a: Action, p: bytes)
    ensures Underway(actions + [a], p) <==>
      (a != Body && Underway(actions, p)) || (a == Begin(p) && |p| <= MAX_UDP && Finish !in actions)
  {
    var all, n := actions + [a], |actions|;
    assert all[..n] == actions && all[n..] == [a];
    forall i | 0 <= i < n ensures all[i..] == actions[i..] + [a] && all[..i] == actions[..i] { }
    if Underway(actions, p) && a != Body {
      var i :| 0 <= i < n && Starts(actions, i, p) && Body !in actions[i..];
      assert Starts(all, i, p) && Body !in all[i..];
    }
    if a == Begin(p) && |p| <= MAX_UDP && Finish !in actions { assert Starts(all, n, p) && Body !in all[n..]; }
    if Underway(all, p) {
      var i :| 0 <= i < |all| && Starts(all, i, p) && Body !in all[i..];
      assert i < n ==> Starts(actions, i, p) && Body !in actions[i..];
    }
  }

  /** A write of `p` from `i` to `k` with a half-close in between. */
  predicate CutBetween(actions: seq<Action>, i: nat, k: nat, p: bytes) {
    && i < k < |actions| && Starts(actions, i, p)
    && actions[k] == Body && Body !in actions[i..k] && Finish in actions[i..k]
  }

  lemma SameBefore(actions: seq<Action>, a: Action, i: nat, k: nat, p: bytes)
    requires i <= k <= |actions|
    ensures (actions + [a])[i..k] == actions[i..k]
    ensures i < k ==> (Starts(actions + [a], i, p) <==> Starts(actions, i, p))
  {
    assert (actions + [a])[..i] == actions[..i];
  }

  lemma SnocCut(actions: seq<Action>, a: Action, p: bytes)
    ensures CutShort(actions + [a], p) <==>
      CutShort(actions, p) || (a == Body && Finish in actions && Underway(actions, p))
  {
    var all, n := actions + [a], |actions|;
    if CutShort(actions, p) {
      var i: nat, k: nat :| CutBetween(actions, i, k, p);
      SameBefore(actions, a, i, k, p);
      assert CutBetween(all, i, k, p);
    }
    if a == Body && Finish in actions && Underway(actions, p) {
      var i :| 0 <= i < n && Starts(actions, i, p) && Body !in actions[i..];
      SameBefore(actions, a, i, n, p);
      assert actions == actions[..i] + actions[i..] && actions[i..] == actions[i..n];
      assert CutBetween(all, i, n, p);
    }
    if CutShort(all, p) {
      var i: nat, k: nat :| CutBetween(all, i, k, p);
      SameBefore(actions, a, i, k, p);
      if k < n {
        assert CutBetween(actions, i, k, p);
      } else {
        assert Starts(actions, i, p) && actions[i..n] == actions[i..];
      }
    }
  }

  lemma {:induction false} AfterSnoc(q: Queue, actions: seq<Action>, a: Action)
    requires Possible(q, actions + [a])
    ensures Possible(q, actions) && Able(After(q, actions), a) && After(q, actions + [a]) == Act(After(q, actions), a)
    decreases |actions|
  {
    hide Act, Able;
    if actions == [] {
      assert (actions + [a])[1..] == [];
    } else {
      assert (actions + [a])[1..] == actions[1..] + [a];
      AfterSnoc(Act(q, actions[0]), actions[1..], a);
    }
  }

  lemma OneWriter(actions: seq<Action>)
    requires Possible(EMPTY, actions)
    ensures After(EMPTY, actions).cut.Some? ==> After(EMPTY, actions).writing.None?
  {
    assert Fifo(EMPTY);
    hide After, Possible;
    AfterKeeps(EMPTY, actions);
  }

  lemma ActShows(q: Queue, a: Action)
    requires Able(q, a)
    ensures var n := Act(q, a);
      && n.conn.closed == (q.conn.closed || a.Finish?)
      && n.writing == (match a
                       case Begin(p) => if |p| > MAX_UDP || q.conn.closed then q.writing else Some(p)
                       case Body => None
                       case _ => q.writing)
      && n.cut == (if a.Body? && q.conn.closed then q.writing else q.cut)
      && (a.Begin? ==> q.writing.None?) && (a.Body? ==> q.writing.Some?)
  {
    hide Needs, Read, Chunked, NextFrame, TooLong;
  }

  /** The state as the schedule shows it: closed by the first half-close, writing between the two
      ends of a write, and cut off if a half-close fell between them. */
  lemma {:induction false} ScheduleShows(actions: seq<Action>, p: bytes)
    requires Possible(EMPTY, actions)
    ensures var q := After(EMPTY, actions);
      && (q.conn.closed <==> Finish in actions)
      && (q.writing == Some(p) <==> Underway(actions, p))
      && (q.cut == Some(p) <==> CutShort(actions, p))
    decreases |actions|
  {
    if actions != [] {
      var n := |actions| - 1;
      var before, a := actions[..n], actions[n];
      assert actions == before + [a];
      AfterSnoc(EMPTY, before, a);
      ScheduleShows(before, p);
      SnocUnderway(before, a, p);
      SnocCut(before, a, p);
      var q := After(EMPTY, before);
      assert q.cut.Some? ==> q.writing.None? by { OneWriter(before); }
      ActShows(q, a);
      hide After, Possible, Underway, CutShort, Act, Able;
    }
  }

  /** Over every interleaving of writers, half-closes, arrivals and inner reads, the packets
      received are the packets written, in order and with their boundaries; the one exception is
      an empty packet whose write is under way or was cut short by a half-close, which is whole
      with its length. A read that goes on returns only the next packet; when everything has
      arrived it returns that packet, whatever its length, zero included, and when there is none
      it fails if the stream was half-closed and waits if not. */
  lemma PacketQueue(actions: seq<Action>)
    requires Possible(EMPTY, actions)
    ensures var q := After(EMPTY, actions);
      && (q.received <= q.sent
          || (q.received == q.sent + [[]] && (Underway(actions, []) || CutShort(actions, []))))
      && q.conn.raw.Ordered()
    ensures var q := After(EMPTY, actions); var o := ReadOn(ReaderOf(q)).1;
      && (o.Packet? ==> Upcoming(q) == Some(o.p))
      && (q.conn.raw.arrived == |q.conn.raw.sent| ==>
            o == match Upcoming(q) case Some(p) => Packet(p) case None => if q.conn.closed then Failed else Blocked)
  {
    assert Fifo(EMPTY);
    AfterKeeps(EMPTY, actions);
    ScheduleShows(actions, []);
    var q := After(EMPTY, actions);
    NextRead(q);
    hide After, ReadOn, Upcoming, Underway, CutShort, Holding;
  }

  lemma AfterCons(q: Queue, a: Action, rest: seq<Action>)
    requires Able(q, a) && Possible(Act(q, a), rest)
    ensures Possible(q, [a] + rest) && After(q, [a] + rest) == After(Act(q, a), rest)
  {
    hide Act, Able;
    assert ([a] + rest)[1..] == rest;
  }

  /** Whatever of an empty packet's length arrived in one frame is read in one go. */
  lemma AllDelivered(q: Queue) returns (k: nat)
    requires Fifo(q) && q.conn.raw.Ordered() && q.conn.reader == Reader([], false) && q.held == []
    requires q.conn.raw.Unread() == Frame(Be(0, 2)) + FIN
    ensures Able(q, Deliver(k)) && Able(Act(q, Deliver(k)), Take)
    ensures var n := Act(Act(q, Deliver(k)), Take); n.received == q.received + [[]] && n.sent == q.sent
  {
    k := |q.conn.raw.sent| - q.conn.raw.arrived;
    var c := Act(q, Deliver(k)).conn;
    assert c.raw.Available() == Frame(Be(0, 2)) + FIN;
    NextOfFrame(Be(0, 2), FIN);
    LengthAlone([]);
    hide NextFrame, Frame, FromBe, Be, Fifo;
    FrameInOne(Be(0, 2), FIN);
    assert Be(0, 2)[..2] == Be(0, 2) && [] + Be(0, 2) == Be(0, 2);
    assert ResultOf(c, 2) == Data(Be(0, 2));
  }

  lemma FrameInOne(b: bytes, more: bytes)
    requires |b| == 2
    ensures Read(Reader([], false), Frame(b) + more, 2).result == Data(b)
  {
    NextOfFrame(b, more);
    Widths();
    BeRoundTrip(2, 2);
    FrameParts(Be(2, 2), b, more);
    assert b[..2] == b;
    hide NextFrame, FromBe, Be, Values;
  }

  /** The state after an empty packet's length, a half-close and the refused body. */
  lemma CutOff() returns (q1: Queue, q2: Queue, q3: Queue)
    ensures Able(EMPTY, Begin([])) && q1 == Act(EMPTY, Begin([]))
    ensures Able(q1, Finish) && q2 == Act(q1, Finish)
    ensures Able(q2, Body) && q3 == Act(q2, Body)
    ensures Fifo(q3) && q3.sent == [] && q3.received == [] && q3.held == []
    ensures q3.conn.raw.Ordered() && q3.conn.reader == Reader([], false)
      && q3.conn.raw.Unread() == Frame(Be(0, 2)) + FIN
  {
    OneChunk(Be(0, 2));
    hide Chunked, Frame, Be;
    assert Fifo(EMPTY);
    ActKeeps(EMPTY, Begin([]));
    q1 := Act(EMPTY, Begin([]));
    ActKeeps(q1, Finish);
    q2 := Act(q1, Finish);
    ActKeeps(q2, Body);
    q3 := Act(q2, Body);
    assert q3.conn.raw.sent == [] + Frame(Be(0, 2)) + FIN;
  }

  lemma OneChunk(b: bytes)
    requires 0 < |b| <= LIMIT
    ensures Chunked(b) == Frame(b)
  {
    hide Frame;
    assert Min(|b|, LIMIT) == |b| && b[..|b|] == b && b[|b|..] == [];
    assert Chunked([]) == [] && Frame(b) + [] == Frame(b);
  }

  /** The exception is real: a half-close between the two writes of an empty packet makes its
      write fail, and the packet is received all the same. */
  lemma CutEmptyPacketArrives() returns (k: nat)
    ensures var actions := [Begin([])] + ([Finish] + ([Body] + ([Deliver(k)] + ([Take] + []))));
      Possible(EMPTY, actions) && After(EMPTY, actions).sent == [] && After(EMPTY, actions).received == [[]]
  {
    hide Act, Fifo, Possible, After, Able;
    var q1, q2, q3 := CutOff();
    k := AllDelivered(q3);
    var q4 := Act(q3, Deliver(k));
    LastAction(q4, Take);
    AfterCons(q3, Deliver(k), [Take] + []);
    AfterCons(q2, Body, [Deliver(k)] + ([Take] + []));
    AfterCons(q1, Finish, [Body] + ([Deliver(k)] + ([Take] + [])));
    AfterCons(EMPTY, Begin([]), [Finish] + ([Body] + ([Deliver(k)] + ([Take] + []))));
  }

  lemma LastAction(q: Queue, a: Action)
    requires Able(q, a)
    ensures Possible(q, [a] + []) && After(q, [a] + []) == Act(q, a)
  {
    hide Act, Able;
    assert ([a] + [])[1..] == [];
  }
}
