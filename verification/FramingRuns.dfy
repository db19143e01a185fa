/** Runs of a framed connection: it refines a byte stream with half-close. */
module FramingRuns {
  import opened Bytes
  import opened Framing

  // ---------------------------------------------------------------- a byte stream

  /** One direction: the bytes accepted from the writer, its half-close, the raw bytes sent,
      how many of them have arrived and been consumed, the reading end, and the bytes read. */
  datatype Conn = Conn(written: bytes, closed: bool, raw: Raw, reader: Reader, read: bytes)
  datatype Raw = Raw(sent: bytes, arrived: nat, taken: nat) {
    ghost predicate Ordered() { taken <= arrived <= |sent| }
    function Available(): bytes requires Ordered() { sent[taken..arrived] }
    function Unread(): bytes requires Ordered() { sent[taken..] }
  }

  datatype Event = Write(b: bytes) | CloseWrite | Arrive(k: nat) | ReadUpTo(n: nat)

  const FIN: bytes := Frame([])
  const IDLE := Conn([], false, Raw([], 0, 0), Reader([], false), [])

  ghost predicate Enabled(c: Conn, e: Event) {
    c.raw.Ordered() && (e.Arrive? ==> c.raw.arrived + e.k <= |c.raw.sent|)
  }

  /** Writes after the half-close are refused and a second half-close does nothing. */
  function Step(c: Conn, e: Event): Conn
    requires Enabled(c, e)
  {
    match e
    case Write(b) =>
      if c.closed then c else c.(written := c.written + b, raw := c.raw.(sent := c.raw.sent + Chunked(b)))
    case CloseWrite =>
      if c.closed then c else c.(closed := true, raw := c.raw.(sent := c.raw.sent + FIN))
    case Arrive(k) => c.(raw := c.raw.(arrived := c.raw.arrived + k))
    case ReadUpTo(n) =>
      var t := Read(c.reader, c.raw.Available(), n);
      c.(reader := t.reader, raw := c.raw.(taken := c.raw.arrived - |t.left|),
         read := c.read + if t.result.Data? then t.result.b else [])
  }

  function ResultOf(c: Conn, n: nat): Result
    requires c.raw.Ordered()
  {
    Read(c.reader, c.raw.Available(), n).result
  }

  ghost predicate Invariant(c: Conn) {
    && c.raw.Ordered()
    && var d := Decode(c.raw.Unread());
       && d.Decoded?
       && c.written == c.read + c.reader.pending + d.content
       && d.fin == (c.closed && !c.reader.eof)
       && (c.reader.eof ==> c.closed && c.reader.pending == [] && c.raw.Unread() == [])
  }

  /** The byte stream itself: what was written, whether it is closed, how much was read. */
  datatype Stream = Stream(written: bytes, closed: bool, position: nat)

  function Abstract(c: Conn): Stream { Stream(c.written, c.closed, |c.read|) }

  /** What each event may do to a byte stream with half-close, and what a read may return. */
  ghost predicate StreamStep(s: Stream, e: Event, s': Stream, r: Result) {
    match e
    case Write(b) => s' == if s.closed then s else s.(written := s.written + b)
    case CloseWrite => s' == s.(closed := true)
    case Arrive(_) => s' == s
    case ReadUpTo(n) =>
      match r
      case Data(b) =>
        && |b| <= n && (n > 0 ==> b != [])
        && s.position + |b| <= |s.written| && b == s.written[s.position..s.position + |b|]
        && s' == s.(position := s.position + |b|)
      case End => s.closed && s.position == |s.written| && s' == s
      case Wait => s' == s
      case FrameLimit => false
  }

  lemma WriteKeeps(c: Conn, b: bytes)
    requires Invariant(c) && !c.closed
    ensures Invariant(Step(c, Write(b)))
  {
    hide Decode, Chunked, Read;
    var c' := Step(c, Write(b));
    assert c'.raw.Unread() == c.raw.Unread() + Chunked(b);
    DecodeChunked(c.raw.Unread(), b);
    var content := Decode(c.raw.Unread()).content;
    assert c.read + c.reader.pending + content + b == c.read + c.reader.pending + (content + b);
  }

  lemma CloseKeeps(c: Conn)
    requires Invariant(c) && !c.closed
    ensures Invariant(Step(c, CloseWrite))
  {
    hide Decode, Read;
    var c' := Step(c, CloseWrite);
    assert c'.raw.Unread() == c.raw.Unread() + FIN;
    DecodeAppend(c.raw.Unread(), []);
  }

  /** The first frame that has arrived is the first frame of everything not yet consumed. */
  lemma FirstFrame(c: Conn)
    requires Invariant(c) && !c.reader.eof && NextFrame(c.raw.Available()).Got?
    ensures var n, u := NextFrame(c.raw.Available()), c.raw.Unread();
      && NextFrame(u).Got? && NextFrame(u).payload == n.payload
      && NextFrame(u).rest == c.raw.sent[c.raw.arrived - |n.rest|..]
      && |n.payload| <= LIMIT
  {
    hide NextFrame;
    var a, late := c.raw.Available(), c.raw.sent[c.raw.arrived..];
    assert c.raw.Unread() == a + late;
    NextMonotone(a, late);
    NextRest(a);
    var n := NextFrame(a);
    assert n.rest + late == c.raw.sent[c.raw.arrived - |n.rest|..];
  }

  lemma NoOversize(c: Conn)
    requires Invariant(c) && |c.raw.Available()| >= 2
    ensures FromBe(c.raw.Available()[..2]) <= LIMIT
  {
    hide FromBe;
    assert c.raw.Unread()[..2] == c.raw.Available()[..2];
  }

  lemma CopyShift(read: bytes, pending: bytes, rest: bytes, k: nat)
    requires k <= |pending|
    ensures read + pending[..k] + pending[k..] + rest == read + pending + rest
    ensures (read + pending + rest)[|read|..|read| + k] == pending[..k]
  {
    assert pending == pending[..k] + pending[k..];
  }

  lemma CopyRefines(c: Conn, n: nat)
    requires Invariant(c) && c.reader.pending != [] && n > 0
    ensures Invariant(Step(c, ReadUpTo(n)))
    ensures StreamStep(Abstract(c), ReadUpTo(n), Abstract(Step(c, ReadUpTo(n))), ResultOf(c, n))
  {
    hide NextFrame, FromBe, Decode;
    var k := Min(n, |c.reader.pending|);
    CopyShift(c.read, c.reader.pending, Decode(c.raw.Unread()).content, k);
    var c' := Step(c, ReadUpTo(n));
    assert ResultOf(c, n) == Data(c.reader.pending[..k]);
    assert c'.raw == c.raw && c'.read == c.read + c.reader.pending[..k];
    assert c'.reader == Reader(c.reader.pending[k..], c.reader.eof);
  }

  lemma EndReached(c: Conn)
    requires Invariant(c) && c.reader.eof
    ensures c.closed && c.read == c.written
  {
    assert Decode([]).content == [];
  }

  /** Taking the next frame off the raw stream without handing any of it over yet. */
  function Refill(c: Conn): Conn
    requires c.raw.Ordered() && NextFrame(c.raw.Available()).Got?
  {
    var n := NextFrame(c.raw.Available());
    c.(reader := Reader(n.payload, false), raw := c.raw.(taken := c.raw.arrived - |n.rest|))
  }

  lemma RefillKeeps(c: Conn)
    requires Invariant(c) && c.reader == Reader([], false)
    requires NextFrame(c.raw.Available()).Got? && NextFrame(c.raw.Available()).payload != []
    ensures Invariant(Refill(c))
  {
    hide NextFrame;
    FirstFrame(c);
    var c', u := Refill(c), c.raw.Unread();
    assert c'.raw.Unread() == NextFrame(u).rest;
    assert c.read + [] + (c'.reader.pending + Decode(c'.raw.Unread()).content)
        == c.read + c'.reader.pending + Decode(c'.raw.Unread()).content;
  }

  lemma FinRefines(c: Conn)
    requires Invariant(c) && c.reader == Reader([], false)
    requires NextFrame(c.raw.Available()).Got? && NextFrame(c.raw.Available()).payload == []
    ensures c.closed && c.read == c.written
    ensures Invariant(Refill(c).(reader := Reader([], true)))
  {
    hide NextFrame;
    FirstFrame(c);
    assert Refill(c).raw.Unread() == NextFrame(c.raw.Unread()).rest;
  }

  /** Reading a fresh frame is taking it off the stream and then copying from it. */
  lemma RefillThenCopy(c: Conn, n: nat)
    requires Invariant(c) && c.reader == Reader([], false) && n > 0
    requires NextFrame(c.raw.Available()).Got? && NextFrame(c.raw.Available()).payload != []
    ensures Refill(c).raw.Ordered()
    ensures Step(c, ReadUpTo(n)) == Step(Refill(c), ReadUpTo(n)) && ResultOf(c, n) == ResultOf(Refill(c), n)
  {
    hide NextFrame, FromBe, Decode;
    if |c.raw.Available()| >= 2 { NoOversize(c); }
    var a := c.raw.Available();
    var f := NextFrame(a);
    var copied := Copy(Reader(f.payload, false), f.rest, n);
    NextRest(a);
    assert Refill(c).raw.Available() == f.rest;
    assert Read(c.reader, a, n) == copied;
    assert Read(Refill(c).reader, f.rest, n) == copied;
    hide Read, Copy;
  }

  lemma FrameRefines(c: Conn, n: nat)
    requires Invariant(c) && c.reader == Reader([], false) && n > 0
    ensures Invariant(Step(c, ReadUpTo(n)))
    ensures StreamStep(Abstract(c), ReadUpTo(n), Abstract(Step(c, ReadUpTo(n))), ResultOf(c, n))
  {
    hide NextFrame, FromBe, Decode;
    var a := c.raw.Available();
    if |a| >= 2 { NoOversize(c); }
    if NextFrame(a).Waiting? {
      assert Step(c, ReadUpTo(n)) == c && ResultOf(c, n) == Wait;
    } else if NextFrame(a).payload == [] {
      FinRefines(c);
      assert Step(c, ReadUpTo(n)) == Refill(c).(reader := Reader([], true)) && ResultOf(c, n) == End;
    } else {
      RefillKeeps(c);
      CopyRefines(Refill(c), n);
      RefillThenCopy(c, n);
    }
  }

  lemma ReadRefines(c: Conn, n: nat)
    requires Invariant(c)
    ensures Invariant(Step(c, ReadUpTo(n)))
    ensures StreamStep(Abstract(c), ReadUpTo(n), Abstract(Step(c, ReadUpTo(n))), ResultOf(c, n))
  {
    hide NextFrame, FromBe, Decode;
    if n == 0 {
      assert Step(c, ReadUpTo(n)) == c && ResultOf(c, n) == Data([]);
    } else if c.reader.pending != [] {
      CopyRefines(c, n);
    } else if c.reader.eof {
      EndReached(c);
      assert Step(c, ReadUpTo(n)) == c && ResultOf(c, n) == End;
    } else {
      FrameRefines(c, n);
    }
  }

  /** Every event of the framed connection is a step of the byte stream. */
  lemma StepRefines(c: Conn, e: Event)
    requires Invariant(c) && Enabled(c, e)
    ensures Invariant(Step(c, e))
    ensures StreamStep(Abstract(c), e, Abstract(Step(c, e)), if e.ReadUpTo? then ResultOf(c, e.n) else Wait)
  {
    hide Decode, Read, Chunked;
    match e
    case Write(b) => if !c.closed { WriteKeeps(c, b); }
    case CloseWrite => if !c.closed { CloseKeeps(c); }
    case Arrive(k) => assert Step(c, e).raw.Unread() == c.raw.Unread();
    case ReadUpTo(n) => ReadRefines(c, n);
  }

  ghost predicate Legal(c: Conn, events: seq<Event>)
    decreases |events|
  {
    events == [] || (Enabled(c, events[0]) && Legal(Step(c, events[0]), events[1..]))
  }

  function Run(c: Conn, events: seq<Event>): Conn
    requires Legal(c, events)
    decreases |events|
  {
    if events == [] then c else Run(Step(c, events[0]), events[1..])
  }

  lemma {:induction false} RunKeeps(c: Conn, events: seq<Event>)
    requires Invariant(c) && Legal(c, events)
    ensures Invariant(Run(c, events))
    decreases |events|
  {
    if events != [] {
      StepRefines(c, events[0]);
      RunKeeps(Step(c, events[0]), events[1..]);
    }
  }

  /** In every run the bytes read are a prefix of the bytes written, the end is reported only
      when the stream is closed and fully read, and no frame is ever refused. */
  lemma ByteStream(events: seq<Event>, n: nat)
    requires Legal(IDLE, events)
    ensures var c := Run(IDLE, events);
      && c.raw.Ordered()
      && c.read <= c.written
      && (ResultOf(c, n).End? ==> c.closed && c.read == c.written)
      && !ResultOf(c, n).FrameLimit?
  {
    hide ResultOf, Step;
    assert Invariant(IDLE);
    RunKeeps(IDLE, events);
    StepRefines(Run(IDLE, events), ReadUpTo(n));
  }

  lemma Progress(c: Conn, n: nat)
    requires Invariant(c) && n > 0 && c.raw.arrived == |c.raw.sent|
    ensures !ResultOf(c, n).Wait? || (c.read == c.written && !c.closed)
    ensures ResultOf(c, n).Data? ==> c.read != c.written
  {
    assert c.raw.Available() == c.raw.Unread();
    ReadRefines(c, n);
  }

  /** Once everything sent has arrived, a read of any positive size makes progress: data while
      there is any left, and the end exactly when the closed stream is used up. */
  lemma ByteStreamProgress(events: seq<Event>, n: nat)
    requires Legal(IDLE, events) && n > 0
    requires var c := Run(IDLE, events); c.raw.arrived == |c.raw.sent|
    ensures var c := Run(IDLE, events);
      && c.raw.Ordered()
      && (ResultOf(c, n).Data? <==> c.read != c.written)
      && (ResultOf(c, n).End? <==> c.closed && c.read == c.written)
  {
    hide ResultOf;
    assert Invariant(IDLE);
    RunKeeps(IDLE, events);
    ByteStream(events, n);
    Progress(Run(IDLE, events), n);
  }
}
