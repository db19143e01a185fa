/** Whole runs of the fragment protocol over a network that loses, reorders and
    duplicates: what is delivered was written. */
module DatagramRuns {
  import opened Bytes
  import opened Limits
  import opened Datagram

  // ---------------------------------------------------------------- splitting and joining

  /** Every fragment a write of any permitted length produces passes the receiver's checks. */
  lemma FragmentsAccepted(id: nat, seqno: nat, d: bytes, i: nat)
    requires id < Values(8) && seqno < Values(4)
    requires |d| <= MAX_UDP && i < TotalFor(|d|)
    ensures var b := Encode(FragmentOf(id, seqno, d, i));
      && HEADER <= |b| <= HEADER + CHUNK
      && Decode(b) == FragmentOf(id, seqno, d, i)
      && Acceptable(FragmentOf(id, seqno, d, i))
  {
    Widths();
    DecodeEncode(FragmentOf(id, seqno, d, i));
  }

  /** Some pieces of `d`, each in its place. */
  ghost predicate PiecesOf(pieces: seq<Option<bytes>>, d: bytes) {
    && |pieces| == TotalFor(|d|)
    && forall i :: 0 <= i < |pieces| ==> pieces[i].None? || pieces[i] == Some(Piece(d, i))
  }

  /** How many bytes the first `n` pieces of `d` hold. */
  function Reach(d: bytes, n: nat): (k: nat)
    ensures k <= |d|
  {
    Min(|d|, n * CHUNK)
  }

  lemma ReachStep(d: bytes, n: nat)
    requires n < TotalFor(|d|)
    ensures Reach(d, n) <= Reach(d, n + 1) && Piece(d, n) == d[Reach(d, n)..Reach(d, n + 1)]
  {
    assert (n + 1) * CHUNK == n * CHUNK + CHUNK;
  }

  lemma ReachAll(d: bytes)
    ensures Reach(d, TotalFor(|d|)) == |d| && Reach(d, 0) == 0
  {
  }

  lemma {:induction false} JoinPrefix(pieces: seq<Option<bytes>>, d: bytes, n: nat)
    requires PiecesOf(pieces, d) && n <= |pieces|
    ensures |Join(pieces[..n])| <= Reach(d, n)
    ensures (forall i :: 0 <= i < n ==> pieces[i].Some?) ==> Join(pieces[..n]) == d[..Reach(d, n)]
  {
    hide TotalFor, Reach, Piece;
    if n == 0 {
      ReachAll(d);
    } else {
      JoinPrefix(pieces, d, n - 1);
      ReachStep(d, n - 1);
      assert pieces[..n][..n - 1] == pieces[..n - 1] && pieces[..n][n - 1] == pieces[n - 1];
      assert d[..Reach(d, n - 1)] + d[Reach(d, n - 1)..Reach(d, n)] == d[..Reach(d, n)];
    }
  }

  lemma JoinWhole(pieces: seq<Option<bytes>>, d: bytes)
    requires PiecesOf(pieces, d)
    ensures |Join(pieces)| <= |d|
    ensures (forall i :: 0 <= i < |pieces| ==> pieces[i].Some?) ==> Join(pieces) == d
  {
    JoinPrefix(pieces, d, |pieces|);
    ReachAll(d);
    assert pieces[..|pieces|] == pieces;
  }

  // ---------------------------------------------------------------- safety

  /** The number the k-th write on a flow carries: a 32-bit counter bumped before use. */
  function Number(k: nat): (q: nat)
    ensures q < SEQUENCE_SPACE
  {
    (k + 1) % SEQUENCE_SPACE
  }

  /** Which write a number belongs to, while numbers have not wrapped. */
  function WriteOf(q: nat): nat { (q + SEQUENCE_SPACE - 1) % SEQUENCE_SPACE }

  lemma WriteOfNumber(k: nat)
    requires k < SEQUENCE_SPACE
    ensures WriteOf(Number(k)) == k
  {
  }

  ghost predicate PartsOf(parts: Parts, writes: seq<bytes>) {
    forall q :: q in parts ==> WriteOf(q) < |writes| && PiecesOf(parts[q].pieces, writes[WriteOf(q)])
  }

  ghost predicate SentOn(f: Fragment, id: nat, writes: seq<bytes>) {
    exists k, i :: 0 <= k < |writes| && 0 <= i < TotalFor(|writes[k]|) && f == FragmentOf(id, Number(k), writes[k], i)
  }

  lemma PiecesFill(pieces: seq<Option<bytes>>, d: bytes, i: nat)
    requires PiecesOf(pieces, d) && i < |pieces|
    ensures PiecesOf(pieces[i := Some(Piece(d, i))], d)
  {
  }

  lemma FillFrom(live: Parts, a: Assembly, f: Fragment, writes: seq<bytes>, k: nat)
    requires PartsOf(live, writes) && k < |writes| && WriteOf(Number(k)) == k
    requires f.seqno == Number(k) && f.total == TotalFor(|writes[k]|) && f.index < f.total
    requires f.payload == Piece(writes[k], f.index)
    requires PiecesOf(a.pieces, writes[k]) && a.pieces[f.index].None? && a.count == Filled(a.pieces)
    ensures var o := Fill(live, a, f);
      PartsOf(o.parts, writes) && (o.delivered.Some? ==> o.delivered.value == writes[k])
  {
    var pieces := a.pieces[f.index := Some(f.payload)];
    PiecesFill(a.pieces, writes[k], f.index);
    FillCounts(a.pieces, f.index, f.payload);
    FilledAll(pieces);
    JoinWhole(pieces, writes[k]);
  }

  lemma AcceptPiece(parts: Parts, id: nat, writes: seq<bytes>, k: nat, i: nat, now: int)
    requires Sound(parts) && PartsOf(parts, writes)
    requires k < |writes| <= SEQUENCE_SPACE && i < TotalFor(|writes[k]|)
    ensures var o := AcceptFragment(parts, FragmentOf(id, Number(k), writes[k], i), now);
      PartsOf(o.parts, writes) && (o.delivered.Some? ==> o.delivered.value == writes[k])
  {
    var f := FragmentOf(id, Number(k), writes[k], i);
    WriteOfNumber(k);
    var live := Expire(parts, now);
    assert PartsOf(live, writes);
    if f.total == 1 {
      assert Piece(writes[k], 0) == writes[k];
    } else if Acceptable(f) {
      if f.seqno in live {
        var a := live[f.seqno];
        if a.pieces[f.index].None? {
          FillFrom(live, a, f, writes, k);
        }
      } else if |live| < SLOTS {
        EmptyCounts(f.total);
        FillFrom(live, Assembly(now, Empty(f.total), 0, 0), f, writes, k);
      }
    }
  }

  /** One direction of a connection: per flow, what the peer wrote, the receiver's table
      while the flow is registered, and what was handed to `deliver`. */
  datatype Link = Link(writes: map<nat, seq<bytes>>, tables: map<nat, Parts>, delivered: map<nat, seq<bytes>>)
  datatype Event = Write(id: nat, d: bytes) | Register(id: nat) | Close(id: nat) | Receive(b: bytes, now: int)

  const START := Link(map[], map[], map[])

  function On(m: map<nat, seq<bytes>>, id: nat): seq<bytes> { if id in m then m[id] else [] }

  ghost predicate InFlight(l: Link, b: bytes) {
    exists f: Fragment :: b == Encode(f) && SentOn(f, f.flow, On(l.writes, f.flow))
  }

  /** A flow identifier is a stream identifier, so its counter is never restarted; the
      network hands over any fragment of any earlier write, any number of times, at any time. */
  ghost predicate Enabled(l: Link, e: Event) {
    Feasible(l, e) && (e.Write? ==> |On(l.writes, e.id)| < SEQUENCE_SPACE)
  }

  /** The same with any number of writes on a flow. */
  ghost predicate Feasible(l: Link, e: Event) {
    match e
    case Write(id, d) => id < Values(8) && |d| <= MAX_UDP
    case Register(id) => true
    case Close(id) => true
    case Receive(b, now) => InFlight(l, b)
  }

  function Step(l: Link, e: Event): Link {
    match e
    case Write(id, d) => l.(writes := l.writes[id := On(l.writes, id) + [d]])
    case Register(id) => if id in l.tables || |l.tables| >= MAX_FLOWS then l else l.(tables := l.tables[id := map[]])
    case Close(id) => l.(tables := l.tables - {id})
    case Receive(b, now) =>
      if !(HEADER <= |b| <= HEADER + CHUNK) then l
      else
        var f := Decode(b);
        if f.flow !in l.tables then l
        else
          var o := AcceptFragment(l.tables[f.flow], f, now);
          var got := if o.delivered.Some? then [o.delivered.value] else [];
          l.(tables := l.tables[f.flow := o.parts], delivered := l.delivered[f.flow := On(l.delivered, f.flow) + got])
  }

  function Run(l: Link, events: seq<Event>): Link
    decreases |events|
  {
    if events == [] then l else Run(Step(l, events[0]), events[1..])
  }

  ghost predicate Legal(l: Link, events: seq<Event>)
    decreases |events|
  {
    events == [] || (Enabled(l, events[0]) && Legal(Step(l, events[0]), events[1..]))
  }

  ghost predicate FlowInvariant(l: Link, id: nat) {
    var writes := On(l.writes, id);
    && (writes != [] ==> id < Values(8))
    && |writes| <= SEQUENCE_SPACE
    && (forall k :: 0 <= k < |writes| ==> |writes[k]| <= MAX_UDP)
    && (id in l.tables ==> Sound(l.tables[id]) && PartsOf(l.tables[id], writes))
    && (forall d :: d in On(l.delivered, id) ==> d in writes)
  }

  ghost predicate Invariant(l: Link) {
    forall id: nat :: FlowInvariant(l, id)
  }

  lemma WriteKeeps(l: Link, id: nat, d: bytes)
    requires FlowInvariant(l, id) && Enabled(l, Write(id, d))
    ensures FlowInvariant(Step(l, Write(id, d)), id)
  {
  }

  lemma RegistrationKeeps(l: Link, e: Event, id: nat)
    requires FlowInvariant(l, id) && (e == Register(id) || e == Close(id))
    ensures FlowInvariant(Step(l, e), id)
  {
  }

  lemma ReceiveKeeps(l: Link, f: Fragment, now: int)
    requires FlowInvariant(l, f.flow) && SentOn(f, f.flow, On(l.writes, f.flow))
    ensures HEADER <= |Encode(f)| && Decode(Encode(f)) == f
    ensures FlowInvariant(Step(l, Receive(Encode(f), now)), f.flow)
  {
    hide AcceptFragment, Encode, Decode, TotalFor, Piece, Number;
    var writes := On(l.writes, f.flow);
    var k, i :| 0 <= k < |writes| && 0 <= i < TotalFor(|writes[k]|) && f == FragmentOf(f.flow, Number(k), writes[k], i);
    Widths();
    FragmentsAccepted(f.flow, Number(k), writes[k], i);
    if f.flow in l.tables {
      AcceptKeepsSound(l.tables[f.flow], f, now);
      AcceptPiece(l.tables[f.flow], f.flow, writes, k, i, now);
    }
  }

  lemma StepKeeps(l: Link, e: Event)
    requires Invariant(l) && Enabled(l, e)
    ensures Invariant(Step(l, e))
  {
    var target;
    match e {
      case Write(id, d) =>
        assert FlowInvariant(l, id);
        WriteKeeps(l, id, d);
        target := id;
      case Register(id) =>
        assert FlowInvariant(l, id);
        RegistrationKeeps(l, e, id);
        target := id;
      case Close(id) =>
        assert FlowInvariant(l, id);
        RegistrationKeeps(l, e, id);
        target := id;
      case Receive(b, now) =>
        var f: Fragment :| b == Encode(f) && SentOn(f, f.flow, On(l.writes, f.flow));
        assert FlowInvariant(l, f.flow);
        ReceiveKeeps(l, f, now);
        target := f.flow;
    }
    forall id: nat ensures FlowInvariant(Step(l, e), id) {
      assert FlowInvariant(l, id);
      if id != target { Elsewhere(l, e, target, id); }
    }
  }

  /** An event on one flow leaves every other flow as it was. */
  lemma Elsewhere(l: Link, e: Event, target: nat, id: nat)
    requires id != target
    requires match e
      case Write(t, _) => t == target
      case Register(t) => t == target
      case Close(t) => t == target
      case Receive(b, _) => |b| >= HEADER && Decode(b).flow == target
    requires FlowInvariant(l, id)
    ensures FlowInvariant(Step(l, e), id)
  {
    hide AcceptFragment, Decode, Sound, PartsOf, Values;
    var l' := Step(l, e);
    assert On(l'.writes, id) == On(l.writes, id);
    assert On(l'.delivered, id) == On(l.delivered, id);
    assert (id in l'.tables <==> id in l.tables) && (id in l.tables ==> l'.tables[id] == l.tables[id]);
    hide Step, On;
  }

  lemma {:induction false} RunKeeps(l: Link, events: seq<Event>)
    requires Invariant(l) && Legal(l, events)
    ensures Invariant(Run(l, events))
    decreases |events|
  {
    if events != [] {
      StepKeeps(l, events[0]);
      RunKeeps(Step(l, events[0]), events[1..]);
    }
  }

  /** Whatever the network does, each datagram delivered on a flow is, byte for byte,
      one the peer wrote on that flow. */
  lemma ReassemblySafety(events: seq<Event>, id: nat, d: bytes)
    requires Legal(START, events)
    requires d in On(Run(START, events).delivered, id)
    ensures d in On(Run(START, events).writes, id)
  {
    assert Invariant(START);
    RunKeeps(START, events);
    assert FlowInvariant(Run(START, events), id);
  }

  /** What is delivered when fragment 0 of `d` and then fragment 1 of `e` arrive under one number. */
  function HalfEach(id: nat, q: nat, d: bytes, e: bytes, now: int): Option<bytes>
    requires TotalFor(|d|) == TotalFor(|e|) == 2
  {
    var first := AcceptFragment(map[], FragmentOf(id, q, d, 0), now);
    AcceptFragment(first.parts, FragmentOf(id, q, e, 1), now).delivered
  }

  lemma TwoHalves(id: nat, q: nat, d: bytes, e: bytes, now: int)
    requires CHUNK < |d| <= 2 * CHUNK && CHUNK < |e| <= 2 * CHUNK
    ensures HalfEach(id, q, d, e, now) == Some(d[..CHUNK] + e[CHUNK..])
  {
    var f, g := FragmentOf(id, q, d, 0), FragmentOf(id, q, e, 1);
    assert TotalFor(|d|) == TotalFor(|e|) == 2;
    var half: seq<Option<bytes>> := [Some(d[..CHUNK]), None];
    assert Empty(2)[0 := Some(Piece(d, 0))] == half;
    var parts := AcceptFragment(map[], f, now).parts;
    assert parts == map[q := Assembly(now, half, 1, CHUNK)];
    assert Expire(parts, now) == parts;
    var both := half[1 := Some(e[CHUNK..])];
    assert both[..1] == [Some(d[..CHUNK])];
    assert Join(both[..1]) == d[..CHUNK];
    assert Join(both) == d[..CHUNK] + e[CHUNK..];
    assert g.payload == e[CHUNK..] && parts[q].pieces[g.index := Some(g.payload)] == both;
    assert Insert(parts, g, now) == Fill(parts, parts[q], g);
  }

  lemma NumberRepeats(k: nat)
    ensures Number(k + SEQUENCE_SPACE) == Number(k)
  {
  }

  ghost predicate FeasibleRun(l: Link, events: seq<Event>)
    decreases |events|
  {
    events == [] || (Feasible(l, events[0]) && FeasibleRun(Step(l, events[0]), events[1..]))
  }

  function Writes(id: nat, ws: seq<bytes>): seq<Event> {
    if ws == [] then [] else [Write(id, ws[0])] + Writes(id, ws[1..])
  }

  lemma {:induction false} RunAppend(l: Link, a: seq<Event>, b: seq<Event>)
    requires FeasibleRun(l, a) && FeasibleRun(Run(l, a), b)
    ensures FeasibleRun(l, a + b) && Run(l, a + b) == Run(Run(l, a), b)
    decreases |a|
  {
    hide Feasible, Step;
    if a == [] {
      assert a + b == b;
    } else {
      RunAppend(Step(l, a[0]), a[1..], b);
      assert (a + b)[1..] == a[1..] + b;
    }
  }

  lemma WriteStep(l: Link, id: nat, d: bytes)
    requires id < Values(8) && |d| <= MAX_UDP
    ensures var n := Step(l, Write(id, d));
      && Feasible(l, Write(id, d)) && n.tables == l.tables && n.delivered == l.delivered
      && On(n.writes, id) == On(l.writes, id) + [d]
  {
  }

  /** Writing more on a flow adds to its writes and touches nothing else. */
  ghost predicate Wrote(l: Link, n: Link, id: nat, ws: seq<bytes>) {
    n.tables == l.tables && n.delivered == l.delivered && On(n.writes, id) == On(l.writes, id) + ws
  }

  lemma WroteThen(l: Link, m: Link, n: Link, id: nat, w: bytes, ws: seq<bytes>)
    requires Wrote(l, m, id, [w]) && Wrote(m, n, id, ws)
    ensures Wrote(l, n, id, [w] + ws)
  {
    hide On;
    assert On(l.writes, id) + [w] + ws == On(l.writes, id) + ([w] + ws);
  }

  lemma {:induction false} AfterWrites(l: Link, id: nat, ws: seq<bytes>)
    requires id < Values(8) && forall i :: 0 <= i < |ws| ==> |ws[i]| <= MAX_UDP
    ensures FeasibleRun(l, Writes(id, ws)) && Wrote(l, Run(l, Writes(id, ws)), id, ws)
    decreases |ws|
  {
    hide Step, Feasible, On, Values;
    if ws == [] {
      assert On(l.writes, id) + [] == On(l.writes, id);
    } else {
      var next := Step(l, Write(id, ws[0]));
      WriteStep(l, id, ws[0]);
      AfterWrites(next, id, ws[1..]);
      WroteThen(l, next, Run(next, Writes(id, ws[1..])), id, ws[0], ws[1..]);
      hide Wrote;
      assert Writes(id, ws)[1..] == Writes(id, ws[1..]);
      assert ws == [ws[0]] + ws[1..];
    }
  }

  lemma ReceiveStep(l: Link, f: Fragment, now: int)
    requires HEADER <= |Encode(f)| <= HEADER + CHUNK && Decode(Encode(f)) == f && f.flow in l.tables
    ensures var n, o := Step(l, Receive(Encode(f), now)), AcceptFragment(l.tables[f.flow], f, now);
      && n.writes == l.writes && f.flow in n.tables && n.tables[f.flow] == o.parts
      && (o.delivered.Some? ==> o.delivered.value in On(n.delivered, f.flow))
  {
    hide Encode, Decode, AcceptFragment;
    var n, o := Step(l, Receive(Encode(f), now)), AcceptFragment(l.tables[f.flow], f, now);
    if o.delivered.Some? {
      assert On(n.delivered, f.flow)[|On(l.delivered, f.flow)|] == o.delivered.value;
    }
  }

  /** On a registered flow with an empty table, two fragments in flight under one number. */
  lemma TwoArrivals(l: Link, id: nat, k: nat, j: nat, now: int)
    requires id < Values(8) && id in l.tables && l.tables[id] == map[]
    requires k < |On(l.writes, id)| && j < |On(l.writes, id)| && Number(k) == Number(j)
    requires CHUNK < |On(l.writes, id)[k]| <= 2 * CHUNK && CHUNK < |On(l.writes, id)[j]| <= 2 * CHUNK
    ensures var d, e := On(l.writes, id)[k], On(l.writes, id)[j];
      var a, b := Receive(Encode(FragmentOf(id, Number(k), d, 0)), now),
        Receive(Encode(FragmentOf(id, Number(j), e, 1)), now);
      && Feasible(l, a) && Feasible(Step(l, a), b)
      && (d[..CHUNK] + e[CHUNK..]) in On(Step(Step(l, a), b).delivered, id)
      && Step(Step(l, a), b).writes == l.writes
  {
    var ws := On(l.writes, id);
    var d, e := ws[k], ws[j];
    var f, g := FragmentOf(id, Number(k), d, 0), FragmentOf(id, Number(j), e, 1);
    Widths();
    FragmentsAccepted(id, Number(k), d, 0);
    FragmentsAccepted(id, Number(j), e, 1);
    TwoHalves(id, Number(k), d, e, now);
    assert SentOn(f, id, ws) && SentOn(g, id, ws);
    hide AcceptFragment, Encode, Decode, FragmentOf, SentOn, Values, Step;
    ReceiveStep(l, f, now);
    var mid := Step(l, Receive(Encode(f), now));
    assert InFlight(l, Encode(f));
    assert InFlight(mid, Encode(g));
    ReceiveStep(mid, g, now);
  }

  function Same(b: byte): bytes { seq(1001, _ => b) }

  /** A datagram, as many empty ones as make its number come back, and another datagram. */
  function Flood(gap: nat): seq<bytes> { [Same(1)] + seq(gap, _ => []) + [Same(2)] }

  lemma FloodFacts(gap: nat)
    ensures var ws, mixed := Flood(gap), Same(1)[..CHUNK] + Same(2)[CHUNK..];
      && |ws| == gap + 2 && ws[0] == Same(1) && ws[gap + 1] == Same(2) && mixed !in ws
      && forall i :: 0 <= i < |ws| ==> |ws[i]| <= MAX_UDP
  {
    var ws, mixed := Flood(gap), Same(1)[..CHUNK] + Same(2)[CHUNK..];
    assert mixed[0] == 1 && mixed[1000] == 2 && Same(1)[1000] == 1 && Same(2)[0] == 2;
    forall i | 0 <= i < |ws| ensures ws[i] != mixed && |ws[i]| <= MAX_UDP {
      assert ws[i] == Same(1) || ws[i] == [] || ws[i] == Same(2);
    }
  }

  lemma AfterFlood(id: nat, ws: seq<bytes>) returns (events: seq<Event>)
    requires id < Values(8) && forall i :: 0 <= i < |ws| ==> |ws[i]| <= MAX_UDP
    ensures FeasibleRun(START, events)
    ensures var l := Run(START, events); On(l.writes, id) == ws && id in l.tables && l.tables[id] == map[]
  {
    var begun := Step(START, Register(id));
    OneEvent(START, Register(id));
    AfterWrites(begun, id, ws);
    assert On(begun.writes, id) + ws == ws;
    RunAppend(START, [Register(id)], Writes(id, ws));
    events := [Register(id)] + Writes(id, ws);
  }

  /** The bound on writes is exact: one write more, so that a number comes back, and there is a
      run in which a datagram is delivered that nobody wrote. */
  lemma ReusedNumberMixes(id: nat, now: int) returns (events: seq<Event>, mixed: bytes)
    requires id < Values(8)
    ensures FeasibleRun(START, events)
    ensures var l := Run(START, events);
      |On(l.writes, id)| == SEQUENCE_SPACE + 1 && mixed in On(l.delivered, id) && mixed !in On(l.writes, id)
  {
    var ws := Flood(SEQUENCE_SPACE - 1);
    FloodFacts(SEQUENCE_SPACE - 1);
    hide Flood, Values;
    mixed := Same(1)[..CHUNK] + Same(2)[CHUNK..];
    var before := AfterFlood(id, ws);
    var l := Run(START, before);
    NumberRepeats(0);
    TwoArrivals(l, id, 0, SEQUENCE_SPACE, now);
    hide FragmentOf, Encode, Feasible, Step, Same, Run, FeasibleRun;
    var a := Receive(Encode(FragmentOf(id, Number(0), Same(1), 0)), now);
    var b := Receive(Encode(FragmentOf(id, Number(SEQUENCE_SPACE), Same(2), 1)), now);
    OneEvent(l, a);
    OneEvent(Step(l, a), b);
    RunAppend(l, [a], [b]);
    RunAppend(START, before, [a] + [b]);
    events := before + ([a] + [b]);
  }

  lemma OneEvent(l: Link, e: Event)
    requires Feasible(l, e)
    ensures FeasibleRun(l, [e]) && Run(l, [e]) == Step(l, e)
  {
    hide Feasible, Step;
    assert [e][1..] == [];
  }
}
