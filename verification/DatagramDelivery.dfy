/** One flow's table over any sequence of arrivals: bounds and accounting for arbitrary
    bytes, and delivery of a datagram whose fragments all arrive in time, in any order. */
module DatagramDelivery {
  import opened Bytes
  import opened Limits
  import opened Datagram
  import opened DatagramRuns

  /** A received datagram after its length check, decoded. */
  datatype Arrival = Arrival(f: Fragment, now: int)

  predicate For(a: Arrival, id: nat) { a.f.flow == id }

  /** What the receive loop makes of raw datagrams: those of impossible length are dropped. */
  function Heard(raw: seq<(bytes, int)>): (arrivals: seq<Arrival>)
    ensures forall k :: 0 <= k < |arrivals| ==> |arrivals[k].f.payload| <= CHUNK
  {
    if raw == [] then []
    else
      var (b, now) := raw[|raw| - 1];
      Heard(raw[..|raw| - 1]) + if HEADER <= |b| <= HEADER + CHUNK then [Arrival(Decode(b), now)] else []
  }

  /** What the connection's receive loop does to flow `id` with one arrival. */
  function Receive(parts: Parts, id: nat, a: Arrival): Outcome {
    if For(a, id) then AcceptFragment(parts, a.f, a.now) else Outcome(parts, None, NOTHING)
  }

  function Table(parts: Parts, id: nat, arrivals: seq<Arrival>): Parts {
    if arrivals == [] then parts
    else Receive(Table(parts, id, arrivals[..|arrivals| - 1]), id, arrivals[|arrivals| - 1]).parts
  }

  /** The sum of a weight over what every arrival did. */
  function Sum(weight: Fate -> nat, parts: Parts, id: nat, arrivals: seq<Arrival>): nat {
    if arrivals == [] then 0
    else
      var before := arrivals[..|arrivals| - 1];
      Sum(weight, parts, id, before) + weight(Receive(Table(parts, id, before), id, arrivals[|arrivals| - 1]).fate)
  }

  /** Every assembly begun is completed, expired, oversize or pending. */
  ghost predicate Balanced(id: nat, arrivals: seq<Arrival>) {
    Sum(Begun, map[], id, arrivals) ==
    Sum(Completions, map[], id, arrivals) + Sum(Expirations, map[], id, arrivals) + Sum(Oversizes, map[], id, arrivals)
    + |Table(map[], id, arrivals)|
  }

  lemma {:induction false} Accounting(id: nat, arrivals: seq<Arrival>)
    requires forall k :: 0 <= k < |arrivals| ==> |arrivals[k].f.payload| <= CHUNK
    ensures Sound(Table(map[], id, arrivals)) && Balanced(id, arrivals)
  {
    if arrivals != [] {
      var before, last := arrivals[..|arrivals| - 1], arrivals[|arrivals| - 1];
      Accounting(id, before);
      if For(last, id) { AcceptKeepsSound(Table(map[], id, before), last.f, last.now); }
    }
  }

  /** For arbitrary received bytes: the table stays within its bounds, every assembly begun is
      completed, expired, oversize or pending, and any delivery fits the relay buffers. */
  lemma ArbitraryBytes(id: nat, raw: seq<(bytes, int)>)
    ensures Sound(Table(map[], id, Heard(raw))) && Balanced(id, Heard(raw))
    ensures Heard(raw) != [] && HandedOver(map[], id, Heard(raw)).Some? ==>
      |HandedOver(map[], id, Heard(raw)).value| <= MAX_UDP
  {
    var arrivals := Heard(raw);
    Accounting(id, arrivals);
    if arrivals != [] {
      var before, last := arrivals[..|arrivals| - 1], arrivals[|arrivals| - 1];
      Accounting(id, before);
      if For(last, id) { AcceptKeepsSound(Table(map[], id, before), last.f, last.now); }
    }
  }

  // ---------------------------------------------------------------- completeness

  predicate Addresses(a: Arrival, id: nat, q: nat) {
    For(a, id) && a.f.seqno == q
  }

  /** The indices of the fragments of number `q` among the arrivals. */
  function Got(arrivals: seq<Arrival>, id: nat, q: nat): set<nat> {
    if arrivals == [] then {}
    else
      var last := arrivals[|arrivals| - 1];
      Got(arrivals[..|arrivals| - 1], id, q) + if Addresses(last, id, q) then {last.f.index} else {}
  }

  function Below(n: nat): (s: set<nat>)
    ensures forall i: nat :: i in s <==> i < n
  {
    if n == 0 then {} else Below(n - 1) + {n - 1}
  }

  function All(d: bytes): set<nat> { Below(TotalFor(|d|)) }

  /** Time does not go back, everything falls within one lifetime of the first arrival, and
      whatever carries number `q` is a fragment of `d`. The rest is arbitrary bytes. */
  ghost predicate InTime(arrivals: seq<Arrival>, id: nat, q: nat, d: bytes) {
    && arrivals != []
    && (forall k :: 0 <= k < |arrivals| ==> |arrivals[k].f.payload| <= CHUNK)
    && (forall k :: 0 <= k < |arrivals| ==> arrivals[0].now <= arrivals[k].now <= arrivals[0].now + LIFETIME)
    && (forall k :: 0 <= k < |arrivals| && Addresses(arrivals[k], id, q) ==>
          arrivals[k].f.index < TotalFor(|d|) && arrivals[k].f == FragmentOf(id, q, d, arrivals[k].f.index))
    && Addresses(arrivals[0], id, q)
  }

  lemma InTimePrefix(arrivals: seq<Arrival>, k: nat, id: nat, q: nat, d: bytes)
    requires InTime(arrivals, id, q, d) && 1 <= k <= |arrivals|
    ensures InTime(arrivals[..k], id, q, d)
  {
  }

  function Held(d: bytes, got: set<nat>): (pieces: seq<Option<bytes>>)
    ensures |pieces| == TotalFor(|d|)
  {
    seq(TotalFor(|d|), i requires 0 <= i < TotalFor(|d|) => if i in got then Some(Piece(d, i)) else None)
  }

  lemma HeldWhole(d: bytes, got: set<nat>)
    requires got <= All(d)
    ensures |Join(Held(d, got))| <= |d|
    ensures Filled(Held(d, got)) == TotalFor(|d|) <==> got == All(d)
    ensures got == All(d) ==> Join(Held(d, got)) == d
  {
    var pieces := Held(d, got);
    JoinWhole(pieces, d);
    FilledAll(pieces);
    if forall i :: 0 <= i < |pieces| ==> pieces[i].Some? {
      forall i | i in All(d) ensures i in got { assert pieces[i].Some?; }
    }
  }

  lemma OthersUntouched(parts: Parts, f: Fragment, now: int, q: nat)
    requires q in parts && f.seqno != q && now - parts[q].at <= LIFETIME
    ensures var o := AcceptFragment(parts, f, now); q in o.parts && o.parts[q] == parts[q]
  {
  }

  /** The fragment adds its index, and the datagram is delivered exactly when it was the last. */
  lemma HeldFill(live: Parts, a: Assembly, id: nat, q: nat, d: bytes, got: set<nat>, i: nat)
    requires |d| <= MAX_UDP && TotalFor(|d|) > 1 && got <= All(d) && i < TotalFor(|d|) && i !in got
    requires a.pieces == Held(d, got) && a.count == Filled(a.pieces) && a.size == |Join(a.pieces)|
    ensures var o := Fill(live, a, FragmentOf(id, q, d, i));
      if got + {i} == All(d) then o.delivered == Some(d)
      else o.delivered == None && q in o.parts && o.parts[q].at == a.at && o.parts[q].pieces == Held(d, got + {i})
  {
    assert a.pieces[i := Some(Piece(d, i))] == Held(d, got + {i});
    FillCounts(a.pieces, i, Piece(d, i));
    HeldWhole(d, got + {i});
  }

  ghost predicate Holding(parts: Parts, q: nat, d: bytes, at: int, got: set<nat>) {
    q in parts && parts[q].at == at && parts[q].pieces == Held(d, got)
  }

  /** At `now` number `q` is not being assembled, and fewer assemblies than slots are young. */
  predicate Room(parts: Parts, q: nat, now: int) { q !in Young(parts, now) && |Young(parts, now)| < SLOTS }

  lemma FirstFragment(parts: Parts, id: nat, q: nat, d: bytes, i: nat, now: int)
    requires |d| <= MAX_UDP && TotalFor(|d|) > 1 && i < TotalFor(|d|)
    requires Room(parts, q, now)
    ensures var o := AcceptFragment(parts, FragmentOf(id, q, d, i), now);
      o.delivered == None && Holding(o.parts, q, d, now, {i})
  {
    var live := Expire(parts, now);
    ExpireIsYoung(parts, now);
    assert |live| == |live.Keys|;
    var blank := Assembly(now, Empty(TotalFor(|d|)), 0, 0);
    EmptyCounts(TotalFor(|d|));
    assert Empty(TotalFor(|d|)) == Held(d, {});
    assert {0, 1} <= All(d);
    assert {} + {i} == {i} != All(d);
    HeldFill(live, blank, id, q, d, {}, i);
  }

  lemma NextFragment(parts: Parts, id: nat, q: nat, d: bytes, got: set<nat>, i: nat, at: int, now: int)
    requires Sound(parts) && Holding(parts, q, d, at, got) && now - at <= LIFETIME
    requires |d| <= MAX_UDP && TotalFor(|d|) > 1 && got <= All(d) && got != All(d) && i < TotalFor(|d|)
    ensures var o := AcceptFragment(parts, FragmentOf(id, q, d, i), now);
      if got + {i} == All(d) then o.delivered == Some(d)
      else o.delivered == None && Holding(o.parts, q, d, at, got + {i})
  {
    var live := Expire(parts, now);
    if i in got {
      assert got + {i} == got;
    } else {
      HeldFill(live, live[q], id, q, d, got, i);
    }
  }

  lemma {:induction false} GotWithin(arrivals: seq<Arrival>, id: nat, q: nat, d: bytes)
    requires InTime(arrivals, id, q, d)
    ensures Got(arrivals, id, q) <= All(d)
  {
    var n := |arrivals| - 1;
    if n > 0 {
      assert InTime(arrivals[..n], id, q, d);
      GotWithin(arrivals[..n], id, q, d);
    }
    assert arrivals[n] == arrivals[|arrivals| - 1];
  }

  lemma {:induction false} TableSound(parts: Parts, id: nat, arrivals: seq<Arrival>)
    requires Sound(parts) && forall k :: 0 <= k < |arrivals| ==> |arrivals[k].f.payload| <= CHUNK
    ensures Sound(Table(parts, id, arrivals))
  {
    if arrivals != [] {
      var before, last := arrivals[..|arrivals| - 1], arrivals[|arrivals| - 1];
      TableSound(parts, id, before);
      if For(last, id) { AcceptKeepsSound(Table(parts, id, before), last.f, last.now); }
    }
  }

  /** What the last of the arrivals makes the flow hand over. */
  function HandedOver(parts: Parts, id: nat, arrivals: seq<Arrival>): Option<bytes>
    requires arrivals != []
  {
    Receive(Table(parts, id, arrivals[..|arrivals| - 1]), id, arrivals[|arrivals| - 1]).delivered
  }

  lemma {:induction false} GotMonotone(arrivals: seq<Arrival>, k: nat, id: nat, q: nat)
    requires k <= |arrivals|
    ensures Got(arrivals[..k], id, q) <= Got(arrivals, id, q)
  {
    if k == |arrivals| {
      assert arrivals[..k] == arrivals;
    } else {
      GotMonotone(arrivals[..|arrivals| - 1], k, id, q);
      assert arrivals[..|arrivals| - 1][..k] == arrivals[..k];
    }
  }

  /** Until the last distinct fragment arrives the table holds exactly the pieces seen. */
  lemma {:induction false} Collecting(parts: Parts, id: nat, q: nat, d: bytes, arrivals: seq<Arrival>)
    requires Sound(parts) && |d| <= MAX_UDP && TotalFor(|d|) > 1
    requires InTime(arrivals, id, q, d) && Got(arrivals, id, q) != All(d)
    requires Room(parts, q, arrivals[0].now)
    ensures Holding(Table(parts, id, arrivals), q, d, arrivals[0].now, Got(arrivals, id, q))
    ensures Addresses(arrivals[|arrivals| - 1], id, q) ==> !HandedOver(parts, id, arrivals).Some?
  {
    hide AcceptFragment, TotalFor, Room, Piece, Sound;
    var n := |arrivals| - 1;
    var last := arrivals[n];
    if n == 0 {
      assert arrivals[..n] == [];
      assert Got(arrivals, id, q) == {last.f.index};
      FirstFragment(parts, id, q, d, last.f.index, last.now);
    } else {
      var before := arrivals[..n];
      InTimePrefix(arrivals, n, id, q, d);
      GotWithin(arrivals, id, q, d);
      GotWithin(before, id, q, d);
      Collecting(parts, id, q, d, before);
      TableSound(parts, id, before);
      if Addresses(last, id, q) {
        NextFragment(Table(parts, id, before), id, q, d, Got(before, id, q), last.f.index, before[0].now, last.now);
      } else if For(last, id) {
        OthersUntouched(Table(parts, id, before), last.f, last.now, q);
      }
    }
  }

  lemma SeveralFragments(arrivals: seq<Arrival>, id: nat, q: nat, d: bytes)
    requires InTime(arrivals, id, q, d) && Got(arrivals, id, q) != All(d)
    ensures TotalFor(|d|) > 1
  {
    GotWithin(arrivals, id, q, d);
    GotMonotone(arrivals, 1, id, q);
    assert arrivals[..1] == [arrivals[0]];
    assert arrivals[0].f.index in Got([arrivals[0]], id, q);
  }

  lemma EarlierFragment(parts: Parts, id: nat, q: nat, d: bytes, before: seq<Arrival>, k: nat)
    requires Sound(parts) && |d| <= MAX_UDP && InTime(before, id, q, d)
    requires k < |before| && Addresses(before[k], id, q)
    requires Got(before, id, q) != All(d)
    requires TotalFor(|d|) > 1 ==> Room(parts, q, before[0].now)
    ensures HandedOver(parts, id, before[..k + 1]) == None
  {
    hide AcceptFragment, HandedOver, Got, Table, TotalFor, Room, InTime;
    SeveralFragments(before, id, q, d);
    GotWithin(before, id, q, d);
    GotMonotone(before, k + 1, id, q);
    InTimePrefix(before, k + 1, id, q, d);
    var upto := before[..k + 1];
    assert upto[0] == before[0] && upto[|upto| - 1] == before[k];
    Collecting(parts, id, q, d, upto);
  }

  lemma LastFragment(parts: Parts, id: nat, q: nat, d: bytes, arrivals: seq<Arrival>)
    requires Sound(parts) && |d| <= MAX_UDP && |arrivals| > 1
    requires InTime(arrivals, id, q, d)
    requires Room(parts, q, arrivals[0].now)
    requires Got(arrivals[..|arrivals| - 1], id, q) != All(d) && Got(arrivals, id, q) == All(d)
    requires TotalFor(|d|) > 1
    ensures HandedOver(parts, id, arrivals) == Some(d)
  {
    var before, last := arrivals[..|arrivals| - 1], arrivals[|arrivals| - 1];
    InTimePrefix(arrivals, |arrivals| - 1, id, q, d);
    GotWithin(before, id, q, d);
    Collecting(parts, id, q, d, before);
    TableSound(parts, id, before);
    NextFragment(Table(parts, id, before), id, q, d, Got(before, id, q), last.f.index, before[0].now, last.now);
  }

  lemma OnlyFragment(parts: Parts, id: nat, q: nat, d: bytes, arrivals: seq<Arrival>)
    requires InTime(arrivals, id, q, d) && TotalFor(|d|) == 1
    requires Got(arrivals[..|arrivals| - 1], id, q) != All(d)
    ensures |arrivals| == 1 && HandedOver(parts, id, arrivals) == Some(d)
  {
    var before := arrivals[..|arrivals| - 1];
    if before != [] {
      assert InTime(before, id, q, d);
      SeveralFragments(before, id, q, d);
    }
    assert Piece(d, 0) == d;
  }

  /** If the fragments of `d` arrive in any order, with repeats and any other traffic between
      them, within one lifetime of the first and with a slot free then, `d` is handed over at
      the arrival that completes the set of indices, and at none of its earlier fragments. */
  lemma ReassemblyCompleteness(parts: Parts, id: nat, q: nat, d: bytes, arrivals: seq<Arrival>)
    requires Sound(parts) && |d| <= MAX_UDP
    requires InTime(arrivals, id, q, d)
    requires TotalFor(|d|) > 1 ==> Room(parts, q, arrivals[0].now)
    requires Got(arrivals[..|arrivals| - 1], id, q) != All(d) && Got(arrivals, id, q) == All(d)
    ensures HandedOver(parts, id, arrivals) == Some(d)
    ensures forall k :: 0 <= k < |arrivals| - 1 && Addresses(arrivals[k], id, q) ==>
      HandedOver(parts, id, arrivals[..k + 1]) == None
  {
    hide AcceptFragment, HandedOver, Table, TotalFor, Room, InTime;
    var n := |arrivals| - 1;
    if TotalFor(|d|) == 1 {
      OnlyFragment(parts, id, q, d, arrivals);
    } else {
      assert 0 in All(d) && 1 in All(d);
      LastFragment(parts, id, q, d, arrivals);
    }
    forall k | 0 <= k < n && Addresses(arrivals[k], id, q)
      ensures HandedOver(parts, id, arrivals[..k + 1]) == None
    {
      InTimePrefix(arrivals, n, id, q, d);
      assert arrivals[..n][..k + 1] == arrivals[..k + 1];
      EarlierFragment(parts, id, q, d, arrivals[..n], k);
    }
  }

  // ---------------------------------------------------------------- on the whole link

  /** What a run of the link brings to the receiver, fragment by fragment. */
  function Arrivals(events: seq<Event>): seq<Arrival> {
    if events == [] then []
    else
      var e := events[|events| - 1];
      Arrivals(events[..|events| - 1])
      + if e.Receive? && HEADER <= |e.b| <= HEADER + CHUNK then [Arrival(Decode(e.b), e.now)] else []
  }

  /** All that arrivals make a flow hand over, in order. */
  function Deliveries(parts: Parts, id: nat, arrivals: seq<Arrival>): seq<bytes> {
    if arrivals == [] then []
    else
      var d := HandedOver(parts, id, arrivals);
      Deliveries(parts, id, arrivals[..|arrivals| - 1]) + if d.Some? then [d.value] else []
  }

  lemma {:induction false} RunSnoc(l: Link, events: seq<Event>, e: Event)
    ensures Run(l, events + [e]) == Step(Run(l, events), e)
    decreases |events|
  {
    hide Step;
    if events == [] {
      assert (events + [e])[1..] == [];
    } else {
      RunSnoc(Step(l, events[0]), events[1..], e);
      assert (events + [e])[1..] == events[1..] + [e];
    }
  }

  /** One event on a registered flow: its table and its deliveries take the arrival, if it is one. */
  lemma StepFollows(l: Link, e: Event, id: nat)
    requires id in l.tables && e != Close(id)
    ensures var n := Step(l, e);
      && id in n.tables
      && if e.Receive? && HEADER <= |e.b| <= HEADER + CHUNK then
           var o := Receive(l.tables[id], id, Arrival(Decode(e.b), e.now));
           && n.tables[id] == o.parts
           && On(n.delivered, id) == On(l.delivered, id) + if o.delivered.Some? then [o.delivered.value] else []
         else n.tables[id] == l.tables[id] && On(n.delivered, id) == On(l.delivered, id)
  {
    hide AcceptFragment, Decode;
    assert On(l.delivered, id) + [] == On(l.delivered, id);
  }

  lemma ArrivalsSnoc(events: seq<Event>, e: Event)
    ensures Arrivals(events + [e]) == Arrivals(events)
      + if e.Receive? && HEADER <= |e.b| <= HEADER + CHUNK then [Arrival(Decode(e.b), e.now)] else []
  {
    assert (events + [e])[..|events|] == events;
  }

  lemma TableSnoc(parts: Parts, id: nat, arrivals: seq<Arrival>, a: Arrival)
    ensures var o := Receive(Table(parts, id, arrivals), id, a);
      && Table(parts, id, arrivals + [a]) == o.parts
      && Deliveries(parts, id, arrivals + [a])
         == Deliveries(parts, id, arrivals) + if o.delivered.Some? then [o.delivered.value] else []
  {
    hide Receive;
    assert (arrivals + [a])[..|arrivals|] == arrivals;
  }

  lemma Regroup(a: seq<bytes>, b: seq<bytes>, c: seq<bytes>)
    ensures a + b + c == a + (b + c) && a + [] == a
  {
  }

  /** On a flow that stays registered, a run of the link is the table over its arrivals. */
  lemma {:induction false} LinkFollows(l: Link, events: seq<Event>, id: nat)
    requires id in l.tables && Close(id) !in events
    ensures var n := Run(l, events);
      && id in n.tables && n.tables[id] == Table(l.tables[id], id, Arrivals(events))
      && On(n.delivered, id) == On(l.delivered, id) + Deliveries(l.tables[id], id, Arrivals(events))
  {
    if events == [] {
      Regroup(On(l.delivered, id), [], []);
    } else {
      var k := |events| - 1;
      var before, e := events[..k], events[k];
      assert events == before + [e];
      hide *;
      LinkFollows(l, before, id);
      RunSnoc(l, before, e);
      StepFollows(Run(l, before), e, id);
      ArrivalsSnoc(before, e);
      var as0 := Arrivals(before);
      if e.Receive? && HEADER <= |e.b| <= HEADER + CHUNK {
        var a := Arrival(Decode(e.b), e.now);
        TableSnoc(l.tables[id], id, as0, a);
        var d := Receive(Table(l.tables[id], id, as0), id, a).delivered;
        Regroup(On(l.delivered, id), Deliveries(l.tables[id], id, as0), if d.Some? then [d.value] else []);
      } else {
        assert as0 + [] == as0;
      }
    }
  }

  /** On a registered flow of the link, whatever else is written, received, registered or closed: when
      the arrivals bring all fragments of a datagram in time, with room for it at the first, the
      datagram is delivered on the flow at the event that brings the last one. */
  lemma LinkCompleteness(l: Link, events: seq<Event>, id: nat, q: nat, d: bytes)
    requires id in l.tables && Sound(l.tables[id]) && Close(id) !in events && |d| <= MAX_UDP
    requires var arrivals := Arrivals(events);
      && InTime(arrivals, id, q, d)
      && (TotalFor(|d|) > 1 ==> Room(l.tables[id], q, arrivals[0].now))
      && Got(arrivals[..|arrivals| - 1], id, q) != All(d) && Got(arrivals, id, q) == All(d)
    ensures var got := On(Run(l, events).delivered, id); got != [] && got[|got| - 1] == d
  {
    assert Arrivals(events) != [];
    hide *;
    LinkFollows(l, events, id);
    ReassemblyCompleteness(l.tables[id], id, q, d, Arrivals(events));
    LastDelivery(l.tables[id], id, Arrivals(events), On(l.delivered, id));
  }

  lemma LastDelivery(parts: Parts, id: nat, arrivals: seq<Arrival>, before: seq<bytes>)
    requires arrivals != [] && HandedOver(parts, id, arrivals).Some?
    ensures var got := before + Deliveries(parts, id, arrivals);
      got != [] && got[|got| - 1] == HandedOver(parts, id, arrivals).value
  {
    hide HandedOver;
  }
}
