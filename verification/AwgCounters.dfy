/** Traffic of AmneziaWG peers: the worker's status reports growing counters, and the admin side
    adds what they grew by since the last report it accepted. */
module AwgCounters {
  import opened Bytes
  import opened Modular
  import opened Traffic

  /** Half of the 64-bit range: a larger difference turns negative as a signed number. */
  const HALF: nat := 0x8000_0000_0000_0000

  /** A peer in a status: its user and its unsigned 64-bit counters. */
  datatype Peer = Peer(id: nat, tx: nat, rx: nat)

  /** One status as read: which start of the worker it comes from, its peers, whether it is
      recent enough, when it was read, and which users may use AmneziaWG then. */
  datatype Status = Status(started: int, peers: seq<Peer>, recent: bool, now: nat, eligible: set<nat>)

  /** What is remembered between statuses, and every addition made to each user's ring. */
  datatype State = State(previous: map<nat, Peer>, started: Option<int>, logs: map<nat, seq<Event>>)

  /** The unsigned difference converted to a signed number; a smaller counter adds nothing. */
  function Signed(was: nat, now: nat): int {
    if now < was then 0
    else if now - was < HALF then now - was
    else now - was - CYCLE
  }

  function LogOf(s: State, id: nat): seq<Event> { if id in s.logs then s.logs[id] else [] }

  function ObservePeer(s: State, p: Peer, now: nat, eligible: set<nat>): State {
    if p.id !in eligible then s
    else
      var log := LogOf(s, p.id);
      var next := if p.id in s.previous
                  then log + [Event(now, Signed(s.previous[p.id].tx, p.tx), Signed(s.previous[p.id].rx, p.rx))]
                  else log;
      s.(previous := s.previous[p.id := p], logs := s.logs[p.id := next])
  }

  function ObservePeers(s: State, ps: seq<Peer>, now: nat, eligible: set<nat>): State {
    if ps == [] then s
    else ObservePeer(ObservePeers(s, ps[..|ps| - 1], now, eligible), ps[|ps| - 1], now, eligible)
  }

  /** A new start of the worker forgets all counters. */
  function Restarted(s: State, started: int): State {
    if s.started == Some(started) then s else s.(previous := map[], started := Some(started))
  }

  function Observe(s: State, st: Status): State {
    if !st.recent then s else ObservePeers(Restarted(s, st.started), st.peers, st.now, st.eligible)
  }

  function Run(s: State, sts: seq<Status>): State {
    if sts == [] then s else Observe(Run(s, sts[..|sts| - 1]), sts[|sts| - 1])
  }

  // ---------------------------------------------------------------- one user's view

  /** Counters of one user that were taken notice of, and when. */
  datatype Reading = Reading(peer: Peer, at: nat)

  function Shown(r: Reading, up: bool): nat { if up then r.peer.tx else r.peer.rx }

  function Taken(ps: seq<Peer>, id: nat, at: nat): seq<Reading> {
    if ps == [] then []
    else
      var p := ps[|ps| - 1];
      Taken(ps[..|ps| - 1], id, at) + if p.id == id then [Reading(p, at)] else []
  }

  function Noticed(st: Status, id: nat): seq<Reading> {
    if st.recent && id in st.eligible then Taken(st.peers, id, st.now) else []
  }

  function AllNoticed(sts: seq<Status>, id: nat): seq<Reading> {
    if sts == [] then [] else AllNoticed(sts[..|sts| - 1], id) + Noticed(sts[|sts| - 1], id)
  }

  function Increment(was: nat, now: nat): nat { if now > was then now - was else 0 }

  /** The sum of the positive increments along a list of readings. */
  function Climb(rs: seq<Reading>, up: bool): nat {
    if |rs| < 2 then 0
    else
      var n := |rs| - 1;
      Climb(rs[..n], up) + Increment(Shown(rs[n - 1], up), Shown(rs[n], up))
  }

  /** The same for the readings taken in the span that ends now. */
  function ClimbWithin(rs: seq<Reading>, now: nat, span: nat, up: bool): nat {
    if |rs| < 2 then 0
    else
      var n := |rs| - 1;
      ClimbWithin(rs[..n], now, span, up)
      + if Inside(rs[n].at, now, span) then Increment(Shown(rs[n - 1], up), Shown(rs[n], up)) else 0
  }

  function Total(log: seq<Event>, up: bool): nat {
    if log == [] then 0 else Total(log[..|log| - 1], up) + Amount(log[|log| - 1], up)
  }

  /** No increment is as large as half the 64-bit range. */
  predicate Gentle(rs: seq<Reading>, up: bool) {
    forall i :: 0 < i < |rs| ==> Shown(rs[i], up) < Shown(rs[i - 1], up) + HALF
  }

  predicate Bounded(ps: seq<Peer>) { forall i :: 0 <= i < |ps| ==> ps[i].tx < CYCLE && ps[i].rx < CYCLE }

  predicate InRange(rs: seq<Reading>) {
    forall i :: 0 <= i < |rs| ==> rs[i].peer.tx < CYCLE && rs[i].peer.rx < CYCLE
  }

  /** The additions a list of readings makes: one for each reading after the first, at its time. */
  function Logged(rs: seq<Reading>): seq<Event> {
    if |rs| < 2 then []
    else
      var n := |rs| - 1;
      var was, next := rs[n - 1].peer, rs[n].peer;
      Logged(rs[..n]) + [Event(rs[n].at, Signed(was.tx, next.tx), Signed(was.rx, next.rx))]
  }

  /** A user's last reading and log: the readings so far and the additions they made. */
  predicate Tracks(s: State, id: nat, seen: seq<Reading>, before: seq<Event>) {
    && (id in s.previous <==> seen != [])
    && (seen != [] ==> s.previous[id] == seen[|seen| - 1].peer)
    && LogOf(s, id) == before + Logged(seen)
  }

  /** What the readings actually add: increments too large for a signed number are lost. */
  function Lossy(rs: seq<Reading>, up: bool): nat {
    if |rs| < 2 then 0
    else
      var n := |rs| - 1;
      var d := Increment(Shown(rs[n - 1], up), Shown(rs[n], up));
      Lossy(rs[..n], up) + if d < HALF then d else 0
  }

  lemma LoggedSnoc(rs: seq<Reading>, r: Reading)
    ensures Logged(rs + [r]) == if rs == [] then [] else
      var was := rs[|rs| - 1].peer;
      Logged(rs) + [Event(r.at, Signed(was.tx, r.peer.tx), Signed(was.rx, r.peer.rx))]
  {
    assert (rs + [r])[..|rs|] == rs;
  }

  lemma PeerTracks(s: State, p: Peer, now: nat, eligible: set<nat>, id: nat, seen: seq<Reading>, before: seq<Event>)
    requires Tracks(s, id, seen, before)
    ensures Tracks(ObservePeer(s, p, now, eligible), id,
                   seen + (if p.id == id && id in eligible then [Reading(p, now)] else []), before)
  {
    hide Logged, Signed;
    if p.id == id && id in eligible {
      LoggedSnoc(seen, Reading(p, now));
      if seen == [] { assert Logged([]) == [] by { NothingLogged(); } }
    } else {
      assert seen + [] == seen;
    }
  }

  lemma NothingLogged()
    ensures Logged([]) == []
  {
  }

  lemma {:induction false} PeersTrack(s: State, ps: seq<Peer>, now: nat, eligible: set<nat>, id: nat,
                                      seen: seq<Reading>, before: seq<Event>)
    requires Tracks(s, id, seen, before) && InRange(seen) && Bounded(ps)
    ensures var more := if id in eligible then Taken(ps, id, now) else [];
      Tracks(ObservePeers(s, ps, now, eligible), id, seen + more, before) && InRange(seen + more)
  {
    hide Tracks, ObservePeer;
    if ps == [] {
      assert seen + [] == seen;
    } else {
      var n := |ps| - 1;
      assert Bounded(ps[..n]) && ps[n].tx < CYCLE && ps[n].rx < CYCLE;
      PeersTrack(s, ps[..n], now, eligible, id, seen, before);
      var more := if id in eligible then Taken(ps[..n], id, now) else [];
      var one := if ps[n].id == id && id in eligible then [Reading(ps[n], now)] else [];
      PeerTracks(ObservePeers(s, ps[..n], now, eligible), ps[n], now, eligible, id, seen + more, before);
      assert seen + (more + one) == seen + more + one;
    }
  }

  /** Every status taken notice of comes from one start of the worker. */
  predicate SameStart(sts: seq<Status>, started: int) {
    forall i :: 0 <= i < |sts| && sts[i].recent ==> sts[i].started == started && Bounded(sts[i].peers)
  }

  /** Nothing of the user is remembered from this start of the worker: another start, or none,
      was the last one seen, or the user was not in it yet. */
  predicate NotYet(s: State, started: int, id: nat) { s.started != Some(started) || id !in s.previous }

  /** The readings of this start so far, before and after its first status is seen. */
  predicate Follows(s: State, started: int, id: nat, seen: seq<Reading>, before: seq<Event>) {
    if s.started == Some(started) then Tracks(s, id, seen, before) else seen == [] && LogOf(s, id) == before
  }

  lemma NothingTracked(s: State, id: nat)
    requires id !in s.previous
    ensures Tracks(s, id, [], LogOf(s, id))
  {
    assert LogOf(s, id) + [] == LogOf(s, id);
  }

  lemma {:induction false} StartKept(s: State, ps: seq<Peer>, now: nat, eligible: set<nat>)
    ensures ObservePeers(s, ps, now, eligible).started == s.started
  {
    if ps != [] { StartKept(s, ps[..|ps| - 1], now, eligible); }
  }

  lemma ObserveTracks(s: State, st: Status, started: int, id: nat, seen: seq<Reading>, before: seq<Event>)
    requires Follows(s, started, id, seen, before) && InRange(seen)
    requires st.recent ==> st.started == started && Bounded(st.peers)
    ensures Follows(Observe(s, st), started, id, seen + Noticed(st, id), before) && InRange(seen + Noticed(st, id))
  {
    assert seen + [] == seen;
    if st.recent {
      var r := Restarted(s, started);
      if s.started != Some(started) { NothingTracked(r, id); }
      hide Tracks;
      PeersTrack(r, st.peers, st.now, st.eligible, id, seen, before);
      StartKept(r, st.peers, st.now, st.eligible);
    }
  }

  lemma {:induction false} RunTracks(s: State, sts: seq<Status>, started: int, id: nat)
    requires NotYet(s, started, id) && SameStart(sts, started)
    ensures Follows(Run(s, sts), started, id, AllNoticed(sts, id), LogOf(s, id)) && InRange(AllNoticed(sts, id))
  {
    if sts == [] {
      if s.started == Some(started) { NothingTracked(s, id); }
    } else {
      var n := |sts| - 1;
      RunTracks(s, sts[..n], started, id);
      hide Follows;
      ObserveTracks(Run(s, sts[..n]), sts[n], started, id, AllNoticed(sts[..n], id), LogOf(s, id));
    }
  }

  /** Under one start of the worker the log grows by exactly the additions of the readings taken. */
  lemma RunLogs(s: State, sts: seq<Status>, started: int, id: nat)
    requires NotYet(s, started, id) && SameStart(sts, started)
    ensures LogOf(Run(s, sts), id) == LogOf(s, id) + Logged(AllNoticed(sts, id)) && InRange(AllNoticed(sts, id))
  {
    RunTracks(s, sts, started, id);
    assert LogOf(s, id) + [] == LogOf(s, id);
    hide Run, AllNoticed;
  }

  lemma {:induction false} TotalAppend(a: seq<Event>, b: seq<Event>, up: bool)
    ensures Total(a + b, up) == Total(a, up) + Total(b, up)
  {
    if b == [] {
      assert a + b == a;
    } else {
      var n := |b| - 1;
      TotalAppend(a, b[..n], up);
      assert (a + b)[..|a + b| - 1] == a + b[..n] && (a + b)[|a + b| - 1] == b[n];
    }
  }

  lemma AmountIs(second: nat, was: Peer, now: Peer, up: bool)
    requires was.tx < CYCLE && was.rx < CYCLE && now.tx < CYCLE && now.rx < CYCLE
    ensures var d := Increment(Shown(Reading(was, 0), up), Shown(Reading(now, second), up));
      Amount(Event(second, Signed(was.tx, now.tx), Signed(was.rx, now.rx)), up) == if d < HALF then d else 0
  {
  }

  lemma {:induction false} LoggedTotal(rs: seq<Reading>, up: bool)
    requires InRange(rs)
    ensures Total(Logged(rs), up) == Lossy(rs, up)
  {
    if |rs| >= 2 {
      var n := |rs| - 1;
      LoggedTotal(rs[..n], up);
      AmountIs(rs[n].at, rs[n - 1].peer, rs[n].peer, up);
      hide Amount, Signed;
      var log := Logged(rs);
      assert log[..|log| - 1] == Logged(rs[..n]);
    }
  }

  lemma RunTotals(s: State, sts: seq<Status>, started: int, id: nat, up: bool)
    requires NotYet(s, started, id) && SameStart(sts, started)
    ensures Total(LogOf(Run(s, sts), id), up) == Total(LogOf(s, id), up) + Lossy(AllNoticed(sts, id), up)
  {
    RunLogs(s, sts, started, id);
    var rs := AllNoticed(sts, id);
    hide Run, AllNoticed, Total, Logged, Lossy;
    TotalAppend(LogOf(s, id), Logged(rs), up);
    LoggedTotal(rs, up);
  }

  lemma {:induction false} LossyIsClimb(rs: seq<Reading>, up: bool)
    ensures Lossy(rs, up) <= Climb(rs, up)
    ensures Lossy(rs, up) == Climb(rs, up) <==> Gentle(rs, up)
  {
    if |rs| >= 2 {
      LossyIsClimb(rs[..|rs| - 1], up);
      GentleSnoc(rs, up);
      hide Gentle;
    }
  }

  lemma GentleSnoc(rs: seq<Reading>, up: bool)
    requires |rs| >= 2
    ensures var n := |rs| - 1;
      Gentle(rs, up) <==> Gentle(rs[..n], up) && Shown(rs[n], up) < Shown(rs[n - 1], up) + HALF
  {
    var n := |rs| - 1;
    var front := rs[..n];
    if Gentle(front, up) && Shown(rs[n], up) < Shown(rs[n - 1], up) + HALF {
      forall i | 0 < i < |rs| ensures Shown(rs[i], up) < Shown(rs[i - 1], up) + HALF {
        if i < n { assert front[i] == rs[i] && front[i - 1] == rs[i - 1]; }
      }
    }
    if Gentle(rs, up) {
      forall i | 0 < i < n ensures Shown(front[i], up) < Shown(front[i - 1], up) + HALF {
        assert front[i] == rs[i] && front[i - 1] == rs[i - 1];
      }
    }
  }

  /** Under one start of the worker, whatever statuses were stale or left the user out, what is
      added to a user is the sum of the positive increments between the readings taken, if and
      only if none of them reaches half the 64-bit range. */
  lemma IncrementsAdded(s: State, sts: seq<Status>, started: int, id: nat, up: bool)
    requires NotYet(s, started, id) && SameStart(sts, started)
    ensures Total(LogOf(Run(s, sts), id), up) == Total(LogOf(s, id), up) + Climb(AllNoticed(sts, id), up)
      <==> Gentle(AllNoticed(sts, id), up)
  {
    RunTotals(s, sts, started, id, up);
    LossyIsClimb(AllNoticed(sts, id), up);
  }

  /** Such an increment is possible: from a fresh observer, two readings half the range apart
      add nothing. */
  lemma HugeIncrementLost()
    ensures var s := State(map[], None, map[]);
      var sts := [Status(0, [Peer(1, 0, 0)], true, 10, {1}), Status(0, [Peer(1, HALF, 0)], true, 11, {1})];
      Total(LogOf(Run(s, sts), 1), true) < Climb(AllNoticed(sts, 1), true)
  {
    var a, b := Peer(1, 0, 0), Peer(1, HALF, 0);
    TwoReadings(State(map[], None, map[]), Status(0, [a], true, 10, {1}), Status(0, [b], true, 11, {1}), a, b);
  }

  lemma TwoReadings(s: State, x: Status, y: Status, a: Peer, b: Peer)
    requires NotYet(s, x.started, a.id) && x.started == y.started && a.id == b.id
    requires Bounded([a]) && Bounded([b]) && b.tx >= a.tx + HALF && LogOf(s, a.id) == []
    requires x.peers == [a] && y.peers == [b] && x.recent && y.recent && a.id in x.eligible && a.id in y.eligible
    ensures AllNoticed([x, y], a.id) == [Reading(a, x.now), Reading(b, y.now)]
    ensures Total(LogOf(Run(s, [x, y]), a.id), true) < Climb([Reading(a, x.now), Reading(b, y.now)], true)
  {
    hide Run, Lossy, Climb, LogOf, Total;
    var sts := [x, y];
    assert sts[..1] == [x] && [x][..0] == [];
    assert [a][..0] == [] && [b][..0] == [];
    var r, q := Reading(a, x.now), Reading(b, y.now);
    assert Taken([a], a.id, x.now) == [r] && Taken([b], a.id, y.now) == [q];
    assert Noticed(x, a.id) == [r] && Noticed(y, a.id) == [q];
    assert AllNoticed([x], a.id) == [] + [r];
    assert AllNoticed(sts, a.id) == AllNoticed(sts[..1], a.id) + [q];
    assert Bounded(x.peers) && Bounded(y.peers);
    assert SameStart(sts, x.started);
    RunTotals(s, sts, x.started, a.id, true);
    LossyIsClimb([r, q], true);
    GentleSnoc([r, q], true);
    assert Total([], true) == 0 by { NoTotal(); }
  }

  lemma NoTotal()
    ensures Total([], true) == 0
  {
  }

  predicate Rising(rs: seq<Reading>, up: bool) {
    forall i, j :: 0 <= i < j < |rs| ==> Shown(rs[i], up) <= Shown(rs[j], up)
  }

  /** Counters that only grow telescope: readings skipped in between lose nothing. */
  lemma {:induction false} Telescopes(ps: seq<Reading>, up: bool)
    requires Rising(ps, up) && ps != []
    ensures Climb(ps, up) == Shown(ps[|ps| - 1], up) - Shown(ps[0], up)
  {
    if |ps| >= 2 {
      var n := |ps| - 1;
      assert Rising(ps[..n], up);
      Telescopes(ps[..n], up);
    }
  }

  /** For growing counters the whole run adds the last reading less the first, however many
      statuses between them went unnoticed. */
  lemma GrowthAdded(s: State, sts: seq<Status>, started: int, id: nat, up: bool)
    requires NotYet(s, started, id) && SameStart(sts, started)
    requires var ps := AllNoticed(sts, id);
      ps != [] && Rising(ps, up) && Gentle(ps, up)
    ensures var ps := AllNoticed(sts, id);
      Total(LogOf(Run(s, sts), id), up) == Total(LogOf(s, id), up) + Shown(ps[|ps| - 1], up) - Shown(ps[0], up)
  {
    var ps := AllNoticed(sts, id);
    IncrementsAdded(s, sts, started, id, up);
    Telescopes(ps, up);
  }

  // ---------------------------------------------------------------- into the window

  lemma {:induction false} WindowAppend(a: seq<Event>, b: seq<Event>, now: nat, span: nat, up: bool)
    ensures WindowSum(a + b, now, span, up) == WindowSum(a, now, span, up) + WindowSum(b, now, span, up)
  {
    hide Inside, Amount;
    if b == [] {
      assert a + b == a;
    } else {
      var n := |b| - 1;
      WindowAppend(a, b[..n], now, span, up);
      assert (a + b)[..|a + b| - 1] == a + b[..n] && (a + b)[|a + b| - 1] == b[n];
    }
  }

  lemma {:induction false} LoggedWindow(rs: seq<Reading>, now: nat, span: nat, up: bool)
    requires InRange(rs) && Gentle(rs, up)
    ensures WindowSum(Logged(rs), now, span, up) == ClimbWithin(rs, now, span, up)
  {
    if |rs| >= 2 {
      var n := |rs| - 1;
      GentleSnoc(rs, up);
      LoggedWindow(rs[..n], now, span, up);
      AmountIs(rs[n].at, rs[n - 1].peer, rs[n].peer, up);
      hide Amount, Signed, Inside, Gentle;
      var log := Logged(rs);
      assert log[..|log| - 1] == Logged(rs[..n]);
    }
  }

  /** The ring of a log shows `n` bytes, modulo 2^64, for the span that ends now. */
  predicate Displays(log: seq<Event>, now: nat, span: nat, up: bool, n: nat) {
    RingSum(RingOf(log), SLOTS, now, span, up) == Wrap(n, CYCLE)
  }

  lemma RingShows(log: seq<Event>, now: nat, span: nat, up: bool)
    requires Safe(Seconds(log)) && Past(log, now) && span <= SLOTS
    ensures Displays(log, now, span, up, WindowSum(log, now, span, up))
  {
    SafeIsHarmless(log, now);
    HarmlessIsExact(log, now, span, up);
    hide Safe, Past, Seconds, Harmless, RingSum, RingOf, WindowSum, Wrap;
  }

  /** What the sliding window shows of a user's AmneziaWG traffic at any later moment and for any
      span up to 600 seconds is, modulo 2^64, what it showed of the time before this start of the
      worker and the increments of the readings taken within the span; provided no increment
      reaches half the range and the additions came in a safe order of seconds. */
  lemma WindowShowsIncrements(s: State, sts: seq<Status>, started: int, id: nat, now: nat, span: nat, up: bool)
    requires NotYet(s, started, id) && SameStart(sts, started) && Gentle(AllNoticed(sts, id), up) && span <= SLOTS
    requires Safe(Seconds(LogOf(Run(s, sts), id))) && Past(LogOf(Run(s, sts), id), now)
    ensures Displays(LogOf(Run(s, sts), id), now, span, up,
                     WindowSum(LogOf(s, id), now, span, up) + ClimbWithin(AllNoticed(sts, id), now, span, up))
  {
    hide *;
    RunLogs(s, sts, started, id);
    var rs, log := AllNoticed(sts, id), LogOf(Run(s, sts), id);
    RingShows(log, now, span, up);
    WindowAppend(LogOf(s, id), Logged(rs), now, span, up);
    LoggedWindow(rs, now, span, up);
  }

  predicate Timely(rs: seq<Reading>, now: nat) {
    && (forall i, j :: 0 <= i < j < |rs| ==> rs[i].at <= rs[j].at)
    && (forall i :: 0 <= i < |rs| ==> rs[i].at <= now)
  }

  lemma {:induction false} LoggedTimes(rs: seq<Reading>)
    ensures |Logged(rs)| == if |rs| < 2 then 0 else |rs| - 1
    ensures forall k :: 0 <= k < |Logged(rs)| ==> Logged(rs)[k].second == rs[k + 1].at
  {
    if |rs| >= 2 { LoggedTimes(rs[..|rs| - 1]); }
  }

  /** For a user with no traffic before, read at times that do not go back, the window shows exactly
      the increments of the readings taken within it. */
  lemma FreshWindow(s: State, sts: seq<Status>, started: int, id: nat, now: nat, span: nat, up: bool)
    requires NotYet(s, started, id) && SameStart(sts, started) && Gentle(AllNoticed(sts, id), up) && span <= SLOTS
    requires LogOf(s, id) == [] && Timely(AllNoticed(sts, id), now)
    ensures Displays(LogOf(Run(s, sts), id), now, span, up, ClimbWithin(AllNoticed(sts, id), now, span, up))
  {
    hide *;
    RunLogs(s, sts, started, id);
    var rs, log := AllNoticed(sts, id), LogOf(Run(s, sts), id);
    TimelyIsSafe(rs, now);
    NoWindow(now, span, up);
    assert log == Logged(rs) by { assert [] + Logged(rs) == Logged(rs); }
    WindowShowsIncrements(s, sts, started, id, now, span, up);
  }

  lemma NoWindow(now: nat, span: nat, up: bool)
    ensures WindowSum([], now, span, up) == 0
  {
  }

  lemma TimelyIsSafe(rs: seq<Reading>, now: nat)
    requires Timely(rs, now)
    ensures Safe(Seconds(Logged(rs))) && Past(Logged(rs), now)
  {
    LoggedTimes(rs);
    hide Logged, Safe;
    var ss := Seconds(Logged(rs));
    forall k, j | 0 <= k < j < |ss| ensures ss[k] <= ss[j] { assert rs[k + 1].at <= rs[j + 1].at; }
    InOrderIsSafe(ss);
  }

  // ---------------------------------------------------------------- the observer object

  class Observer {
    var previous: map<nat, Peer>
    var started: Option<int>
    var logs: map<nat, seq<Event>>

    ghost function Contents(): State
      reads this
    {
      State(previous, started, logs)
    }

    constructor ()
      ensures Contents() == State(map[], None, map[])
    {
      previous, started, logs := map[], None, map[];
    }

    method ObserveOne(p: Peer, now: nat, eligible: set<nat>)
      modifies this
      ensures Contents() == ObservePeer(old(Contents()), p, now, eligible)
    {
      if p.id !in eligible { return; }
      if p.id !in logs { logs := logs[p.id := []]; }
      if p.id in previous {
        var was := previous[p.id];
        logs := logs[p.id := logs[p.id] + [Event(now, Signed(was.tx, p.tx), Signed(was.rx, p.rx))]];
      }
      previous := previous[p.id := p];
    }

    method ObserveStatus(st: Status)
      modifies this
      ensures Contents() == Observe(old(Contents()), st)
    {
      if !st.recent { return; }
      if started != Some(st.started) {
        previous, started := map[], Some(st.started);
      }
      ghost var first := Contents();
      for i := 0 to |st.peers|
        invariant Contents() == ObservePeers(first, st.peers[..i], st.now, st.eligible)
      {
        assert st.peers[..i + 1][..i] == st.peers[..i];
        hide ObservePeer, Restarted;
        ObserveOne(st.peers[i], st.now, st.eligible);
      }
      assert st.peers[..|st.peers|] == st.peers;
    }
  }
}
