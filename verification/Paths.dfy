/** The client's sockets: one active path, two standby paths kept by network key, and the
    sockets being retired; what every operation does with each of them. */
module Paths {
  import opened Bytes

  const FRESH: int := 3_000_000_000 // nanoseconds a successful probe stays good for

  datatype Phase = Idle | Connected | Lost
  datatype Path = Path(key: string, transport: nat, checked: Option<int>)
  datatype Reason = Invalidated | Migrated | SwitchFailed | Displaced(newcomer: string) | Stopped

  /** What happened to standby paths, oldest first. A switch is recorded with the key asked
      for, the time its call began and the length of the history then. */
  datatype Event =
    | Added(key: string, transport: nat)
    | Gone(key: string, reason: Reason)
    | Probed(transport: nat, ok: bool, at: int)
    | Switched(asked: string, transport: nat, at: int, began: nat)

  datatype Client = Client(phase: Phase, active: Option<nat>, prepared: Option<Path>, parked: Option<Path>,
                           sockets: Sockets, history: seq<Event>)

  /** Sockets are numbered as they are opened; `closed` counts the close calls on each. */
  datatype Sockets = Sockets(count: nat, retiring: set<nat>, closed: multiset<nat>)

  const NEW := Client(Idle, None, None, None, Sockets(0, {}, multiset{}), [])

  /** How the outside world answers one call: opening a socket, adding a path, probing it,
      switching to it, the time the call began and the time its probe ended. */
  datatype World = World(opens: bool, adds: bool, probes: bool, switches: bool, now: int, done: int)

  // ---------------------------------------------------------------- operations

  function Open(c: Client): Client { c.(sockets := c.sockets.(count := c.sockets.count + 1)) }

  function CloseSocket(c: Client, t: nat): Client {
    c.(sockets := c.sockets.(closed := c.sockets.closed + multiset{t}))
  }

  function Retire(c: Client, t: nat): Client {
    c.(sockets := c.sockets.(retiring := c.sockets.retiring + {t}))
  }

  function DropPrepared(c: Client, why: Reason): Client {
    if c.prepared.None? then c
    else Retire(c, c.prepared.value.transport).(prepared := None,
      history := c.history + [Gone(c.prepared.value.key, why)])
  }

  function DropParked(c: Client, why: Reason): Client {
    if c.parked.None? then c
    else Retire(c, c.parked.value.transport).(parked := None, history := c.history + [Gone(c.parked.value.key, why)])
  }

  predicate HasKey(p: Option<Path>, key: string) { p.Some? && p.value.key == key }

  /** Brings the entry for `key` to the front, or makes room for it. */
  function Promote(c: Client, key: string): Client {
    var c1 :=
      if c.prepared.Some? && c.prepared.value.key != key then
        if HasKey(c.parked, key) then c.(prepared := c.parked, parked := c.prepared)
        else DropParked(c, Displaced(key)).(parked := c.prepared, prepared := None)
      else c;
    if c1.prepared.None? && HasKey(c1.parked, key) then c1.(prepared := c1.parked, parked := None) else c1
  }

  /** Opens a socket and adds a path for `key` when the front is empty. */
  function AddPath(c: Client, key: string, w: World): (Client, bool) {
    if c.prepared.Some? then (c, true)
    else if !w.opens then (c, false)
    else
      var t, c1 := c.sockets.count, Open(c);
      if !w.adds then (CloseSocket(c1, t), false)
      else (c1.(prepared := Some(Path(key, t, None)), history := c1.history + [Added(key, t)]), true)
  }

  function Probe(c: Client, w: World): (Client, bool) {
    if c.prepared.None? then (c, false)
    else
      var p := c.prepared.value;
      (c.(prepared := Some(p.(checked := if w.probes then Some(w.done) else None)),
          history := c.history + [Probed(p.transport, w.probes, w.done)]), w.probes)
  }

  function Prepare(c: Client, key: string, w: World): (Client, bool) {
    if !c.phase.Connected? then (c, false)
    else
      var (c1, added) := AddPath(Promote(c, key), key, w);
      if !added then (c1, false) else Probe(c1, w)
  }

  predicate Warm(c: Client, key: string, now: int) {
    HasKey(c.prepared, key) && c.prepared.value.checked.Some? && now - c.prepared.value.checked.value < FRESH
  }

  /** Issues the switch on the prepared path for a call about the key `asked`. */
  function SwitchPath(c: Client, asked: string, w: World, began: nat): (Client, bool) {
    if c.prepared.None? || c.active.None? then (c, false)
    else
      var p := c.prepared.value;
      var issued := c.(history := c.history + [Switched(asked, p.transport, w.now, began)]);
      if !w.switches then (DropPrepared(issued, SwitchFailed), false)
      else
        (Retire(issued, c.active.value).(active := Some(p.transport), prepared := None,
                                         history := issued.history + [Gone(p.key, Migrated)]), true)
  }

  function Migrate(c: Client, key: string, w: World): (Client, bool) {
    if !c.phase.Connected? then (c, false)
    else if Warm(c, key, w.now) then SwitchPath(c, key, w, |c.history|)
    else
      var (c1, ok) := Prepare(c, key, w);
      if !ok then (c1, false) else SwitchPath(c1, key, w, |c.history|)
  }

  function Invalidate(c: Client, key: string): Client {
    var c1 := if HasKey(c.prepared, key) then DropPrepared(c, Invalidated) else c;
    if HasKey(c1.parked, key) then DropParked(c1, Invalidated) else c1
  }

  /** `dials` covers the handshake and everything after it that can fail before the connection
      is kept. */
  function Start(c: Client, opens: bool, dials: bool): (Client, bool) {
    if !c.phase.Idle? || !opens then (c, false)
    else
      var t, c1 := c.sockets.count, Open(c);
      if !dials then (CloseSocket(c1, t), false) else (c1.(phase := Connected, active := Some(t)), true)
  }

  /** Ends the connection, waits for every retirement to close its socket, closes the active one. */
  function Stop(c: Client): Client {
    if c.phase.Idle? then c
    else
      var c1 := DropParked(DropPrepared(c, Stopped), Stopped);
      var s := c1.sockets;
      var last := if c1.active.Some? then multiset{c1.active.value} else multiset{};
      c1.(phase := Idle, active := None, sockets := s.(retiring := {},
        closed := s.closed + multiset(s.retiring) + last))
  }

  datatype Call =
    | CallStart(opens: bool, dials: bool) | CallPrepare(key: string, w: World) | CallMigrate(key: string, w: World)
    | CallInvalidate(key: string) | CallStop | ConnectionLost | Retired(t: nat)

  predicate Enabled(c: Client, call: Call) {
    match call
    case Retired(t) => t in c.sockets.retiring
    case ConnectionLost => c.phase.Connected?
    case _ => true
  }

  function Next(c: Client, call: Call): Client {
    match call
    case CallStart(opens, dials) => Start(c, opens, dials).0
    case CallPrepare(key, w) => Prepare(c, key, w).0
    case CallMigrate(key, w) => Migrate(c, key, w).0
    case CallInvalidate(key) => Invalidate(c, key)
    case CallStop => Stop(c)
    case ConnectionLost => c.(phase := Lost)
    case Retired(t) => CloseSocket(c, t).(sockets := CloseSocket(c, t).sockets.(retiring := c.sockets.retiring - {t}))
  }

  ghost predicate Legal(c: Client, calls: seq<Call>)
    decreases |calls|
  {
    calls == [] || (Enabled(c, calls[0]) && Legal(Next(c, calls[0]), calls[1..]))
  }

  function Run(c: Client, calls: seq<Call>): Client
    decreases |calls|
  {
    if calls == [] then c else Run(Next(c, calls[0]), calls[1..])
  }

  // ---------------------------------------------------------------- conservation

  function Holds(p: Option<Path>, t: nat): nat { if p.Some? && p.value.transport == t then 1 else 0 }

  /** The number of roles socket `t` has: active, prepared, parked, retiring, and once per close. */
  function Roles(c: Client, t: nat): nat {
    (if c.active == Some(t) then 1 else 0) + Holds(c.prepared, t) + Holds(c.parked, t)
    + (if t in c.sockets.retiring then 1 else 0) + c.sockets.closed[t]
  }

  ghost predicate Conserved(c: Client) {
    && (forall t: nat :: Roles(c, t) == if t < c.sockets.count then 1 else 0)
    && (c.active.None? <==> c.phase.Idle?)
    && (c.phase.Idle? ==> c.prepared.None? && c.parked.None? && c.sockets.retiring == {})
  }

  lemma DropsConserve(c: Client, why: Reason)
    requires Conserved(c) && !c.phase.Idle?
    ensures Conserved(DropPrepared(c, why)) && Conserved(DropParked(c, why))
  {
    forall t: nat ensures Roles(DropPrepared(c, why), t) == Roles(c, t) && Roles(DropParked(c, why), t) == Roles(c, t) {
      assert Roles(c, t) <= 1;
    }
  }

  lemma PromoteConserves(c: Client, key: string)
    requires Conserved(c) && !c.phase.Idle?
    ensures Conserved(Promote(c, key)) && Promote(c, key).active == c.active && Promote(c, key).phase == c.phase
  {
    DropsConserve(c, Displaced(key));
    var d := DropParked(c, Displaced(key));
    forall t: nat ensures Roles(Promote(c, key), t) == Roles(c, t) {
      assert Roles(c, t) <= 1 && Roles(d, t) == Roles(c, t);
    }
  }

  lemma AddConserves(c: Client, key: string, w: World)
    requires Conserved(c) && !c.phase.Idle?
    ensures var c' := AddPath(c, key, w).0; Conserved(c') && c'.active == c.active && c'.phase == c.phase
  {
    var c' := AddPath(c, key, w).0;
    forall t: nat ensures Roles(c', t) == if t < c'.sockets.count then 1 else 0 {
      assert Roles(c, t) == if t < c.sockets.count then 1 else 0;
    }
  }

  lemma PrepareConserves(c: Client, key: string, w: World)
    requires Conserved(c)
    ensures var c' := Prepare(c, key, w).0; Conserved(c') && c'.active == c.active && c'.phase == c.phase
  {
    hide Promote, AddPath, Roles;
    if c.phase.Connected? {
      PromoteConserves(c, key);
      AddConserves(Promote(c, key), key, w);
      var c1 := AddPath(Promote(c, key), key, w).0;
      ProbeConserves(c1, w);
    }
  }

  lemma ProbeConserves(c: Client, w: World)
    requires Conserved(c)
    ensures Conserved(Probe(c, w).0)
  {
    forall t: nat ensures Roles(Probe(c, w).0, t) == Roles(c, t) { }
  }

  lemma SwitchConserves(c: Client, asked: string, w: World, began: nat)
    requires Conserved(c) && !c.phase.Idle?
    ensures var (c', ok) := SwitchPath(c, asked, w, began);
      Conserved(c') && c'.phase == c.phase && (!ok ==> c'.active == c.active)
  {
    var c' := SwitchPath(c, asked, w, began).0;
    forall t: nat ensures Roles(c', t) == Roles(c, t) {
      assert Roles(c, t) <= 1;
    }
  }

  /** A prepare never moves the active socket, and neither does a migration that fails. */
  lemma MigrateConserves(c: Client, key: string, w: World)
    requires Conserved(c)
    ensures var (c', ok) := Migrate(c, key, w); Conserved(c') && (!ok ==> c'.active == c.active)
  {
    hide Prepare, SwitchPath, Roles;
    if c.phase.Connected? {
      PrepareConserves(c, key, w);
      SwitchConserves(c, key, w, |c.history|);
      SwitchConserves(Prepare(c, key, w).0, key, w, |c.history|);
    }
  }

  lemma StopConserves(c: Client)
    requires Conserved(c)
    ensures Conserved(Stop(c))
    ensures forall t: nat :: t < Stop(c).sockets.count ==> Stop(c).sockets.closed[t] == 1
  {
    if !c.phase.Idle? {
      DropsConserve(c, Stopped);
      DropsConserve(DropPrepared(c, Stopped), Stopped);
    }
    var c1 := if c.phase.Idle? then c else DropParked(DropPrepared(c, Stopped), Stopped);
    forall t: nat
      ensures Roles(Stop(c), t) == Roles(c1, t) && (t < Stop(c).sockets.count ==> Stop(c).sockets.closed[t] == 1)
    {
      assert Roles(c1, t) == if t < c1.sockets.count then 1 else 0;
    }
  }

  lemma NextConserves(c: Client, call: Call)
    requires Conserved(c) && Enabled(c, call)
    ensures Conserved(Next(c, call))
  {
    match call
    case CallStart(opens, dials) =>
      forall t: nat ensures Roles(Start(c, opens, dials).0, t)
        == if t < Start(c, opens, dials).0.sockets.count then 1 else 0
      {
        assert Roles(c, t) == if t < c.sockets.count then 1 else 0;
      }
    case CallPrepare(key, w) => PrepareConserves(c, key, w);
    case CallMigrate(key, w) => MigrateConserves(c, key, w);
    case CallInvalidate(key) =>
      if !c.phase.Idle? {
        DropsConserve(c, Invalidated);
        DropsConserve(DropPrepared(c, Invalidated), Invalidated);
      }
    case CallStop => StopConserves(c);
    case ConnectionLost =>
      forall t: nat ensures Roles(Next(c, call), t) == Roles(c, t) { }
    case Retired(r) =>
      forall t: nat ensures Roles(Next(c, call), t) == Roles(c, t) {
        assert Roles(c, t) <= 1;
      }
  }
}
