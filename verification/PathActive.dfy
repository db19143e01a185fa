/** Which socket is active: the one opened at the start, or that of the last migration. */
module PathActive {
  import opened Bytes
  import opened Paths
  import opened PathRuns

  /** The socket the last completed migration since position `from` of the history moved to. */
  function Landed(h: seq<Event>, from: nat): Option<nat> {
    if |h| <= from then None
    else
      var n := |h| - 1;
      if h[n].Gone? && h[n].reason.Migrated? then
        if n > from && h[n - 1].Switched? then Some(h[n - 1].transport) else None
      else Landed(h[..n], from)
  }

  /** The active socket is that of the last migration since `from`, or `first` if there was none. */
  predicate Rests(c: Client, from: nat, first: nat) {
    && from <= |c.history|
    && c.active == Some(if Landed(c.history, from).Some? then Landed(c.history, from).value else first)
  }

  lemma LandedSnoc(h: seq<Event>, e: Event, from: nat)
    requires from <= |h|
    ensures !(e.Gone? && e.reason.Migrated?) ==> Landed(h + [e], from) == Landed(h, from)
    ensures e.Gone? && e.reason.Migrated? && |h| > from && h[|h| - 1].Switched? ==>
      Landed(h + [e], from) == Some(h[|h| - 1].transport)
  {
    assert (h + [e])[..|h|] == h;
  }

  lemma DropsRest(c: Client, why: Reason, from: nat, first: nat)
    requires Rests(c, from, first) && !why.Migrated?
    ensures Rests(DropPrepared(c, why), from, first) && Rests(DropParked(c, why), from, first)
  {
    hide Landed;
    if c.prepared.Some? { LandedSnoc(c.history, Gone(c.prepared.value.key, why), from); }
    if c.parked.Some? { LandedSnoc(c.history, Gone(c.parked.value.key, why), from); }
  }

  lemma PrepareRests(c: Client, key: string, w: World, from: nat, first: nat)
    requires Rests(c, from, first)
    ensures Rests(Prepare(c, key, w).0, from, first)
  {
    PromoteRests(c, key, from, first);
    var c1 := Promote(c, key);
    AddRests(c1, key, w, from, first);
    var c2 := AddPath(c1, key, w).0;
    ProbeRests(c2, w, from, first);
    hide Rests, Promote, AddPath, Probe;
  }

  lemma PromoteRests(c: Client, key: string, from: nat, first: nat)
    requires Rests(c, from, first)
    ensures Rests(Promote(c, key), from, first)
  {
    DropsRest(c, Displaced(key), from, first);
    hide Landed;
  }

  lemma AddRests(c: Client, key: string, w: World, from: nat, first: nat)
    requires Rests(c, from, first)
    ensures Rests(AddPath(c, key, w).0, from, first)
  {
    hide Landed;
    LandedSnoc(c.history, Added(key, c.sockets.count), from);
  }

  lemma ProbeRests(c: Client, w: World, from: nat, first: nat)
    requires Rests(c, from, first)
    ensures Rests(Probe(c, w).0, from, first)
  {
    hide Landed;
    if c.prepared.Some? { LandedSnoc(c.history, Probed(c.prepared.value.transport, w.probes, w.done), from); }
  }

  lemma SwitchRests(c: Client, asked: string, w: World, began: nat, from: nat, first: nat)
    requires Rests(c, from, first)
    ensures Rests(SwitchPath(c, asked, w, began).0, from, first)
  {
    hide Landed;
    if c.prepared.Some? {
      var p := c.prepared.value;
      var e := Switched(asked, p.transport, w.now, began);
      LandedSnoc(c.history, e, from);
      LandedSnoc(c.history + [e], Gone(p.key, Migrated), from);
      LandedSnoc(c.history + [e], Gone(p.key, SwitchFailed), from);
    }
  }

  lemma NextRests(c: Client, call: Call, from: nat, first: nat)
    requires Conserved(c) && Rests(c, from, first) && !call.CallStop?
    ensures Rests(Next(c, call), from, first)
  {
    hide Prepare, SwitchPath, Landed;
    match call
    case CallStart(opens, dials) => assert !c.phase.Idle?;
    case CallPrepare(key, w) => PrepareRests(c, key, w, from, first);
    case CallMigrate(key, w) =>
      PrepareRests(c, key, w, from, first);
      SwitchRests(c, key, w, |c.history|, from, first);
      SwitchRests(Prepare(c, key, w).0, key, w, |c.history|, from, first);
    case CallInvalidate(key) =>
      DropsRest(c, Invalidated, from, first);
      DropsRest(DropPrepared(c, Invalidated), Invalidated, from, first);
    case ConnectionLost =>
    case Retired(t) =>
  }

  predicate NeverStops(calls: seq<Call>) { forall i :: 0 <= i < |calls| ==> !calls[i].CallStop? }

  lemma {:induction false} RunRests(c: Client, calls: seq<Call>, from: nat, first: nat)
    requires Conserved(c) && Legal(c, calls) && Rests(c, from, first) && NeverStops(calls)
    ensures Rests(Run(c, calls), from, first)
    decreases |calls|
  {
    hide Conserved, Next, Rests, Enabled;
    if calls != [] {
      NextRests(c, calls[0], from, first);
      NextConserves(c, calls[0]);
      assert forall i :: 0 <= i < |calls[1..]| ==> calls[1..][i] == calls[i + 1];
      RunRests(Next(c, calls[0]), calls[1..], from, first);
    }
  }

  /** A start that succeeds connects on the socket it opens, and until the client is stopped the
      active socket is that one or, once migrations completed, the one the last of them went to. */
  lemma ActiveIsLast(before: seq<Call>, calls: seq<Call>)
    requires Legal(NEW, before) && Run(NEW, before).phase.Idle? && NeverStops(calls)
    requires Legal(Next(Run(NEW, before), CallStart(true, true)), calls)
    ensures var c := Run(NEW, before);
      var started := Next(c, CallStart(true, true));
      && started.phase.Connected? && started.active == Some(c.sockets.count)
      && Rests(Run(started, calls), |c.history|, c.sockets.count)
  {
    assert Conserved(NEW);
    RunConserves(NEW, before);
    var c := Run(NEW, before);
    var started := Next(c, CallStart(true, true));
    NextConserves(c, CallStart(true, true));
    assert Rests(started, |c.history|, c.sockets.count);
    hide Run, Next, Conserved, Rests;
    RunRests(started, calls, |c.history|, c.sockets.count);
  }

  /** From `c` to `n` a switch to `key` was issued on its standby path and completed: that path's
      socket is the active one, and the socket that was active is being retired. */
  predicate Moves(c: Client, n: Client, key: string) {
    var i := |n.history| - 2;
    && i >= |c.history| && n.history[i].Switched? && n.history[i].asked == key
    && n.history[i + 1] == Gone(key, Migrated)
    && n.active == Some(n.history[i].transport) && Entry(n.history[..i], key) == n.active
    && c.active.Some? && c.active.value in n.sockets.retiring && c.active != n.active
  }

  lemma SwitchMoves(c: Client, key: string, w: World, began: nat)
    requires Cache(c) && Conserved(c) && HasKey(c.prepared, key) && SwitchPath(c, key, w, began).1
    ensures Moves(c, SwitchPath(c, key, w, began).0, key)
  {
    hide Entry, WellFormed, LastProbe;
    var n := SwitchPath(c, key, w, began).0;
    assert n.history[..|n.history| - 2] == c.history;
    assert Entry(c.history, key) == Cached(c, key);
    assert Roles(c, c.prepared.value.transport) == 1;
  }

  lemma MigrateMoves(c: Client, key: string, w: World)
    requires Cache(c) && Conserved(c) && Migrate(c, key, w).1
    ensures var n := Migrate(c, key, w).0; Moves(c, n, key)
  {
    hide Cache, Conserved, Prepare, SwitchPath, Entry;
    if Warm(c, key, w.now) {
      SwitchMoves(c, key, w, |c.history|);
    } else {
      PrepareCache(c, key, w);
      PrepareConserves(c, key, w);
      SwitchMoves(Prepare(c, key, w).0, key, w, |c.history|);
    }
  }

  /** A migration that reports success has moved the client to the standby path of the key asked
      for; one that fails leaves the active socket alone. */
  lemma MigrationMoves(calls: seq<Call>, key: string, w: World)
    requires Legal(NEW, calls)
    ensures var c := Run(NEW, calls);
      var (n, ok) := Migrate(c, key, w);
      if ok then Moves(c, n, key) else n.active == c.active
  {
    assert Cache(NEW) && Conserved(NEW);
    RunCache(NEW, calls);
    RunConserves(NEW, calls);
    var c := Run(NEW, calls);
    MigrateConserves(c, key, w);
    hide Run, Migrate;
    if Migrate(c, key, w).1 { MigrateMoves(c, key, w); }
  }

  // ---------------------------------------------------------------- when calls succeed

  /** Exactly when a start, a preparation and a migration succeed, by what the network grants: a key
      with a standby path needs no new socket, and a path at the front that was found good less than
      three seconds ago needs no probe. */
  lemma Successes(calls: seq<Call>, key: string, w: World, opens: bool, dials: bool)
    requires Legal(NEW, calls)
    ensures var c := Run(NEW, calls);
      var reachable := c.phase.Connected? && w.probes && (Entry(c.history, key).Some? || (w.opens && w.adds));
      && (Start(c, opens, dials).1 <==> c.phase.Idle? && opens && dials)
      && (Prepare(c, key, w).1 <==> reachable)
      && (Migrate(c, key, w).1 <==> w.switches && (reachable || (c.phase.Connected? && FoundGood(c, key, w.now))))
  {
    assert Cache(NEW) && Conserved(NEW);
    RunCache(NEW, calls);
    RunConserves(NEW, calls);
    var c := Run(NEW, calls);
    hide Run, LastProbe, WellFormed, Entry;
    assert Entry(c.history, key) == Cached(c, key);
    SwitchSucceeds(c, key, w);
    PrepareConserves(c, key, w);
    PrepareCache(c, key, w);
    SwitchSucceeds(Prepare(c, key, w).0, key, w);
    hide SwitchPath;
  }

  /** The front entry is for `key`, and its latest probe succeeded less than three seconds ago. */
  predicate FoundGood(c: Client, key: string, now: int) {
    && HasKey(c.prepared, key)
    && var probe := LastProbe(c.history, c.prepared.value.transport);
       probe.Some? && probe.value.ok && now - probe.value.at < FRESH
  }

  lemma SwitchSucceeds(c: Client, key: string, w: World)
    ensures forall began :: SwitchPath(c, key, w, began).1 <==> c.prepared.Some? && c.active.Some? && w.switches
  {
  }

  /** Invalidating a key leaves no standby path for it and touches no other and not the active one. */
  lemma InvalidateForgets(c: Client, key: string)
    requires Cache(c)
    ensures var n := Invalidate(c, key);
      && Cached(n, key) == None && n.active == c.active && n.phase == c.phase
      && (forall k :: k != key ==> Cached(n, k) == Cached(c, k))
      && (Cached(c, key).Some? ==> Cached(c, key).value in n.sockets.retiring)
  {
    hide Entry, LastProbe, WellFormed;
  }
}
