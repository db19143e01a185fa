/** Every run of the client: sockets are conserved, and the two standby entries are a cache by
    network key that the history of paths accounts for. */
module PathRuns {
  import opened Bytes
  import opened Paths

  // ---------------------------------------------------------------- sockets

  lemma {:induction false} RunConserves(c: Client, calls: seq<Call>)
    requires Conserved(c) && Legal(c, calls)
    ensures Conserved(Run(c, calls))
    decreases |calls|
  {
    hide Conserved, Next, Enabled;
    if calls != [] {
      NextConserves(c, calls[0]);
      RunConserves(Next(c, calls[0]), calls[1..]);
    }
  }

  /** Sockets opened and neither retiring nor closed. */
  function InUse(c: Client): set<nat> {
    set t: nat | t < c.sockets.count && t !in c.sockets.retiring && c.sockets.closed[t] == 0
  }

  lemma ThreeInUse(c: Client)
    requires Conserved(c)
    ensures |InUse(c)| <= 3
  {
    var named := (if c.active.Some? then {c.active.value} else {})
               + (if c.prepared.Some? then {c.prepared.value.transport} else {})
               + (if c.parked.Some? then {c.parked.value.transport} else {});
    forall t | t in InUse(c) ensures t in named {
      assert Roles(c, t) == 1;
    }
    assert |named| <= 3;
    assert named == InUse(c) + (named - InUse(c));
  }

  /** In every reachable state each opened socket has exactly one role, at most three are in
      use, and stopping leaves every socket ever opened closed exactly once. */
  lemma SocketConservation(calls: seq<Call>)
    requires Legal(NEW, calls)
    ensures var c := Run(NEW, calls);
      && (forall t: nat :: t < c.sockets.count ==> Roles(c, t) == 1)
      && |InUse(c)| <= 3
      && forall t: nat :: t < Stop(c).sockets.count ==> Stop(c).sockets.closed[t] == 1
  {
    assert Conserved(NEW);
    RunConserves(NEW, calls);
    hide Run, Stop, InUse;
    StopConserves(Run(NEW, calls));
    ThreeInUse(Run(NEW, calls));
  }

  // ---------------------------------------------------------------- the history

  /** The socket of the standby path the history leaves for `key`. */
  function Entry(h: seq<Event>, key: string): Option<nat> {
    if h == [] then None
    else
      var before, e := h[..|h| - 1], h[|h| - 1];
      if e.Added? && e.key == key then Some(e.transport)
      else if e.Gone? && e.key == key then None
      else Entry(before, key)
  }

  /** The latest probe of the path on socket `t` since it was added: outcome, time, position. */
  datatype Checkup = Checkup(ok: bool, at: int, index: nat)

  function LastProbe(h: seq<Event>, t: nat): Option<Checkup> {
    if h == [] then None
    else
      var before, e := h[..|h| - 1], h[|h| - 1];
      if e.Probed? && e.transport == t then Some(Checkup(e.ok, e.at, |before|))
      else if e.Added? && e.transport == t then None
      else LastProbe(before, t)
  }

  /** What may follow history `h`: a path is added only for a key without one; a switch is
      issued only on the entry for the key asked for, whose latest probe succeeded in the same
      call or less than three seconds before; an entry is displaced only by another key, and
      given up by a migration only at once after the switch to its key was issued. */
  ghost predicate Proper(h: seq<Event>, e: Event) {
    match e
    case Added(key, t) => Entry(h, key) == None
    case Switched(asked, t, at, began) =>
      && Entry(h, asked) == Some(t)
      && var probe := LastProbe(h, t);
         probe.Some? && probe.value.ok && (probe.value.index >= began || at - probe.value.at < FRESH)
    case Gone(key, reason) =>
      && Entry(h, key).Some?
      && (reason.Displaced? ==> reason.newcomer != key && Entry(h, reason.newcomer) == None)
      && (BySwitch(reason) ==> JustSwitched(h, key))
    case Probed(_, _, _) => true
  }

  predicate BySwitch(reason: Reason) { reason.Migrated? || reason.SwitchFailed? }

  predicate JustSwitched(h: seq<Event>, key: string) {
    h != [] && h[|h| - 1].Switched? && h[|h| - 1].asked == key
  }

  ghost predicate WellFormed(h: seq<Event>) {
    h == [] || (WellFormed(h[..|h| - 1]) && Proper(h[..|h| - 1], h[|h| - 1]))
  }

  function Cached(c: Client, key: string): Option<nat> {
    if HasKey(c.prepared, key) then Some(c.prepared.value.transport)
    else if HasKey(c.parked, key) then Some(c.parked.value.transport)
    else None
  }

  /** The `checked` time of a cached path is that of its latest probe, if that succeeded. */
  ghost predicate CheckedRight(h: seq<Event>, p: Option<Path>) {
    p.Some? ==>
      var probe := LastProbe(h, p.value.transport);
      p.value.checked == if probe.Some? && probe.value.ok then Some(probe.value.at) else None
  }

  ghost predicate Cache(c: Client) {
    && (c.prepared.Some? && c.parked.Some? ==>
          c.prepared.value.key != c.parked.value.key && c.prepared.value.transport != c.parked.value.transport)
    && (forall key :: Entry(c.history, key) == Cached(c, key))
    && CheckedRight(c.history, c.prepared) && CheckedRight(c.history, c.parked)
    && WellFormed(c.history)
  }

  lemma Snoc(h: seq<Event>, e: Event)
    ensures forall key ::
      Entry(h + [e], key) == (if e.Added? && e.key == key then Some(e.transport)
                              else if e.Gone? && e.key == key then None
                              else Entry(h, key))
    ensures forall t ::
      LastProbe(h + [e], t) == (if e.Probed? && e.transport == t then Some(Checkup(e.ok, e.at, |h|))
                                else if e.Added? && e.transport == t then None
                                else LastProbe(h, t))
    ensures WellFormed(h + [e]) <==> WellFormed(h) && Proper(h, e)
  {
    assert (h + [e])[..|h|] == h;
  }

  lemma DropsCache(c: Client, why: Reason)
    requires Cache(c) && !BySwitch(why)
    requires why.Displaced? ==> !HasKey(c.prepared, why.newcomer) && !HasKey(c.parked, why.newcomer)
    ensures Cache(DropPrepared(c, why)) && Cache(DropParked(c, why))
  {
    hide Entry, LastProbe, WellFormed;
    if c.prepared.Some? { Snoc(c.history, Gone(c.prepared.value.key, why)); }
    if c.parked.Some? { Snoc(c.history, Gone(c.parked.value.key, why)); }
  }

  lemma PromoteCache(c: Client, key: string)
    requires Cache(c)
    ensures var c' := Promote(c, key);
      Cache(c') && |c'.history| >= |c.history| && (c'.prepared.Some? ==> HasKey(c'.prepared, key))
      && (c'.prepared.None? ==> !HasKey(c'.parked, key))
  {
    hide Entry, LastProbe, WellFormed, Proper;
    if c.prepared.Some? && c.prepared.value.key != key && !HasKey(c.parked, key) {
      DropsCache(c, Displaced(key));
    }
  }

  lemma AddCache(c: Client, key: string, w: World)
    requires Cache(c) && (c.parked.Some? ==> c.parked.value.transport < c.sockets.count)
    requires (c.prepared.Some? ==> HasKey(c.prepared, key)) && (c.prepared.None? ==> !HasKey(c.parked, key))
    ensures var (c', added) := AddPath(c, key, w);
      Cache(c') && |c'.history| >= |c.history| && (added ==> HasKey(c'.prepared, key))
  {
    hide Entry, LastProbe, WellFormed;
    Snoc(c.history, Added(key, c.sockets.count));
  }

  lemma ProbeCache(c: Client, w: World)
    requires Cache(c) && c.prepared.Some?
    ensures var (c', ok) := Probe(c, w);
      && Cache(c') && |c'.history| > |c.history| && HasKey(c'.prepared, c.prepared.value.key)
      && (ok ==> LastProbe(c'.history, c'.prepared.value.transport) == Some(Checkup(true, w.done, |c'.history| - 1)))
  {
    hide Entry, LastProbe, WellFormed;
    Snoc(c.history, Probed(c.prepared.value.transport, w.probes, w.done));
  }

  lemma PrepareCache(c: Client, key: string, w: World)
    requires Cache(c) && Conserved(c)
    ensures var (c', ok) := Prepare(c, key, w);
      && Cache(c') && |c'.history| >= |c.history|
      && (ok ==> HasKey(c'.prepared, key) && |c'.history| > |c.history|
                 && LastProbe(c'.history, c'.prepared.value.transport) == Some(Checkup(true, w.done, |c'.history| - 1)))
  {
    hide Cache, Conserved, LastProbe, Promote, AddPath, Probe;
    if c.phase.Connected? {
      PromoteCache(c, key);
      ParkedIsOpen(c, key);
      AddCache(Promote(c, key), key, w);
      var (c1, added) := AddPath(Promote(c, key), key, w);
      if added { ProbeCache(c1, w); }
    }
  }

  lemma ParkedIsOpen(c: Client, key: string)
    requires Conserved(c) && c.phase.Connected?
    ensures var n := Promote(c, key); n.parked.Some? ==> n.parked.value.transport < n.sockets.count
  {
    PromoteConserves(c, key);
    var n := Promote(c, key);
    if n.parked.Some? { assert Roles(n, n.parked.value.transport) >= 1; }
  }

  lemma SwitchCache(c: Client, asked: string, w: World, began: nat)
    requires Cache(c) && HasKey(c.prepared, asked)
    requires
      var probe := LastProbe(c.history, c.prepared.value.transport);
      probe.Some? && probe.value.ok && (probe.value.index >= began || w.now - probe.value.at < FRESH)
    ensures Cache(SwitchPath(c, asked, w, began).0)
  {
    hide Entry, LastProbe, WellFormed;
    if c.active.Some? {
      var p := c.prepared.value;
      var issued := c.(history := c.history + [Switched(asked, p.transport, w.now, began)]);
      Snoc(c.history, Switched(asked, p.transport, w.now, began));
      assert Entry(c.history, p.key) == Cached(c, p.key);
      assert Cache(issued);
      Snoc(issued.history, Gone(p.key, if w.switches then Migrated else SwitchFailed));
    }
  }

  lemma MigrateCache(c: Client, key: string, w: World)
    requires Cache(c) && Conserved(c)
    ensures Cache(Migrate(c, key, w).0)
  {
    hide Conserved, Entry, LastProbe, WellFormed, Prepare, SwitchPath;
    if c.phase.Connected? {
      if Warm(c, key, w.now) {
        SwitchCache(c, key, w, |c.history|);
      } else {
        PrepareCache(c, key, w);
        var (c1, ok) := Prepare(c, key, w);
        if ok { SwitchCache(c1, key, w, |c.history|); }
      }
    }
  }

  lemma NextCache(c: Client, call: Call)
    requires Cache(c) && Conserved(c) && Enabled(c, call)
    ensures Cache(Next(c, call))
  {
    hide Conserved, Entry, LastProbe, WellFormed, Proper;
    match call
    case CallStart(opens, dials) =>
    case CallPrepare(key, w) => PrepareCache(c, key, w);
    case CallMigrate(key, w) => MigrateCache(c, key, w);
    case CallInvalidate(key) =>
      DropsCache(c, Invalidated);
      DropsCache(DropPrepared(c, Invalidated), Invalidated);
    case CallStop =>
      DropsCache(c, Stopped);
      DropsCache(DropPrepared(c, Stopped), Stopped);
    case ConnectionLost =>
    case Retired(t) =>
  }

  lemma {:induction false} RunCache(c: Client, calls: seq<Call>)
    requires Cache(c) && Conserved(c) && Legal(c, calls)
    ensures Cache(Run(c, calls))
    decreases |calls|
  {
    hide Conserved, Cache, Next, Enabled;
    if calls != [] {
      NextCache(c, calls[0]);
      NextConserves(c, calls[0]);
      RunCache(Next(c, calls[0]), calls[1..]);
    }
  }

  // ---------------------------------------------------------------- what the history shows

  lemma {:induction false} ProperAt(h: seq<Event>, i: nat)
    requires WellFormed(h) && i < |h|
    ensures Proper(h[..i], h[i])
  {
    if i < |h| - 1 {
      ProperAt(h[..|h| - 1], i);
      assert h[..|h| - 1][..i] == h[..i];
    }
  }

  lemma {:induction false} EntryLasts(h: seq<Event>, i: nat, key: string)
    requires i < |h| && h[i].Added? && h[i].key == key
    requires forall m :: i < m < |h| ==> !(h[m].Gone? && h[m].key == key)
    ensures Entry(h, key).Some?
  {
    if i < |h| - 1 {
      EntryLasts(h[..|h| - 1], i, key);
    }
  }

  /** In every reachable state the two standby entries have different keys, and the history
      accounts for exactly them. */
  lemma StandbyCache(calls: seq<Call>, key: string)
    requires Legal(NEW, calls)
    ensures var c := Run(NEW, calls);
      && (c.prepared.Some? && c.parked.Some? ==> c.prepared.value.key != c.parked.value.key)
      && Entry(c.history, key) == Cached(c, key)
  {
    assert Cache(NEW) && Conserved(NEW);
    RunCache(NEW, calls);
  }

  /** Between two paths added for one key the first was given up. */
  lemma GivenUpBetween(calls: seq<Call>, i: nat, j: nat, key: string)
    requires Legal(NEW, calls)
    requires var h := Run(NEW, calls).history;
      i < j < |h| && h[i].Added? && h[i].key == key && h[j].Added? && h[j].key == key
    ensures var h := Run(NEW, calls).history;
      exists m :: i < m < j && h[m].Gone? && h[m].key == key
                  && (h[m].reason.Displaced? ==> h[m].reason.newcomer != key)
  {
    assert Cache(NEW) && Conserved(NEW);
    RunCache(NEW, calls);
    var h := Run(NEW, calls).history;
    ProperAt(h, j);
    if forall m :: i < m < j ==> !(h[m].Gone? && h[m].key == key) {
      EntryLasts(h[..j], i, key);
      assert false;
    }
    var m :| i < m < j && h[m].Gone? && h[m].key == key;
    ProperAt(h, m);
  }
}
