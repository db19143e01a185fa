/** Which call causes what: a switch is only issued on a recently probed entry for the key asked
    for, and a key gets a second path only after the first was given up for good reason. */
module PathCalls {
  import opened Bytes
  import opened Paths
  import opened PathRuns

  // ---------------------------------------------------------------- which call did what

  /** The only calls that can have caused the event at `i`, with the history at length `began`
      when the call began: a path is given up by invalidating its key, by the switch to it that
      this very call issued just before, by preparing another key, or by stopping; nothing else,
      and in particular no failed probe. */
  predicate Explained(call: Call, h: seq<Event>, i: nat, began: nat)
    requires i < |h|
  {
    match h[i]
    case Added(key, _) => About(call, key)
    case Probed(_, _, _) => call.CallPrepare? || call.CallMigrate?
    case Switched(asked, _, at, b) => call.CallMigrate? && call.key == asked && at == call.w.now && b == began
    case Gone(key, Invalidated) => call == CallInvalidate(key)
    case Gone(key, Migrated) => call.CallMigrate? && call.key == key && call.w.switches && Follows(h, i, key, began)
    case Gone(key, SwitchFailed) => call.CallMigrate? && call.key == key && !call.w.switches
      && Follows(h, i, key, began)
    case Gone(key, Displaced(newcomer)) => newcomer != key && About(call, newcomer)
    case Gone(_, Stopped) => call.CallStop?
  }

  predicate About(call: Call, key: string) { (call.CallPrepare? || call.CallMigrate?) && call.key == key }

  predicate Follows(h: seq<Event>, i: nat, key: string, began: nat)
    requires i < |h|
  {
    began < i && h[i - 1].Switched? && h[i - 1].asked == key
  }

  /** The history grew by events of this call only. */
  ghost predicate Grown(h: seq<Event>, next: seq<Event>, call: Call, began: nat) {
    h <= next && forall i :: |h| <= i < |next| ==> Explained(call, next, i, began)
  }

  lemma ExplainedPrefix(call: Call, h: seq<Event>, next: seq<Event>, i: nat, began: nat)
    requires h <= next && i < |h|
    ensures Explained(call, h, i, began) <==> Explained(call, next, i, began)
  {
    assert next[i] == h[i] && (i > 0 ==> next[i - 1] == h[i - 1]);
  }

  lemma GrownTwice(h: seq<Event>, mid: seq<Event>, next: seq<Event>, call: Call, began: nat)
    requires Grown(h, mid, call, began) && Grown(mid, next, call, began)
    ensures Grown(h, next, call, began)
  {
    hide Explained;
    forall i | |h| <= i < |mid| ensures Explained(call, next, i, began) { ExplainedPrefix(call, mid, next, i, began); }
  }

  lemma PromoteGrows(c: Client, key: string, call: Call, began: nat)
    requires Cache(c) && About(call, key)
    ensures Grown(c.history, Promote(c, key).history, call, began)
  {
    hide Entry, LastProbe, WellFormed;
  }

  lemma PrepareGrows(c: Client, key: string, w: World, call: Call, began: nat)
    requires Cache(c) && About(call, key)
    ensures Grown(c.history, Prepare(c, key, w).0.history, call, began)
  {
    PromoteGrows(c, key, call, began);
    hide Cache, Promote;
    var c1 := Promote(c, key);
    var c2 := AddPath(c1, key, w).0;
    if c.phase.Connected? {
      assert Grown(c1.history, c2.history, call, began);
      assert Grown(c2.history, Probe(c2, w).0.history, call, began);
      GrownTwice(c.history, c1.history, c2.history, call, began);
      GrownTwice(c.history, c2.history, Probe(c2, w).0.history, call, began);
    }
  }

  lemma SwitchGrows(c: Client, call: Call, began: nat)
    requires call.CallMigrate? && HasKey(c.prepared, call.key) && began <= |c.history|
    ensures Grown(c.history, SwitchPath(c, call.key, call.w, began).0.history, call, began)
  {
  }

  lemma MigrateGrows(c: Client, call: Call)
    requires Cache(c) && Conserved(c) && call.CallMigrate?
    ensures Grown(c.history, Migrate(c, call.key, call.w).0.history, call, |c.history|)
  {
    hide Cache, Conserved, Prepare, SwitchPath, Explained;
    var key, w, began := call.key, call.w, |c.history|;
    if c.phase.Connected? {
      if Warm(c, key, w.now) {
        SwitchGrows(c, call, began);
      } else {
        PrepareGrows(c, key, w, call, began);
        PrepareCache(c, key, w);
        var (c1, ok) := Prepare(c, key, w);
        if ok {
          SwitchGrows(c1, call, began);
          GrownTwice(c.history, c1.history, SwitchPath(c1, key, w, began).0.history, call, began);
        }
      }
    }
  }

  /** Every event of a call is one that this very call may cause. */
  lemma NextExplained(c: Client, call: Call)
    requires Cache(c) && Conserved(c) && Enabled(c, call)
    ensures Grown(c.history, Next(c, call).history, call, |c.history|)
  {
    hide Cache, Conserved, Prepare, Migrate;
    match call
    case CallStart(opens, dials) =>
    case CallPrepare(key, w) => PrepareGrows(c, key, w, call, |c.history|);
    case CallMigrate(key, w) => MigrateGrows(c, call);
    case CallInvalidate(key) =>
    case CallStop =>
    case ConnectionLost =>
    case Retired(t) =>
  }

  lemma SwitchProbed(was: seq<Event>, h: seq<Event>, call: Call, i: nat)
    requires WellFormed(h) && Grown(was, h, call, |was|) && |was| <= i < |h| && h[i].Switched?
    ensures call.CallMigrate? && Entry(h[..i], call.key) == Some(h[i].transport)
    ensures var probe := LastProbe(h[..i], h[i].transport);
      probe.Some? && probe.value.ok && (probe.value.index >= |was| || call.w.now - probe.value.at < FRESH)
  {
    hide Entry, LastProbe, WellFormed;
    ProperAt(h, i);
    assert Explained(call, h, i, |was|);
  }

  /** Whatever led to it, each switch a call issues is a migration's, is on the standby path of
      the very key that migration was asked for, and the latest probe of that path succeeded:
      within this call, or under three seconds before the call began. */
  lemma SwitchesAreProbed(calls: seq<Call>, call: Call, i: nat)
    requires Legal(NEW, calls) && Enabled(Run(NEW, calls), call)
    requires var c, n := Run(NEW, calls), Next(Run(NEW, calls), call);
      |c.history| <= i < |n.history| && n.history[i].Switched?
    ensures var c, h := Run(NEW, calls), Next(Run(NEW, calls), call).history;
      var probe := LastProbe(h[..i], h[i].transport);
      && call.CallMigrate? && Entry(h[..i], call.key) == Some(h[i].transport)
      && probe.Some? && probe.value.ok
      && (probe.value.index >= |c.history| || call.w.now - probe.value.at < FRESH)
  {
    assert Cache(NEW) && Conserved(NEW);
    RunCache(NEW, calls);
    RunConserves(NEW, calls);
    var c := Run(NEW, calls);
    hide Run, Next, Conserved, Entry, LastProbe, WellFormed, Explained;
    NextExplained(c, call);
    NextCache(c, call);
    SwitchProbed(c.history, Next(c, call).history, call, i);
  }

  // ---------------------------------------------------------------- one path per key

  /** The paths added for `key` from position `from` of the history on. */
  function Additions(h: seq<Event>, key: string, from: nat): nat {
    if |h| <= from then 0
    else
      var e := h[|h| - 1];
      Additions(h[..|h| - 1], key, from) + if e.Added? && e.key == key then 1 else 0
  }

  /** The switches to `key` issued from position `from` of the history on. */
  function Issued(h: seq<Event>, key: string, from: nat): nat {
    if |h| <= from then 0
    else
      var e := h[|h| - 1];
      Issued(h[..|h| - 1], key, from) + if e.Switched? && e.asked == key then 1 else 0
  }

  /** Calls that do not invalidate `key`, do not stop the client, and name no key but `key` and
      one other. Migrations to `key` are among them. */
  predicate Sparing(call: Call, key: string, other: string) {
    match call
    case CallPrepare(k, _) => k == key || k == other
    case CallMigrate(k, _) => k == key || k == other
    case CallInvalidate(k) => k != key
    case CallStop => false
    case CallStart(_, _) => true
    case ConnectionLost => true
    case Retired(_) => true
  }

  predicate AllSparing(calls: seq<Call>, key: string, other: string) {
    calls == [] || (Sparing(calls[0], key, other) && AllSparing(calls[1..], key, other))
  }

  /** The path of `key` is kept, and not behind a path of a third key. */
  predicate Keeps(c: Client, key: string, other: string) {
    HasKey(c.prepared, key) || (HasKey(c.parked, key) && (c.prepared.Some? ==> HasKey(c.prepared, other)))
  }

  /** Paths added beyond those a switch used up and the one that is kept. */
  function Wasted(c: Client, key: string, other: string, from: nat): int {
    Additions(c.history, key, from) - Issued(c.history, key, from) - if Keeps(c, key, other) then 1 else 0
  }

  /** Nothing more is wasted on the way from `c` to `n`. */
  predicate Thrifty(c: Client, n: Client, key: string, other: string, from: nat) {
    from <= |n.history| && Wasted(n, key, other, from) <= Wasted(c, key, other, from)
  }

  lemma Counts(h: seq<Event>, e: Event, key: string, from: nat)
    requires from <= |h|
    ensures Additions(h + [e], key, from) == Additions(h, key, from) + if e.Added? && e.key == key then 1 else 0
    ensures Issued(h + [e], key, from) == Issued(h, key, from) + if e.Switched? && e.asked == key then 1 else 0
  {
    assert (h + [e])[..|h|] == h;
  }

  /** Giving up an entry of another key wastes nothing. */
  lemma DropsThrifty(c: Client, why: Reason, key: string, other: string, from: nat)
    requires from <= |c.history|
    ensures !HasKey(c.prepared, key) ==> Thrifty(c, DropPrepared(c, why), key, other, from)
    ensures !HasKey(c.parked, key) ==> Thrifty(c, DropParked(c, why), key, other, from)
  {
    hide Additions, Issued;
    if c.prepared.Some? { Counts(c.history, Gone(c.prepared.value.key, why), key, from); }
    if c.parked.Some? { Counts(c.history, Gone(c.parked.value.key, why), key, from); }
  }

  lemma PromoteThrifty(c: Client, key: string, other: string, k: string, from: nat)
    requires from <= |c.history| && (k == key || k == other)
    ensures var n := Promote(c, k);
      && Thrifty(c, n, key, other, from)
      && (n.prepared.Some? ==> HasKey(n.prepared, k))
      && (n.prepared.None? && k == key ==> !Keeps(n, key, other))
  {
    hide Additions, Issued;
    if c.parked.Some? { Counts(c.history, Gone(c.parked.value.key, Displaced(k)), key, from); }
  }

  lemma PrepareThrifty(c: Client, key: string, other: string, k: string, w: World, from: nat)
    requires from <= |c.history| && (k == key || k == other)
    ensures Thrifty(c, Prepare(c, k, w).0, key, other, from)
  {
    hide Additions, Issued, Promote;
    if c.phase.Connected? {
      PromoteThrifty(c, key, other, k, from);
      var c1 := Promote(c, k);
      Counts(c1.history, Added(k, c1.sockets.count), key, from);
      var (c2, added) := AddPath(c1, k, w);
      if added { Counts(c2.history, Probed(c2.prepared.value.transport, w.probes, w.done), key, from); }
    }
  }

  /** A switch uses up the path of its key and keeps the other. */
  lemma SwitchThrifty(c: Client, key: string, other: string, k: string, w: World, began: nat, from: nat)
    requires from <= |c.history| && (k == key || k == other) && HasKey(c.prepared, k)
    ensures Thrifty(c, SwitchPath(c, k, w, began).0, key, other, from)
  {
    hide Additions, Issued;
    if c.active.Some? {
      var t := c.prepared.value.transport;
      Counts(c.history, Switched(k, t, w.now, began), key, from);
      var why := if w.switches then Migrated else SwitchFailed;
      Counts(c.history + [Switched(k, t, w.now, began)], Gone(k, why), key, from);
    }
  }

  lemma MigrateThrifty(c: Client, key: string, other: string, k: string, w: World, from: nat)
    requires Cache(c) && Conserved(c) && from <= |c.history| && (k == key || k == other)
    ensures Thrifty(c, Migrate(c, k, w).0, key, other, from)
  {
    hide Wasted, Prepare, SwitchPath, Cache, Conserved;
    if c.phase.Connected? {
      if Warm(c, k, w.now) {
        SwitchThrifty(c, key, other, k, w, |c.history|, from);
      } else {
        PrepareThrifty(c, key, other, k, w, from);
        PrepareCache(c, k, w);
        var (c1, ok) := Prepare(c, k, w);
        if ok { SwitchThrifty(c1, key, other, k, w, |c.history|, from); }
      }
    }
  }

  lemma NextThrifty(c: Client, call: Call, key: string, other: string, from: nat)
    requires Cache(c) && Conserved(c) && Enabled(c, call) && from <= |c.history| && Sparing(call, key, other)
    ensures Thrifty(c, Next(c, call), key, other, from)
  {
    hide Additions, Issued, Prepare, Migrate, Cache, Conserved;
    match call
    case CallStart(opens, dials) =>
    case CallPrepare(k, w) => PrepareThrifty(c, key, other, k, w, from);
    case CallMigrate(k, w) => MigrateThrifty(c, key, other, k, w, from);
    case CallInvalidate(k) =>
      DropsThrifty(c, Invalidated, key, other, from);
      DropsThrifty(DropPrepared(c, Invalidated), Invalidated, key, other, from);
    case ConnectionLost =>
    case Retired(t) =>
  }

  lemma {:induction false} RunThrifty(c: Client, calls: seq<Call>, key: string, other: string, from: nat)
    requires Cache(c) && Conserved(c) && Legal(c, calls) && from <= |c.history| && AllSparing(calls, key, other)
    ensures Thrifty(c, Run(c, calls), key, other, from)
    decreases |calls|
  {
    hide Wasted, Next, Cache, Conserved, Enabled, Sparing;
    if calls != [] {
      NextThrifty(c, calls[0], key, other, from);
      NextCache(c, calls[0]);
      NextConserves(c, calls[0]);
      RunThrifty(Next(c, calls[0]), calls[1..], key, other, from);
    }
  }

  /** From any reachable client on, calls that do not invalidate a key, do not stop the client and
      are about no more than one other key add at most one path for the key and one more for each
      switch to it that was issued, and none at first if its path is kept already. Sockets, paths,
      probes and switches may turn out in any way: no failed probe, of a preparation or of a
      migration, ever costs a path. */
  lemma PathsAreSpent(before: seq<Call>, calls: seq<Call>, key: string, other: string)
    requires Legal(NEW, before) && Legal(Run(NEW, before), calls) && AllSparing(calls, key, other)
    ensures var c := Run(NEW, before);
      var h, from := Run(c, calls).history, |c.history|;
      Additions(h, key, from) + (if Keeps(c, key, other) then 1 else 0) <= 1 + Issued(h, key, from)
  {
    assert Cache(NEW) && Conserved(NEW);
    RunCache(NEW, before);
    RunConserves(NEW, before);
    var c := Run(NEW, before);
    RunThrifty(c, calls, key, other, |c.history|);
  }

  /** Until a switch to it is issued, a key costs at most one path: it is retried on the same
      socket however often its probes fail. */
  lemma OnePathPerKey(before: seq<Call>, calls: seq<Call>, key: string, other: string)
    requires Legal(NEW, before) && Legal(Run(NEW, before), calls) && AllSparing(calls, key, other)
    ensures var c := Run(NEW, before);
      var h, from := Run(c, calls).history, |c.history|;
      (forall i :: from <= i < |h| ==> !(h[i].Switched? && h[i].asked == key)) ==> Additions(h, key, from) <= 1
  {
    var c := Run(NEW, before);
    var h := Run(c, calls).history;
    PathsAreSpent(before, calls, key, other);
    if forall i :: |c.history| <= i < |h| ==> !(h[i].Switched? && h[i].asked == key) {
      NoneIssued(h, key, |c.history|);
    }
  }

  lemma {:induction false} NoneIssued(h: seq<Event>, key: string, from: nat)
    requires forall i :: from <= i < |h| ==> !(h[i].Switched? && h[i].asked == key)
    ensures Issued(h, key, from) == 0
  {
    if |h| > from { NoneIssued(h[..|h| - 1], key, from); }
  }
}
