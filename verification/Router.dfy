/** The multi-profile router: which handler a new flow is given, over every run of the
    operations that install, disable and remove profiles. */
module Router {
  import opened Bytes
  import opened Ipv4
  import opened Policy

  /** A profile's handler: numbered as made, with the gateway it forwards to. */
  datatype Handler = Handler(serial: nat, gateway: nat)

  datatype State = State(profiles: map<string, Handler>, disabled: set<string>, closed: bool,
                         stopped: set<nat>, made: nat)

  datatype Op =
    | SetGateway(id: string, gateway: nat)
    | SetProfileEnabled(id: string, enabled: bool)
    | RemoveGateway(id: string)
    | DetachGateway(id: string, gateway: nat)
    | Close

  /** Rules that passed validation, and the name of the profile that carries DNS. */
  datatype Setup = Setup(rules: seq<Rule>, dns: string)

  ghost predicate HasRule(setup: Setup, id: string) {
    exists i :: 0 <= i < |setup.rules| && setup.rules[i].id == id
  }

  ghost predicate ValidSetup(setup: Setup) {
    Usable(setup.rules) && Named(setup.rules) && HasRule(setup, setup.dns)
  }

  const DIRECT_HANDLER := Handler(0, 0)

  /** A new router holds only the direct handler. */
  const FRESH_ROUTER := State(map[DIRECT := DIRECT_HANDLER], {}, false, {}, 1)

  function Serials(m: map<string, Handler>): set<nat> { set id | id in m :: m[id].serial }

  lemma SerialsRemove(m: map<string, Handler>, id: string)
    requires id in m
    ensures Serials(m) == Serials(m - {id}) + {m[id].serial}
  {
    var rest := m - {id};
    forall n | n in Serials(m) ensures n in Serials(rest) + {m[id].serial} {
      var k :| k in m && m[k].serial == n;
      if k != id { assert k in rest && rest[k].serial == n; }
    }
    forall n | n in Serials(rest) ensures n in Serials(m) {
      var k :| k in rest && rest[k].serial == n;
      assert k in m && m[k].serial == n;
    }
  }

  function Stop(s: State, id: string): State {
    if id in s.profiles then s.(stopped := s.stopped + {s.profiles[id].serial}) else s
  }

  ghost function Apply(setup: Setup, s: State, op: Op): State {
    match op
    case SetGateway(id, g) =>
      if s.closed || id in s.disabled || !HasRule(setup, id) then s
      else Stop(s, id).(profiles := s.profiles[id := Handler(s.made, g)], made := s.made + 1)
    case SetProfileEnabled(id, enabled) =>
      if id == DIRECT || s.closed then s
      else if enabled then s.(disabled := s.disabled - {id})
      else Stop(s, id).(disabled := s.disabled + {id}, profiles := s.profiles - {id})
    case RemoveGateway(id) => if id == DIRECT then s else Stop(s, id).(profiles := s.profiles - {id})
    case DetachGateway(id, g) =>
      if id == DIRECT || id !in s.profiles || s.profiles[id].gateway != g then s
      else Stop(s, id).(profiles := s.profiles - {id})
    case Close =>
      if s.closed then s
      else s.(closed := true, profiles := map[], stopped := s.stopped + Serials(s.profiles))
  }

  ghost function Run(setup: Setup, s: State, ops: seq<Op>): State
    decreases |ops|
  {
    if ops == [] then s else Run(setup, Apply(setup, s, ops[0]), ops[1..])
  }

  /** A flow's destination (none when it is not IPv4), its owner and its port. */
  datatype Flow = Flow(dst: Option<address>, uid: int, port: nat)

  /** The profile a flow is for: the DNS profile on port 53, else the first match. */
  ghost predicate For(setup: Setup, f: Flow, profile: string)
    requires Usable(setup.rules) && f.dst.Some?
  {
    if f.port == 53 then profile == setup.dns
    else exists why :: FirstMatch(setup.rules, f.dst.value, f.uid, Decision(profile, why))
  }

  /** The handler installed for a profile, if the profile is enabled and its handler running. */
  function Granted(s: State, profile: string): Option<Handler> {
    if !s.closed && profile != NONE && profile !in s.disabled && profile in s.profiles
       && s.profiles[profile].serial !in s.stopped
    then Some(s.profiles[profile]) else None
  }

  /** The only handler a flow may get is the one installed for its profile. */
  ghost predicate Selects(setup: Setup, s: State, f: Flow, h: Option<Handler>)
    requires Usable(setup.rules)
  {
    if f.dst.None? then h.None?
    else exists profile :: For(setup, f, profile) && h == Granted(s, profile)
  }

  // ---------------------------------------------------------------- what every operation keeps

  ghost predicate Invariant(setup: Setup, s: State) {
    && (if s.closed then s.profiles == map[] else DIRECT in s.profiles && s.profiles[DIRECT] == DIRECT_HANDLER)
    && DIRECT !in s.disabled
    && (forall id :: id in s.profiles ==>
          && (id == DIRECT || HasRule(setup, id))
          && id !in s.disabled
          && s.profiles[id].serial < s.made && s.profiles[id].serial !in s.stopped)
    && (forall id, jd :: id in s.profiles && jd in s.profiles && s.profiles[id].serial == s.profiles[jd].serial ==>
          id == jd)
    && (forall n :: n in s.stopped ==> n < s.made)
  }

  lemma SetKeeps(setup: Setup, s: State, id: string, g: nat)
    requires Named(setup.rules) && Invariant(setup, s)
    ensures Invariant(setup, Apply(setup, s, SetGateway(id, g)))
  {
  }

  lemma RemoveKeeps(setup: Setup, s: State, id: string)
    requires Invariant(setup, s) && id != DIRECT
    ensures Invariant(setup, Stop(s, id).(profiles := s.profiles - {id}))
  {
  }

  lemma ApplyKeeps(setup: Setup, s: State, op: Op)
    requires Named(setup.rules) && Invariant(setup, s)
    ensures Invariant(setup, Apply(setup, s, op))
  {
    match op
    case SetGateway(id, g) => SetKeeps(setup, s, id, g);
    case SetProfileEnabled(id, _) => if id != DIRECT { RemoveKeeps(setup, s, id); }
    case RemoveGateway(id) => if id != DIRECT { RemoveKeeps(setup, s, id); }
    case DetachGateway(id, _) => if id != DIRECT { RemoveKeeps(setup, s, id); }
    case Close =>
  }

  lemma {:induction false} RunKeeps(setup: Setup, s: State, ops: seq<Op>)
    requires Named(setup.rules) && Invariant(setup, s)
    ensures Invariant(setup, Run(setup, s, ops))
    decreases |ops|
  {
    hide Invariant, Apply;
    if ops != [] {
      ApplyKeeps(setup, s, ops[0]);
      RunKeeps(setup, Apply(setup, s, ops[0]), ops[1..]);
    }
  }

  /** In every run: until closing the original direct handler stays installed and running, and
      only it is ever under "direct"; a handler given to a flow is the installed, enabled,
      running one for the flow's profile; the direct handler is given only when the port is
      not 53 and no rule says anything about the flow. */
  lemma FailClosed(setup: Setup, ops: seq<Op>, f: Flow, h: Option<Handler>)
    requires ValidSetup(setup)
    requires Selects(setup, Run(setup, FRESH_ROUTER, ops), f, h)
    ensures var s := Run(setup, FRESH_ROUTER, ops);
      && (!s.closed ==> DIRECT in s.profiles && s.profiles[DIRECT] == DIRECT_HANDLER && 0 !in s.stopped)
      && (h.Some? ==> f.dst.Some? && !s.closed && h.value.serial !in s.stopped
                      && exists id ::
                           id in s.profiles && s.profiles[id] == h.value && id !in s.disabled && For(setup, f, id))
      && (h == Some(DIRECT_HANDLER) ==>
            f.port != 53 && forall i :: 0 <= i < |setup.rules| ==> Verdict(setup.rules[i], f.dst.value, f.uid).None?)
  {
    var s := Run(setup, FRESH_ROUTER, ops);
    FreshIsKept(setup);
    RunKeeps(setup, FRESH_ROUTER, ops);
    if h.Some? {
      var profile :| For(setup, f, profile) && h == Granted(s, profile);
      if h.value == DIRECT_HANDLER {
        assert profile == DIRECT;
        DirectMeansUnmatched(setup, f);
      }
    }
  }

  lemma DirectMeansUnmatched(setup: Setup, f: Flow)
    requires ValidSetup(setup) && f.dst.Some? && For(setup, f, DIRECT)
    ensures f.port != 53
    ensures forall i :: 0 <= i < |setup.rules| ==> Verdict(setup.rules[i], f.dst.value, f.uid).None?
  {
    if f.port != 53 {
      var why :| FirstMatch(setup.rules, f.dst.value, f.uid, Decision(DIRECT, why));
      DirectOnlyUnmatched(setup.rules, f.dst.value, f.uid, Decision(DIRECT, why));
    }
  }

  /** An owner that is unknown when a rule about applications is reached gets no handler. */
  lemma UnknownOwnerBlocked(setup: Setup, s: State, f: Flow, h: Option<Handler>, i: int)
    requires ValidSetup(setup) && f.dst.Some? && f.uid < 0 && f.port != 53
    requires ReachesApps(setup.rules, f.dst.value, f.uid, i)
    requires Selects(setup, s, f, h)
    ensures h == None
  {
    forall profile | For(setup, f, profile) ensures profile == NONE {
      var why :| FirstMatch(setup.rules, f.dst.value, f.uid, Decision(profile, why));
      DirectOnlyUnmatched(setup.rules, f.dst.value, f.uid, Decision(profile, why));
    }
  }

  /** Operations that do not themselves take gateway `g` of profile `id` away; detaching the
      profile for any other gateway is among them. */
  predicate Harmless(op: Op, id: string, g: nat) {
    match op
    case SetGateway(p, _) => p != id
    case SetProfileEnabled(p, enabled) => p != id || enabled
    case RemoveGateway(p) => p != id
    case DetachGateway(p, other) => p != id || other != g
    case Close => false
  }

  predicate AllHarmless(ops: seq<Op>, id: string, g: nat) {
    ops == [] || (Harmless(ops[0], id, g) && AllHarmless(ops[1..], id, g))
  }

  lemma HandlerKept(setup: Setup, s: State, op: Op, id: string, g: nat)
    requires Named(setup.rules) && Invariant(setup, s) && !s.closed && id in s.profiles && s.profiles[id].gateway == g
    requires Harmless(op, id, g)
    ensures var n := Apply(setup, s, op);
      !n.closed && id in n.profiles && n.profiles[id] == s.profiles[id]
  {
    hide Invariant, HasRule;
  }

  lemma {:induction false} HandlerStays(setup: Setup, s: State, ops: seq<Op>, id: string, g: nat)
    requires Named(setup.rules) && Invariant(setup, s) && !s.closed && id in s.profiles && s.profiles[id].gateway == g
    requires AllHarmless(ops, id, g)
    ensures var n := Run(setup, s, ops);
      Invariant(setup, n) && !n.closed && id in n.profiles && n.profiles[id] == s.profiles[id]
    decreases |ops|
  {
    hide Invariant, Apply, Harmless;
    if ops != [] {
      HandlerKept(setup, s, ops[0], id, g);
      ApplyKeeps(setup, s, ops[0]);
      HandlerStays(setup, Apply(setup, s, ops[0]), ops[1..], id, g);
    }
  }

  /** A shutdown callback from a replaced gateway removes nothing, whenever it comes: after any
      run, a gateway that is installed keeps its very handler, running and granted to flows,
      through any number of detachments for other gateways and anything done to other profiles. */
  lemma StaleDetachIgnored(setup: Setup, before: seq<Op>, id: string, g: nat, after: seq<Op>)
    requires ValidSetup(setup) && AllHarmless(after, id, g)
    requires var s := Run(setup, FRESH_ROUTER, before); !s.closed && id !in s.disabled && HasRule(setup, id)
    ensures var s := Run(setup, FRESH_ROUTER, before);
      var n := Run(setup, Apply(setup, s, SetGateway(id, g)), after);
      && id in n.profiles && n.profiles[id] == Handler(s.made, g) && s.made !in n.stopped
      && Granted(n, id) == Some(Handler(s.made, g))
  {
    FreshIsKept(setup);
    RunKeeps(setup, FRESH_ROUTER, before);
    var s := Run(setup, FRESH_ROUTER, before);
    ApplyKeeps(setup, s, SetGateway(id, g));
    HandlerStays(setup, Apply(setup, s, SetGateway(id, g)), after, id, g);
  }

  // ---------------------------------------------------------------- what operations take away

  /** Every handler ever made is installed or has been stopped. */
  predicate Accounted(s: State) { forall n: nat :: n < s.made ==> n in s.stopped || n in Serials(s.profiles) }

  lemma SerialsInstall(m: map<string, Handler>, id: string, h: Handler)
    ensures Serials(m[id := h]) == Serials(m - {id}) + {h.serial}
  {
    var next := m[id := h];
    assert next - {id} == m - {id} && next[id] == h;
    SerialsRemove(next, id);
  }

  lemma ApplyAccounts(setup: Setup, s: State, op: Op)
    requires Accounted(s)
    ensures Accounted(Apply(setup, s, op))
  {
    if op.SetGateway? { SerialsInstall(s.profiles, op.id, Handler(s.made, op.gateway)); }
    if !op.Close? {
      if op.id in s.profiles { SerialsRemove(s.profiles, op.id); } else { assert s.profiles - {op.id} == s.profiles; }
    }
    hide Serials, HasRule;
  }

  lemma {:induction false} RunAccounts(setup: Setup, s: State, ops: seq<Op>)
    requires Accounted(s)
    ensures Accounted(Run(setup, s, ops))
    decreases |ops|
  {
    hide Accounted, Apply;
    if ops != [] {
      ApplyAccounts(setup, s, ops[0]);
      RunAccounts(setup, Apply(setup, s, ops[0]), ops[1..]);
    }
  }

  lemma FreshIsKept(setup: Setup)
    ensures Invariant(setup, FRESH_ROUTER) && Accounted(FRESH_ROUTER)
  {
    assert FRESH_ROUTER.profiles[DIRECT].serial == 0;
  }

  /** Every handler ever made is installed or has been stopped, and not both: none is replaced,
      disabled, removed, detached or closed without being stopped. */
  lemma NoHandlerLeaks(setup: Setup, ops: seq<Op>, n: nat)
    requires ValidSetup(setup) && n < Run(setup, FRESH_ROUTER, ops).made
    ensures var s := Run(setup, FRESH_ROUTER, ops); n in s.stopped <==> n !in Serials(s.profiles)
  {
    FreshIsKept(setup);
    RunKeeps(setup, FRESH_ROUTER, ops);
    RunAccounts(setup, FRESH_ROUTER, ops);
    hide Run;
  }

  /** The last word of the operations on whether a profile is disabled. */
  predicate Barred(ops: seq<Op>, id: string) {
    ops != [] &&
    var op := ops[|ops| - 1];
    if op.SetProfileEnabled? && op.id == id then !op.enabled else Barred(ops[..|ops| - 1], id)
  }

  lemma {:induction false} RunSnoc(setup: Setup, s: State, ops: seq<Op>, op: Op)
    ensures Run(setup, s, ops + [op]) == Apply(setup, Run(setup, s, ops), op)
    decreases |ops|
  {
    hide Apply;
    if ops == [] {
      assert (ops + [op])[1..] == [];
    } else {
      RunSnoc(setup, Apply(setup, s, ops[0]), ops[1..], op);
      assert (ops + [op])[1..] == ops[1..] + [op];
    }
  }

  lemma {:induction false} BarredIsDisabled(setup: Setup, ops: seq<Op>, id: string)
    requires id != DIRECT
    ensures var s := Run(setup, FRESH_ROUTER, ops);
      (s.closed <==> Close in ops) && (!s.closed ==> (id in s.disabled <==> Barred(ops, id)))
  {
    if ops != [] {
      var n := |ops| - 1;
      BarredIsDisabled(setup, ops[..n], id);
      RunSnoc(setup, FRESH_ROUTER, ops[..n], ops[n]);
      assert ops == ops[..n] + [ops[n]];
      hide Run, HasRule, Serials;
    }
  }

  /** The gateway a profile has been given last and not lost since, by the operations alone. */
  ghost function Gateway(setup: Setup, ops: seq<Op>, id: string): Option<nat> {
    if ops == [] then None
    else
      var before, op := ops[..|ops| - 1], ops[|ops| - 1];
      match op
      case Close => None
      case RemoveGateway(p) => if p == id then None else Gateway(setup, before, id)
      case SetProfileEnabled(p, enabled) => if p == id && !enabled then None else Gateway(setup, before, id)
      case DetachGateway(p, g) =>
        if p == id && Gateway(setup, before, id) == Some(g) then None else Gateway(setup, before, id)
      case SetGateway(p, g) =>
        if p == id && HasRule(setup, id) && Close !in before && !Barred(before, id) then Some(g)
        else Gateway(setup, before, id)
  }

  function GatewayIn(s: State, id: string): Option<nat> {
    if id in s.profiles then Some(s.profiles[id].gateway) else None
  }

  /** How one operation changes the gateway in a profile's place. */
  lemma GatewayStep(setup: Setup, s: State, op: Op, id: string)
    requires id != DIRECT && (s.closed ==> s.profiles == map[])
    ensures GatewayIn(Apply(setup, s, op), id) ==
      match op
      case Close => None
      case RemoveGateway(p) => if p == id then None else GatewayIn(s, id)
      case SetProfileEnabled(p, enabled) => if p == id && !enabled then None else GatewayIn(s, id)
      case DetachGateway(p, g) => if p == id && GatewayIn(s, id) == Some(g) then None else GatewayIn(s, id)
      case SetGateway(p, g) =>
        if p == id && HasRule(setup, id) && !s.closed && id !in s.disabled then Some(g) else GatewayIn(s, id)
  {
    hide HasRule, Serials;
  }

  lemma {:induction false} TableIsHistory(setup: Setup, ops: seq<Op>, id: string)
    requires ValidSetup(setup) && id != DIRECT
    ensures GatewayIn(Run(setup, FRESH_ROUTER, ops), id) == Gateway(setup, ops, id)
  {
    if ops != [] {
      var n := |ops| - 1;
      var s := Run(setup, FRESH_ROUTER, ops[..n]);
      TableIsHistory(setup, ops[..n], id);
      BarredIsDisabled(setup, ops[..n], id);
      RunSnoc(setup, FRESH_ROUTER, ops[..n], ops[n]);
      assert ops == ops[..n] + [ops[n]];
      FreshIsKept(setup);
      RunKeeps(setup, FRESH_ROUTER, ops[..n]);
      assert s.closed ==> s.profiles == map[];
      hide Run, HasRule, ValidSetup, Apply, Invariant, GatewayIn, Barred;
      GatewayStep(setup, s, ops[n], id);
    }
  }

  /** After any operations a profile's flows get a handler exactly when the operations have given it
      a gateway and not taken it away, and then one that runs and forwards to that gateway. */
  lemma GrantedByHistory(setup: Setup, ops: seq<Op>, id: string)
    requires ValidSetup(setup) && id != DIRECT
    ensures var h := Granted(Run(setup, FRESH_ROUTER, ops), id);
      Gateway(setup, ops, id) == if h.Some? then Some(h.value.gateway) else None
  {
    TableIsHistory(setup, ops, id);
    FreshIsKept(setup);
    RunKeeps(setup, FRESH_ROUTER, ops);
    hide Run, Gateway;
  }

  predicate NeverEnables(ops: seq<Op>, id: string) { SetProfileEnabled(id, true) !in ops }

  lemma {:induction false} StaysBarred(setup: Setup, before: seq<Op>, after: seq<Op>, id: string)
    requires NeverEnables(after, id)
    ensures var ops := before + [SetProfileEnabled(id, false)] + after;
      Barred(ops, id) && Gateway(setup, ops, id) == None
    decreases |after|
  {
    var cut := before + [SetProfileEnabled(id, false)];
    if after == [] {
      assert cut + after == cut && cut[..|before|] == before;
    } else {
      var n := |after| - 1;
      StaysBarred(setup, before, after[..n], id);
      assert (cut + after)[..|cut| + n] == cut + after[..n] && (cut + after)[|cut| + n] == after[n];
      hide HasRule;
    }
  }

  /** Once a profile is disabled, no flow for it gets a handler until it is enabled again, whatever
      else is done, gateways set for it included; and the handler it had is stopped. */
  lemma DisabledGetsNothing(setup: Setup, before: seq<Op>, id: string, after: seq<Op>, f: Flow, h: Option<Handler>)
    requires ValidSetup(setup) && id != DIRECT && NeverEnables(after, id) && f.dst.Some? && For(setup, f, id)
    requires Selects(setup, Run(setup, FRESH_ROUTER, before + [SetProfileEnabled(id, false)] + after), f, h)
    ensures h == None
  {
    var ops := before + [SetProfileEnabled(id, false)] + after;
    StaysBarred(setup, before, after, id);
    GrantedByHistory(setup, ops, id);
    hide Run, Granted, Gateway, Barred;
    SelectedIsGranted(setup, Run(setup, FRESH_ROUTER, ops), f, id, h);
  }

  lemma SelectedIsGranted(setup: Setup, s: State, f: Flow, id: string, h: Option<Handler>)
    requires Usable(setup.rules) && f.dst.Some? && For(setup, f, id) && Selects(setup, s, f, h)
    ensures h == Granted(s, id)
  {
    SelectionDetermined(setup, s, f, h);
    if f.port != 53 {
      var why :| FirstMatch(setup.rules, f.dst.value, f.uid, Decision(id, why));
      FirstMatchIs(setup.rules, f.dst.value, f.uid, Decision(id, why));
    }
    hide FirstMatch, Granted, Selects;
  }

  /** Enabling lets a profile in again: on an open router a gateway set after it is installed, and the
      profile's flows get a running handler that forwards to it. */
  lemma EnabledInstallsAgain(setup: Setup, before: seq<Op>, id: string, g: nat)
    requires ValidSetup(setup) && id != DIRECT && HasRule(setup, id) && Close !in before
    ensures var ops := before + [SetProfileEnabled(id, true)] + [SetGateway(id, g)];
      var h := Granted(Run(setup, FRESH_ROUTER, ops), id);
      h.Some? && h.value.gateway == g
  {
    var mid := before + [SetProfileEnabled(id, true)];
    var ops := mid + [SetGateway(id, g)];
    assert mid[..|before|] == before && ops[..|mid|] == mid;
    assert !Barred(mid, id) && Close !in mid;
    GrantedByHistory(setup, ops, id);
    hide Run, Granted, HasRule;
  }

  /** After closing no flow gets anything, whatever is done later. */
  lemma ClosedGetsNothing(setup: Setup, ops: seq<Op>, f: Flow, h: Option<Handler>)
    requires ValidSetup(setup) && Close in ops && Selects(setup, Run(setup, FRESH_ROUTER, ops), f, h)
    ensures h == None
  {
    BarredIsDisabled(setup, ops, NONE);
    SelectionDetermined(setup, Run(setup, FRESH_ROUTER, ops), f, h);
    hide Run, Selects;
  }

  /** The profile of a flow, by the scan of the rules. */
  ghost function ProfileOf(setup: Setup, f: Flow): string
    requires Usable(setup.rules) && f.dst.Some?
  {
    if f.port == 53 then setup.dns else Decide(setup.rules, f.dst.value, f.uid).profile
  }

  /** Rules and table leave exactly one answer for a flow. */
  lemma SelectionDetermined(setup: Setup, s: State, f: Flow, h: Option<Handler>)
    requires Usable(setup.rules)
    ensures Selects(setup, s, f, h) <==> h == if f.dst.None? then None else Granted(s, ProfileOf(setup, f))
  {
    if f.dst.Some? && f.port != 53 {
      var d := Decide(setup.rules, f.dst.value, f.uid);
      hide FirstMatch, Decide, Granted;
      forall e: Decision ensures FirstMatch(setup.rules, f.dst.value, f.uid, e) <==> e == d {
        FirstMatchIs(setup.rules, f.dst.value, f.uid, e);
      }
      assert FirstMatch(setup.rules, f.dst.value, f.uid, Decision(d.profile, d.why));
      assert For(setup, f, d.profile);
    } else if f.dst.Some? {
      assert For(setup, f, setup.dns);
    }
  }

  // ---------------------------------------------------------------- the router object

  class MultiRouter {
    const setup: Setup
    var profiles: map<string, Handler>
    var disabled: set<string>
    var closed: bool
    var stopped: set<nat>
    var made: nat

    constructor (rules: seq<Rule>, dns: string)
      ensures setup == Setup(rules, dns) && View() == FRESH_ROUTER
    {
      setup := Setup(rules, dns);
      profiles, disabled, closed := map[DIRECT := DIRECT_HANDLER], {}, false;
      stopped, made := {}, 1;
    }

    function View(): State reads this { State(profiles, disabled, closed, stopped, made) }

    method Knows(id: string) returns (found: bool)
      ensures found <==> HasRule(setup, id)
    {
      found := false;
      var i := 0;
      while i < |setup.rules|
        invariant 0 <= i <= |setup.rules|
        invariant found <==> exists j :: 0 <= j < i && setup.rules[j].id == id
      {
        if setup.rules[i].id == id { found := true; }
        i := i + 1;
      }
    }

    method StopHandler(h: Handler)
      modifies this`stopped
      ensures stopped == old(stopped) + {h.serial}
    {
      stopped := stopped + {h.serial};
    }

    method SetGateway(id: string, gateway: nat) returns (ok: bool)
      modifies this`profiles, this`stopped, this`made
      ensures View() == Apply(setup, old(View()), Op.SetGateway(id, gateway))
      ensures ok <==> !closed && id !in disabled && HasRule(setup, id)
    {
      if closed || id in disabled { return false; }
      var found := Knows(id);
      if !found { return false; }
      var before := profiles;
      profiles := profiles[id := Handler(made, gateway)];
      made := made + 1;
      if id in before { StopHandler(before[id]); }
      return true;
    }

    method SetProfileEnabled(id: string, enabled: bool)
      modifies this`profiles, this`disabled, this`stopped
      ensures View() == Apply(setup, old(View()), Op.SetProfileEnabled(id, enabled))
    {
      if id == DIRECT || closed { return; }
      if enabled {
        disabled := disabled - {id};
      } else {
        disabled := disabled + {id};
        var before := profiles;
        profiles := profiles - {id};
        if id in before { StopHandler(before[id]); }
      }
    }

    method RemoveGateway(id: string)
      modifies this`profiles, this`stopped
      ensures View() == Apply(setup, old(View()), Op.RemoveGateway(id))
    {
      if id == DIRECT { return; }
      var before := profiles;
      profiles := profiles - {id};
      if id in before { StopHandler(before[id]); }
    }

    method DetachGateway(id: string, gateway: nat)
      modifies this`profiles, this`stopped
      ensures View() == Apply(setup, old(View()), Op.DetachGateway(id, gateway))
    {
      if id == DIRECT || id !in profiles || profiles[id].gateway != gateway { return; }
      RemoveGateway(id);
    }

    method StopAll(handlers: map<string, Handler>)
      modifies this`stopped
      ensures stopped == old(stopped) + Serials(handlers)
    {
      var left := handlers;
      while left != map[]
        invariant stopped + Serials(left) == old(stopped) + Serials(handlers)
        decreases |left.Keys|
      {
        var id :| id in left;
        StopHandler(left[id]);
        SerialsRemove(left, id);
        assert (left - {id}).Keys == left.Keys - {id};
        left := left - {id};
      }
      assert Serials(left) == {};
    }

    method Close()
      modifies this`profiles, this`closed, this`stopped
      ensures View() == Apply(setup, old(View()), Op.Close)
    {
      if closed { return; }
      closed := true;
      var before := profiles;
      profiles := map[];
      StopAll(before);
    }

    /** The handler for a new flow, or none: never another profile's, never direct instead. */
    method SelectFlow(f: Flow) returns (h: Option<Handler>)
      requires Usable(setup.rules)
      ensures Selects(setup, View(), f, h)
    {
      if f.dst.None? { return None; }
      var d := Choose(setup.rules, f.dst.value, f.uid);
      var profile := d.profile;
      if f.port == 53 { profile := setup.dns; }
      assert For(setup, f, profile) by {
        if f.port != 53 { assert d == Decision(profile, d.why); }
      }
      var usable := !closed && profile !in disabled && profile in profiles && profiles[profile].serial !in stopped;
      if !usable || profile == NONE { return None; }
      return Some(profiles[profile]);
    }
  }

  /** A router is made exactly from a valid rule list that names the DNS profile, and what
      validation kept is what the run properties ask for. */
  method NewMultiRouter(raw: seq<RawRule>, dns: string, bypass: bool) returns (m: MultiRouter?)
    ensures m != null <==> Valid(raw) && bypass && exists i :: 0 <= i < |raw| && raw[i].id == dns
    ensures m != null ==> fresh(m) && ValidSetup(m.setup) && m.setup.dns == dns && m.View() == FRESH_ROUTER
  {
    var policy := Parse(raw);
    if policy.None? { return null; }
    var rules := policy.value;
    var found := false;
    var i := 0;
    while i < |rules|
      invariant 0 <= i <= |rules|
      invariant found <==> exists j :: 0 <= j < i && raw[j].id == dns
    {
      assert rules[i] == Kept(raw[i]);
      if rules[i].id == dns { found := true; }
      i := i + 1;
    }
    if !found || !bypass { return null; }
    m := new MultiRouter(rules, dns);
    assert HasRule(m.setup, dns) by {
      var j :| 0 <= j < |raw| && raw[j].id == dns;
      assert rules[j] == Kept(raw[j]);
    }
  }
}
