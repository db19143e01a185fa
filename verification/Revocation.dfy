/** Live sessions of the store's users. Each lock-guarded section of the store is one step, and
    the close calls an edit makes after releasing the lock are steps of their own, so that runs
    cover every interleaving of registrations, edits, closes and unregistrations. */
module Revocation {
  import opened Bytes
  import opened Ipv4
  import opened Accounts

  /** A registered session: whose it is and the protocol it was registered under, if any. */
  datatype Session = Session(owner: nat, protocol: Option<Protocol>)

  /** `history` holds every session ever registered, `gone` those that unregistered, `closed`
      those whose close was called, `pending` the closes an unfinished edit still has to call. */
  datatype World = World(data: Data, active: map<nat, set<nat>>, protocols: map<nat, Protocol>,
                         history: map<nat, Session>, gone: set<nat>, closed: set<nat>, pending: map<nat, set<nat>>)

  datatype Event =
    | Edit(op: nat, edit: Accounts.Edit, saved: bool)
    | Register(token: nat, shown: Certificate, protocol: Option<Protocol>, now: int)
    | Unregister(token: nat)
    | CloseOne(op: nat, token: nat)
    | Return(op: nat)

  function ActiveOf(active: map<nat, set<nat>>, id: nat): set<nat> {
    if id in active then active[id] else {}
  }

  /** May this session stay: the user exists, is enabled and still has the protocol. */
  predicate Permitted(users: Users, s: Session) {
    && s.owner in users && !users[s.owner].disabled
    && (s.protocol.Some? ==> Allows(users[s.owner].protocols, s.protocol.value))
  }

  /** Whether a session of a user survives a new selection; one registered without a protocol
      never does. */
  predicate Spared(protocols: map<nat, Protocol>, token: nat, u: User) {
    !u.disabled && token in protocols && Allows(u.protocols, protocols[token])
  }

  /** The sessions an edit that has just been saved must close. */
  function ToClose(active: map<nat, set<nat>>, protocols: map<nat, Protocol>, e: Accounts.Edit,
          users: Users): set<nat> {
    match e
    case Delete(id) => ActiveOf(active, id)
    case SetProtocols(id, _, _, _, _) =>
      set t | t in ActiveOf(active, id) && id in users && !Spared(protocols, t, users[id])
    case Create(_, _, _, _, _, _, _, _) => {}
    case Rename(_, _) => {}
    case Touch(_, _) => {}
  }

  predicate Revokes(e: Accounts.Edit) { e.Delete? || e.SetProtocols? }

  function DoEdit(server: Option<Prefix>, w: World, op: nat, e: Accounts.Edit, saved: bool): World
    requires Configured(server)
  {
    var data := Apply(server, w.data, e, saved);
    if Succeeds(server, w.data, e, saved) && Revokes(e) then
      w.(data := data,
         active := if e.Delete? then w.active - {e.id} else w.active,
         pending := w.pending[op := ToClose(w.active, w.protocols, e, data.users)])
    else w.(data := data)
  }

  /** The check made under the lock when a session registers with the verified certificate that
      the peer has shown: it must be the very one kept for the user it names. */
  predicate Admits(users: Users, shown: Certificate, protocol: Option<Protocol>, now: int) {
    && Permitted(users, Session(shown.subject, protocol))
    && now <= users[shown.subject].expires && users[shown.subject].identity.certificate == shown
  }

  function With(active: map<nat, set<nat>>, id: nat, token: nat): map<nat, set<nat>> {
    active[id := ActiveOf(active, id) + {token}]
  }

  function Noted(protocols: map<nat, Protocol>, token: nat, p: Option<Protocol>): map<nat, Protocol> {
    if p.Some? then protocols[token := p.value] else protocols
  }

  function Without(active: map<nat, set<nat>>, id: nat, token: nat): map<nat, set<nat>> {
    var left := ActiveOf(active, id) - {token};
    if left == {} then active - {id} else active[id := left]
  }

  function DoRegister(w: World, token: nat, shown: Certificate, protocol: Option<Protocol>, now: int): World {
    if !Admits(w.data.users, shown, protocol, now) then w
    else Listed(w, token, Session(shown.subject, protocol))
  }

  function Listed(w: World, token: nat, s: Session): World {
    w.(active := With(w.active, s.owner, token),
       protocols := Noted(w.protocols, token, s.protocol),
       history := w.history[token := s])
  }

  function DoUnregister(w: World, token: nat): World
    requires token in w.history
  {
    w.(active := Without(w.active, w.history[token].owner, token),
       protocols := w.protocols - {token},
       gone := w.gone + {token})
  }

  predicate Legal(w: World, e: Event) {
    match e
    case Edit(op, edit, _) => op !in w.pending && FreshFor(w.data.users, edit)
    case Register(token, _, _, _) => token !in w.history
    case Unregister(token) => token in w.history
    case CloseOne(op, token) => op in w.pending && token in w.pending[op]
    case Return(op) => op in w.pending && w.pending[op] == {}
  }

  function Next(server: Option<Prefix>, w: World, e: Event): World
    requires Configured(server) && Legal(w, e)
  {
    match e
    case Edit(op, edit, saved) => DoEdit(server, w, op, edit, saved)
    case Register(token, shown, protocol, now) => DoRegister(w, token, shown, protocol, now)
    case Unregister(token) => DoUnregister(w, token)
    case CloseOne(op, token) => w.(closed := w.closed + {token}, pending := w.pending[op := w.pending[op] - {token}])
    case Return(op) => w.(pending := w.pending - {op})
  }

  predicate LegalRun(server: Option<Prefix>, w: World, es: seq<Event>)
    requires Configured(server)
    decreases |es|
  {
    es == [] || (Legal(w, es[0]) && LegalRun(server, Next(server, w, es[0]), es[1..]))
  }

  function Run(server: Option<Prefix>, w: World, es: seq<Event>): World
    requires Configured(server) && LegalRun(server, w, es)
    decreases |es|
  {
    if es == [] then w else Run(server, Next(server, w, es[0]), es[1..])
  }

  // ---------------------------------------------------------------- no session is forgotten

  predicate InFlight(pending: map<nat, set<nat>>, t: nat) { exists op :: op in pending && t in pending[op] }

  /** The tables agree with what was registered. */
  predicate Recorded(w: World) {
    && (forall id, t :: id in w.active && t in w.active[id] ==>
          t in w.history && w.history[t].owner == id && t !in w.gone)
    && (forall t :: t in w.history && t !in w.gone ==>
          (w.history[t].protocol.Some? <==> t in w.protocols)
          && (t in w.protocols ==> w.history[t].protocol == Some(w.protocols[t])))
    && w.protocols.Keys <= w.history.Keys && w.gone <= w.history.Keys
  }

  /** A session is finished with, about to be closed, or listed and permitted. */
  predicate Settled(w: World, t: nat)
    requires t in w.history
  {
    || t in w.gone || t in w.closed || InFlight(w.pending, t)
    || (t in ActiveOf(w.active, w.history[t].owner) && Permitted(w.data.users, w.history[t]))
  }

  predicate Invariant(w: World) {
    Recorded(w) && forall t :: t in w.history ==> Settled(w, t)
  }

  lemma FlightKept(pending: map<nat, set<nat>>, op: nat, s: set<nat>, t: nat)
    requires op !in pending && InFlight(pending, t)
    ensures InFlight(pending[op := s], t)
  {
    var o :| o in pending && t in pending[o];
    assert o in pending[op := s] && t in pending[op := s][o];
  }

  /** Other users' entries do not change, so only the edited user's sessions can be revoked. */
  lemma OthersKept(server: Option<Prefix>, users: Users, e: Accounts.Edit, id: nat)
    requires Configured(server) && FreshFor(users, e) && Edited(server, users, e).Some? && id in users
    requires !Revokes(e) || e.id != id
    ensures var n := Edited(server, users, e).value;
      id in n && n[id].disabled == users[id].disabled && n[id].protocols == users[id].protocols
  {
    hide Provision, NameFree, Configured;
  }

  lemma EditSettles(server: Option<Prefix>, w: World, op: nat, e: Accounts.Edit, saved: bool, t: nat)
    requires Configured(server) && Invariant(w) && Legal(w, Event.Edit(op, e, saved)) && t in w.history
    ensures Settled(DoEdit(server, w, op, e, saved), t)
  {
    var n, s := DoEdit(server, w, op, e, saved), w.history[t];
    assert Settled(w, t);
    if t in w.gone || t in w.closed {
    } else if InFlight(w.pending, t) {
      FlightKept(w.pending, op, ToClose(w.active, w.protocols, e, n.data.users), t);
    } else if Succeeds(server, w.data, e, saved) && Revokes(e) && e.id == s.owner {
      assert n.pending == w.pending[op := ToClose(w.active, w.protocols, e, n.data.users)];
      assert t !in ToClose(w.active, w.protocols, e, n.data.users) ==> Permitted(n.data.users, s) by {
        hide Provision, Apply;
      }
      if t in ToClose(w.active, w.protocols, e, n.data.users) {
        assert op in n.pending && t in n.pending[op];
      }
    } else if Edited(server, w.data.users, e).Some? {
      hide Edited, ToClose;
      OthersKeptIf(server, w, e, saved, s);
    }
  }

  lemma OthersKeptIf(server: Option<Prefix>, w: World, e: Accounts.Edit, saved: bool, s: Session)
    requires Configured(server) && FreshFor(w.data.users, e) && Edited(server, w.data.users, e).Some?
    requires Permitted(w.data.users, s) && !(saved && Revokes(e) && e.id == s.owner)
    ensures Permitted(Apply(server, w.data, e, saved).users, s)
  {
    if !Revokes(e) || e.id != s.owner { OthersKept(server, w.data.users, e, s.owner); }
    hide Edited, FreshFor;
  }

  lemma EditKeeps(server: Option<Prefix>, w: World, op: nat, e: Accounts.Edit, saved: bool)
    requires Configured(server) && Invariant(w) && Legal(w, Event.Edit(op, e, saved))
    ensures Invariant(DoEdit(server, w, op, e, saved))
  {
    var n := DoEdit(server, w, op, e, saved);
    EditRecords(server, w, op, e, saved);
    assert n.history == w.history;
    hide DoEdit, Settled, Recorded, Legal, Configured;
    forall t | t in n.history ensures Settled(n, t) {
      EditSettles(server, w, op, e, saved, t);
    }
  }

  lemma EditRecords(server: Option<Prefix>, w: World, op: nat, e: Accounts.Edit, saved: bool)
    requires Configured(server) && Recorded(w)
    ensures Recorded(DoEdit(server, w, op, e, saved))
  {
    hide Apply, ToClose, Succeeds, Configured;
  }

  lemma NextKeeps(server: Option<Prefix>, w: World, e: Event)
    requires Configured(server) && Invariant(w) && Legal(w, e)
    ensures Invariant(Next(server, w, e))
  {
    hide Invariant, Configured, DoEdit, DoUnregister, Listed;
    match e
    case Edit(op, edit, saved) => EditKeeps(server, w, op, edit, saved);
    case Register(token, shown, protocol, now) =>
      if Admits(w.data.users, shown, protocol, now) { ListedKeeps(w, token, Session(shown.subject, protocol)); }
    case Unregister(token) => UnregisterKeeps(w, token);
    case CloseOne(op, token) => CloseKeeps(w, op, token);
    case Return(op) => ReturnKeeps(w, op);
  }

  lemma ListedRecords(w: World, token: nat, s: Session)
    requires Recorded(w) && token !in w.history
    ensures Recorded(Listed(w, token, s))
  {
    hide Permitted;
  }

  lemma ListedKeeps(w: World, token: nat, s: Session)
    requires Invariant(w) && token !in w.history && Permitted(w.data.users, s)
    ensures Invariant(Listed(w, token, s))
  {
    var n := Listed(w, token, s);
    assert Recorded(n) by { ListedRecords(w, token, s); }
    forall t | t in n.history ensures Settled(n, t) {
      if t != token { assert Settled(w, t); }
      hide Recorded, Allows;
    }
    hide Recorded, Settled;
  }

  lemma UnregisterKeeps(w: World, token: nat)
    requires Invariant(w) && token in w.history
    ensures Invariant(DoUnregister(w, token))
  {
    var n := DoUnregister(w, token);
    forall t | t in n.history ensures Settled(n, t) { assert Settled(w, t); }
  }

  lemma CloseKeeps(w: World, op: nat, token: nat)
    requires Invariant(w) && op in w.pending && token in w.pending[op]
    ensures Invariant(w.(closed := w.closed + {token}, pending := w.pending[op := w.pending[op] - {token}]))
  {
    var n := w.(closed := w.closed + {token}, pending := w.pending[op := w.pending[op] - {token}]);
    forall t | t in n.history ensures Settled(n, t) {
      assert Settled(w, t);
      if InFlight(w.pending, t) && t != token {
        var o :| o in w.pending && t in w.pending[o];
        assert o in n.pending && t in n.pending[o];
      }
    }
  }

  lemma ReturnKeeps(w: World, op: nat)
    requires Invariant(w) && op in w.pending && w.pending[op] == {}
    ensures Invariant(w.(pending := w.pending - {op}))
  {
    var n := w.(pending := w.pending - {op});
    forall t | t in n.history ensures Settled(n, t) {
      assert Settled(w, t);
      if InFlight(w.pending, t) {
        var o :| o in w.pending && t in w.pending[o];
        assert o in n.pending && t in n.pending[o];
      }
    }
  }

  lemma {:induction false} RunKeeps(server: Option<Prefix>, w: World, es: seq<Event>)
    requires Configured(server) && Invariant(w) && LegalRun(server, w, es)
    ensures Invariant(Run(server, w, es))
    decreases |es|
  {
    if es != [] {
      NextKeeps(server, w, es[0]);
      hide Invariant, Next, Legal, Configured;
      RunKeeps(server, Next(server, w, es[0]), es[1..]);
    }
  }

  /** A store just opened: users from disk, no sessions, no edit under way. */
  function Opened(d: Data): World { World(d, map[], map[], map[], {}, {}, map[]) }

  lemma OpenedIsSettled(d: Data)
    ensures Invariant(Opened(d))
  {
  }

  /** At any moment of any run of a store that was opened, a session that its user may no
      longer have is unregistered, closed, or about to be closed by an edit that has not
      returned; once no edit is under way, nothing revoked is left open. */
  lemma RevokedIsClosed(server: Option<Prefix>, d: Data, es: seq<Event>, t: nat)
    requires Configured(server) && LegalRun(server, Opened(d), es)
    requires var n := Run(server, Opened(d), es);
      t in n.history && t !in n.gone && !Permitted(n.data.users, n.history[t])
    ensures var n := Run(server, Opened(d), es); t in n.closed || InFlight(n.pending, t)
    ensures var n := Run(server, Opened(d), es); n.pending == map[] ==> t in n.closed
  {
    OpenedIsSettled(d);
    RunKeeps(server, Opened(d), es);
    assert Settled(Run(server, Opened(d), es), t);
  }

  // ---------------------------------------------------------------- an edit that returned

  /** While an edit is under way each of its sessions is closed or still on its list. */
  predicate Owes(w: World, op: nat, s: set<nat>) {
    op in w.pending && s <= w.closed + w.pending[op]
  }

  lemma OwesKept(server: Option<Prefix>, w: World, op: nat, s: set<nat>, e: Event)
    requires Configured(server) && Legal(w, e) && Owes(w, op, s) && e != Return(op)
    ensures Owes(Next(server, w, e), op, s)
  {
    hide Apply, ToClose, Succeeds, Configured;
  }

  predicate NotYet(es: seq<Event>, op: nat) {
    es == [] || (es[0] != Return(op) && NotYet(es[1..], op))
  }

  lemma {:induction false} OwesUntilReturn(server: Option<Prefix>, w: World, op: nat, s: set<nat>, es: seq<Event>)
    requires Configured(server) && LegalRun(server, w, es) && Owes(w, op, s) && NotYet(es, op)
    ensures Owes(Run(server, w, es), op, s)
    decreases |es|
  {
    if es != [] {
      OwesKept(server, w, op, s, es[0]);
      hide Owes, Next, Legal, Configured;
      OwesUntilReturn(server, Next(server, w, es[0]), op, s, es[1..]);
    }
  }

  /** When a successful delete or change of protocols returns, whatever ran before and in
      between, every session of the user that was listed when it took effect and is not
      permitted by it has been closed. */
  lemma ReturnedEditHasClosed(server: Option<Prefix>, d: Data, before: seq<Event>, op: nat, e: Accounts.Edit,
                              between: seq<Event>, t: nat)
    requires Configured(server) && Revokes(e) && LegalRun(server, Opened(d), before)
    requires var w := Run(server, Opened(d), before);
      && Legal(w, Event.Edit(op, e, true)) && Succeeds(server, w.data, e, true)
      && t in ActiveOf(w.active, e.id) && t in w.history
    requires var w := Run(server, Opened(d), before);
      var n := Next(server, w, Event.Edit(op, e, true));
      && LegalRun(server, n, between) && NotYet(between, op) && Legal(Run(server, n, between), Return(op))
      && !Permitted(n.data.users, w.history[t])
    ensures var w := Run(server, Opened(d), before);
      t in Run(server, Next(server, w, Event.Edit(op, e, true)), between).closed
  {
    hide *;
    OpenedIsSettled(d);
    RunKeeps(server, Opened(d), before);
    var w := Run(server, Opened(d), before);
    var n := Next(server, w, Event.Edit(op, e, true));
    ListedOnEdit(server, w, op, e, t);
    OwesUntilReturn(server, n, op, n.pending[op], between);
    OwesAtReturn(Run(server, n, between), op, n.pending[op]);
  }

  lemma ListedOnEdit(server: Option<Prefix>, w: World, op: nat, e: Accounts.Edit, t: nat)
    requires Configured(server) && Invariant(w) && Legal(w, Event.Edit(op, e, true))
    requires Revokes(e) && Succeeds(server, w.data, e, true) && t in ActiveOf(w.active, e.id) && t in w.history
    requires !Permitted(Next(server, w, Event.Edit(op, e, true)).data.users, w.history[t])
    ensures var n := Next(server, w, Event.Edit(op, e, true));
      op in n.pending && t in n.pending[op] && Owes(n, op, n.pending[op])
  {
    assert Recorded(w) && w.history[t].owner == e.id;
    hide Recorded, Invariant, DoEdit, Configured, Permitted, Succeeds;
    RevokedIsListed(server, w, op, e, t);
  }

  lemma OwesAtReturn(w: World, op: nat, s: set<nat>)
    requires Owes(w, op, s) && Legal(w, Return(op))
    ensures s <= w.closed
  {
  }

  lemma RevokedIsListed(server: Option<Prefix>, w: World, op: nat, e: Accounts.Edit, t: nat)
    requires Configured(server) && Recorded(w) && Revokes(e) && Succeeds(server, w.data, e, true)
    requires t in ActiveOf(w.active, e.id) && t in w.history && w.history[t].owner == e.id
    requires !Permitted(DoEdit(server, w, op, e, true).data.users, w.history[t])
    ensures op in DoEdit(server, w, op, e, true).pending && t in DoEdit(server, w, op, e, true).pending[op]
  {
    hide Provision, Configured;
  }

  // ---------------------------------------------------------------- in the words of the edit

  /** The edit takes the user's sessions under this protocol away: the user is deleted or disabled,
      or the protocol is not in the new selection. */
  predicate Forbids(e: Accounts.Edit, id: nat, protocol: Option<Protocol>) {
    match e
    case Delete(k) => k == id
    case SetProtocols(k, selection, disabled, _, _) =>
      k == id && (disabled || (protocol.Some? && protocol.value !in selection))
    case _ => false
  }

  /** Exactly the sessions an edit sets out to close, by its own arguments: on a deletion all that
      are listed for the user, on a change of protocols those listed under a protocol it leaves out,
      or under none, or all if it disables the user; any other edit closes nothing, and neither does
      one that is refused or not saved. Only a deletion takes sessions off the list. */
  lemma EditCloses(server: Option<Prefix>, d: Data, es: seq<Event>, op: nat, e: Accounts.Edit, saved: bool, t: nat)
    requires Configured(server) && LegalRun(server, Opened(d), es)
    requires Legal(Run(server, Opened(d), es), Event.Edit(op, e, saved))
    ensures var w := Run(server, Opened(d), es);
      var n := Next(server, w, Event.Edit(op, e, saved));
      var done := saved && Edited(server, w.data.users, e).Some?;
      && n.closed == w.closed && n.history == w.history
      && (op in n.pending && t in n.pending[op] <==>
            && done && (e.Delete? || e.SetProtocols?) && t in ActiveOf(w.active, e.id) && t in w.history
            && (e.Delete? || w.history[t].protocol.None? || Forbids(e, e.id, w.history[t].protocol)))
      && forall id :: ActiveOf(n.active, id) == if done && e == Delete(id) then {} else ActiveOf(w.active, id)
  {
    OpenedIsSettled(d);
    RunKeeps(server, Opened(d), es);
    var w := Run(server, Opened(d), es);
    assert Recorded(w);
    hide Run, Settled, Invariant;
    EditPends(server, w, op, e, saved, t);
    EditLists(server, w, op, e, saved);
    hide Recorded, DoEdit;
  }

  lemma EditPends(server: Option<Prefix>, w: World, op: nat, e: Accounts.Edit, saved: bool, t: nat)
    requires Configured(server) && Recorded(w) && op !in w.pending
    ensures var n := DoEdit(server, w, op, e, saved);
      && n.closed == w.closed && n.history == w.history
      && (op in n.pending && t in n.pending[op] <==>
            && saved && Edited(server, w.data.users, e).Some?
            && (e.Delete? || e.SetProtocols?) && t in ActiveOf(w.active, e.id) && t in w.history
            && (e.Delete? || w.history[t].protocol.None? || Forbids(e, e.id, w.history[t].protocol)))
  {
    if saved && Edited(server, w.data.users, e).Some? && Revokes(e) {
      var users := Apply(server, w.data, e, saved).users;
      ApplyDoes(server, w.data, e, saved);
      assert e.SetProtocols? ==>
        e.id in users && users[e.id].protocols == Some(e.selection) && users[e.id].disabled == e.disabled;
      ToCloseIs(w, e, users, t);
      hide Apply, Edited, Configured, ToClose, Does, Recorded, Forbids;
    } else {
      hide Apply, Edited, Configured, ToClose, Does, Recorded, Forbids;
    }
  }

  lemma ToCloseIs(w: World, e: Accounts.Edit, users: Users, t: nat)
    requires Recorded(w) && Revokes(e)
    requires e.SetProtocols? ==>
      e.id in users && users[e.id].protocols == Some(e.selection) && users[e.id].disabled == e.disabled
    ensures t in ToClose(w.active, w.protocols, e, users) <==>
      && t in ActiveOf(w.active, e.id) && t in w.history
      && (e.Delete? || w.history[t].protocol.None? || Forbids(e, e.id, w.history[t].protocol))
  {
    assert t in ActiveOf(w.active, e.id) ==> t in w.history && t !in w.gone;
  }

  lemma EditLists(server: Option<Prefix>, w: World, op: nat, e: Accounts.Edit, saved: bool)
    requires Configured(server)
    ensures var n := DoEdit(server, w, op, e, saved);
      forall id :: ActiveOf(n.active, id)
        == if saved && Edited(server, w.data.users, e).Some? && e == Delete(id) then {} else ActiveOf(w.active, id)
  {
    hide Apply, Edited, Configured, ToClose;
  }

  /** Nobody who is out can be admitted: the user is gone, disabled, or without the protocol. */
  predicate Out(users: Users, id: nat, protocol: Option<Protocol>) {
    id !in users || users[id].disabled || (protocol.Some? && !Allows(users[id].protocols, protocol.value))
  }

  /** Events that neither choose protocols for the user again nor create a user of this name. */
  predicate Silent(e: Event, id: nat) {
    e.Edit? ==> !((e.edit.SetProtocols? || e.edit.Create?) && e.edit.id == id)
  }

  predicate AllSilent(es: seq<Event>, id: nat) { forall i :: 0 <= i < |es| ==> Silent(es[i], id) }

  lemma StaysOut(server: Option<Prefix>, w: World, e: Event, id: nat, protocol: Option<Protocol>)
    requires Configured(server) && Legal(w, e) && Silent(e, id) && Out(w.data.users, id, protocol)
    ensures var n := Next(server, w, e);
      && Out(n.data.users, id, protocol)
      && forall t :: t in n.history && n.history[t] == Session(id, protocol) ==> t in w.history
  {
    if e.Edit? {
      var n := Next(server, w, e);
      assert n.data == Apply(server, w.data, e.edit, e.saved) && n.history == w.history;
      hide Configured, Next, Legal, Apply, Edited, PeerAfter;
      ApplyDoes(server, w.data, e.edit, e.saved);
    } else {
      hide Configured, Apply, ToClose, Succeeds;
    }
  }

  lemma {:induction false} RunStaysOut(server: Option<Prefix>, w: World, es: seq<Event>, id: nat,
                                       protocol: Option<Protocol>)
    requires Configured(server) && LegalRun(server, w, es) && AllSilent(es, id) && Out(w.data.users, id, protocol)
    ensures var n := Run(server, w, es);
      && Out(n.data.users, id, protocol)
      && forall t :: t in n.history && n.history[t] == Session(id, protocol) ==> t in w.history
    decreases |es|
  {
    if es != [] {
      StaysOut(server, w, es[0], id, protocol);
      hide Next, Legal, Out, Silent, Configured;
      assert forall i :: 0 <= i < |es[1..]| ==> es[1..][i] == es[i + 1];
      var next := Next(server, w, es[0]);
      RunStaysOut(server, next, es[1..], id, protocol);
      var n := Run(server, next, es[1..]);
      forall t | t in n.history && n.history[t] == Session(id, protocol) ensures t in w.history {
        OnRecord(server, next, es[1..], t);
      }
    }
  }

  /** After a saved edit that forbids it, whatever runs before and after: no session of the user
      under the protocol is admitted until the user's protocols are chosen again, none is on record
      that was not before; and once the edit has returned, each that was listed is closed. */
  lemma ForbiddenIsOut(server: Option<Prefix>, d: Data, before: seq<Event>, op: nat, e: Accounts.Edit,
                       after: seq<Event>, shown: Certificate, protocol: Option<Protocol>, now: int, t: nat)
    requires Configured(server) && LegalRun(server, Opened(d), before) && Forbids(e, shown.subject, protocol)
    requires var w := Run(server, Opened(d), before);
      Legal(w, Event.Edit(op, e, true)) && Succeeds(server, w.data, e, true)
    requires var n := Next(server, Run(server, Opened(d), before), Event.Edit(op, e, true));
      LegalRun(server, n, after) && AllSilent(after, shown.subject)
    ensures var w := Run(server, Opened(d), before);
      var n := Run(server, Next(server, w, Event.Edit(op, e, true)), after);
      && !Admits(n.data.users, shown, protocol, now)
      && (t in n.history && n.history[t] == Session(shown.subject, protocol) ==> t in w.history)
      && (NotYet(after, op) && Legal(n, Return(op)) ==>
            t in ActiveOf(w.active, e.id) && t in w.history && w.history[t] == Session(shown.subject, protocol) ==>
              t in n.closed)
  {
    var w := Run(server, Opened(d), before);
    EditCloses(server, d, before, op, e, true, t);
    ApplyDoes(server, w.data, e, true);
    hide Run, Apply, Edited, Configured, ToClose;
    var n := Next(server, w, Event.Edit(op, e, true));
    assert Out(n.data.users, shown.subject, protocol) && n.history == w.history;
    assert n.pending.Keys == w.pending.Keys + {op};
    var s := n.pending[op];
    hide Next, DoEdit, Out, Legal, Forbids, Does;
    RunStaysOut(server, n, after, shown.subject, protocol);
    if NotYet(after, op) { OwesUntilReturn(server, n, op, s, after); }
    OutIsRefused(Run(server, n, after).data.users, shown, protocol, now);
  }

  lemma OutIsRefused(users: Users, shown: Certificate, protocol: Option<Protocol>, now: int)
    requires Out(users, shown.subject, protocol)
    ensures !Admits(users, shown, protocol, now)
  {
  }

  // ---------------------------------------------------------------- who gets in

  /** Exactly who is admitted: the certificate shown is the one kept for the user it names, who is
      enabled and not past the expiry, and the protocol is one chosen for the user, or one of the two
      original ones if none ever were. */
  lemma RegisteredExactly(server: Option<Prefix>, w: World, token: nat, shown: Certificate, protocol: Option<Protocol>,
                          now: int)
    requires Configured(server) && Legal(w, Register(token, shown, protocol, now))
    ensures var n := Next(server, w, Register(token, shown, protocol, now));
      var id := shown.subject;
      && n.data == w.data
      && (token in n.history <==>
            && id in w.data.users && !w.data.users[id].disabled && now <= w.data.users[id].expires
            && w.data.users[id].identity.certificate == shown
            && (protocol == None
                || (w.data.users[id].protocols == None && (protocol == Some(Quic) || protocol == Some(Https)))
                || (w.data.users[id].protocols.Some? && protocol.value in w.data.users[id].protocols.value)))
      && (token in n.history ==> n.history[token] == Session(id, protocol) && token in ActiveOf(n.active, id))
  {
    hide Configured;
  }

  /** Event `i` of the run listed session `t`, on a certificate of its owner good at that moment. */
  ghost predicate LetIn(server: Option<Prefix>, w: World, es: seq<Event>, i: nat, t: nat, s: Session)
    requires Configured(server)
  {
    && i < |es| && es[i].Register? && es[i].token == t && LegalRun(server, w, es[..i])
    && var users := Run(server, w, es[..i]).data.users;
      && s == Session(es[i].shown.subject, es[i].protocol)
      && s.owner in users && users[s.owner].identity.certificate == es[i].shown
      && es[i].now <= es[i].shown.until
  }

  lemma LetInLater(server: Option<Prefix>, w: World, es: seq<Event>, i: nat, t: nat, s: Session)
    requires Configured(server) && LegalRun(server, w, es) && es != []
    requires LetIn(server, Next(server, w, es[0]), es[1..], i, t, s)
    ensures LetIn(server, w, es, i + 1, t, s)
  {
    hide Next, Legal, Configured;
    assert es[..i + 1][0] == es[0] && es[..i + 1][1..] == es[1..][..i];
  }

  lemma NextCertified(server: Option<Prefix>, w: World, e: Event)
    requires Configured(server) && Legal(w, e) && Certified(w.data.users)
    ensures Certified(Next(server, w, e).data.users)
  {
    if e.Edit? { ApplyIdentity(server, w.data, e.edit, e.saved); }
    hide Configured, Apply, Succeeds, ToClose, FreshFor, Certified, Admits;
  }

  /** Every session on record came in by an event of the run, on the certificate then kept for its
      owner; and as certificates expire with their users, on one that was still good. */
  lemma {:induction false} SessionsShowCertificates(server: Option<Prefix>, w: World, es: seq<Event>, t: nat)
    requires Configured(server) && Certified(w.data.users) && LegalRun(server, w, es)
    requires t in Run(server, w, es).history && t !in w.history
    ensures exists i: nat :: LetIn(server, w, es, i, t, Run(server, w, es).history[t])
    decreases |es|
  {
    var n := Next(server, w, es[0]);
    if t in n.history {
      OnRecord(server, n, es[1..], t);
      assert es[..0] == [];
      assert LetIn(server, w, es, 0, t, n.history[t]) by { hide Apply, Succeeds, ToClose; }
    } else {
      NextCertified(server, w, es[0]);
      hide Next, Legal, Certified, Configured;
      SessionsShowCertificates(server, n, es[1..], t);
      var s := Run(server, n, es[1..]).history[t];
      var i: nat :| LetIn(server, n, es[1..], i, t, s);
      LetInLater(server, w, es, i, t, s);
    }
  }

  lemma {:induction false} OnRecord(server: Option<Prefix>, w: World, es: seq<Event>, t: nat)
    requires Configured(server) && LegalRun(server, w, es) && t in w.history
    ensures var n := Run(server, w, es); t in n.history && n.history[t] == w.history[t]
    decreases |es|
  {
    if es != [] {
      assert var n := Next(server, w, es[0]); t in n.history && n.history[t] == w.history[t] by {
        hide Apply, Succeeds, ToClose, Configured;
      }
      hide Next, Legal, Configured;
      OnRecord(server, Next(server, w, es[0]), es[1..], t);
    }
  }
}
