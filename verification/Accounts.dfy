/** The identity store: users in memory, the saved copy on disk, and every edit of both. */
module Accounts {
  import opened Bytes
  import opened Ipv4
  import opened Pool

  datatype Protocol = Quic | Https | Awg | Other(tag: nat)

  datatype Peer = Peer(key: nat, psk: nat, address: nat)

  /** A client certificate of the store's authority: the user it names and how long it is good. */
  datatype Certificate = Certificate(serial: nat, subject: nat, until: int)

  /** A certificate and the private key that goes with it. */
  datatype Identity = Identity(certificate: Certificate, secret: nat)

  /** `meta` stands for the time, transport and source of the last connection. */
  datatype User = User(name: bytes, disabled: bool, protocols: Option<seq<Protocol>>, peer: Option<Peer>,
                       expires: int, identity: Identity, meta: nat)

  /** A new key pair and serial number, unless making them or signing for them fails. */
  datatype Minted = Minted(serial: nat, secret: nat)

  type Users = map<nat, User>

  datatype Data = Data(users: Users, disk: Users)

  const MAX_USERS: nat := 1000
  const MAX_NAME: nat := 100
  const LIFETIME: nat := 90 * 86400

  /** Users from before protocol selection existed have the two original protocols. */
  predicate Allows(chosen: Option<seq<Protocol>>, p: Protocol) {
    match chosen
    case None => p.Quic? || p.Https?
    case Some(ps) => p in ps
  }

  predicate ValidSelection(chosen: Option<seq<Protocol>>) {
    match chosen
    case None => true
    case Some(ps) =>
      && 1 <= |ps| <= 3
      && (forall i :: 0 <= i < |ps| ==> !ps[i].Other?)
      && (forall i, j :: 0 <= i < j < |ps| ==> ps[i] != ps[j])
  }

  /** AmneziaWG is not set up, or with a server address that passed the configuration check. */
  predicate Configured(server: Option<Prefix>) { server.Some? ==> ValidServer(server.value) }

  function Taken(users: Users): set<nat> {
    set id | id in users && users[id].peer.Some? :: users[id].peer.value.address
  }

  function Keys(users: Users): set<nat> {
    set id | id in users && users[id].peer.Some? :: users[id].peer.value.key
  }

  /** Gives a user who may use AmneziaWG an address, or refuses the selection. */
  function Provision(server: Option<Prefix>, users: Users, u: User, key: nat, psk: nat): (r: Option<User>)
    requires Configured(server)
  {
    if !ValidSelection(u.protocols) then None
    else if !Allows(u.protocols, Awg) then Some(u)
    else if server.None? then None
    else if u.peer.Some? then Some(u)
    else match Allocated(server.value, Taken(users))
      case None => None
      case Some(a) => Some(u.(peer := Some(Peer(key, psk, a))))
  }

  predicate ValidName(name: bytes) { 0 < |name| <= MAX_NAME }

  predicate NameFree(users: Users, except: Option<nat>, name: bytes) {
    forall id :: id in users && Some(id) != except ==> users[id].name != name
  }

  // ---------------------------------------------------------------- edits

  datatype Edit =
    | Create(id: nat, name: bytes, chosen: Option<seq<Protocol>>, key: nat, psk: nat, now: nat, until: int,
             minted: Option<Minted>)
    | Rename(id: nat, name: bytes)
    | SetProtocols(id: nat, selection: seq<Protocol>, disabled: bool, key: nat, psk: nat)
    | Delete(id: nat)
    | Touch(id: nat, meta: nat)

  /** A user whose certificate names it and expires with it. */
  function NewUser(id: nat, name: bytes, chosen: Option<seq<Protocol>>, expires: int, m: Minted): User {
    User(name, false, chosen, None, expires, Identity(Certificate(m.serial, id, expires), m.secret), 0)
  }

  /** The users in memory after an edit, before it is saved; nothing if it is refused. */
  function Edited(server: Option<Prefix>, users: Users, e: Edit): (r: Option<Users>)
    requires Configured(server)
  {
    match e
    case Create(id, name, chosen, key, psk, now, until, minted) =>
      if !ValidName(name) || |users| >= MAX_USERS || !NameFree(users, None, name) || minted.None? then None
      else (
        var expires := if now + LIFETIME > until then until else now + LIFETIME;
        var u := Provision(server, users, NewUser(id, name, chosen, expires, minted.value), key, psk);
        if u.None? || expires <= now then None else Some(users[id := u.value])
      )
    case Rename(id, name) =>
      if id !in users || !ValidName(name) || !NameFree(users, Some(id), name) then None
      else Some(users[id := users[id].(name := name)])
    case SetProtocols(id, selection, disabled, key, psk) =>
      if id !in users then None
      else (
        var u := Provision(server, users, users[id].(protocols := Some(selection), disabled := disabled), key, psk);
        if u.None? then None else Some(users[id := u.value])
      )
    case Delete(id) => if id !in users then None else Some(users - {id})
    case Touch(id, meta) => if id !in users then None else Some(users[id := users[id].(meta := meta)])
  }

  /** One edit with the outcome of its save: a failed save undoes the edit in memory, except
      for connection metadata, which is kept and only logged. */
  function Apply(server: Option<Prefix>, d: Data, e: Edit, saved: bool): Data
    requires Configured(server)
  {
    match Edited(server, d.users, e)
    case None => d
    case Some(users) =>
      if saved then Data(users, users)
      else if e.Touch? then d.(users := users)
      else d
  }

  predicate Succeeds(server: Option<Prefix>, d: Data, e: Edit, saved: bool)
    requires Configured(server)
  {
    saved && Edited(server, d.users, e).Some?
  }

  /** Identifiers and keys come from a random source: new ones differ from those in use. */
  predicate FreshFor(users: Users, e: Edit) {
    match e
    case Create(id, _, _, key, _, _, _, _) => id !in users && key !in Keys(users)
    case SetProtocols(_, _, _, key, _) => key !in Keys(users)
    case Rename(_, _) => true
    case Delete(_) => true
    case Touch(_, _) => true
  }

  // ---------------------------------------------------------------- what every edit keeps

  predicate GoodPeer(server: Option<Prefix>, peer: Option<Peer>)
    requires Configured(server)
  {
    peer.Some? ==> server.Some? && Assignable(server.value, peer.value.address)
  }

  predicate GoodUser(server: Option<Prefix>, u: User)
    requires Configured(server)
  {
    && ValidName(u.name) && ValidSelection(u.protocols) && GoodPeer(server, u.peer)
    && (Allows(u.protocols, Awg) ==> u.peer.Some?)
  }

  /** No two users share a name, an address or a key. */
  predicate Apart(a: User, b: User) {
    && a.name != b.name
    && (a.peer.Some? && b.peer.Some? ==>
          a.peer.value.address != b.peer.value.address && a.peer.value.key != b.peer.value.key)
  }

  predicate Consistent(server: Option<Prefix>, users: Users)
    requires Configured(server)
  {
    && |users| <= MAX_USERS
    && (forall id :: id in users ==> GoodUser(server, users[id]))
    && (forall a, b :: a in users && b in users && a != b ==> Apart(users[a], users[b]))
  }

  function Durable(u: User): User { u.(meta := 0) }

  /** Memory and disk agree on everything but connection metadata. */
  predicate Agree(d: Data) {
    d.users.Keys == d.disk.Keys && forall id :: id in d.users ==> Durable(d.users[id]) == Durable(d.disk[id])
  }

  lemma ProvisionKeeps(server: Option<Prefix>, users: Users, u: User, key: nat, psk: nat)
    requires Configured(server)
    requires GoodPeer(server, u.peer) && ValidName(u.name) && key !in Keys(users)
    requires Provision(server, users, u, key, psk).Some?
    ensures var v := Provision(server, users, u, key, psk).value;
      && GoodUser(server, v) && v.name == u.name
      && (v.peer == u.peer || (u.peer.None? && v.peer.Some? && v.peer.value.key == key
        && v.peer.value.address !in Taken(users)))
  {
    hide ValidServer, Assignable, ValidName, Allocated, ValidSelection, Taken, Keys;
    if server.Some? { AllocatedIs(server.value, Taken(users)); }
  }

  lemma ReplaceCount(users: Users, id: nat, u: User)
    ensures |users[id := u]| == |users| + if id in users then 0 else 1
  {
    var next := users[id := u];
    assert |next| == |next.Keys| && |users| == |users.Keys|;
    assert next.Keys == users.Keys + {id};
  }

  lemma ReplaceKeeps(server: Option<Prefix>, users: Users, id: nat, u: User)
    requires Configured(server) && Consistent(server, users) && GoodUser(server, u)
    requires id in users || |users| < MAX_USERS
    requires forall a :: a in users && a != id ==> Apart(users[a], u) && Apart(u, users[a])
    ensures Consistent(server, users[id := u])
  {
    hide GoodUser, ValidServer, Apart;
    ReplaceCount(users, id, u);
  }

  lemma NewUserApart(users: Users, id: nat, u: User)
    requires forall a :: a in users && a != id ==> users[a].name != u.name
    requires u.peer.Some? ==> u.peer.value.address !in Taken(users) && u.peer.value.key !in Keys(users)
    ensures forall a :: a in users && a != id ==> Apart(users[a], u) && Apart(u, users[a])
  {
    forall a | a in users && a != id ensures Apart(users[a], u) && Apart(u, users[a]) {
      if users[a].peer.Some? {
        assert users[a].peer.value.address in Taken(users);
        assert users[a].peer.value.key in Keys(users);
      }
    }
  }

  lemma CreateKeeps(server: Option<Prefix>, users: Users, e: Edit)
    requires Configured(server) && Consistent(server, users) && FreshFor(users, e)
    requires e.Create? && Edited(server, users, e).Some?
    ensures Consistent(server, Edited(server, users, e).value)
  {
    var expires := if e.now + LIFETIME > e.until then e.until else e.now + LIFETIME;
    var u := NewUser(e.id, e.name, e.chosen, expires, e.minted.value);
    ProvisionKeeps(server, users, u, e.key, e.psk);
    hide Provision, ValidServer, Assignable, GoodUser;
    var v := Provision(server, users, u, e.key, e.psk).value;
    NewUserApart(users, e.id, v);
    ReplaceKeeps(server, users, e.id, v);
  }

  lemma RenameKeeps(server: Option<Prefix>, users: Users, e: Edit)
    requires Configured(server) && Consistent(server, users)
    requires e.Rename? && Edited(server, users, e).Some?
    ensures Consistent(server, Edited(server, users, e).value)
  {
    hide ValidServer, GoodPeer, ValidSelection;
    var u := users[e.id].(name := e.name);
    forall a | a in users && a != e.id ensures Apart(users[a], u) && Apart(u, users[a]) {
      assert Apart(users[a], users[e.id]);
    }
    assert GoodUser(server, users[e.id]);
    ReplaceKeeps(server, users, e.id, u);
  }

  lemma SelectionKeeps(server: Option<Prefix>, users: Users, e: Edit)
    requires Configured(server) && Consistent(server, users) && FreshFor(users, e)
    requires e.SetProtocols? && Edited(server, users, e).Some?
    ensures Consistent(server, Edited(server, users, e).value)
    ensures users[e.id].peer.Some? ==> Edited(server, users, e).value[e.id].peer == users[e.id].peer
  {
    var was := users[e.id];
    var u := was.(protocols := Some(e.selection), disabled := e.disabled);
    assert GoodUser(server, was);
    ProvisionKeeps(server, users, u, e.key, e.psk);
    hide Provision, ValidServer, Assignable, GoodUser;
    var v := Provision(server, users, u, e.key, e.psk).value;
    forall a | a in users && a != e.id ensures users[a].name != v.name && Apart(users[a], was)
    {
      assert Apart(users[a], was);
    }
    if v.peer == was.peer {
      assert forall a :: a in users && a != e.id ==> Apart(users[a], v) && Apart(v, users[a]);
    } else {
      NewUserApart(users, e.id, v);
    }
    ReplaceKeeps(server, users, e.id, v);
  }

  lemma DeleteKeeps(server: Option<Prefix>, users: Users, id: nat)
    requires Configured(server) && Consistent(server, users) && id in users
    ensures Consistent(server, users - {id})
  {
    hide GoodUser, ValidServer, Apart;
    assert (users - {id}).Keys == users.Keys - {id};
    assert |users - {id}| == |(users - {id}).Keys|;
  }

  lemma TouchKeeps(server: Option<Prefix>, users: Users, id: nat, meta: nat)
    requires Configured(server) && Consistent(server, users) && id in users
    ensures Consistent(server, users[id := users[id].(meta := meta)])
  {
    hide ValidServer, GoodPeer, ValidSelection;
    var u := users[id].(meta := meta);
    forall a | a in users && a != id ensures Apart(users[a], u) && Apart(u, users[a]) {
      assert Apart(users[a], users[id]);
    }
    assert GoodUser(server, users[id]);
    ReplaceKeeps(server, users, id, u);
  }

  lemma EditedKeeps(server: Option<Prefix>, users: Users, e: Edit)
    requires Configured(server) && Consistent(server, users) && FreshFor(users, e)
    requires Edited(server, users, e).Some?
    ensures Consistent(server, Edited(server, users, e).value)
  {
    hide Consistent, FreshFor, ValidServer;
    match e
    case Create(_, _, _, _, _, _, _, _) => CreateKeeps(server, users, e);
    case Rename(_, _) => RenameKeeps(server, users, e);
    case SetProtocols(_, _, _, _, _) => SelectionKeeps(server, users, e);
    case Delete(id) => DeleteKeeps(server, users, id);
    case Touch(id, meta) => TouchKeeps(server, users, id, meta);
  }

  // ---------------------------------------------------------------- runs

  datatype Attempt = Attempt(edit: Edit, saved: bool)

  function Run(server: Option<Prefix>, d: Data, es: seq<Attempt>): Data
    requires Configured(server)
    decreases |es|
  {
    if es == [] then d else Run(server, Apply(server, d, es[0].edit, es[0].saved), es[1..])
  }

  predicate Legal(server: Option<Prefix>, d: Data, es: seq<Attempt>)
    requires Configured(server)
    decreases |es|
  {
    es == [] || (FreshFor(d.users, es[0].edit) && Legal(server, Apply(server, d, es[0].edit, es[0].saved), es[1..]))
  }

  lemma TouchAgrees(d: Data, id: nat, meta: nat)
    requires Agree(d) && id in d.users
    ensures Agree(d.(users := d.users[id := d.users[id].(meta := meta)]))
  {
  }

  lemma ApplyKeeps(server: Option<Prefix>, d: Data, e: Edit, saved: bool)
    requires Configured(server) && Consistent(server, d.users) && Agree(d) && FreshFor(d.users, e)
    ensures var n := Apply(server, d, e, saved); Consistent(server, n.users) && Agree(n)
    ensures !saved && !e.Touch? ==> Apply(server, d, e, saved) == d
  {
    hide Consistent, FreshFor, ValidServer;
    var edited := Edited(server, d.users, e);
    if edited.Some? {
      EditedKeeps(server, d.users, e);
      if e.Touch? { TouchAgrees(d, e.id, e.meta); }
      hide Edited;
    }
  }

  /** Over every run of edits, each of whose saves may fail: names, addresses and keys stay
      distinct, addresses assignable, and memory equals disk but for connection metadata. */
  lemma {:induction false} StoreStaysConsistent(server: Option<Prefix>, d: Data, es: seq<Attempt>)
    requires Configured(server) && Consistent(server, d.users) && Agree(d) && Legal(server, d, es)
    ensures var n := Run(server, d, es); Consistent(server, n.users) && Agree(n)
    decreases |es|
  {
    if es != [] {
      ApplyKeeps(server, d, es[0].edit, es[0].saved);
      hide Consistent, Agree, Apply, FreshFor, ValidServer;
      StoreStaysConsistent(server, Apply(server, d, es[0].edit, es[0].saved), es[1..]);
    }
  }

  // ---------------------------------------------------------------- what an edit does

  /** Users other than `id` are the same on both sides. */
  ghost predicate OthersSame(users: Users, next: Users, id: nat) {
    forall other :: other != id ==>
      (other in next <==> other in users) && (other in users ==> next[other] == users[other])
  }

  /** What becomes of a user's peer under a selection: it is kept, or made of the new keys and an
      address nobody has, lowest first, if AmneziaWG is among the protocols; otherwise there is none. */
  ghost predicate PeerAfter(server: Option<Prefix>, users: Users, was: Option<Peer>, awg: bool, key: nat, psk: nat,
                      peer: Option<Peer>)
    requires Configured(server)
  {
    if was.Some? || !awg then peer == was
    else
      && server.Some? && peer.Some? && peer.value.key == key && peer.value.psk == psk
      && Assignable(server.value, peer.value.address) && peer.value.address !in Taken(users)
      && forall q: nat :: q < peer.value.address && Assignable(server.value, q) ==> q in Taken(users)
  }

  /** The effect of each edit, field by field. */
  ghost predicate Does(server: Option<Prefix>, users: Users, e: Edit, next: Users)
    requires Configured(server)
  {
    && OthersSame(users, next, e.id)
    && match e
       case Create(id, name, chosen, key, psk, now, until, minted) =>
         && id in next && minted.Some?
         && var u := next[id];
           && u.name == name && !u.disabled && u.protocols == chosen && u.meta == 0
           && now < u.expires <= until && u.expires <= now + LIFETIME
           && (u.expires == until || u.expires == now + LIFETIME)
           && u.identity == Identity(Certificate(minted.value.serial, id, u.expires), minted.value.secret)
           && PeerAfter(server, users, None, chosen.Some? && Awg in chosen.value, key, psk, u.peer)
       case Rename(id, name) => id in users && id in next && next[id] == users[id].(name := name)
       case SetProtocols(id, selection, disabled, key, psk) =>
         && id in users && id in next
         && next[id].protocols == Some(selection) && next[id].disabled == disabled
         && next[id] == users[id].(protocols := next[id].protocols, disabled := next[id].disabled,
                                    peer := next[id].peer)
         && PeerAfter(server, users, users[id].peer, Awg in selection, key, psk, next[id].peer)
       case Delete(id) => id in users && id !in next
       case Touch(id, meta) => id in users && id in next && next[id] == users[id].(meta := meta)
  }

  lemma ProvisionDoes(server: Option<Prefix>, users: Users, u: User, key: nat, psk: nat)
    requires Configured(server) && Provision(server, users, u, key, psk).Some?
    ensures var v := Provision(server, users, u, key, psk).value;
      v == u.(peer := v.peer)
      && PeerAfter(server, users, u.peer, u.protocols.Some? && Awg in u.protocols.value, key, psk, v.peer)
  {
    hide ValidServer, Assignable, Allocated, ValidSelection, Taken;
    if server.Some? { AllocatedIs(server.value, Taken(users)); }
  }

  /** An edit that is not refused does exactly what it says to its user, and nothing to others. */
  lemma EditDoes(server: Option<Prefix>, users: Users, e: Edit)
    requires Configured(server) && Edited(server, users, e).Some?
    ensures Does(server, users, e, Edited(server, users, e).value)
  {
    hide Provision, NameFree, ValidName, PeerAfter;
    match e {
      case Create(id, name, chosen, key, psk, now, until, minted) =>
        var expires := if now + LIFETIME > until then until else now + LIFETIME;
        ProvisionDoes(server, users, NewUser(id, name, chosen, expires, minted.value), key, psk);
      case SetProtocols(id, selection, disabled, key, psk) =>
        ProvisionDoes(server, users, users[id].(protocols := Some(selection), disabled := disabled), key, psk);
      case Rename(_, _) =>
      case Delete(_) =>
      case Touch(_, _) =>
    }
  }

  /** With a save that works the effect is in memory and on disk; with one that fails it is in
      neither, except that connection metadata stays in memory. */
  lemma ApplyDoes(server: Option<Prefix>, d: Data, e: Edit, saved: bool)
    requires Configured(server)
    ensures var n := Apply(server, d, e, saved);
      if Edited(server, d.users, e).None? then n == d
      else if saved then Does(server, d.users, e, n.users) && n.disk == n.users
      else n.disk == d.disk && (if e.Touch? then Does(server, d.users, e, n.users) else n.users == d.users)
  {
    if Edited(server, d.users, e).Some? { EditDoes(server, d.users, e); }
    hide Edited, Does;
  }

  /** The name belongs to a user other than `except`. */
  ghost predicate NameTaken(users: Users, except: Option<nat>, name: bytes) {
    exists id :: id in users && Some(id) != except && users[id].name == name
  }

  /** Exactly when an edit is refused. */
  lemma EditRefused(server: Option<Prefix>, users: Users, e: Edit)
    requires Configured(server) && Consistent(server, users)
    ensures Edited(server, users, e).None? <==>
      match e
      case Create(_, name, chosen, _, _, now, until, minted) =>
        || |name| == 0 || |name| > 100 || |users| == 1000 || NameTaken(users, None, name)
        || minted.None? || until <= now || NoAddress(server, users, chosen, None) || !ValidSelection(chosen)
      case Rename(id, name) => id !in users || |name| == 0 || |name| > 100 || NameTaken(users, Some(id), name)
      case SetProtocols(id, selection, _, _, _) =>
        id !in users || !ValidSelection(Some(selection)) || NoAddress(server, users, Some(selection), users[id].peer)
      case Delete(id) => id !in users
      case Touch(id, _) => id !in users
  {
    hide Assignable, Taken, ValidSelection, ValidServer;
    if server.Some? { AllocatedIs(server.value, Taken(users)); }
  }

  /** AmneziaWG is chosen but not set up, or there is no address for it: none yet and none free. */
  ghost predicate NoAddress(server: Option<Prefix>, users: Users, chosen: Option<seq<Protocol>>, peer: Option<Peer>)
    requires Configured(server)
  {
    && chosen.Some? && Awg in chosen.value
    && (server.None? || (peer.None? && forall q: nat :: Assignable(server.value, q) ==> q in Taken(users)))
  }

  function Members(ps: seq<Protocol>): set<Protocol> { set i | 0 <= i < |ps| :: ps[i] }

  lemma {:induction false} DistinctCount(ps: seq<Protocol>)
    ensures |Members(ps)| <= |ps|
    ensures |Members(ps)| == |ps| <==> forall i, j :: 0 <= i < j < |ps| ==> ps[i] != ps[j]
  {
    if ps != [] {
      var n := |ps| - 1;
      var front := ps[..n];
      DistinctCount(front);
      assert Members(ps) == Members(front) + {ps[n]};
      if ps[n] in Members(front) {
        var i :| 0 <= i < n && front[i] == ps[n];
        assert ps[i] == ps[n];
      } else {
        forall i | 0 <= i < n ensures ps[i] != ps[n] { assert front[i] in Members(front); }
      }
      assert forall i :: 0 <= i < n ==> front[i] == ps[i];
    }
  }

  /** A selection is valid exactly when it is some of the three protocols, at least one, each once. */
  lemma SelectionMeans(ps: seq<Protocol>)
    ensures ValidSelection(Some(ps)) <==> ps != [] && Members(ps) <= {Quic, Https, Awg} && |Members(ps)| == |ps|
  {
    DistinctCount(ps);
    if Members(ps) <= {Quic, Https, Awg} && |Members(ps)| == |ps| {
      SubsetCount(Members(ps));
      forall i | 0 <= i < |ps| ensures !ps[i].Other? { assert ps[i] in Members(ps); }
    }
  }

  lemma SubsetCount(s: set<Protocol>)
    requires s <= {Quic, Https, Awg}
    ensures |s| <= 3
  {
    assert {Quic, Https, Awg} == s + ({Quic, Https, Awg} - s);
  }

  predicate NeverDeletes(es: seq<Attempt>, id: nat) {
    es == [] || (es[0].edit != Delete(id) && NeverDeletes(es[1..], id))
  }

  lemma PeerKept(server: Option<Prefix>, d: Data, e: Edit, saved: bool, id: nat)
    requires Configured(server) && Consistent(server, d.users) && FreshFor(d.users, e)
    requires id in d.users && d.users[id].peer.Some? && e != Delete(id)
    ensures var n := Apply(server, d, e, saved); id in n.users && n.users[id].peer == d.users[id].peer
  {
    if e.SetProtocols? && e.id == id && Edited(server, d.users, e).Some? {
      SelectionKeeps(server, d.users, e);
    }
    hide Consistent, ValidServer, NameFree, ValidName, Provision;
  }

  /** An address, once given, stays with its user through every run that does not delete the
      user: selections without AmneziaWG, failed saves and other users' edits included. */
  lemma {:induction false} AddressStable(server: Option<Prefix>, d: Data, es: seq<Attempt>, id: nat)
    requires Configured(server) && Consistent(server, d.users) && Agree(d) && Legal(server, d, es)
    requires id in d.users && d.users[id].peer.Some?
    requires NeverDeletes(es, id)
    ensures var n := Run(server, d, es); id in n.users && n.users[id].peer == d.users[id].peer
    decreases |es|
  {
    if es != [] {
      hide Consistent, Agree, Apply, FreshFor, ValidServer;
      var e := es[0];
      ApplyKeeps(server, d, e.edit, e.saved);
      PeerKept(server, d, e.edit, e.saved, id);
      AddressStable(server, Apply(server, d, e.edit, e.saved), es[1..], id);
    }
  }

  /** Every certificate names its user and expires with it. */
  predicate Certified(users: Users) {
    forall id :: id in users ==>
      users[id].identity.certificate.subject == id && users[id].identity.certificate.until == users[id].expires
  }

  lemma EditIdentity(server: Option<Prefix>, users: Users, e: Edit)
    requires Configured(server) && FreshFor(users, e) && Edited(server, users, e).Some?
    ensures Certified(users) ==> Certified(Edited(server, users, e).value)
    ensures forall id :: id in users && e != Delete(id) ==>
      var n := Edited(server, users, e).value;
      id in n && n[id].identity == users[id].identity && n[id].expires == users[id].expires
  {
    hide Configured, NameFree, ValidName, Allocated, ValidSelection, Taken, Keys, Allows;
  }

  lemma ApplyIdentity(server: Option<Prefix>, d: Data, e: Edit, saved: bool)
    requires Configured(server) && FreshFor(d.users, e) && Certified(d.users)
    ensures var n := Apply(server, d, e, saved);
      && Certified(n.users)
      && forall id :: id in d.users && e != Delete(id) ==>
           id in n.users && n.users[id].identity == d.users[id].identity && n.users[id].expires == d.users[id].expires
  {
    if Edited(server, d.users, e).Some? { EditIdentity(server, d.users, e); }
    hide Configured, Edited, FreshFor, Certified;
  }

  /** Renaming, new selections and failed saves never touch a user's credentials: through every run
      that does not delete the user the certificate, the key and the expiry stay, and every
      certificate in the store names its user and expires with it. */
  lemma {:induction false} CredentialsStay(server: Option<Prefix>, d: Data, es: seq<Attempt>, id: nat)
    requires Configured(server) && Certified(d.users) && Legal(server, d, es)
    ensures var n := Run(server, d, es);
      && Certified(n.users)
      && (id in d.users && NeverDeletes(es, id) ==>
            id in n.users && n.users[id].identity == d.users[id].identity && n.users[id].expires == d.users[id].expires)
    decreases |es|
  {
    if es != [] {
      ApplyIdentity(server, d, es[0].edit, es[0].saved);
      hide Configured, Apply, FreshFor, Certified;
      CredentialsStay(server, Apply(server, d, es[0].edit, es[0].saved), es[1..], id);
    }
  }
}
