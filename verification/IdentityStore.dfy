/** The store object: the admin operations as written, each one lock-guarded section followed,
    for revocations, by the close calls. */
module IdentityStore {
  import opened Bytes
  import opened Ipv4
  import Pool
  import opened Accounts
  import opened Revocation

  /** The selection check: known names, none twice, one to three of them. */
  method CheckSelection(chosen: Option<seq<Protocol>>) returns (ok: bool)
    ensures ok == ValidSelection(chosen)
  {
    if chosen.None? { return true; }
    var ps := chosen.value;
    if |ps| == 0 || |ps| > 3 { return false; }
    var seen: set<Protocol> := {};
    for i := 0 to |ps|
      invariant forall j :: 0 <= j < i ==> !ps[j].Other?
      invariant forall j, k :: 0 <= j < k < i ==> ps[j] != ps[k]
      invariant seen == set j | 0 <= j < i :: ps[j]
    {
      if ps[i] in seen || ps[i].Other? { return false; }
      seen := seen + {ps[i]};
    }
    return true;
  }

  method CollectTaken(users: Users) returns (used: set<nat>)
    ensures used == Taken(users)
  {
    used := {};
    var left := users.Keys;
    while left != {}
      invariant left <= users.Keys
      invariant used == set id | id in users && id !in left && users[id].peer.Some? :: users[id].peer.value.address
      decreases |left|
    {
      var id :| id in left;
      if users[id].peer.Some? { used := used + {users[id].peer.value.address}; }
      left := left - {id};
    }
  }

  method IsNameFree(users: Users, except: Option<nat>, name: bytes) returns (ok: bool)
    ensures ok == NameFree(users, except, name)
  {
    var left := users.Keys;
    while left != {}
      invariant left <= users.Keys
      invariant forall id :: id in users && id !in left && Some(id) != except ==> users[id].name != name
      decreases |left|
    {
      var id :| id in left;
      if Some(id) != except && users[id].name == name { return false; }
      left := left - {id};
    }
    return true;
  }

  method ProvisionUser(server: Option<Prefix>, users: Users, u: User, key: nat, psk: nat) returns (r: Option<User>)
    requires Configured(server)
    ensures r == Provision(server, users, u, key, psk)
  {
    var ok := CheckSelection(u.protocols);
    if !ok { return None; }
    if !Allows(u.protocols, Awg) { return Some(u); }
    if server.None? { return None; }
    if u.peer.Some? { return Some(u); }
    var used := CollectTaken(users);
    hide Pool.ValidServer, Taken, Pool.Allocated;
    var address := Pool.Allocate(server.value, used);
    return if address.None? then None else Some(u.(peer := Some(Peer(key, psk, address.value))));
  }

  class Store {
    const server: Option<Prefix>
    var users: Users
    var disk: Users
    var active: map<nat, set<nat>>
    var protocols: map<nat, Protocol>
    var closed: set<nat>

    ghost function Contents(): Data
      reads this
    {
      Data(users, disk)
    }

    constructor (server: Option<Prefix>)
      ensures this.server == server && Contents() == Data(map[], map[]) && active == map[] && protocols == map[]
        && closed == {}
    {
      this.server := server;
      users, disk, active, protocols, closed := map[], map[], map[], map[], {};
    }

    /** Writes the file; a failure leaves the old one. */
    method Save(works: bool) returns (ok: bool)
      modifies this`disk
      ensures ok == works && disk == if works then users else old(disk)
    {
      if works { disk := users; }
      return works;
    }

    method CreateUser(e: Edit, works: bool) returns (ok: bool)
      requires Configured(server) && e.Create? && FreshFor(users, e)
      modifies this`users, this`disk
      ensures Contents() == Apply(server, old(Contents()), e, works)
      ensures ok == Succeeds(server, old(Contents()), e, works)
    {
      hide Configured, Provision, FreshFor, NameFree;
      if |e.name| == 0 || |e.name| > MAX_NAME { return false; }
      if |users| >= MAX_USERS { return false; }
      var free := IsNameFree(users, None, e.name);
      if !free || e.minted.None? { return false; }
      var expires := e.now + LIFETIME;
      var fixed := if expires > e.until then e.until else expires;
      var leaf := Certificate(e.minted.value.serial, e.id, fixed);
      var newcomer := User(e.name, false, e.chosen, None, fixed, Identity(leaf, e.minted.value.secret), 0);
      var u := ProvisionUser(server, users, newcomer, e.key, e.psk);
      if u.None? { return false; }
      if fixed <= e.now { return false; }
      ghost var was := users;
      users := users[e.id := u.value];
      ok := Save(works);
      if !ok {
        users := users - {e.id};
        assert users == was by { FreshId(was, e, u.value); }
      }
    }

    method RenameUser(id: nat, name: bytes, works: bool) returns (ok: bool)
      requires Configured(server)
      modifies this`users, this`disk
      ensures Contents() == Apply(server, old(Contents()), Rename(id, name), works)
      ensures ok == Succeeds(server, old(Contents()), Rename(id, name), works)
    {
      hide Configured, NameFree;
      if id !in users { return false; }
      var was := users[id];
      if |name| == 0 || |name| > MAX_NAME { return false; }
      var free := IsNameFree(users, Some(id), name);
      if !free { return false; }
      users := users[id := was.(name := name)];
      ok := Save(works);
      if !ok {
        users := users[id := was];
        assert users == old(users);
      }
    }

    /** Calls close on each of a set of sessions. */
    method CloseAll(tokens: set<nat>)
      modifies this`closed
      ensures closed == old(closed) + tokens
    {
      var left := tokens;
      while left != {}
        invariant left <= tokens && closed == old(closed) + (tokens - left)
        decreases |left|
      {
        var t :| t in left;
        closed := closed + {t};
        left := left - {t};
      }
    }

    method NotSpared(id: nat, u: User) returns (closing: set<nat>)
      ensures closing == set t | t in ActiveOf(active, id) && !Spared(protocols, t, u)
    {
      closing := {};
      var left := ActiveOf(active, id);
      while left != {}
        invariant left <= ActiveOf(active, id)
        invariant closing == set t | t in ActiveOf(active, id) && t !in left && !Spared(protocols, t, u)
        decreases |left|
      {
        var t :| t in left;
        if !Spared(protocols, t, u) { closing := closing + {t}; }
        left := left - {t};
      }
    }

    method ChooseProtocols(e: Edit, works: bool) returns (ok: bool)
      requires Configured(server) && e.SetProtocols?
      modifies this`users, this`disk, this`closed
      ensures Contents() == Apply(server, old(Contents()), e, works)
      ensures ok == Succeeds(server, old(Contents()), e, works)
      ensures closed == old(closed) + if ok then ToClose(active, protocols, e, users) else {}
    {
      hide Configured, Provision;
      if e.id !in users { return false; }
      var was := users[e.id];
      var u := ProvisionUser(server, users, was.(protocols := Some(e.selection), disabled := e.disabled), e.key, e.psk);
      if u.None? { return false; }
      users := users[e.id := u.value];
      ok := Save(works);
      if !ok {
        users := users[e.id := was];
        assert users == old(users);
        return;
      }
      var closing := NotSpared(e.id, u.value);
      assert closing == ToClose(active, protocols, e, users);
      CloseAll(closing);
    }

    method DeleteUser(id: nat, works: bool) returns (ok: bool)
      requires Configured(server)
      modifies this`users, this`disk, this`active, this`closed
      ensures Contents() == Apply(server, old(Contents()), Delete(id), works)
      ensures ok == Succeeds(server, old(Contents()), Delete(id), works)
      ensures active == if ok then old(active) - {id} else old(active)
      ensures closed == old(closed) + if ok then ToClose(old(active), protocols, Delete(id), users) else {}
    {
      if id !in users { return false; }
      var was := users[id];
      users := users - {id};
      ok := Save(works);
      if !ok {
        users := users[id := was];
        assert users == old(users);
        return;
      }
      var closers := ActiveOf(active, id);
      active := active - {id};
      CloseAll(closers);
    }

    method RegisterSession(token: nat, shown: Certificate, protocol: Option<Protocol>, now: int) returns (ok: bool)
      modifies this`active, this`protocols
      ensures ok == Admits(users, shown, protocol, now)
      ensures active == if ok then With(old(active), shown.subject, token) else old(active)
      ensures protocols == if ok then Noted(old(protocols), token, protocol) else old(protocols)
    {
      var id := shown.subject;
      if id !in users || users[id].disabled || now > users[id].expires { return false; }
      if users[id].identity.certificate != shown { return false; }
      if protocol.Some? && !Allows(users[id].protocols, protocol.value) { return false; }
      active := active[id := ActiveOf(active, id) + {token}];
      if protocol.Some? { protocols := protocols[token := protocol.value]; }
      return true;
    }

    method UnregisterSession(id: nat, token: nat)
      modifies this`active, this`protocols
      ensures active == Without(old(active), id, token) && protocols == old(protocols) - {token}
    {
      if id in active { active := active[id := active[id] - {token}]; }
      protocols := protocols - {token};
      if ActiveOf(active, id) == {} { active := active - {id}; }
      assert active == Without(old(active), id, token);
    }

    /** Records connection metadata; a failed save is only logged. */
    method TrackConnection(id: nat, meta: nat, works: bool)
      requires Configured(server)
      modifies this`users, this`disk
      ensures Contents() == Apply(server, old(Contents()), Touch(id, meta), works)
    {
      if id !in users { return; }
      users := users[id := users[id].(meta := meta)];
      var ok := Save(works);
    }
  }

  lemma FreshId(users: Users, e: Edit, u: User)
    requires e.Create? && FreshFor(users, e)
    ensures users[e.id := u] - {e.id} == users
  {
    assert (users[e.id := u] - {e.id}).Keys == users.Keys;
  }
}
