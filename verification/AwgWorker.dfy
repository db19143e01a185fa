/** The AmneziaWG worker: it brings the device's peers in line with the saved users. */
module AwgWorker {
  import opened Bytes
  import opened Ipv4
  import opened Pool
  import opened Accounts

  /** What the device is told about a peer. */
  datatype Conf = Conf(psk: nat, address: nat)

  type Peers = map<nat, Conf>

  predicate Enabled(u: User, now: int): (r: bool)
    ensures r ==> u.peer.Some?
  {
    !u.disabled && u.expires > now && Allows(u.protocols, Awg) && u.peer.Some?
  }

  function ConfOf(u: User): Conf
    requires u.peer.Some?
  {
    Conf(u.peer.value.psk, u.peer.value.address)
  }

  /** The peers are exactly those of the enabled users among `ids`, each with its own settings. */
  predicate Matches(peers: Peers, users: Users, ids: set<nat>, now: int)
    requires ids <= users.Keys
  {
    && (forall id :: id in ids && Enabled(users[id], now) ==>
          users[id].peer.value.key in peers && peers[users[id].peer.value.key] == ConfOf(users[id]))
    && (forall k :: k in peers ==> exists id :: id in ids && Enabled(users[id], now) && users[id].peer.value.key == k)
  }

  /** One peer is in order: an assignable address, and keys that are the text of 32 bytes;
      `garbled` are those keys of the file that are not. */
  predicate Fit(server: Prefix, p: Peer, garbled: set<nat>)
    requires ValidPrefix(server)
  {
    Assignable(server, p.address) && p.key !in garbled && p.psk !in garbled
  }

  /** The users whose peers the worker takes together: each in order, nothing shared. */
  predicate Accepts(server: Prefix, users: Users, ids: set<nat>, now: int, garbled: set<nat>)
    requires ValidPrefix(server) && ids <= users.Keys
  {
    && (forall id :: id in ids && Enabled(users[id], now) ==> Fit(server, users[id].peer.value, garbled))
    && (forall a, b :: a in ids && b in ids && a != b && Enabled(users[a], now) && Enabled(users[b], now) ==>
          && users[a].peer.value.address != users[b].peer.value.address
          && users[a].peer.value.key != users[b].peer.value.key)
  }

  lemma MatchesOne(p: Peers, q: Peers, users: Users, now: int)
    requires Matches(p, users, users.Keys, now) && Matches(q, users, users.Keys, now)
    ensures p == q
  {
    forall k | k in p ensures k in q && q[k] == p[k] {
      var id :| id in users.Keys && Enabled(users[id], now) && users[id].peer.value.key == k;
    }
    forall k | k in q ensures k in p {
      var id :| id in users.Keys && Enabled(users[id], now) && users[id].peer.value.key == k;
    }
  }

  /** The user is not disabled, not expired and has chosen AmneziaWG, and this is its peer's key. */
  ghost predicate Entitled(u: User, now: int, key: nat) {
    && !u.disabled && now < u.expires && u.protocols.Some? && Awg in u.protocols.value
    && u.peer.Some? && u.peer.value.key == key
  }

  /** Every peer is an entitled user's, and every entitled user's peer is there with the user's own
      pre-shared key and address. */
  ghost predicate Serves(peers: Peers, users: Users, now: int) {
    && (forall k :: k in peers ==> exists id :: id in users && Entitled(users[id], now, k))
    && (forall id, k :: id in users && Entitled(users[id], now, k) ==>
          k in peers && peers[k].psk == users[id].peer.value.psk && peers[k].address == users[id].peer.value.address)
  }

  lemma MatchesServes(peers: Peers, users: Users, now: int)
    requires Matches(peers, users, users.Keys, now)
    ensures Serves(peers, users, now) && forall p: Peers :: Matches(p, users, users.Keys, now) ==> p == peers
  {
    forall p: Peers | Matches(p, users, users.Keys, now) ensures p == peers { MatchesOne(p, peers, users, now); }
    forall k | k in peers ensures exists id :: id in users && Entitled(users[id], now, k) {
      var id :| id in users.Keys && Enabled(users[id], now) && users[id].peer.value.key == k;
      assert Entitled(users[id], now, k);
    }
    forall id, k | id in users && Entitled(users[id], now, k)
      ensures k in peers && peers[k].psk == users[id].peer.value.psk && peers[k].address == users[id].peer.value.address
    {
      assert id in users.Keys && Enabled(users[id], now);
    }
  }

  /** The peer of a user is unusable: its address is not strictly inside the server's network or is
      the server's own, or one of its keys is not the text of 32 bytes. */
  ghost predicate Unusable(server: Prefix, p: Peer, garbled: set<nat>)
    requires ValidPrefix(server)
  {
    || !(Base(server) < p.address < Base(server) + Size(server.bits) - 1) || p.address + 1 >= SPACE
    || p.address == server.addr || p.key in garbled || p.psk in garbled
  }

  /** Exactly which files the worker turns away: one with an entitled user whose peer is unusable, or
      with two entitled users that share an address or a key. */
  lemma TurnedAway(server: Prefix, users: Users, now: int, garbled: set<nat>)
    requires ValidServer(server)
    ensures !Accepts(server, users, users.Keys, now, garbled) <==>
      || (exists id, k :: id in users && Entitled(users[id], now, k) && Unusable(server, users[id].peer.value, garbled))
      || exists a, b, j, k ::
           && a in users && b in users && a != b && Entitled(users[a], now, j) && Entitled(users[b], now, k)
           && (j == k || users[a].peer.value.address == users[b].peer.value.address)
  {
    forall id | id in users && Enabled(users[id], now)
      ensures Entitled(users[id], now, users[id].peer.value.key)
      ensures Fit(server, users[id].peer.value, garbled) <==> !Unusable(server, users[id].peer.value, garbled)
    {
      AssignableRange(server, users[id].peer.value.address);
    }
    forall id, k | id in users && Entitled(users[id], now, k)
      ensures Enabled(users[id], now) && users[id].peer.value.key == k { }
    hide Fit, Unusable, Enabled, Entitled;
  }

  // ---------------------------------------------------------------- the store never offends

  /** No key in use is garbled. */
  predicate Clear(users: Users, garbled: set<nat>) {
    forall id :: id in users && users[id].peer.Some? ==>
      users[id].peer.value.key !in garbled && users[id].peer.value.psk !in garbled
  }

  /** New keys are written as the text of 32 bytes. */
  predicate WritesClear(es: seq<Attempt>, garbled: set<nat>) {
    es == [] || ((match es[0].edit
                  case Create(_, _, _, key, psk, _, _, _) => key !in garbled && psk !in garbled
                  case SetProtocols(_, _, _, key, psk) => key !in garbled && psk !in garbled
                  case _ => true) && WritesClear(es[1..], garbled))
  }

  lemma EditClear(server: Option<Prefix>, d: Data, e: Attempt, garbled: set<nat>)
    requires Configured(server) && Clear(d.users, garbled) && Clear(d.disk, garbled) && WritesClear([e], garbled)
    ensures var n := Apply(server, d, e.edit, e.saved); Clear(n.users, garbled) && Clear(n.disk, garbled)
  {
    hide Configured, NameFree, ValidName, ValidSelection, Allocated, Taken;
  }

  lemma {:induction false} RunClear(server: Option<Prefix>, d: Data, es: seq<Attempt>, garbled: set<nat>)
    requires Configured(server) && Clear(d.users, garbled) && Clear(d.disk, garbled) && WritesClear(es, garbled)
    ensures Clear(Run(server, d, es).disk, garbled)
    decreases |es|
  {
    if es != [] {
      assert WritesClear([es[0]], garbled) by { assert [es[0]][1..] == []; }
      EditClear(server, d, es[0], garbled);
      hide Clear, Apply, Configured;
      RunClear(server, Apply(server, d, es[0].edit, es[0].saved), es[1..], garbled);
    }
  }

  lemma ConsistentAccepted(server: Prefix, users: Users, now: int, garbled: set<nat>)
    requires ValidServer(server) && Consistent(Some(server), users) && Clear(users, garbled)
    ensures Accepts(server, users, users.Keys, now, garbled)
  {
    hide Assignable, ValidName, ValidSelection;
    forall a, b | a in users && b in users && a != b && Enabled(users[a], now) && Enabled(users[b], now)
      ensures users[a].peer.value.address != users[b].peer.value.address
      ensures users[a].peer.value.key != users[b].peer.value.key
    {
      assert Apart(users[a], users[b]);
    }
    forall id | id in users && Enabled(users[id], now) ensures Fit(server, users[id].peer.value, garbled) {
      assert GoodUser(Some(server), users[id]);
    }
  }

  lemma DiskConsistent(server: Option<Prefix>, d: Data)
    requires Configured(server) && Consistent(server, d.users) && Agree(d)
    ensures Consistent(server, d.disk)
  {
    hide Configured, ValidName, ValidSelection, Assignable;
    assert |d.disk| == |d.disk.Keys| == |d.users.Keys| == |d.users|;
    forall id | id in d.disk ensures GoodUser(server, d.disk[id]) {
      assert GoodUser(server, d.users[id]) && Durable(d.users[id]) == Durable(d.disk[id]);
    }
    forall a, b | a in d.disk && b in d.disk && a != b ensures Apart(d.disk[a], d.disk[b]) {
      assert Apart(d.users[a], d.users[b]) && Durable(d.users[a]) == Durable(d.disk[a])
        && Durable(d.users[b]) == Durable(d.disk[b]);
    }
  }

  /** Whatever edits were made and whichever saves failed, the saved file is one the worker
      accepts, at any time. */
  lemma {:induction false} StoreNeverRejected(server: Prefix, d: Data, es: seq<Attempt>, now: int, garbled: set<nat>)
    requires ValidServer(server) && Consistent(Some(server), d.users) && Agree(d) && Legal(Some(server), d, es)
    requires Clear(d.users, garbled) && Clear(d.disk, garbled) && WritesClear(es, garbled)
    ensures var saved := Run(Some(server), d, es).disk; Accepts(server, saved, saved.Keys, now, garbled)
  {
    StoreStaysConsistent(Some(server), d, es);
    RunClear(Some(server), d, es, garbled);
    DiskConsistent(Some(server), Run(Some(server), d, es));
    ConsistentAccepted(server, Run(Some(server), d, es).disk, now, garbled);
  }

  // ---------------------------------------------------------------- revocation reaches the device

  /** An edit that takes AmneziaWG from user `id`. */
  predicate TakesAwg(e: Edit, id: nat) {
    e == Delete(id) || (e.SetProtocols? && e.id == id && (e.disabled || Awg !in e.selection))
  }

  /** Later attempts that do not choose protocols for the user again, create no user of this name
      and give nobody else the key. */
  predicate Unrelated(es: seq<Attempt>, id: nat, key: nat) {
    forall i :: 0 <= i < |es| ==>
      && ((es[i].edit.SetProtocols? || es[i].edit.Create?) ==> es[i].edit.id != id && es[i].edit.key != key)
  }

  /** User `id` may not use AmneziaWG, and nobody else has the key. */
  ghost predicate Barred(users: Users, id: nat, key: nat) {
    && (id in users ==> users[id].disabled || users[id].protocols == None || Awg !in users[id].protocols.value)
    && forall other :: other in users && other != id && users[other].peer.Some? ==> users[other].peer.value.key != key
  }

  lemma BarredStays(server: Option<Prefix>, d: Data, e: Attempt, id: nat, key: nat)
    requires Configured(server) && Unrelated([e], id, key) && Barred(d.users, id, key) && Barred(d.disk, id, key)
    ensures var n := Apply(server, d, e.edit, e.saved); Barred(n.users, id, key) && Barred(n.disk, id, key)
  {
    assert [e][0] == e;
    ApplyDoes(server, d, e.edit, e.saved);
    hide Apply, Edited, Configured, Assignable, Taken;
  }

  lemma {:induction false} RunBarred(server: Option<Prefix>, d: Data, es: seq<Attempt>, id: nat, key: nat)
    requires Configured(server) && Unrelated(es, id, key) && Barred(d.users, id, key) && Barred(d.disk, id, key)
    ensures Barred(Run(server, d, es).disk, id, key)
    decreases |es|
  {
    if es != [] {
      assert Unrelated([es[0]], id, key) && Unrelated(es[1..], id, key);
      BarredStays(server, d, es[0], id, key);
      hide Barred, Apply, Configured, Unrelated;
      RunBarred(server, Apply(server, d, es[0].edit, es[0].saved), es[1..], id, key);
    }
  }

  /** From the admin's edit to the device: once an edit that takes AmneziaWG from a user is saved,
      a worker that brings the device in line with the file leaves the user's key off it, at once
      and after any further edits until the user's protocols are chosen again. */
  lemma RevokedLeavesDevice(server: Option<Prefix>, d: Data, before: seq<Attempt>, e: Edit, after: seq<Attempt>,
                            id: nat, peers: Peers, now: int)
    requires Configured(server) && Consistent(server, d.users) && Agree(d) && Legal(server, d, before)
    requires var w := Run(server, d, before);
      && TakesAwg(e, id) && FreshFor(w.users, e) && Edited(server, w.users, e).Some?
      && w.users[id].peer.Some? && Unrelated(after, id, w.users[id].peer.value.key)
    requires Serves(peers, Run(server, Apply(server, Run(server, d, before), e, true), after).disk, now)
    ensures Run(server, d, before).users[id].peer.value.key !in peers
  {
    StoreStaysConsistent(server, d, before);
    var w := Run(server, d, before);
    var key := w.users[id].peer.value.key;
    var n := Apply(server, w, e, true);
    EditBars(server, w, e, id);
    hide Consistent, Apply, Edited, Barred, Unrelated, Configured, FreshFor;
    RunBarred(server, n, after, id, key);
    BarredNotServed(Run(server, n, after).disk, id, key, peers, now);
  }

  lemma EditBars(server: Option<Prefix>, d: Data, e: Edit, id: nat)
    requires Configured(server) && Consistent(server, d.users) && TakesAwg(e, id)
    requires id in d.users && d.users[id].peer.Some? && Edited(server, d.users, e).Some?
    ensures var n := Apply(server, d, e, true);
      Barred(n.users, id, d.users[id].peer.value.key) && Barred(n.disk, id, d.users[id].peer.value.key)
  {
    ApplyDoes(server, d, e, true);
    hide Apply, Edited, Configured, GoodUser;
    forall other | other in d.users && other != id && d.users[other].peer.Some?
      ensures d.users[other].peer.value.key != d.users[id].peer.value.key
    {
      assert Apart(d.users[other], d.users[id]);
    }
  }

  lemma BarredNotServed(users: Users, id: nat, key: nat, peers: Peers, now: int)
    requires Barred(users, id, key) && Serves(peers, users, now)
    ensures key !in peers
  {
  }

  // ---------------------------------------------------------------- the device and the worker

  datatype Call = Setup(identity: nat) | Remove(key: nat) | Put(key: nat, conf: Conf)

  /** The peers after a successful call. */
  function Effect(peers: Peers, c: Call): Peers {
    match c
    case Setup(_) => peers
    case Remove(k) => peers - {k}
    case Put(k, conf) => peers[k := conf]
  }

  /** The part of the device the worker controls; `working` more calls will succeed. */
  class Device {
    var peers: Peers
    var calls: seq<Call>
    var working: nat

    method IpcSet(c: Call) returns (ok: bool)
      modifies this
      ensures ok <==> old(working) > 0
      ensures ok ==> calls == old(calls) + [c] && peers == Effect(old(peers), c) && working == old(working) - 1
      ensures !ok ==> unchanged(this)
    {
      if working == 0 { return false; }
      working, calls := working - 1, calls + [c];
      match c {
        case Setup(_) => { }
        case Remove(k) => { peers := peers - {k}; }
        case Put(k, conf) => { peers := peers[k := conf]; }
      }
      return true;
    }
  }

  datatype Outcome = Applied | Rejected | Broken

  function At(peers: Peers, k: nat): Option<Conf> { if k in peers then Some(peers[k]) else None }

  predicate Removals(was: Peers, want: Peers, cs: seq<Call>) {
    forall i :: 0 <= i < |cs| ==> cs[i].Remove? && cs[i].key in was && cs[i].key !in want
  }

  predicate Puts(was: Peers, want: Peers, cs: seq<Call>) {
    forall i :: 0 <= i < |cs| ==>
      cs[i].Put? && At(want, cs[i].key) == Some(cs[i].conf) && At(was, cs[i].key) != Some(cs[i].conf)
  }

  /** Each peer is as it was or as it should be. */
  ghost predicate Between(was: Peers, want: Peers, now: Peers) {
    forall k :: At(now, k) == At(was, k) || At(now, k) == At(want, k)
  }

  /** Builds the wanted peers, or rejects the users. */
  method Wanted(server: Prefix, users: Users, now: int, garbled: set<nat>) returns (want: Option<Peers>)
    requires ValidPrefix(server)
    ensures want.Some? <==> Accepts(server, users, users.Keys, now, garbled)
    ensures want.Some? ==> Matches(want.value, users, users.Keys, now)
  {
    hide Fit, Allows;
    var peers: Peers := map[];
    var used: set<nat> := {};
    var left := users.Keys;
    while left != {}
      invariant left <= users.Keys
      invariant Accepts(server, users, users.Keys - left, now, garbled) && Matches(peers, users, users.Keys - left, now)
      invariant Uses(used, users, users.Keys - left, now)
      decreases |left|
    {
      var id :| id in left;
      var u := users[id];
      if Enabled(u, now) {
        var p := u.peer.value;
        if !Fit(server, p, garbled) || p.address in used || p.key in peers {
          RejectedFor(server, users, users.Keys - left, now, garbled, id, peers, used);
          return None;
        }
        AcceptOne(server, users, users.Keys - left, now, garbled, id, peers, used);
        used, peers := used + {p.address}, peers[p.key := Conf(p.psk, p.address)];
      } else {
        SkipOne(server, users, users.Keys - left, now, garbled, id, peers, used);
      }
      assert users.Keys - (left - {id}) == (users.Keys - left) + {id};
      left := left - {id};
    }
    assert users.Keys - {} == users.Keys;
    return Some(peers);
  }

  ghost predicate Uses(used: set<nat>, users: Users, ids: set<nat>, now: int)
    requires ids <= users.Keys
  {
    forall q :: q in used <==> exists id :: id in ids && Enabled(users[id], now) && users[id].peer.value.address == q
  }

  lemma RejectedFor(server: Prefix, users: Users, ids: set<nat>, now: int, garbled: set<nat>, id: nat, peers: Peers,
          used: set<nat>)
    requires ValidPrefix(server) && ids <= users.Keys && id in users && id !in ids && Enabled(users[id], now)
    requires Matches(peers, users, ids, now) && Uses(used, users, ids, now)
    requires var p := users[id].peer.value; !Fit(server, p, garbled) || p.address in used || p.key in peers
    ensures !Accepts(server, users, users.Keys, now, garbled)
  {
    hide Fit, Allows;
    var p := users[id].peer.value;
    if p.address in used {
      var other :| other in ids && Enabled(users[other], now) && users[other].peer.value.address == p.address;
    } else if p.key in peers {
      var other :| other in ids && Enabled(users[other], now) && users[other].peer.value.key == p.key;
    }
  }

  lemma AcceptOne(server: Prefix, users: Users, ids: set<nat>, now: int, garbled: set<nat>, id: nat, peers: Peers,
          used: set<nat>)
    requires ValidPrefix(server) && ids <= users.Keys && id in users && id !in ids && Enabled(users[id], now)
    requires Accepts(server, users, ids, now, garbled) && Matches(peers, users, ids, now) && Uses(used, users, ids, now)
    requires var p := users[id].peer.value; Fit(server, p, garbled) && p.address !in used && p.key !in peers
    ensures var p := users[id].peer.value; var more := ids + {id};
      && Accepts(server, users, more, now, garbled) && Matches(peers[p.key := Conf(p.psk, p.address)], users, more, now)
      && Uses(used + {p.address}, users, more, now)
  {
    hide Fit, Allows;
    var p, more := users[id].peer.value, ids + {id};
    var next := peers[p.key := Conf(p.psk, p.address)];
    forall k | k in next
      ensures exists o :: o in more && Enabled(users[o], now) && users[o].peer.value.key == k
    {
      if k == p.key {
        assert id in more;
      } else {
        var o :| o in ids && Enabled(users[o], now) && users[o].peer.value.key == k;
        assert o in more;
      }
    }
    UsesMore(users, ids, now, id, used);
  }

  lemma UsesMore(users: Users, ids: set<nat>, now: int, id: nat, used: set<nat>)
    requires ids <= users.Keys && id in users && id !in ids && Enabled(users[id], now) && Uses(used, users, ids, now)
    ensures Uses(used + {users[id].peer.value.address}, users, ids + {id}, now)
  {
    hide Enabled;
    var a, more := users[id].peer.value.address, ids + {id};
    forall q
      ensures q in used + {a} <==> exists o :: o in more && Enabled(users[o], now) && users[o].peer.value.address == q
    {
      if q == a {
        assert id in more;
      } else if q in used {
        var o :| o in ids && Enabled(users[o], now) && users[o].peer.value.address == q;
        assert o in more;
      }
    }
  }

  lemma SkipOne(server: Prefix, users: Users, ids: set<nat>, now: int, garbled: set<nat>, id: nat, peers: Peers,
          used: set<nat>)
    requires ValidPrefix(server) && ids <= users.Keys && id in users && !Enabled(users[id], now)
    requires Accepts(server, users, ids, now, garbled) && Matches(peers, users, ids, now) && Uses(used, users, ids, now)
    ensures var more := ids + {id};
      Accepts(server, users, more, now, garbled) && Matches(peers, users, more, now) && Uses(used, users, more, now)
  {
    hide Fit, Enabled;
    var more := ids + {id};
    forall k | k in peers
      ensures exists o :: o in more && Enabled(users[o], now) && users[o].peer.value.key == k
    {
      var o :| o in ids && Enabled(users[o], now) && users[o].peer.value.key == k;
      assert o in more;
    }
    forall q
      ensures q in used <==> exists o :: o in more && Enabled(users[o], now) && users[o].peer.value.address == q
    {
      if q in used {
        var o :| o in ids && Enabled(users[o], now) && users[o].peer.value.address == q;
        assert o in more;
      }
    }
  }

  class Worker {
    const server: Prefix
    const device: Device
    var identity: Option<nat>
    var peers: Peers

    /** The worker's own table is the device's. */
    ghost predicate Valid()
      reads this, device
    {
      ValidPrefix(server) && peers == device.peers
    }

    constructor (server: Prefix, device: Device)
      requires ValidPrefix(server) && device.peers == map[]
      ensures Valid() && this.server == server && this.device == device && identity == None
    {
      this.server, this.device := server, device;
      identity, peers := None, map[];
    }

    /** Removes the peers that are no longer wanted. */
    method RemoveRevoked(want: Peers) returns (ok: bool, ghost cs: seq<Call>)
      requires Valid()
      modifies this`peers, device
      ensures Valid() && Between(old(peers), want, peers)
      ensures ok ==> peers.Keys <= want.Keys
      ensures !ok ==> device.working == 0
      ensures device.calls == old(device.calls) + cs && Removals(old(peers), want, cs)
    {
      var left := peers.Keys;
      cs := [];
      while left != {}
        invariant Valid() && left <= peers.Keys
        invariant forall k :: At(peers, k) == if k in left || k in want then At(old(peers), k) else None
        invariant device.calls == old(device.calls) + cs && Removals(old(peers), want, cs)
        decreases |left|
      {
        var k :| k in left;
        if k !in want {
          ok := device.IpcSet(Remove(k));
          if !ok { return; }
          peers := peers - {k};
          cs := cs + [Remove(k)];
        }
        left := left - {k};
      }
      forall k | k in peers ensures k in want { assert At(peers, k) != None; }
      return true, cs;
    }

    /** Sets the wanted peers that are missing or different. */
    method SetChanged(want: Peers) returns (ok: bool, ghost cs: seq<Call>)
      requires Valid() && peers.Keys <= want.Keys
      modifies this`peers, device
      ensures Valid() && Between(old(peers), want, peers)
      ensures ok ==> peers == want
      ensures !ok ==> device.working == 0
      ensures device.calls == old(device.calls) + cs && Puts(old(peers), want, cs)
    {
      var left := want.Keys;
      cs := [];
      while left != {}
        invariant Valid() && left <= want.Keys
        invariant forall k :: At(peers, k) == if k in left then At(old(peers), k) else At(want, k)
        invariant device.calls == old(device.calls) + cs && Puts(old(peers), want, cs)
        decreases |left|
      {
        var k :| k in left;
        assert At(peers, k) == At(old(peers), k);
        if k !in peers || peers[k] != want[k] {
          ok := device.IpcSet(Put(k, want[k]));
          if !ok { return; }
          peers := peers[k := want[k]];
          cs := cs + [Put(k, want[k])];
        }
        left := left - {k};
      }
      SamePeers(peers, want);
      return true, cs;
    }

    /** First the removals, then the changes; up to a call that fails. */
    method Bring(want: Peers) returns (ok: bool, ghost removed: seq<Call>, ghost changed: seq<Call>)
      requires Valid()
      modifies this`peers, device
      ensures Valid() && Between(old(peers), want, peers)
      ensures ok ==> peers == want
      ensures !ok ==> device.working == 0
      ensures device.calls == old(device.calls) + removed + changed
      ensures Removals(old(peers), want, removed) && Puts(old(peers), want, changed)
      ensures changed != [] ==> forall k :: k in peers ==> k in want
    {
      changed := [];
      ok, removed := RemoveRevoked(want);
      if !ok { return; }
      ghost var mid := peers;
      ok, changed := SetChanged(want);
      PutsFromOld(old(peers), want, mid, changed);
      BetweenTwice(old(peers), want, mid, peers);
      forall k | k in peers ensures k in want { assert At(peers, k) != None; }
    }

    /** Brings the device in line with the saved users. Even when a call fails part way, the
        worker's table equals the device, no peer has settings other than its old or its
        wanted ones, and no unchanged peer was touched. */
    method Apply(given: Option<nat>, users: Users, now: int, garbled: set<nat>)
      returns (r: Outcome, ghost want: Peers, ghost removed: seq<Call>, ghost changed: seq<Call>)
      requires Valid()
      modifies this, device
      ensures Valid()
      ensures r.Rejected? <==> (given.None? || (old(identity).Some? && old(identity) != given)
        || (old(identity).None? && given.value in garbled)
        || (identity == given && !Accepts(server, users, users.Keys, now, garbled)))
      ensures r.Rejected? ==> peers == old(peers)
      ensures r.Broken? ==> device.working == 0
      ensures r.Applied? ==> identity == given && Matches(device.peers, users, users.Keys, now)
      ensures r.Applied? ==> Serves(device.peers, users, now)
      ensures r.Applied? ==> forall p: Peers :: Matches(p, users, users.Keys, now) ==> p == device.peers
      ensures !r.Rejected? && identity.Some? ==>
        Matches(want, users, users.Keys, now) && Between(old(peers), want, peers)
      ensures var setup := if old(identity).None? && identity.Some? then [Setup(identity.value)] else [];
        device.calls == old(device.calls) + setup + removed + changed
      ensures Removals(old(peers), want, removed) && Puts(old(peers), want, changed)
      ensures changed != [] ==> forall k :: k in peers ==> k in want
    {
      want, removed, changed := map[], [], [];
      if given.None? { return Rejected, want, removed, changed; }
      if identity.None? {
        if given.value in garbled { return Rejected, want, removed, changed; }
        var ok := device.IpcSet(Setup(given.value));
        if !ok { return Broken, want, removed, changed; }
        identity := given;
      } else if identity != given {
        return Rejected, want, removed, changed;
      }
      var wanted := Wanted(server, users, now, garbled);
      if wanted.None? { return Rejected, want, removed, changed; }
      want := wanted.value;
      hide Accepts, Matches, Removals, Puts, Between;
      var ok;
      ok, removed, changed := Bring(wanted.value);
      if !ok { return Broken, want, removed, changed; }
      MatchesServes(device.peers, users, now);
      hide Serves;
      return Applied, want, removed, changed;
    }
  }

  lemma SamePeers(p: Peers, q: Peers)
    requires forall k :: At(p, k) == At(q, k)
    ensures p == q
  {
    forall k ensures k in p <==> k in q { assert At(p, k) == At(q, k); }
    forall k | k in p ensures p[k] == q[k] { assert At(p, k) == At(q, k); }
  }

  lemma PutsFromOld(was: Peers, want: Peers, mid: Peers, cs: seq<Call>)
    requires Between(was, want, mid) && Puts(mid, want, cs)
    ensures Puts(was, want, cs)
  {
    forall i | 0 <= i < |cs|
      ensures At(was, cs[i].key) != Some(cs[i].conf)
    {
      var k := cs[i].key;
      assert At(mid, k) == At(was, k) || At(mid, k) == At(want, k);
    }
  }

  lemma BetweenTwice(was: Peers, want: Peers, mid: Peers, now: Peers)
    requires Between(was, want, mid) && Between(mid, want, now)
    ensures Between(was, want, now)
  {
    forall k ensures At(now, k) == At(was, k) || At(now, k) == At(want, k) {
      assert At(mid, k) == At(was, k) || At(mid, k) == At(want, k);
    }
  }
}
