/** The profile the server prints for a user, and that the client's parser reads it back. */
module AwgProfile {
  import opened Bytes
  import opened Text
  import opened AwgConfig
  import Ipv4
  import Pool

  datatype Server = Server(endpoint: string, net: Ipv4.Prefix, dns: string, allowed: seq<string>, mtu: nat)

  /** The server's public key and its four header numbers. */
  datatype Identity = Identity(public: bytes, headers: seq<nat>)

  datatype Member = Member(secret: bytes, psk: bytes, address: Ipv4.address)

  // ---------------------------------------------------------------- what the server checks

  predicate HostAllowed(h: string) {
    h != [] && forall i :: 0 <= i < |h| ==> h[i] !in {'\r', '\n', '\t', ' ', ';', '#'}
  }

  predicate EndpointValid(lib: Library, e: string) {
    match lib.hostPort(e)
    case None => false
    case Some((h, p)) => HostAllowed(h) && Signed(p).Some? && 1 <= Signed(p).value <= 65535
  }

  predicate IsV4(n: Option<Net>) { n.Some? && n.value.V4? }

  predicate Validated(lib: Library, s: Server) {
    && EndpointValid(lib, s.endpoint) && Pool.ValidServer(s.net) && IsV4(lib.address(s.dns))
    && 1280 <= s.mtu <= 1420 && s.allowed != [] && forall i :: 0 <= i < |s.allowed| ==> IsV4(lib.prefix(s.allowed[i]))
  }

  predicate ValidIdentity(id: Identity) {
    |id.public| == 32 && |id.headers| == 4 && forall i :: 0 <= i < 4 ==> id.headers[i] <= 0xffff_ffff
  }

  predicate ValidMember(m: Member) { |m.secret| == 32 && |m.psk| == 32 }

  predicate NonZero(b: bytes) { exists i :: 0 <= i < |b| && b[i] != 0 }

  // ---------------------------------------------------------------- what the server prints

  function Numbers(id: Identity): seq<(Key, nat)>
    requires ValidIdentity(id)
  {
    [(Jc, 5), (Jmin, 50), (Jmax, 1000), (S1, 134), (S2, 90),
     (H1, id.headers[0]), (H2, id.headers[1]), (H3, id.headers[2]), (H4, id.headers[3])]
  }

  function NumberFields(ps: seq<(Key, nat)>): seq<Entry> {
    if ps == [] then [] else [Field(ps[0].0, Show(ps[0].1))] + NumberFields(ps[1..])
  }

  function Join(ss: seq<string>): string
    requires ss != []
  {
    if |ss| == 1 then ss[0] else ss[0] + ", " + Join(ss[1..])
  }

  function PlaceFields(lib: Library, s: Server, m: Member): seq<Entry> {
    [Field(Address, lib.show(m.address) + "/32"), Field(Dns, s.dns), Field(Mtu, Show(s.mtu))]
  }

  function InterfacePart(lib: Library, s: Server, m: Member): seq<Entry> {
    [Heading(Interface)] + ([Field(PrivateKey, lib.encodeKey(m.secret))] + PlaceFields(lib, s, m))
  }

  function PeerFields(lib: Library, s: Server, m: Member): seq<Entry>
    requires s.allowed != []
  {
    [Field(PresharedKey, lib.encodeKey(m.psk))]
    + [Field(AllowedIps, Join(s.allowed)), Field(Endpoint, s.endpoint), Field(Keepalive, Show(25))]
  }

  function PeerPart(lib: Library, s: Server, id: Identity, m: Member): seq<Entry>
    requires s.allowed != []
  {
    [Empty] + ([Heading(Peer)] + ([Field(PublicKey, lib.encodeKey(id.public))] + PeerFields(lib, s, m)))
  }

  function Entries(lib: Library, s: Server, id: Identity, m: Member): seq<Entry>
    requires s.allowed != [] && ValidIdentity(id)
  {
    InterfacePart(lib, s, m) + NumberFields(Numbers(id)) + PeerPart(lib, s, id, m)
  }

  /** The profile text. */
  function Client(lib: Library, s: Server, id: Identity, m: Member): string
    requires s.allowed != [] && ValidIdentity(id)
  {
    Render(Entries(lib, s, id, m))
  }

  // ---------------------------------------------------------------- what the client should read

  function WithNumbers(params: map<Key, nat>, ps: seq<(Key, nat)>): map<Key, nat>
    decreases |ps|
  {
    if ps == [] then params else WithNumbers(params[ps[0].0 := ps[0].1], ps[1..])
  }

  function MaskedAll(lib: Library, ss: seq<string>): seq<Ipv4.Prefix>
    requires Legible(lib, ss)
  {
    if ss == [] then [] else [Masked(lib.prefix(ss[0]).value.net)] + MaskedAll(lib, ss[1..])
  }

  /** Prefix texts the library reads as valid IPv4 prefixes. */
  predicate Legible(lib: Library, ss: seq<string>) {
    forall i :: 0 <= i < |ss| ==>
      IsV4(lib.prefix(ss[i])) && Ipv4.ValidPrefix(lib.prefix(ss[i]).value.net) && Plain(ss[i])
  }

  function Expected(lib: Library, s: Server, id: Identity, m: Member): Config
    requires Validated(lib, s) && ValidIdentity(id) && Legible(lib, s.allowed)
  {
    Config(Some(m.secret), Some(id.public), Some(m.psk), Some(m.address),
           Some(lib.address(s.dns).value.net.addr), s.mtu,
           Some(s.endpoint), MaskedAll(lib, s.allowed), false, WithNumbers(map[], Numbers(id)), Some(25))
  }

  // ---------------------------------------------------------------- acting on a list of entries

  lemma {:induction false} ActsAppend(lib: Library, st: State, a: seq<Entry>, b: seq<Entry>)
    ensures Acts(lib, st, a + b) == var mid := Acts(lib, st, a); if mid.None? then None else Acts(lib, mid.value, b)
    decreases |a|
  {
    hide Act;
    if a == [] {
      assert a + b == b;
    } else {
      assert (a + b)[1..] == a[1..] + b;
      var n := Act(lib, st, a[0]);
      if n.Some? { ActsAppend(lib, n.value, a[1..], b); }
    }
  }

  lemma ActsOne(lib: Library, st: State, e: Entry, more: seq<Entry>)
    ensures Acts(lib, st, [e] + more) == var n := Act(lib, st, e); if n.None? then None else Acts(lib, n.value, more)
  {
    hide Act;
    assert ([e] + more)[1..] == more;
  }

  /** The place of a numeric parameter in every list of them. */
  function Rank(k: Key): int {
    match k
    case Jc => 0
    case Jmin => 1
    case Jmax => 2
    case S1 => 3
    case S2 => 4
    case H1 => 5
    case H2 => 6
    case H3 => 7
    case H4 => 8
    case _ => -1
  }

  predicate Ranked(ps: seq<(Key, nat)>, base: nat) { forall i :: 0 <= i < |ps| ==> Rank(ps[i].0) == base + i }

  predicate InLimits(ps: seq<(Key, nat)>) {
    forall i :: 0 <= i < |ps| ==> Limit(ps[i].0).Some? && ps[i].1 <= Limit(ps[i].0).value
  }

  function KeysOf(ps: seq<(Key, nat)>): set<Key> { if ps == [] then {} else {ps[0].0} + KeysOf(ps[1..]) }

  lemma {:induction false} KeysRanked(ps: seq<(Key, nat)>, base: nat)
    requires Ranked(ps, base)
    ensures forall k :: k in KeysOf(ps) ==> base <= Rank(k)
    decreases |ps|
  {
    hide Rank;
    if ps != [] {
      TailRanked(ps, base);
      KeysRanked(ps[1..], base + 1);
    }
  }

  lemma TailRanked(ps: seq<(Key, nat)>, base: nat)
    requires ps != [] && Ranked(ps, base)
    ensures Ranked(ps[1..], base + 1)
  {
    hide Rank;
    assert forall i :: 0 <= i < |ps[1..]| ==> ps[1..][i] == ps[i + 1];
  }

  lemma NumbersFit(id: Identity)
    requires ValidIdentity(id)
    ensures InLimits(Numbers(id)) && Ranked(Numbers(id), 0)
  {
  }

  lemma ShowIsSolid(n: nat)
    ensures Printable(Show(n)) && TrimLeft(Show(n)) == Show(n)
  {
    var s := Show(n);
    hide Show;
    assert Digit(s[0]) by { assert s[0] in s; }
    assert Digit(s[|s| - 1]) by { assert s[|s| - 1] in s; }
    assert '\n' !in s && '#' !in s;
  }

  lemma NumberActs(lib: Library, st: State, k: Key, n: nat)
    requires Limit(k).Some? && n <= Limit(k).value && k !in st.seen
    ensures Act(lib, st, Field(k, Show(n)))
         == Some(st.(seen := st.seen + {k}, config := st.config.(params := st.config.params[k := n])))
  {
    ShowIsSolid(n);
    DecimalShow(n);
    hide Show, Decimal, TrimLeft;
    assert Assign(lib, st.config, k, Show(n)) == SetParameter(st.config, k, Show(n));
  }

  lemma {:induction false} NumbersAct(lib: Library, st: State, ps: seq<(Key, nat)>, base: nat)
    requires InLimits(ps) && Ranked(ps, base) && forall k :: k in st.seen ==> Rank(k) < base
    ensures Acts(lib, st, NumberFields(ps))
         == Some(st.(seen := st.seen + KeysOf(ps), config := st.config.(params := WithNumbers(st.config.params, ps))))
    decreases |ps|
  {
    hide Act, Limit, Show, Rank;
    if ps == [] {
      assert st.seen + {} == st.seen;
    } else {
      var k, n := ps[0].0, ps[0].1;
      NumberActs(lib, st, k, n);
      var next := st.(seen := st.seen + {k}, config := st.config.(params := st.config.params[k := n]));
      TailRanked(ps, base);
      assert InLimits(ps[1..]) by { assert forall i :: 0 <= i < |ps[1..]| ==> ps[1..][i] == ps[i + 1]; }
      NumbersAct(lib, next, ps[1..], base + 1);
      ActsOne(lib, st, Field(k, Show(n)), NumberFields(ps[1..]));
      assert next.seen + KeysOf(ps[1..]) == st.seen + KeysOf(ps);
    }
  }

  // ---------------------------------------------------------------- the values on their lines

  lemma PlainIs(s: string)
    requires Plain(s)
    ensures Printable(s) && TrimLeft(s) == s && Solid(s) && ',' !in s && Split(s, ',') == [s]
  {
    assert ',' !in s;
    SplitNone(s, ',');
  }

  lemma AddressText(lib: Library, a: Ipv4.address)
    requires Faithful(lib)
    ensures Plain(lib.show(a) + "/32") && '/' in lib.show(a) + "/32"
  {
    var t := lib.show(a);
    assert Plain(t);
    assert (t + "/32")[|t|] == '/';
  }

  lemma AddressActs(lib: Library, c: Config, a: Ipv4.address)
    requires Faithful(lib) && c.address.None?
    ensures Printable(lib.show(a) + "/32") && TrimLeft(lib.show(a) + "/32") == lib.show(a) + "/32"
    ensures Assign(lib, c, Address, lib.show(a) + "/32") == Some(c.(address := Some(a)))
  {
    var v := lib.show(a) + "/32";
    AddressText(lib, a);
    PlainIs(v);
    TrimSolid(v);
    assert lib.prefix(v) == Some(V4(Ipv4.Prefix(a, 32)));
    hide Faithful, Split, Trim, TrimLeft, Plain, Printable, Solid;
    var d := c.(address := Some(a));
    assert [v][1..] == [];
    assert Addresses(lib, d, []) == Some(d);
    assert Addresses(lib, c, [v]) == Addresses(lib, d, [v][1..]);
  }

  lemma KeyActs(lib: Library, b: bytes)
    requires Faithful(lib) && |b| == 32
    ensures Printable(lib.encodeKey(b)) && TrimLeft(lib.encodeKey(b)) == lib.encodeKey(b)
    ensures KeyBytes(lib, lib.encodeKey(b)) == if NonZero(b) then Some(b) else None
  {
    PlainIs(lib.encodeKey(b));
  }

  lemma EndpointText(lib: Library, e: string)
    requires Faithful(lib) && EndpointValid(lib, e)
    ensures Printable(e)
  {
    var (h, p) := lib.hostPort(e).value;
    SignedChars(p);
    hide Signed;
    assert e == h + ":" + p || e == "[" + h + "]:" + p;
    assert e[|e| - 1] == p[|p| - 1];
    forall i | 0 <= i < |e| ensures e[i] != '\n' && e[i] != '#' {
      if e[i] in h { var j :| 0 <= j < |h| && h[j] == e[i]; }
      assert e[i] in h || e[i] in p || e[i] == ':' || e[i] == '[' || e[i] == ']';
    }
  }

  lemma EndpointReads(lib: Library, e: string)
    requires EndpointValid(lib, e)
    ensures EndpointHost(lib, e) == Some(lib.hostPort(e).value.0)
  {
    hide Signed;
    var h := lib.hostPort(e).value.0;
    assert forall c :: c in h ==> c !in {'\r', '\n', '\t', ' ', ';', '#'};
  }

  lemma JoinText(lib: Library, ss: seq<string>)
    requires ss != [] && Legible(lib, ss)
    ensures Printable(Join(ss)) && !Space(Join(ss)[0])
  {
    assert Plain(ss[0]);
    PlainIs(ss[0]);
    if |ss| > 1 {
      LegibleRest(lib, ss);
      JoinText(lib, ss[1..]);
      hide Join, Space;
      assert Join(ss) == ss[0] + ", " + Join(ss[1..]) by { JoinStep(ss); }
    } else {
      assert Join(ss) == ss[0];
    }
  }

  lemma JoinStep(ss: seq<string>)
    requires |ss| > 1
    ensures Join(ss) == ss[0] + ", " + Join(ss[1..])
  {
  }

  lemma LegibleRest(lib: Library, ss: seq<string>)
    requires ss != [] && Legible(lib, ss)
    ensures Legible(lib, ss[1..])
  {
    forall i | 0 <= i < |ss[1..]|
      ensures IsV4(lib.prefix(ss[1..][i])) && Ipv4.ValidPrefix(lib.prefix(ss[1..][i]).value.net) && Plain(ss[1..][i])
    {
      assert ss[1..][i] == ss[i + 1];
    }
  }

  lemma FirstAllowed(lead: string, first: string, more: string)
    requires Plain(first) && (lead == "" || lead == " ")
    ensures ',' !in lead + first && Trim(lead + first) == first
    ensures lead + (first + ", " + more) == (lead + first) + [','] + ([' '] + more)
  {
    PlainIs(first);
    if lead == "" {
      assert lead + first == first;
      TrimSolid(first);
    } else {
      assert lead == [' '];
      TrimIndented(first);
    }
  }

  lemma AllowOne(lib: Library, c: Config, s: string, text: string, more: seq<string>)
    requires Trim(text) == s && IsV4(lib.prefix(s)) && Ipv4.ValidPrefix(lib.prefix(s).value.net)
    ensures Allowances(lib, c, [text] + more)
         == Allowances(lib, c.(allowed := c.allowed + [Masked(lib.prefix(s).value.net)]), more)
  {
    hide Trim, Masked;
    assert ([text] + more)[1..] == more;
  }

  lemma NetsAssoc(a: seq<Ipv4.Prefix>, b: seq<Ipv4.Prefix>, c: seq<Ipv4.Prefix>)
    ensures a + b + c == a + (b + c)
  {
  }

  /** The joined list, split at its commas and trimmed, is the list. */
  lemma {:induction false} AllowedRead(lib: Library, c: Config, ss: seq<string>, lead: string)
    requires ss != [] && Legible(lib, ss) && (lead == "" || lead == " ")
    ensures Allowances(lib, c, Split(lead + Join(ss), ',')) == Some(c.(allowed := c.allowed + MaskedAll(lib, ss)))
    decreases |ss|
  {
    var first := ss[0];
    assert IsV4(lib.prefix(first)) && Ipv4.ValidPrefix(lib.prefix(first).value.net) && Plain(first);
    var net := Masked(lib.prefix(first).value.net);
    var next := c.(allowed := c.allowed + [net]);
    LegibleRest(lib, ss);
    hide Split, Plain, Trim, Masked, Ipv4.ValidPrefix;
    if |ss| == 1 {
      FirstAllowed(lead, first, "");
      SplitNone(lead + first, ',');
      AllowOne(lib, c, first, lead + first, []);
      assert [lead + first] + [] == [lead + first];
      assert ss[1..] == [] && Join(ss) == first;
      assert MaskedAll(lib, ss) == [net] + MaskedAll(lib, []) == [net];
      assert Allowances(lib, next, []) == Some(next);
    } else {
      var more := [' '] + Join(ss[1..]);
      FirstAllowed(lead, first, Join(ss[1..]));
      SplitFirst(lead + first, ',', more);
      AllowOne(lib, c, first, lead + first, Split(more, ','));
      AllowedRead(lib, next, ss[1..], " ");
      NetsAssoc(c.allowed, [net], MaskedAll(lib, ss[1..]));
    }
  }

  // ---------------------------------------------------------------- the three parts

  lemma FieldActs(lib: Library, st: State, k: Key, v: string, c: Option<Config>)
    requires k !in st.seen && Assign(lib, st.config, k, TrimLeft(v)) == c
    ensures Act(lib, st, Field(k, v)) == if c.None? then None else Some(st.(seen := st.seen + {k}, config := c.value))
  {
    hide Assign, TrimLeft;
  }

  function AfterInterface(lib: Library, s: Server, m: Member, st: State): State
    requires IsV4(lib.address(s.dns))
  {
    State(Some(Interface), st.sections + {Interface}, st.seen + {PrivateKey} + {Address} + {Dns} + {Mtu},
          st.config.(secret := Some(m.secret), address := Some(m.address),
                     dns := Some(lib.address(s.dns).value.net.addr), mtu := s.mtu))
  }

  lemma DnsActs(lib: Library, c: Config, v: string)
    requires Faithful(lib) && IsV4(lib.address(v))
    ensures Printable(v) && TrimLeft(v) == v
      && Assign(lib, c, Dns, v) == Some(c.(dns := Some(lib.address(v).value.net.addr)))
  {
    PlainIs(v);
  }

  lemma MtuActs(lib: Library, c: Config, n: nat)
    requires 1280 <= n <= 1420
    ensures Assign(lib, c, Mtu, Show(n)) == Some(c.(mtu := n))
  {
    SignedShow(n);
    hide Signed, Show;
  }

  lemma PlaceActs(lib: Library, s: Server, m: Member, st: State)
    requires Faithful(lib) && Validated(lib, s) && st.config.address.None? && Address !in st.seen && Dns !in st.seen
      && Mtu !in st.seen
    ensures Acts(lib, st, PlaceFields(lib, s, m))
         == Some(st.(seen := st.seen + {Address} + {Dns} + {Mtu},
                     config := st.config.(address := Some(m.address), dns := Some(lib.address(s.dns).value.net.addr),
                       mtu := s.mtu)))
  {
    var c, addr := st.config, lib.show(m.address) + "/32";
    AddressActs(lib, c, m.address);
    var c1 := c.(address := Some(m.address));
    DnsActs(lib, c1, s.dns);
    var c2 := c1.(dns := Some(lib.address(s.dns).value.net.addr));
    MtuActs(lib, c2, s.mtu);
    ShowIsSolid(s.mtu);
    hide Act, Acts, Assign, TrimLeft, Show, Faithful, Validated, Printable;
    var st1 := st.(seen := st.seen + {Address}, config := c1);
    var st2 := st1.(seen := st1.seen + {Dns}, config := c2);
    var c3 := c2.(mtu := s.mtu);
    FieldActs(lib, st, Address, addr, Some(c1));
    FieldActs(lib, st1, Dns, s.dns, Some(c2));
    FieldActs(lib, st2, Mtu, Show(s.mtu), Some(c3));
    ThreeActs(lib, st, [Field(Address, addr), Field(Dns, s.dns), Field(Mtu, Show(s.mtu))], st1, st2,
      st2.(seen := st2.seen + {Mtu}, config := c3));
  }

  /** A heading followed by a key field and the rest of the part. */
  lemma KeyedPart(lib: Library, st: State, section: Section, k: Key, b: bytes, c: Config, tail: seq<Entry>)
    requires Faithful(lib) && |b| == 32 && section !in st.sections && k !in st.seen
    requires Assign(lib, st.config, k, lib.encodeKey(b)) == if NonZero(b) then Some(c) else None
    ensures Acts(lib, st, [Heading(section)] + ([Field(k, lib.encodeKey(b))] + tail))
         == if NonZero(b) then Acts(lib, State(Some(section), st.sections + {section}, st.seen + {k}, c), tail)
           else None
  {
    KeyActs(lib, b);
    hide Acts, Assign, TrimLeft, Faithful, NonZero, Printable, KeyBytes;
    var next := State(Some(section), st.sections + {section}, st.seen, st.config);
    ActsOne(lib, st, Heading(section), [Field(k, lib.encodeKey(b))] + tail);
    ActsOne(lib, next, Field(k, lib.encodeKey(b)), tail);
    FieldActs(lib, next, k, lib.encodeKey(b), if NonZero(b) then Some(c) else None);
  }

  lemma InterfaceActs(lib: Library, s: Server, m: Member, st: State)
    requires Faithful(lib) && Validated(lib, s) && ValidMember(m)
    requires Interface !in st.sections && st.seen == {} && st.config.address.None?
    ensures Acts(lib, st, InterfacePart(lib, s, m))
         == if NonZero(m.secret) then Some(AfterInterface(lib, s, m, st)) else None
  {
    hide PlaceFields;
    var c := st.config.(secret := Some(m.secret));
    KeyActs(lib, m.secret);
    KeyedPart(lib, st, Interface, PrivateKey, m.secret, c, PlaceFields(lib, s, m));
    hide Acts, Act, Assign, TrimLeft, Faithful, NonZero, Validated, Show, KeyBytes;
    PlaceActs(lib, s, m, State(Some(Interface), st.sections + {Interface}, st.seen + {PrivateKey}, c));
  }

  /** The endpoint as the parser meets it, blanks in front removed. */
  predicate EndpointRead(lib: Library, e: string) {
    var h := EndpointHost(lib, TrimLeft(e));
    h.Some? && !IsV6(lib, h.value)
  }

  function AfterPeer(lib: Library, s: Server, id: Identity, m: Member, st: State): State
    requires Legible(lib, s.allowed)
  {
    State(Some(Peer), st.sections + {Peer}, st.seen + {PublicKey} + {PresharedKey} + {AllowedIps} + {Endpoint}
      + {Keepalive},
          st.config.(public := Some(id.public), psk := Some(m.psk),
            allowed := st.config.allowed + MaskedAll(lib, s.allowed),
                     endpoint := Some(TrimLeft(s.endpoint)), keepalive := Some(25)))
  }

  lemma AllowedActs(lib: Library, st: State, ss: seq<string>)
    requires ss != [] && Legible(lib, ss) && AllowedIps !in st.seen
    ensures Act(lib, st, Field(AllowedIps, Join(ss)))
         == Some(st.(seen := st.seen + {AllowedIps},
                     config := st.config.(allowed := st.config.allowed + MaskedAll(lib, ss))))
  {
    JoinText(lib, ss);
    AllowedRead(lib, st.config, ss, "");
    hide Join, Legible, MaskedAll, Split, Space;
    assert "" + Join(ss) == Join(ss);
    assert TrimLeft(Join(ss)) == Join(ss);
  }

  lemma EndpointActs(lib: Library, st: State, e: string)
    requires Endpoint !in st.seen
    ensures Act(lib, st, Field(Endpoint, e))
         == if EndpointRead(lib, e)
            then Some(st.(seen := st.seen + {Endpoint}, config := st.config.(endpoint := Some(TrimLeft(e)))))
            else None
  {
    hide TrimLeft, EndpointHost, IsV6;
  }

  lemma KeepaliveActs(lib: Library, st: State, n: nat)
    requires Keepalive !in st.seen && n < 0x1_0000
    ensures Act(lib, st, Field(Keepalive, Show(n)))
         == Some(st.(seen := st.seen + {Keepalive}, config := st.config.(keepalive := Some(n))))
  {
    ShowIsSolid(n);
    DecimalShow(n);
    hide Show, Decimal, TrimLeft;
  }

  lemma PskActs(lib: Library, st: State, b: bytes)
    requires Faithful(lib) && |b| == 32 && PresharedKey !in st.seen
    ensures Act(lib, st, Field(PresharedKey, lib.encodeKey(b)))
         == if NonZero(b) then Some(st.(seen := st.seen + {PresharedKey}, config := st.config.(psk := Some(b))))
           else None
  {
    KeyActs(lib, b);
    hide KeyBytes, TrimLeft, NonZero, Faithful;
  }

  lemma RestOfPeer(lib: Library, s: Server, m: Member, st: State)
    requires Faithful(lib) && s.allowed != [] && Legible(lib, s.allowed) && |m.psk| == 32
    requires st.seen !! {PresharedKey, AllowedIps, Endpoint, Keepalive}
    ensures Acts(lib, st, PeerFields(lib, s, m))
         == if NonZero(m.psk) && EndpointRead(lib, s.endpoint)
            then Some(st.(seen := st.seen + {PresharedKey} + {AllowedIps} + {Endpoint} + {Keepalive},
                          config := st.config.(psk := Some(m.psk),
                            allowed := st.config.allowed + MaskedAll(lib, s.allowed),
                                               endpoint := Some(TrimLeft(s.endpoint)), keepalive := Some(25))))
            else None
  {
    hide Acts, Act, Assign, TrimLeft, Faithful, NonZero, Show, Legible, MaskedAll, Join, EndpointRead;
    var e1, e2 := Field(PresharedKey, lib.encodeKey(m.psk)), Field(AllowedIps, Join(s.allowed));
    var e3, e4 := Field(Endpoint, s.endpoint), Field(Keepalive, Show(25));
    var st1 := st.(seen := st.seen + {PresharedKey}, config := st.config.(psk := Some(m.psk)));
    var st2 := st1.(seen := st1.seen + {AllowedIps},
                    config := st1.config.(allowed := st1.config.allowed + MaskedAll(lib, s.allowed)));
    var st3 := st2.(seen := st2.seen + {Endpoint}, config := st2.config.(endpoint := Some(TrimLeft(s.endpoint))));
    PskActs(lib, st, m.psk);
    AllowedActs(lib, st1, s.allowed);
    EndpointActs(lib, st2, s.endpoint);
    KeepaliveActs(lib, st3, 25);
    ActsOne(lib, st, e1, [e2, e3, e4]);
    ActsOne(lib, st1, e2, [e3, e4]);
    ActsOne(lib, st2, e3, [e4]);
    ActsOne(lib, st3, e4, []);
    assert [e2] + [e3, e4] == [e2, e3, e4] && [e3] + [e4] == [e3, e4] && [e4] + [] == [e4];
    assert Acts(lib, st3.(seen := st3.seen + {Keepalive}, config := st3.config.(keepalive := Some(25))), [])
        == Some(st3.(seen := st3.seen + {Keepalive}, config := st3.config.(keepalive := Some(25)))) by {
      NoActs(lib, st3.(seen := st3.seen + {Keepalive}, config := st3.config.(keepalive := Some(25))));
    }
  }

  lemma NoActs(lib: Library, st: State)
    ensures Acts(lib, st, []) == Some(st)
  {
  }

  lemma PeerActs(lib: Library, s: Server, id: Identity, m: Member, st: State)
    requires Faithful(lib) && s.allowed != [] && Legible(lib, s.allowed) && |m.psk| == 32 && |id.public| == 32
    requires Peer !in st.sections && st.seen !! {PublicKey, PresharedKey, AllowedIps, Endpoint, Keepalive}
    ensures Acts(lib, st, PeerPart(lib, s, id, m))
         == if NonZero(id.public) && NonZero(m.psk) && EndpointRead(lib, s.endpoint)
           then Some(AfterPeer(lib, s, id, m, st)) else None
  {
    hide PeerFields;
    var tail := PeerFields(lib, s, m);
    var c := st.config.(public := Some(id.public));
    KeyActs(lib, id.public);
    KeyedPart(lib, st, Peer, PublicKey, id.public, c, tail);
    var keyed := [Heading(Peer)] + ([Field(PublicKey, lib.encodeKey(id.public))] + tail);
    ActsOne(lib, st, Empty, keyed);
    assert Act(lib, st, Empty) == Some(st);
    hide Acts, Act, Assign, TrimLeft, Faithful, NonZero, Show, Legible, MaskedAll, Join, EndpointRead, KeyBytes;
    RestOfPeer(lib, s, m, State(Some(Peer), st.sections + {Peer}, st.seen + {PublicKey}, c));
  }

  lemma ThreeActs(lib: Library, a: State, es: seq<Entry>, b: State, c: State, d: State)
    requires |es| == 3 && Act(lib, a, es[0]) == Some(b) && Act(lib, b, es[1]) == Some(c)
      && Act(lib, c, es[2]) == Some(d)
    ensures Acts(lib, a, es) == Some(d)
  {
    hide Act;
    assert es[1..][1..][1..] == [];
    assert es[1..][0] == es[1] && es[1..][1..][0] == es[2];
    assert Acts(lib, d, []) == Some(d);
    assert Acts(lib, c, es[1..][1..]) == Some(d);
    assert Acts(lib, b, es[1..]) == Some(d);
  }

  // ---------------------------------------------------------------- the whole profile

  lemma AllLegible(lib: Library, s: Server)
    requires Faithful(lib) && Validated(lib, s)
    ensures Legible(lib, s.allowed)
  {
  }

  /** The entries in full: the parser gets through them exactly when the keys are not zero and
      the endpoint, blanks in front removed, has a host that is no IPv6 address. */
  lemma EntriesAct(lib: Library, s: Server, id: Identity, m: Member)
    requires Faithful(lib) && Validated(lib, s) && ValidIdentity(id) && ValidMember(m) && Legible(lib, s.allowed)
    ensures var r := Acts(lib, Begin(), Entries(lib, s, id, m));
      if NonZero(m.secret) && NonZero(id.public) && NonZero(m.psk) && EndpointRead(lib, s.endpoint)
      then r.Some? && r.value.config == Expected(lib, s, id, m).(endpoint := Some(TrimLeft(s.endpoint)))
      else r.None?
  {
    assert s.allowed != [] && IsV4(lib.address(s.dns)) && |id.public| == 32 && |m.psk| == 32;
    hide Acts, Faithful, Validated, Numbers, NumberFields, InterfacePart, PeerPart, Legible, NonZero, EndpointRead,
      ValidIdentity,
      MaskedAll, AfterNumbers, WithNumbers;
    var st0 := Begin();
    var a, b, c := InterfacePart(lib, s, m), NumberFields(Numbers(id)), PeerPart(lib, s, id, m);
    ActsAppend(lib, st0, a + b, c);
    NumbersAfterInterface(lib, s, id, m, st0);
    if NonZero(m.secret) {
      AfterNumbersIs(lib, s, id, m, st0);
      PeerActs(lib, s, id, m, AfterNumbers(lib, s, id, m, st0));
      assert [] + MaskedAll(lib, s.allowed) == MaskedAll(lib, s.allowed);
    }
  }

  function AfterNumbers(lib: Library, s: Server, id: Identity, m: Member, st: State): State
    requires IsV4(lib.address(s.dns)) && ValidIdentity(id)
  {
    var mid := AfterInterface(lib, s, m, st);
    mid.(seen := mid.seen + KeysOf(Numbers(id)), config := mid.config.(
      params := WithNumbers(mid.config.params, Numbers(id))))
  }

  lemma NumbersAfterInterface(lib: Library, s: Server, id: Identity, m: Member, st: State)
    requires Faithful(lib) && Validated(lib, s) && ValidIdentity(id) && ValidMember(m)
    requires Interface !in st.sections && st.seen == {} && st.config.address.None?
    ensures Acts(lib, st, InterfacePart(lib, s, m) + NumberFields(Numbers(id)))
         == if NonZero(m.secret) then Some(AfterNumbers(lib, s, id, m, st)) else None
  {
    hide Acts, Faithful, Numbers, NumberFields, InterfacePart, NonZero, ValidIdentity, WithNumbers;
    InterfaceActs(lib, s, m, st);
    ActsAppend(lib, st, InterfacePart(lib, s, m), NumberFields(Numbers(id)));
    NumbersFit(id);
    hide Validated;
    NumbersAct(lib, AfterInterface(lib, s, m, st), Numbers(id), 0);
  }

  lemma AfterNumbersIs(lib: Library, s: Server, id: Identity, m: Member, st: State)
    requires IsV4(lib.address(s.dns)) && ValidIdentity(id) && st.seen == {} && st.sections == {}
    ensures var n := AfterNumbers(lib, s, id, m, st);
      && Peer !in n.sections && n.seen !! {PublicKey, PresharedKey, AllowedIps, Endpoint, Keepalive}
      && n.config == st.config.(secret := Some(m.secret), address := Some(m.address),
            dns := Some(lib.address(s.dns).value.net.addr), mtu := s.mtu,
              params := WithNumbers(st.config.params, Numbers(id)))
  {
    NumbersFit(id);
    hide Numbers, ValidIdentity, WithNumbers;
    KeysRanked(Numbers(id), 0);
  }

  // ---------------------------------------------------------------- the text

  /** Entries that keep to their lines and stand under their own headings. */
  predicate Fine(section: Option<Section>, es: seq<Entry>) { GoodEntries(es) && Placed(section, es) }

  function Last(section: Option<Section>, es: seq<Entry>): Option<Section>
    decreases |es|
  {
    if es == [] then section else Last(if es[0].Heading? then Some(es[0].section) else section, es[1..])
  }

  lemma {:induction false} FineAppend(section: Option<Section>, a: seq<Entry>, b: seq<Entry>)
    requires Fine(section, a) && Fine(Last(section, a), b)
    ensures Fine(section, a + b) && Last(section, a + b) == Last(Last(section, a), b)
    decreases |a|
  {
    hide GoodEntry, Home;
    if a == [] {
      assert a + b == b;
    } else {
      assert (a + b)[1..] == a[1..] + b;
      FineAppend(if a[0].Heading? then Some(a[0].section) else section, a[1..], b);
    }
  }

  lemma FineCons(section: Option<Section>, e: Entry, es: seq<Entry>)
    requires GoodEntry(e) && (e.Field? ==> section == Some(Home(e.key)))
    requires Fine(if e.Heading? then Some(e.section) else section, es)
    ensures Fine(section, [e] + es)
    ensures Last(section, [e] + es) == Last(if e.Heading? then Some(e.section) else section, es)
  {
    hide GoodEntry, Home;
    assert ([e] + es)[1..] == es;
  }

  lemma FineEmpty(section: Option<Section>)
    ensures Fine(section, []) && Last(section, []) == section
  {
  }

  lemma FineThree(s: Section, a: Entry, b: Entry, c: Entry)
    requires a.Field? && b.Field? && c.Field? && GoodEntry(a) && GoodEntry(b) && GoodEntry(c)
    requires Home(a.key) == s && Home(b.key) == s && Home(c.key) == s
    ensures Fine(Some(s), [a, b, c]) && Last(Some(s), [a, b, c]) == Some(s)
  {
    hide GoodEntry, Home;
    FineEmpty(Some(s));
    FineCons(Some(s), c, []);
    FineCons(Some(s), b, [c] + []);
    FineCons(Some(s), a, [b] + ([c] + []));
    assert [a] + ([b] + ([c] + [])) == [a, b, c];
  }

  lemma InterfaceFine(lib: Library, s: Server, m: Member)
    requires Faithful(lib) && Validated(lib, s) && ValidMember(m)
    ensures Fine(None, InterfacePart(lib, s, m)) && Last(None, InterfacePart(lib, s, m)) == Some(Interface)
  {
    KeyActs(lib, m.secret);
    AddressActs(lib, Blank(), m.address);
    DnsActs(lib, Blank(), s.dns);
    ShowIsSolid(s.mtu);
    var a, b, c := Field(Address, lib.show(m.address) + "/32"), Field(Dns, s.dns), Field(Mtu, Show(s.mtu));
    var k := Field(PrivateKey, lib.encodeKey(m.secret));
    hide Printable, Show, Faithful, Validated, Assign, TrimLeft, KeyBytes, NonZero;
    assert GoodEntry(a) && GoodEntry(b) && GoodEntry(c) && GoodEntry(k);
    hide GoodEntry, Fine, Last;
    FineThree(Interface, a, b, c);
    FineCons(Some(Interface), k, [a, b, c]);
    FineCons(None, Heading(Interface), [k] + [a, b, c]) by {
      assert GoodEntry(Heading(Interface)) by { HeadingGood(Interface); }
    }
  }

  lemma HeadingGood(s: Section)
    ensures GoodEntry(Heading(s)) && GoodEntry(Empty)
  {
  }

  lemma {:induction false} NumbersFine(ps: seq<(Key, nat)>)
    requires InLimits(ps)
    ensures Fine(Some(Interface), NumberFields(ps)) && Last(Some(Interface), NumberFields(ps)) == Some(Interface)
  {
    if ps != [] {
      var e := Field(ps[0].0, Show(ps[0].1));
      ShowIsSolid(ps[0].1);
      assert Home(ps[0].0) == Interface;
      assert GoodEntry(e);
      assert InLimits(ps[1..]) by { assert forall i :: 0 <= i < |ps[1..]| ==> ps[1..][i] == ps[i + 1]; }
      hide Show, Printable, Limit, Home, GoodEntry;
      NumbersFine(ps[1..]);
      FineCons(Some(Interface), e, NumberFields(ps[1..]));
    }
  }

  lemma FieldGood(k: Key, v: string)
    requires Printable(v)
    ensures GoodEntry(Field(k, v))
  {
  }

  lemma PeerValues(lib: Library, s: Server, m: Member)
    requires Faithful(lib) && Validated(lib, s) && |m.psk| == 32
    ensures Printable(lib.encodeKey(m.psk)) && Printable(Join(s.allowed)) && Printable(s.endpoint)
      && Printable(Show(25))
  {
    KeyActs(lib, m.psk);
    AllLegible(lib, s);
    JoinText(lib, s.allowed);
    EndpointText(lib, s.endpoint);
    ShowIsSolid(25);
    hide Show, Faithful, Legible, Join, KeyBytes, TrimLeft, Printable;
  }

  lemma PeerFieldsFine(lib: Library, s: Server, m: Member)
    requires Faithful(lib) && Validated(lib, s) && |m.psk| == 32
    ensures Fine(Some(Peer), PeerFields(lib, s, m))
  {
    PeerValues(lib, s, m);
    assert s.allowed != [];
    hide Printable, Show, Faithful, Validated, Join, GoodEntry, Fine, Last;
    var a := Field(PresharedKey, lib.encodeKey(m.psk));
    var b, c, d := Field(AllowedIps, Join(s.allowed)), Field(Endpoint, s.endpoint), Field(Keepalive, Show(25));
    FieldGood(PresharedKey, lib.encodeKey(m.psk));
    FieldGood(AllowedIps, Join(s.allowed));
    FieldGood(Endpoint, s.endpoint);
    FieldGood(Keepalive, Show(25));
    FineThree(Peer, b, c, d);
    FineCons(Some(Peer), a, [b, c, d]);
  }

  lemma PeerFine(lib: Library, s: Server, id: Identity, m: Member)
    requires Faithful(lib) && Validated(lib, s) && |id.public| == 32 && |m.psk| == 32
    ensures Fine(Some(Interface), PeerPart(lib, s, id, m))
  {
    KeyActs(lib, id.public);
    HeadingGood(Peer);
    PeerFieldsFine(lib, s, m);
    assert s.allowed != [];
    hide Printable, Faithful, Validated, TrimLeft, KeyBytes, NonZero, GoodEntry, Fine, Last, PeerFields;
    var k := Field(PublicKey, lib.encodeKey(id.public));
    FieldGood(PublicKey, lib.encodeKey(id.public));
    FineCons(Some(Peer), k, PeerFields(lib, s, m));
    FineCons(Some(Interface), Heading(Peer), [k] + PeerFields(lib, s, m));
    FineCons(Some(Interface), Empty, [Heading(Peer)] + ([k] + PeerFields(lib, s, m)));
  }

  lemma EntriesFine(lib: Library, s: Server, id: Identity, m: Member)
    requires Faithful(lib) && Validated(lib, s) && ValidIdentity(id) && ValidMember(m)
    ensures Fine(None, Entries(lib, s, id, m))
  {
    InterfaceFine(lib, s, m);
    NumbersFit(id);
    NumbersFine(Numbers(id));
    PeerFine(lib, s, id, m);
    hide Fine, Last, Numbers, NumberFields, InterfacePart, PeerPart, Faithful;
    FineAppend(None, InterfacePart(lib, s, m), NumberFields(Numbers(id)));
    FineAppend(None, InterfacePart(lib, s, m) + NumberFields(Numbers(id)), PeerPart(lib, s, id, m));
  }

  /** What the server printed is what the client reads: endpoint, address, DNS, MTU, keys,
      masked networks and parameters all come back, if and only if the text is within 32 KiB,
      no key is zero, the endpoint's host is not an IPv6 address and does not begin with a blank. */
  lemma ProfileRoundTrip(lib: Library, s: Server, id: Identity, m: Member)
    requires Faithful(lib) && Validated(lib, s) && ValidIdentity(id) && ValidMember(m)
    ensures Legible(lib, s.allowed)
    ensures Parsed(lib, Client(lib, s, id, m)) == Some(Expected(lib, s, id, m)) <==>
      && Utf8Size(Client(lib, s, id, m)) <= 32768
      && NonZero(m.secret) && NonZero(id.public) && NonZero(m.psk)
      && !IsV6(lib, lib.hostPort(s.endpoint).value.0) && !Space(s.endpoint[0])
  {
    AllLegible(lib, s);
    EntriesFine(lib, s, id, m);
    EntriesAct(lib, s, id, m);
    EndpointReads(lib, s.endpoint);
    EndpointText(lib, s.endpoint);
    ExpectedComplete(lib, s, id, m);
    var es := Entries(lib, s, id, m);
    LinesAreEntries(lib, Begin(), es);
    hide Faithful, Validated, ValidIdentity, ValidMember, Legible, Entries, Lines, Acts, Split, Render, Utf8Size,
      Expected, NonZero,
      EndpointHost, IsV6, Space, GoodEntries, Placed, Complete;
    TrimLeftOnly(s.endpoint);
  }

  lemma TrimLeftOnly(e: string)
    requires e != []
    ensures TrimLeft(e) == e <==> !Space(e[0])
  {
  }

  lemma ExpectedComplete(lib: Library, s: Server, id: Identity, m: Member)
    requires Validated(lib, s) && ValidIdentity(id) && ValidMember(m) && Legible(lib, s.allowed)
    ensures Expected(lib, s, id, m).endpoint == Some(s.endpoint)
    ensures forall e :: Complete(Expected(lib, s, id, m).(endpoint := Some(e)))
  {
    NumbersRead(map[], Numbers(id), 1, 0);
    NumbersRead(map[], Numbers(id), 2, 0);
    NumbersFit(id);
    hide Numbers, WithNumbers;
    assert MaskedAll(lib, s.allowed) != [];
  }

  /** Each number is found under its key. */
  lemma {:induction false} NumbersRead(params: map<Key, nat>, ps: seq<(Key, nat)>, i: nat, base: nat)
    requires Ranked(ps, base) && i < |ps|
    ensures ps[i].0 in WithNumbers(params, ps) && WithNumbers(params, ps)[ps[i].0] == ps[i].1
    decreases |ps|
  {
    hide Rank;
    TailRanked(ps, base);
    var next := params[ps[0].0 := ps[0].1];
    if i == 0 {
      Untouched(next, ps[1..], ps[0].0, base + 1);
    } else {
      NumbersRead(next, ps[1..], i - 1, base + 1);
      assert ps[1..][i - 1] == ps[i];
    }
  }

  lemma {:induction false} Untouched(params: map<Key, nat>, ps: seq<(Key, nat)>, k: Key, base: nat)
    requires Ranked(ps, base) && Rank(k) < base && k in params
    ensures k in WithNumbers(params, ps) && WithNumbers(params, ps)[k] == params[k]
    decreases |ps|
  {
    hide Rank;
    if ps != [] {
      TailRanked(ps, base);
      Untouched(params[ps[0].0 := ps[0].1], ps[1..], k, base + 1);
    }
  }

  // ---------------------------------------------------------------- the engine's parameters

  function Lower(k: Key): string {
    match k
    case Jc => "jc"
    case Jmin => "jmin"
    case Jmax => "jmax"
    case S1 => "s1"
    case S2 => "s2"
    case H1 => "h1"
    case H2 => "h2"
    case H3 => "h3"
    case H4 => "h4"
    case _ => ""
  }

  function Assignment(k: Key, n: nat): string { Lower(k) + "=" + Show(n) + "\n" }

  /** The parameter text of the server's own device, as its format string spells it. */
  function Parameters(id: Identity): string
    requires ValidIdentity(id)
  {
    "jc=5\n" + "jmin=50\n" + "jmax=1000\n" + "s1=134\n" + "s2=90\n"
    + ("h1=" + Show(id.headers[0]) + "\n") + ("h2=" + Show(id.headers[1]) + "\n")
    + ("h3=" + Show(id.headers[2]) + "\n") + ("h4=" + Show(id.headers[3]) + "\n")
  }

  function Assignments(ps: seq<(Key, nat)>): string {
    if ps == [] then "" else Assignment(ps[0].0, ps[0].1) + Assignments(ps[1..])
  }

  function Order(): seq<Key> { [Jc, Jmin, Jmax, S1, S2, H1, H2, H3, H4] }

  /** The parameter text the client hands to its engine: those read, in a fixed order. */
  function EngineParameters(params: map<Key, nat>, ks: seq<Key>): string {
    if ks == [] then ""
    else (if ks[0] in params then Assignment(ks[0], params[ks[0]]) else "") + EngineParameters(params, ks[1..])
  }

  /** The loop that writes them. */
  method BuildParameters(params: map<Key, nat>) returns (text: string)
    ensures text == EngineParameters(params, Order())
  {
    hide Assignment;
    text := "";
    var ks := Order();
    for i := 0 to |ks|
      invariant text + EngineParameters(params, ks[i..]) == EngineParameters(params, ks)
    {
      assert ks[i..][1..] == ks[i + 1..];
      ghost var more := EngineParameters(params, ks[i + 1..]);
      if ks[i] in params {
        var line := Assignment(ks[i], params[ks[i]]);
        assert text + (line + more) == (text + line) + more;
        text := text + line;
      } else {
        assert "" + more == more;
      }
    }
    assert text + "" == text;
  }

  lemma {:induction false} SameParameters(params: map<Key, nat>, ps: seq<(Key, nat)>, ks: seq<Key>)
    requires |ks| == |ps| && forall i :: 0 <= i < |ps| ==>
      ks[i] == ps[i].0 && ks[i] in params && params[ks[i]] == ps[i].1
    ensures EngineParameters(params, ks) == Assignments(ps)
    decreases |ps|
  {
    hide Assignment;
    if ps != [] {
      assert forall i :: 0 <= i < |ps[1..]| ==> ps[1..][i] == ps[i + 1] && ks[1..][i] == ks[i + 1];
      SameParameters(params, ps[1..], ks[1..]);
    }
  }

  lemma SmallNumbers()
    ensures Show(5) == "5" && Show(50) == "50" && Show(90) == "90"
  {
    assert Show(9) == "9";
  }

  lemma LargerNumbers()
    ensures Show(1000) == "1000" && Show(134) == "134"
  {
    assert Show(1) == "1";
    assert Show(10) == "10" && Show(13) == "13";
    assert Show(100) == "100";
  }

  lemma Spelled(k: Key, name: string, n: nat, digits: string)
    requires Lower(k) == name && Show(n) == digits
    ensures Assignment(k, n) == name + "=" + digits + "\n"
  {
  }

  lemma FixedNumbers()
    ensures Assignment(Jc, 5) == "jc=5\n" && Assignment(Jmin, 50) == "jmin=50\n"
      && Assignment(Jmax, 1000) == "jmax=1000\n"
    ensures Assignment(S1, 134) == "s1=134\n" && Assignment(S2, 90) == "s2=90\n"
  {
    SmallNumbers();
    LargerNumbers();
    hide Show, Assignment;
    Spelled(Jc, "jc", 5, "5");
    Spelled(Jmin, "jmin", 50, "50");
    Spelled(Jmax, "jmax", 1000, "1000");
    Spelled(S1, "s1", 134, "134");
    Spelled(S2, "s2", 90, "90");
    assert "jc" + "=" + "5" + "\n" == "jc=5\n";
    assert "jmin" + "=" + "50" + "\n" == "jmin=50\n";
    assert "jmax" + "=" + "1000" + "\n" == "jmax=1000\n";
    assert "s1" + "=" + "134" + "\n" == "s1=134\n";
    assert "s2" + "=" + "90" + "\n" == "s2=90\n";
  }

  lemma AssignmentsFrom(ps: seq<(Key, nat)>, i: nat)
    requires i < |ps|
    ensures Assignments(ps[i..]) == Assignment(ps[i].0, ps[i].1) + Assignments(ps[i + 1..])
  {
    assert ps[i..][1..] == ps[i + 1..];
  }

  /** Nine texts joined from the right are the nine joined from the left. */
  lemma NineTexts(a: string, b: string, c: string, d: string, e: string, f: string, g: string, h: string, i: string)
    ensures a + (b + (c + (d + (e + (f + (g + (h + (i + "")))))))) == a + b + c + d + e + f + g + h + i
  {
    FourTexts(f, g, h, i + "");
    assert i + "" == i;
    FiveTexts(a, b, c, d, e, f + g + h + i);
    FourTexts(a + b + c + d + e, f, g, h + i);
    assert f + g + h + i == f + (g + (h + i)) by { FourTexts(f, g, h, i); }
    assert a + b + c + d + e + f + g + (h + i) == a + b + c + d + e + f + g + h + i;
  }

  lemma FourTexts(a: string, b: string, c: string, d: string)
    ensures a + (b + (c + d)) == a + b + c + d
  {
  }

  lemma FiveTexts(a: string, b: string, c: string, d: string, e: string, rest: string)
    ensures a + (b + (c + (d + (e + rest)))) == a + b + c + d + e + rest
  {
    FourTexts(a, b, c, d + (e + rest));
    assert a + b + c + (d + (e + rest)) == a + b + c + d + e + rest;
  }

  /** The server's own text spells the numbers it prints into profiles. */
  lemma ParametersAre(id: Identity)
    requires ValidIdentity(id)
    ensures Parameters(id) == Assignments(Numbers(id))
  {
    FixedNumbers();
    var ps := Numbers(id);
    var h := id.headers;
    hide Assignments, Show;
    AssignmentsFrom(ps, 0);
    AssignmentsFrom(ps, 1);
    AssignmentsFrom(ps, 2);
    AssignmentsFrom(ps, 3);
    AssignmentsFrom(ps, 4);
    AssignmentsFrom(ps, 5);
    AssignmentsFrom(ps, 6);
    AssignmentsFrom(ps, 7);
    AssignmentsFrom(ps, 8);
    assert ps[0..] == ps && ps[9..] == [];
    assert Assignments([]) == "" by { NoAssignments(); }
    HeaderNumbers(h[0], h[1], h[2], h[3]);
    hide Assignment;
    NineTexts(Assignment(Jc, 5), Assignment(Jmin, 50), Assignment(Jmax, 1000), Assignment(S1, 134), Assignment(S2, 90),
      Assignment(H1, h[0]), Assignment(H2, h[1]), Assignment(H3, h[2]), Assignment(H4, h[3]));
  }

  lemma NoAssignments()
    ensures Assignments([]) == ""
  {
  }

  lemma HeaderNumbers(a: nat, b: nat, c: nat, d: nat)
    ensures Assignment(H1, a) == "h1=" + Show(a) + "\n" && Assignment(H2, b) == "h2=" + Show(b) + "\n"
    ensures Assignment(H3, c) == "h3=" + Show(c) + "\n" && Assignment(H4, d) == "h4=" + Show(d) + "\n"
  {
    hide Show;
    assert Lower(H1) + "=" == "h1=" && Lower(H2) + "=" == "h2=" && Lower(H3) + "=" == "h3=" && Lower(H4) + "=" == "h4=";
  }

  lemma NumbersWritten(id: Identity, params: map<Key, nat>)
    requires ValidIdentity(id) && params == WithNumbers(map[], Numbers(id))
    ensures EngineParameters(params, Order()) == Parameters(id)
  {
    var ps := Numbers(id);
    NumbersFit(id);
    forall i | 0 <= i < |ps| ensures Order()[i] == ps[i].0 && ps[i].0 in params && params[ps[i].0] == ps[i].1 {
      NumbersRead(map[], ps, i, 0);
    }
    SameParameters(params, ps, Order());
    ParametersAre(id);
  }

  /** Whenever the client can read its profile at all, it hands its engine the very text the
      server configures its own device with, letter for letter. */
  lemma ParametersAgree(lib: Library, s: Server, id: Identity, m: Member)
    requires Faithful(lib) && Validated(lib, s) && ValidIdentity(id) && ValidMember(m)
    ensures var c := Parsed(lib, Client(lib, s, id, m));
      c.Some? ==> EngineParameters(c.value.params, Order()) == Parameters(id)
  {
    AllLegible(lib, s);
    EntriesFine(lib, s, id, m);
    EntriesAct(lib, s, id, m);
    LinesAreEntries(lib, Begin(), Entries(lib, s, id, m));
    NumbersWritten(id, WithNumbers(map[], Numbers(id)));
    hide Faithful, Validated, ValidIdentity, ValidMember, Legible, Entries, Lines, Acts, Split, Render, Utf8Size,
      NonZero,
      EndpointRead, GoodEntries, Placed, Complete, EngineParameters, Parameters, Numbers, WithNumbers, Order;
  }
}
