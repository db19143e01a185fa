/** What the AmneziaWG parser accepts, for every text: line by line, without its running state. */
module AwgReading {
  import opened Bytes
  import opened Text
  import opened AwgConfig
  import Ipv4

  // ---------------------------------------------------------------- a text as its lines read

  datatype Item = Nothing | Title(section: Section) | Setting(name: string, value: string) | Garbage

  function ItemOf(raw: string): Item {
    var line := Clean(raw);
    if line == "" then Nothing
    else if line[0] == '[' then
      if line == "[Interface]" then Title(Interface) else if line == "[Peer]" then Title(Peer) else Garbage
    else match Cut(line, '=')
      case None => Garbage
      case Some((k, v)) => Setting(Trim(k), Trim(v))
  }

  /** Whatever follows a comment sign does not matter, and neither does white space at the ends. */
  lemma CommentsIgnored(a: string, b: string)
    requires '#' !in a
    ensures ItemOf(a + "#" + b) == ItemOf(a)
  {
    BeforeFirst(a, '#', b);
    BeforeNone(a, '#');
    hide Before, Trim, Cut;
    assert a + "#" + b == a + ['#'] + b;
  }

  /** The section that line `i` stands in. */
  function Under(ls: seq<string>, i: nat): Option<Section>
    requires i <= |ls|
  {
    if i == 0 then None
    else if ItemOf(ls[i - 1]).Title? then Some(ItemOf(ls[i - 1]).section)
    else Under(ls, i - 1)
  }

  /** The key that line `i` sets, if it is one of its section. */
  function KeyAt(ls: seq<string>, i: nat): Option<Key>
    requires i < |ls|
  {
    var item := ItemOf(ls[i]);
    if item.Setting? && Under(ls, i).Some? then KeyOf(Under(ls, i).value, item.name) else None
  }

  // ---------------------------------------------------------------- values

  predicate KeyText(lib: Library, v: string) {
    && lib.decodeKey(v).Some? && |lib.decodeKey(v).value| == 32
    && exists i :: 0 <= i < 32 && lib.decodeKey(v).value[i] != 0
  }

  /** The networks of a list, one for each of its parts; none if a part cannot be read. */
  function Nets(lib: Library, parts: seq<string>): Option<seq<Net>>
    decreases |parts|
  {
    if parts == [] then Some([])
    else
      var first, rest := lib.prefix(parts[0]), Nets(lib, parts[1..]);
      if first.None? || rest.None? then None else Some([first.value] + rest.value)
  }

  /** Addresses may come without a length, and then stand for themselves. */
  function Whole(s: string): string { if '/' in s then s else s + "/32" }

  function Trimmed(parts: seq<string>): seq<string> { seq(|parts|, i requires 0 <= i < |parts| => Trim(parts[i])) }

  function AllWhole(parts: seq<string>): seq<string> { seq(|parts|, i requires 0 <= i < |parts| => Whole(parts[i])) }

  function AddressNets(lib: Library, v: string): Option<seq<Net>> { Nets(lib, AllWhole(Trimmed(Split(v, ',')))) }

  function AllowedNets(lib: Library, v: string): Option<seq<Net>> { Nets(lib, Trimmed(Split(v, ','))) }

  /** The IPv4 networks among networks, in order. */
  function Fours(nets: seq<Net>): seq<Ipv4.Prefix> {
    if nets == [] then [] else (if nets[0].V4? then [nets[0].net] else []) + Fours(nets[1..])
  }

  predicate AllValid(ps: seq<Ipv4.Prefix>) { forall i :: 0 <= i < |ps| ==> Ipv4.ValidPrefix(ps[i]) }

  lemma FoursCons(n: Net, rest: seq<Net>)
    ensures Fours([n] + rest) == if n.V4? then [n.net] + Fours(rest) else Fours(rest)
  {
    assert ([n] + rest)[1..] == rest;
  }

  /** The largest value of each numeric parameter. */
  function Most(k: Key): nat {
    if k == Jc then 128 else if k in {Jmin, Jmax, S1, S2} then 1280 else 0xffff_ffff
  }

  /** The values each key may have. */
  predicate Fine(lib: Library, k: Key, v: string) {
    match k
    case PrivateKey => KeyText(lib, v)
    case PublicKey => KeyText(lib, v)
    case PresharedKey => KeyText(lib, v)
    case Address => AddressNets(lib, v).Some? && |Fours(AddressNets(lib, v).value)| <= 1
    case Dns => lib.address(v).Some? && lib.address(v).value.V4?
    case Mtu => Signed(v).Some? && 1280 <= Signed(v).value <= 1420
    case Endpoint =>
      && lib.hostPort(v).Some?
      && var (h, p) := lib.hostPort(v).value;
        && h != "" && ' ' !in h && '\r' !in h && '\n' !in h && '\t' !in h && lib.address(h) != Some(V6)
        && Signed(p).Some? && 1 <= Signed(p).value <= 65535
    case AllowedIps => AllowedNets(lib, v).Some? && AllValid(Fours(AllowedNets(lib, v).value))
    case Keepalive => Decimal(v).Some? && Decimal(v).value <= 65535
    case _ => Decimal(v).Some? && Decimal(v).value <= Most(k)
  }

  // ---------------------------------------------------------------- exactly what is accepted

  /** Line `i` may stand where it does: it is blank; or a heading for the first time; or it sets a key
      of its section, for the first time, to a value the key may have. */
  predicate GoodAt(lib: Library, ls: seq<string>, i: nat)
    requires i < |ls|
  {
    match ItemOf(ls[i])
    case Nothing => true
    case Garbage => false
    case Title(s) => forall j :: 0 <= j < i ==> ItemOf(ls[j]) != Title(s)
    case Setting(_, v) =>
      && KeyAt(ls, i).Some? && Fine(lib, KeyAt(ls, i).value, v)
      && forall j :: 0 <= j < i ==> KeyAt(ls, j) != KeyAt(ls, i)
  }

  lemma AddressesFine(lib: Library, c: Config, ss: seq<string>)
    ensures var nets := Nets(lib, AllWhole(Trimmed(ss)));
      var count := if nets.Some? then |Fours(nets.value)| else 0;
      Addresses(lib, c, ss).Some? <==> nets.Some? && count <= (if c.address.Some? then 0 else 1)
    decreases |ss|
  {
    if ss != [] {
      var all := AllWhole(Trimmed(ss));
      assert all[1..] == AllWhole(Trimmed(ss[1..])) && all[0] == Whole(Trim(ss[0]));
      match lib.prefix(all[0]) {
        case None =>
        case Some(V4(net)) => AddressesFine(lib, c.(address := Some(net.addr)), ss[1..]);
        case Some(V6) => AddressesFine(lib, c.(ignored := true), ss[1..]);
      }
    }
  }

  lemma AllowancesFine(lib: Library, c: Config, ss: seq<string>)
    ensures var nets := Nets(lib, Trimmed(ss));
      Allowances(lib, c, ss).Some? <==> nets.Some? && AllValid(Fours(nets.value))
    decreases |ss|
  {
    if ss != [] {
      var all := Trimmed(ss);
      assert all[1..] == Trimmed(ss[1..]) && all[0] == Trim(ss[0]);
      match lib.prefix(all[0]) {
        case None =>
        case Some(V4(net)) =>
          if Ipv4.ValidPrefix(net) {
            AllowancesFine(lib, c.(allowed := c.allowed + [Masked(net)]), ss[1..]);
          }
          if Nets(lib, all[1..]).Some? {
            var rest := Nets(lib, all[1..]).value;
            FoursCons(V4(net), rest);
            ConsValid(net, Fours(rest));
          }
        case Some(V6) =>
          AllowancesFine(lib, c.(ignored := true), ss[1..]);
          if Nets(lib, all[1..]).Some? { FoursCons(V6, Nets(lib, all[1..]).value); }
      }
    }
  }

  lemma ConsValid(net: Ipv4.Prefix, rest: seq<Ipv4.Prefix>)
    ensures AllValid([net] + rest) <==> Ipv4.ValidPrefix(net) && AllValid(rest)
  {
    if AllValid([net] + rest) {
      forall i | 0 <= i < |rest| ensures Ipv4.ValidPrefix(rest[i]) { assert ([net] + rest)[i + 1] == rest[i]; }
      assert ([net] + rest)[0] == net;
    }
  }

  lemma AssignFine(lib: Library, c: Config, k: Key, v: string)
    requires k.Address? ==> c.address.None?
    ensures Assign(lib, c, k, v).Some? <==> Fine(lib, k, v)
  {
    hide Split, Trim, Decimal, Signed;
    match k
    case Address => AddressesFine(lib, c, Split(v, ','));
    case AllowedIps => AllowancesFine(lib, c, Split(v, ','));
    case _ =>
  }

  lemma {:induction false} AllowancesElsewhere(lib: Library, c: Config, ss: seq<string>)
    requires Allowances(lib, c, ss).Some?
    ensures Allowances(lib, c, ss).value.address == c.address
    decreases |ss|
  {
    hide Trim;
    if ss != [] {
      match lib.prefix(Trim(ss[0])) {
        case Some(V4(net)) => AllowancesElsewhere(lib, c.(allowed := c.allowed + [Masked(net)]), ss[1..]);
        case Some(V6) => AllowancesElsewhere(lib, c.(ignored := true), ss[1..]);
      }
    }
  }

  /** The parser's state after lines that were all accepted. */
  ghost predicate Remembers(ls: seq<string>, st: State) {
    && st.section == Under(ls, |ls|)
    && (forall s :: s in st.sections <==> exists j :: 0 <= j < |ls| && ItemOf(ls[j]) == Title(s))
    && (forall k :: k in st.seen <==> exists j :: 0 <= j < |ls| && KeyAt(ls, j) == Some(k))
    && (st.config.address.Some? ==> Address in st.seen)
  }

  lemma {:induction false} LinesSnoc(lib: Library, st: State, ls: seq<string>, l: string)
    ensures Lines(lib, st, ls + [l]) ==
      var mid := Lines(lib, st, ls); if mid.None? then None else Line(lib, mid.value, l)
    decreases |ls|
  {
    hide Line;
    if ls == [] {
      assert (ls + [l])[1..] == [];
    } else {
      assert (ls + [l])[1..] == ls[1..] + [l];
      var next := Line(lib, st, ls[0]);
      if next.Some? { LinesSnoc(lib, next.value, ls[1..], l); }
    }
  }

  lemma {:induction false} UnderPrefix(ls: seq<string>, l: string, i: nat)
    requires i <= |ls|
    ensures Under(ls + [l], i) == Under(ls, i)
  {
    hide ItemOf;
    if i > 0 { UnderPrefix(ls, l, i - 1); }
  }

  lemma KeyPrefix(ls: seq<string>, l: string, i: nat)
    requires i < |ls|
    ensures KeyAt(ls + [l], i) == KeyAt(ls, i)
  {
    UnderPrefix(ls, l, i);
  }

  lemma GoodPrefix(lib: Library, ls: seq<string>, l: string, i: nat)
    requires i < |ls|
    ensures GoodAt(lib, ls + [l], i) <==> GoodAt(lib, ls, i)
  {
    hide KeyAt, ItemOf, Fine;
    assert forall j :: 0 <= j <= i ==> (ls + [l])[j] == ls[j];
    forall j | 0 <= j <= i ensures KeyAt(ls + [l], j) == KeyAt(ls, j) { KeyPrefix(ls, l, j); }
  }

  lemma MoreLines(ls: seq<string>, l: string, st: State, next: State)
    requires Remembers(ls, st)
    requires var all := ls + [l]; var key := KeyAt(all, |ls|);
      && next.section == (if ItemOf(l).Title? then Some(ItemOf(l).section) else st.section)
      && next.sections == st.sections + (if ItemOf(l).Title? then {ItemOf(l).section} else {})
      && next.seen == st.seen + (if key.Some? then {key.value} else {})
      && (next.config.address.Some? ==> Address in next.seen)
    ensures Remembers(ls + [l], next)
  {
    var all, n := ls + [l], |ls|;
    hide ItemOf, KeyAt;
    UnderPrefix(ls, l, n);
    forall j | 0 <= j < n ensures KeyAt(all, j) == KeyAt(ls, j) { KeyPrefix(ls, l, j); }
    forall s ensures s in next.sections <==> exists j :: 0 <= j < |all| && ItemOf(all[j]) == Title(s) {
      if j :| 0 <= j < n && ItemOf(ls[j]) == Title(s) { assert ItemOf(all[j]) == Title(s); }
      if ItemOf(l) == Title(s) { assert ItemOf(all[n]) == Title(s); }
    }
    forall k ensures k in next.seen <==> exists j :: 0 <= j < |all| && KeyAt(all, j) == Some(k) {
      if j :| 0 <= j < n && KeyAt(ls, j) == Some(k) { assert KeyAt(all, j) == Some(k); }
      if KeyAt(all, n) == Some(k) { assert n < |all|; }
    }
  }

  /** Whether a key was set before, by the lines and by the parser. */
  lemma SeenBefore(ls: seq<string>, l: string, st: State, k: Key)
    requires Remembers(ls, st)
    ensures k in st.seen <==> exists j :: 0 <= j < |ls| && KeyAt(ls + [l], j) == Some(k)
  {
    hide ItemOf, KeyAt;
    forall j | 0 <= j < |ls| ensures KeyAt(ls + [l], j) == KeyAt(ls, j) { KeyPrefix(ls, l, j); }
  }

  lemma SettingStep(lib: Library, ls: seq<string>, l: string, st: State)
    requires Remembers(ls, st) && ItemOf(l).Setting?
    ensures var next := Line(lib, st, l); var all := ls + [l];
      && (next.Some? <==> GoodAt(lib, all, |ls|))
      && (next.Some? ==> Remembers(all, next.value))
  {
    var all, n := ls + [l], |ls|;
    UnderPrefix(ls, l, n);
    assert all[n] == l;
    var v, key := ItemOf(l).value, KeyAt(all, n);
    assert Line(lib, st, l) == if key.None? then None else AwgConfig.Put(lib, st, key.value, v) by {
      hide KeyOf, AwgConfig.Put;
    }
    if key.Some? {
      var k := key.value;
      assert k.Address? && k !in st.seen ==> st.config.address.None?;
      SeenBefore(ls, l, st, k);
      hide ItemOf, KeyAt, Line, Fine, Assign;
      if k !in st.seen {
        AssignFine(lib, st.config, k, v);
        if Assign(lib, st.config, k, v).Some? {
          AddressKept(lib, st.config, k, v);
          MoreLines(ls, l, st, AwgConfig.Put(lib, st, k, v).value);
        }
      }
    }
  }

  lemma AddressKept(lib: Library, c: Config, k: Key, v: string)
    requires Assign(lib, c, k, v).Some?
    ensures !k.Address? ==> Assign(lib, c, k, v).value.address == c.address
  {
    hide Split, Trim, Decimal, Signed, EndpointHost, KeyBytes;
    if k.AllowedIps? { AllowancesElsewhere(lib, c, Split(v, ',')); }
  }

  lemma TitleBefore(ls: seq<string>, l: string, st: State, s: Section)
    requires Remembers(ls, st)
    ensures s in st.sections <==> exists j :: 0 <= j < |ls| && ItemOf((ls + [l])[j]) == Title(s)
  {
    hide ItemOf, KeyAt;
    assert forall j :: 0 <= j < |ls| ==> (ls + [l])[j] == ls[j];
  }

  /** One more line: accepted exactly when it may stand there, and remembered. */
  lemma LineStep(lib: Library, ls: seq<string>, l: string, st: State)
    requires Remembers(ls, st)
    ensures var next := Line(lib, st, l); var all := ls + [l];
      && (next.Some? <==> GoodAt(lib, all, |ls|))
      && (next.Some? ==> Remembers(all, next.value))
  {
    var all, n := ls + [l], |ls|;
    assert all[n] == l;
    var next := Line(lib, st, l);
    if ItemOf(l).Setting? {
      SettingStep(lib, ls, l, st);
    } else {
      assert KeyAt(all, n) == None;
      assert next == match ItemOf(l)
        case Nothing => Some(st)
        case Title(s) => Enter(st, s)
        case _ => None;
      hide ItemOf, KeyAt, Line;
      if ItemOf(l).Title? { TitleBefore(ls, l, st, ItemOf(l).section); }
      if next.Some? { MoreLines(ls, l, st, next.value); }
    }
  }

  predicate AllGood(lib: Library, ls: seq<string>) { forall i :: 0 <= i < |ls| ==> GoodAt(lib, ls, i) }

  lemma AllGoodSnoc(lib: Library, ls: seq<string>, l: string)
    ensures AllGood(lib, ls + [l]) <==> AllGood(lib, ls) && GoodAt(lib, ls + [l], |ls|)
  {
    hide GoodAt;
    forall i | 0 <= i < |ls| ensures GoodAt(lib, ls + [l], i) <==> GoodAt(lib, ls, i) { GoodPrefix(lib, ls, l, i); }
  }

  lemma {:induction false} LinesExactly(lib: Library, ls: seq<string>)
    ensures Lines(lib, Begin(), ls).Some? <==> AllGood(lib, ls)
    ensures Lines(lib, Begin(), ls).Some? ==> Remembers(ls, Lines(lib, Begin(), ls).value)
  {
    if ls != [] {
      hide *;
      var n := |ls| - 1;
      var front, l := ls[..n], ls[n];
      assert ls == front + [l];
      LinesExactly(lib, front);
      LinesSnoc(lib, Begin(), front, l);
      AllGoodSnoc(lib, front, l);
      var mid := Lines(lib, Begin(), front);
      if mid.Some? { LineStep(lib, front, l, mid.value); }
    }
  }

  // ---------------------------------------------------------------- what it makes of them

  /** The value that the lines give a key. */
  function Said(ls: seq<string>, k: Key): Option<string> {
    if ls == [] then None
    else
      var n := |ls| - 1;
      if KeyAt(ls, n) == Some(k) then Some(ItemOf(ls[n]).value) else Said(ls[..n], k)
  }

  function MaskAll(ps: seq<Ipv4.Prefix>): seq<Ipv4.Prefix>
    requires AllValid(ps)
  {
    seq(|ps|, i requires 0 <= i < |ps| => Ipv4.Masked(ps[i]))
  }

  function SecretOf(lib: Library, v: Option<string>): Option<bytes> { if v.None? then None else lib.decodeKey(v.value) }

  function ServerOf(lib: Library, v: Option<string>): Option<Ipv4.address> {
    if v.None? then None else match lib.address(v.value) case Some(V4(net)) => Some(net.addr) case _ => None
  }

  function NumberOf(v: Option<string>): Option<nat> { if v.None? then None else Decimal(v.value) }

  function NetsOf(nets: Option<seq<Net>>): seq<Net> { if nets.Some? then nets.value else [] }

  function AddressesOf(lib: Library, v: Option<string>): seq<Net> {
    if v.None? then [] else NetsOf(AddressNets(lib, v.value))
  }

  function AllowancesOf(lib: Library, v: Option<string>): seq<Net> {
    if v.None? then [] else NetsOf(AllowedNets(lib, v.value))
  }

  function MtuOf(v: Option<string>): int { if v.Some? && Signed(v.value).Some? then Signed(v.value).value else 1280 }

  predicate Numeric(k: Key) { k.Jc? || k.Jmin? || k.Jmax? || k.S1? || k.S2? || k.H1? || k.H2? || k.H3? || k.H4? }

  /** Every field of the configuration is what is said of it, or its default. */
  ghost predicate Reflects(lib: Library, said: Key -> Option<string>, c: Config) {
    && ReflectsPlain(lib, said, c)
    && ReflectsNets(AddressesOf(lib, said(Address)), AllowancesOf(lib, said(AllowedIps)), c)
    && ReflectsParams(said, c.params)
  }

  ghost predicate ReflectsPlain(lib: Library, said: Key -> Option<string>, c: Config) {
    && c.secret == SecretOf(lib, said(PrivateKey)) && c.public == SecretOf(lib, said(PublicKey))
    && c.psk == SecretOf(lib, said(PresharedKey)) && c.dns == ServerOf(lib, said(Dns))
    && c.endpoint == said(Endpoint) && c.mtu == MtuOf(said(Mtu)) && c.keepalive == NumberOf(said(Keepalive))
  }

  predicate Plainly(k: Key) { !Numeric(k) && !k.Address? && !k.AllowedIps? }

  ghost predicate ReflectsParams(said: Key -> Option<string>, params: map<Key, nat>) {
    && (forall k :: k in params <==> Numeric(k) && said(k).Some?)
    && (forall k :: k in params ==> Some(params[k]) == NumberOf(said(k)))
  }

  ghost predicate ReflectsNets(addresses: seq<Net>, allowances: seq<Net>, c: Config) {
    && c.address == (if Fours(addresses) == [] then None else Some(Fours(addresses)[0].addr))
    && AllValid(Fours(allowances)) && c.allowed == MaskAll(Fours(allowances))
    && c.ignored == (V6 in addresses || V6 in allowances)
  }

  lemma {:induction false} AddressesGive(lib: Library, c: Config, ss: seq<string>)
    requires Addresses(lib, c, ss).Some?
    ensures Nets(lib, AllWhole(Trimmed(ss))).Some?
    ensures var nets := Nets(lib, AllWhole(Trimmed(ss))).value;
      Addresses(lib, c, ss).value
        == c.(address := if Fours(nets) == [] then c.address else Some(Fours(nets)[0].addr),
              ignored := c.ignored || V6 in nets)
    decreases |ss|
  {
    hide Trim;
    if ss != [] {
      var all := AllWhole(Trimmed(ss));
      assert all[1..] == AllWhole(Trimmed(ss[1..])) && all[0] == Whole(Trim(ss[0]));
      match lib.prefix(all[0]) {
        case Some(V4(net)) =>
          AddressesGive(lib, c.(address := Some(net.addr)), ss[1..]);
          AddressesFine(lib, c.(address := Some(net.addr)), ss[1..]);
          FoursCons(V4(net), Nets(lib, all[1..]).value);
        case Some(V6) =>
          AddressesGive(lib, c.(ignored := true), ss[1..]);
          FoursCons(V6, Nets(lib, all[1..]).value);
      }
    }
  }

  lemma MaskCons(before: seq<Ipv4.Prefix>, net: Ipv4.Prefix, rest: seq<Ipv4.Prefix>)
    requires Ipv4.ValidPrefix(net) && AllValid(rest)
    ensures AllValid([net] + rest) && before + [Masked(net)] + MaskAll(rest) == before + MaskAll([net] + rest)
  {
    ConsValid(net, rest);
    hide Ipv4.Masked;
    assert MaskAll([net] + rest) == [Masked(net)] + MaskAll(rest);
  }

  lemma {:induction false} AllowancesGive(lib: Library, c: Config, ss: seq<string>)
    requires Allowances(lib, c, ss).Some?
    ensures Nets(lib, Trimmed(ss)).Some? && AllValid(Fours(Nets(lib, Trimmed(ss)).value))
    ensures var nets := Nets(lib, Trimmed(ss)).value;
      Allowances(lib, c, ss).value
        == c.(allowed := c.allowed + MaskAll(Fours(nets)), ignored := c.ignored || V6 in nets)
    decreases |ss|
  {
    hide Trim;
    AllowancesFine(lib, c, ss);
    if ss == [] {
      assert c.allowed + [] == c.allowed;
    } else {
      var all := Trimmed(ss);
      assert all[1..] == Trimmed(ss[1..]) && all[0] == Trim(ss[0]);
      match lib.prefix(all[0]) {
        case Some(V4(net)) =>
          AllowancesGive(lib, c.(allowed := c.allowed + [Masked(net)]), ss[1..]);
          var rest := Nets(lib, all[1..]).value;
          FoursCons(V4(net), rest);
          MaskCons(c.allowed, net, Fours(rest));
        case Some(V6) =>
          AllowancesGive(lib, c.(ignored := true), ss[1..]);
          FoursCons(V6, Nets(lib, all[1..]).value);
      }
    }
  }

  /** `after` says of `k` that it is `v`, and of everything else what `before` says. */
  ghost predicate Adds(before: Key -> Option<string>, after: Key -> Option<string>, k: Key, v: string) {
    before(k) == None && forall other :: after(other) == if other == k then Some(v) else before(other)
  }

  lemma AddressReflected(addresses: seq<Net>, allowances: seq<Net>, c: Config, n: Config)
    requires ReflectsNets([], allowances, c)
    requires n == c.(address := if Fours(addresses) == [] then c.address else Some(Fours(addresses)[0].addr),
                     ignored := c.ignored || V6 in addresses)
    ensures ReflectsNets(addresses, allowances, n)
  {
  }

  lemma AllowanceReflected(addresses: seq<Net>, allowances: seq<Net>, c: Config, n: Config)
    requires ReflectsNets(addresses, [], c) && AllValid(Fours(allowances))
    requires n == c.(allowed := c.allowed + MaskAll(Fours(allowances)), ignored := c.ignored || V6 in allowances)
    ensures ReflectsNets(addresses, allowances, n)
  {
    assert [] + MaskAll(Fours(allowances)) == MaskAll(Fours(allowances));
  }

  lemma SameNets(addresses: seq<Net>, allowances: seq<Net>, c: Config, n: Config)
    requires ReflectsNets(addresses, allowances, c)
    requires n.address == c.address && n.allowed == c.allowed && n.ignored == c.ignored
    ensures ReflectsNets(addresses, allowances, n)
  {
  }

  lemma ParamsSame(before: Key -> Option<string>, after: Key -> Option<string>, params: map<Key, nat>, k: Key,
                   v: string)
    requires ReflectsParams(before, params) && Adds(before, after, k, v) && !Numeric(k)
    ensures ReflectsParams(after, params)
  {
  }

  lemma ParamReflected(before: Key -> Option<string>, after: Key -> Option<string>, params: map<Key, nat>, k: Key,
                       v: string)
    requires ReflectsParams(before, params) && Adds(before, after, k, v) && Numeric(k) && Decimal(v).Some?
    ensures ReflectsParams(after, params[k := Decimal(v).value])
  {
    hide Decimal, Numeric;
    var next := params[k := Decimal(v).value];
    forall other ensures other in next <==> Numeric(other) && after(other).Some? {
      assert after(other) == if other == k then Some(v) else before(other);
    }
    forall other | other in next ensures Some(next[other]) == NumberOf(after(other)) {
      assert after(other) == if other == k then Some(v) else before(other);
    }
  }

  lemma PlainSame(lib: Library, before: Key -> Option<string>, after: Key -> Option<string>, c: Config, n: Config,
                  k: Key, v: string)
    requires ReflectsPlain(lib, before, c) && Adds(before, after, k, v) && !Plainly(k)
    requires n == c.(address := n.address, allowed := n.allowed, ignored := n.ignored, params := n.params)
    ensures ReflectsPlain(lib, after, n)
  {
    hide SecretOf, ServerOf, MtuOf, NumberOf;
    assert after(PrivateKey) == before(PrivateKey) && after(PublicKey) == before(PublicKey);
    assert after(PresharedKey) == before(PresharedKey) && after(Dns) == before(Dns);
    assert after(Endpoint) == before(Endpoint);
    assert after(Mtu) == before(Mtu) && after(Keepalive) == before(Keepalive);
    hide Adds, Plainly, Numeric;
  }

  lemma PlainReflected(lib: Library, before: Key -> Option<string>, after: Key -> Option<string>, c: Config, k: Key,
                       v: string)
    requires ReflectsPlain(lib, before, c) && Adds(before, after, k, v) && Plainly(k) && Assign(lib, c, k, v).Some?
    ensures var n := Assign(lib, c, k, v).value;
      && ReflectsPlain(lib, after, n)
      && n.address == c.address && n.allowed == c.allowed && n.ignored == c.ignored && n.params == c.params
  {
    PlainAre(k);
    PlainAssigned(lib, c, k, v);
    var n := Assign(lib, c, k, v).value;
    assert after(PrivateKey) == if k.PrivateKey? then Some(v) else before(PrivateKey);
    assert after(PublicKey) == if k.PublicKey? then Some(v) else before(PublicKey);
    assert after(PresharedKey) == if k.PresharedKey? then Some(v) else before(PresharedKey);
    assert after(Dns) == if k.Dns? then Some(v) else before(Dns);
    assert after(Endpoint) == if k.Endpoint? then Some(v) else before(Endpoint);
    assert after(Mtu) == if k.Mtu? then Some(v) else before(Mtu);
    assert after(Keepalive) == if k.Keepalive? then Some(v) else before(Keepalive);
    hide Adds, Assign, Plainly, Numeric, SecretOf, ServerOf, MtuOf, NumberOf;
  }

  lemma PlainAssigned(lib: Library, c: Config, k: Key, v: string)
    requires Plainly(k) && Assign(lib, c, k, v).Some?
    ensures Assign(lib, c, k, v).value ==
      match k
      case PrivateKey => c.(secret := SecretOf(lib, Some(v)))
      case PublicKey => c.(public := SecretOf(lib, Some(v)))
      case PresharedKey => c.(psk := SecretOf(lib, Some(v)))
      case Dns => c.(dns := ServerOf(lib, Some(v)))
      case Endpoint => c.(endpoint := Some(v))
      case Mtu => c.(mtu := MtuOf(Some(v)))
      case _ => c.(keepalive := NumberOf(Some(v)))
  {
    hide Decimal, Signed, EndpointHost;
  }

  lemma PlainAre(k: Key)
    ensures Plainly(k) <==>
      k.PrivateKey? || k.PublicKey? || k.PresharedKey? || k.Dns? || k.Endpoint? || k.Mtu? || k.Keepalive?
  {
  }

  lemma NetsReflected(lib: Library, before: Key -> Option<string>, after: Key -> Option<string>, c: Config, k: Key,
                      v: string)
    requires Reflects(lib, before, c) && Adds(before, after, k, v) && Assign(lib, c, k, v).Some?
    requires k.Address? || k.AllowedIps?
    ensures Reflects(lib, after, Assign(lib, c, k, v).value)
  {
    hide *;
    var n := Assign(lib, c, k, v).value;
    ReflectsParts(lib, before, c);
    NetsAssigned(lib, c, k, v);
    assert !Numeric(k) && !Plainly(k) by { NetKeys(k); }
    ParamsSame(before, after, c.params, k, v);
    OtherKeys(before, after, k, v);
    NotBefore(lib, before, after, k, v);
    if k.Address? {
      AddressReflected(AddressesOf(lib, Some(v)), AllowancesOf(lib, before(AllowedIps)), c, n);
    } else {
      AllowanceReflected(AddressesOf(lib, before(Address)), AllowancesOf(lib, Some(v)), c, n);
    }
    PlainSame(lib, before, after, c, n, k, v);
    ReflectsParts(lib, after, n);
  }

  lemma NetKeys(k: Key)
    requires k.Address? || k.AllowedIps?
    ensures !Numeric(k) && !Plainly(k)
  {
  }

  lemma NotBefore(lib: Library, before: Key -> Option<string>, after: Key -> Option<string>, k: Key, v: string)
    requires Adds(before, after, k, v)
    ensures after(k) == Some(v) && before(k) == None
    ensures k.Address? ==> AddressesOf(lib, before(Address)) == []
    ensures k.AllowedIps? ==> AllowancesOf(lib, before(AllowedIps)) == []
  {
  }

  lemma NetsAssigned(lib: Library, c: Config, k: Key, v: string)
    requires (k.Address? || k.AllowedIps?) && Assign(lib, c, k, v).Some?
    ensures k.Address? ==>
      var nets := AddressesOf(lib, Some(v));
      Assign(lib, c, k, v).value
        == c.(address := if Fours(nets) == [] then c.address else Some(Fours(nets)[0].addr),
              ignored := c.ignored || V6 in nets)
    ensures k.AllowedIps? ==>
      var nets := AllowancesOf(lib, Some(v));
      AllValid(Fours(nets))
      && Assign(lib, c, k, v).value
           == c.(allowed := c.allowed + MaskAll(Fours(nets)), ignored := c.ignored || V6 in nets)
  {
    hide Split, Trim, Nets, Fours, Allowances, Addresses;
    if k.Address? { AddressesGive(lib, c, Split(v, ',')); } else { AllowancesGive(lib, c, Split(v, ',')); }
  }

  lemma NumberReflected(lib: Library, before: Key -> Option<string>, after: Key -> Option<string>, c: Config,
                        k: Key, v: string)
    requires Reflects(lib, before, c) && Adds(before, after, k, v) && Assign(lib, c, k, v).Some? && Numeric(k)
    ensures Reflects(lib, after, Assign(lib, c, k, v).value)
  {
    var n := Assign(lib, c, k, v).value;
    assert Decimal(v).Some? && n == c.(params := c.params[k := Decimal(v).value]) by { NumberAssigned(lib, c, k, v); }
    hide *;
    ReflectsParts(lib, before, c);
    ParamReflected(before, after, c.params, k, v);
    assert !Plainly(k) && after(Address) == before(Address) && after(AllowedIps) == before(AllowedIps) by {
      OtherKeys(before, after, k, v);
    }
    PlainSame(lib, before, after, c, n, k, v);
    SameNets(AddressesOf(lib, after(Address)), AllowancesOf(lib, after(AllowedIps)), c, n);
    ReflectsParts(lib, after, n);
  }

  lemma NumberAssigned(lib: Library, c: Config, k: Key, v: string)
    requires Numeric(k) && Assign(lib, c, k, v).Some?
    ensures Decimal(v).Some? && Assign(lib, c, k, v).value == c.(params := c.params[k := Decimal(v).value])
  {
    hide Decimal, Signed;
  }

  lemma OtherKeys(before: Key -> Option<string>, after: Key -> Option<string>, k: Key, v: string)
    requires Adds(before, after, k, v)
    ensures Numeric(k) ==> !Plainly(k)
    ensures !k.Address? ==> after(Address) == before(Address)
    ensures !k.AllowedIps? ==> after(AllowedIps) == before(AllowedIps)
    ensures Numeric(k) || Plainly(k) ==> after(Address) == before(Address) && after(AllowedIps) == before(AllowedIps)
  {
  }

  lemma ReflectsParts(lib: Library, said: Key -> Option<string>, c: Config)
    ensures Reflects(lib, said, c) <==>
      && ReflectsPlain(lib, said, c) && ReflectsParams(said, c.params)
      && ReflectsNets(AddressesOf(lib, said(Address)), AllowancesOf(lib, said(AllowedIps)), c)
  {
    hide ReflectsPlain, ReflectsParams, ReflectsNets;
  }

  lemma FieldReflected(lib: Library, before: Key -> Option<string>, after: Key -> Option<string>, c: Config,
                       k: Key, v: string)
    requires Reflects(lib, before, c) && Adds(before, after, k, v) && Assign(lib, c, k, v).Some? && Plainly(k)
    ensures Reflects(lib, after, Assign(lib, c, k, v).value)
  {
    hide *;
    var n := Assign(lib, c, k, v).value;
    ReflectsParts(lib, before, c);
    PlainReflected(lib, before, after, c, k, v);
    assert !Numeric(k) by { PlainIs(k); }
    ParamsSame(before, after, c.params, k, v);
    OtherKeys(before, after, k, v);
    SameNets(AddressesOf(lib, after(Address)), AllowancesOf(lib, after(AllowedIps)), c, n);
    ReflectsParts(lib, after, n);
  }

  lemma PlainIs(k: Key)
    ensures Plainly(k) <==> !Numeric(k) && !k.Address? && !k.AllowedIps?
  {
  }

  lemma AssignReflected(lib: Library, before: Key -> Option<string>, after: Key -> Option<string>, c: Config,
                        k: Key, v: string)
    requires Reflects(lib, before, c) && Adds(before, after, k, v) && Assign(lib, c, k, v).Some?
    ensures Reflects(lib, after, Assign(lib, c, k, v).value)
  {
    hide Reflects, Adds, Assign, Plainly, Numeric;
    PlainIs(k);
    if k.Address? || k.AllowedIps? {
      NetsReflected(lib, before, after, c, k, v);
    } else if Numeric(k) {
      NumberReflected(lib, before, after, c, k, v);
    } else {
      FieldReflected(lib, before, after, c, k, v);
    }
  }

  lemma SaidSnoc(ls: seq<string>, l: string, k: Key)
    ensures Said(ls + [l], k) == if KeyAt(ls + [l], |ls|) == Some(k) then Some(ItemOf(l).value) else Said(ls, k)
  {
    assert (ls + [l])[..|ls|] == ls && (ls + [l])[|ls|] == l;
  }

  lemma {:induction false} SaidOnce(ls: seq<string>, k: Key)
    ensures Said(ls, k).Some? <==> exists j :: 0 <= j < |ls| && KeyAt(ls, j) == Some(k)
  {
    hide KeyAt, ItemOf;
    if ls != [] {
      var n := |ls| - 1;
      var front := ls[..n];
      assert ls == front + [ls[n]];
      SaidOnce(front, k);
      forall j | 0 <= j < n ensures KeyAt(ls, j) == KeyAt(front, j) { KeyPrefix(front, ls[n], j); }
    }
  }

  /** What an accepted line does to the configuration. */
  lemma LineDoes(lib: Library, ls: seq<string>, l: string, st: State)
    requires Remembers(ls, st) && Line(lib, st, l).Some?
    ensures var key := KeyAt(ls + [l], |ls|);
      if key.None? then Line(lib, st, l).value.config == st.config
      else
        && ItemOf(l).Setting? && key.value !in st.seen && Assign(lib, st.config, key.value, ItemOf(l).value).Some?
        && Line(lib, st, l).value.config == Assign(lib, st.config, key.value, ItemOf(l).value).value
  {
    UnderPrefix(ls, l, |ls|);
    assert (ls + [l])[|ls|] == l;
    hide KeyOf, Assign;
  }

  lemma LineReflects(lib: Library, ls: seq<string>, l: string, st: State)
    requires Remembers(ls, st) && Reflects(lib, k => Said(ls, k), st.config) && Line(lib, st, l).Some?
    ensures Reflects(lib, k => Said(ls + [l], k), Line(lib, st, l).value.config)
  {
    hide *;
    var before, after := (k: Key) => Said(ls, k), (k: Key) => Said(ls + [l], k);
    var key := KeyAt(ls + [l], |ls|);
    LineDoes(lib, ls, l, st);
    forall k ensures after(k) == if key == Some(k) then Some(ItemOf(l).value) else before(k) { SaidSnoc(ls, l, k); }
    if key.Some? {
      var k, v := key.value, ItemOf(l).value;
      assert before(k) == None by { NotSaid(ls, st, k); }
      AddsIs(before, after, k, v);
      AssignReflected(lib, before, after, st.config, k, v);
    } else {
      SameSaid(lib, before, after, st.config);
    }
  }

  lemma NotSaid(ls: seq<string>, st: State, k: Key)
    requires Remembers(ls, st) && k !in st.seen
    ensures Said(ls, k) == None
  {
    SaidOnce(ls, k);
    hide Said, KeyAt, ItemOf;
  }

  lemma AddsIs(before: Key -> Option<string>, after: Key -> Option<string>, k: Key, v: string)
    requires before(k) == None
    requires forall other :: after(other) == if Some(k) == Some(other) then Some(v) else before(other)
    ensures Adds(before, after, k, v)
  {
  }

  lemma SameSaid(lib: Library, before: Key -> Option<string>, after: Key -> Option<string>, c: Config)
    requires Reflects(lib, before, c) && forall k :: after(k) == before(k)
    ensures Reflects(lib, after, c)
  {
  }

  lemma BlankReflects(lib: Library)
    ensures Lines(lib, Begin(), []) == Some(Begin()) && Reflects(lib, k => Said([], k), Begin().config)
  {
  }

  lemma {:induction false} LinesReflect(lib: Library, ls: seq<string>)
    requires Lines(lib, Begin(), ls).Some?
    ensures Reflects(lib, k => Said(ls, k), Lines(lib, Begin(), ls).value.config)
  {
    hide *;
    if ls == [] {
      BlankReflects(lib);
    } else {
      var n := |ls| - 1;
      var front, l := ls[..n], ls[n];
      assert ls == front + [l];
      LinesSnoc(lib, Begin(), front, l);
      LinesExactly(lib, front);
      LinesReflect(lib, front);
      LineReflects(lib, front, l, Lines(lib, Begin(), front).value);
    }
  }

  lemma {:induction false} SaidIsFine(lib: Library, ls: seq<string>, k: Key)
    requires AllGood(lib, ls) && Said(ls, k).Some?
    ensures Fine(lib, k, Said(ls, k).value)
  {
    hide Fine, KeyAt, ItemOf;
    var n := |ls| - 1;
    var front, l := ls[..n], ls[n];
    assert ls == front + [l];
    SaidSnoc(front, l, k);
    AllGoodSnoc(lib, front, l);
    if KeyAt(ls, n) == Some(k) {
      KeyIsSetting(ls, n);
      assert GoodAt(lib, ls, n);
    } else {
      SaidIsFine(lib, front, k);
    }
  }

  lemma KeyIsSetting(ls: seq<string>, i: nat)
    requires i < |ls| && KeyAt(ls, i).Some?
    ensures ItemOf(ls[i]).Setting?
  {
  }

  // ---------------------------------------------------------------- the parser

  function NumberOr0(v: Option<string>): nat { if NumberOf(v).Some? then NumberOf(v).value else 0 }

  /** What a usable profile must say. */
  predicate Enough(lib: Library, ls: seq<string>) {
    && Said(ls, PrivateKey).Some? && Said(ls, PublicKey).Some? && Said(ls, Dns).Some? && Said(ls, Endpoint).Some?
    && Fours(AddressesOf(lib, Said(ls, Address))) != [] && Fours(AllowancesOf(lib, Said(ls, AllowedIps))) != []
    && NumberOr0(Said(ls, Jmin)) <= NumberOr0(Said(ls, Jmax))
  }

  lemma CompleteIsEnough(lib: Library, ls: seq<string>, c: Config)
    requires AllGood(lib, ls) && Reflects(lib, k => Said(ls, k), c)
    ensures Complete(c) <==> Enough(lib, ls)
  {
    hide *;
    var said := (k: Key) => Said(ls, k);
    ReflectsParts(lib, said, c);
    GivenKeys(lib, ls);
    PlainEnough(lib, ls, c);
    ParamsEnough(said, c, Jmin);
    ParamsEnough(said, c, Jmax);
    NetsEnough(AddressesOf(lib, said(Address)), AllowancesOf(lib, said(AllowedIps)), c);
    EnoughIs(lib, ls, c);
  }

  lemma GivenKeys(lib: Library, ls: seq<string>)
    requires AllGood(lib, ls)
    ensures SecretOf(lib, Said(ls, PrivateKey)).Some? <==> Said(ls, PrivateKey).Some?
    ensures SecretOf(lib, Said(ls, PublicKey)).Some? <==> Said(ls, PublicKey).Some?
    ensures ServerOf(lib, Said(ls, Dns)).Some? <==> Said(ls, Dns).Some?
  {
    hide Said, AllGood;
    if Said(ls, PrivateKey).Some? { SaidIsFine(lib, ls, PrivateKey); }
    if Said(ls, PublicKey).Some? { SaidIsFine(lib, ls, PublicKey); }
    if Said(ls, Dns).Some? { SaidIsFine(lib, ls, Dns); }
  }

  lemma PlainEnough(lib: Library, ls: seq<string>, c: Config)
    requires ReflectsPlain(lib, k => Said(ls, k), c)
    ensures c.secret == SecretOf(lib, Said(ls, PrivateKey)) && c.public == SecretOf(lib, Said(ls, PublicKey))
    ensures c.dns == ServerOf(lib, Said(ls, Dns)) && c.endpoint == Said(ls, Endpoint)
  {
    hide Said, SecretOf, ServerOf, NumberOf, MtuOf;
  }

  lemma ParamsEnough(said: Key -> Option<string>, c: Config, k: Key)
    requires ReflectsParams(said, c.params) && (k == Jmin || k == Jmax)
    ensures ParamOr0(c, k) == NumberOr0(said(k))
  {
    assert Numeric(k);
    hide Decimal;
  }

  lemma NetsEnough(addresses: seq<Net>, allowances: seq<Net>, c: Config)
    requires ReflectsNets(addresses, allowances, c)
    ensures c.address.Some? <==> Fours(addresses) != []
    ensures c.allowed != [] <==> Fours(allowances) != []
  {
    hide Fours;
  }

  lemma EnoughIs(lib: Library, ls: seq<string>, c: Config)
    requires c.secret.Some? <==> Said(ls, PrivateKey).Some?
    requires c.public.Some? <==> Said(ls, PublicKey).Some?
    requires (c.dns.Some? <==> Said(ls, Dns).Some?) && c.endpoint == Said(ls, Endpoint)
    requires c.address.Some? <==> Fours(AddressesOf(lib, Said(ls, Address))) != []
    requires c.allowed != [] <==> Fours(AllowancesOf(lib, Said(ls, AllowedIps))) != []
    requires ParamOr0(c, Jmin) == NumberOr0(Said(ls, Jmin)) && ParamOr0(c, Jmax) == NumberOr0(Said(ls, Jmax))
    ensures Complete(c) <==> Enough(lib, ls)
  {
    hide Said, Fours, AddressesOf, AllowancesOf, NumberOr0, ParamOr0;
  }

  lemma ParsedIs(lib: Library, raw: string)
    ensures var st := Lines(lib, Begin(), Split(raw, '\n'));
      Parsed(lib, raw) == if Utf8Size(raw) > 32768 || st.None? || !Complete(st.value.config) then None
                          else Some(st.value.config)
  {
    hide Lines, Complete, Split, Utf8Size;
  }

  /** For every text: it is accepted exactly when it is at most 32 KiB long, every line may stand where
      it does, the two keys, an IPv4 address, a DNS server, an endpoint and an IPv4 network are given, and
      Jmin does not exceed Jmax; and then every field of the result is what its one line says. */
  lemma ParsedExactly(lib: Library, raw: string)
    ensures var ls := Split(raw, '\n');
      && (Parsed(lib, raw).Some? <==> Utf8Size(raw) <= 32768 && AllGood(lib, ls) && Enough(lib, ls))
      && (Parsed(lib, raw).Some? ==> Reflects(lib, k => Said(ls, k), Parsed(lib, raw).value))
  {
    hide *;
    var ls := Split(raw, '\n');
    LinesExactly(lib, ls);
    if Lines(lib, Begin(), ls).Some? {
      LinesReflect(lib, ls);
      CompleteIsEnough(lib, ls, Lines(lib, Begin(), ls).value.config);
    }
    ParsedIs(lib, raw);
  }
}
