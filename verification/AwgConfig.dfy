/** The AmneziaWG client configuration: the text the server prints for a user, the parser the
    client reads it with, and the parameters it hands to its engine. */
module AwgConfig {
  import opened Bytes
  import opened Text
  import Ipv4

  // ---------------------------------------------------------------- the text formats of the platform

  datatype Net = V4(net: Ipv4.Prefix) | V6

  /** Base64 keys, addresses, prefixes and host:port pairs are read and written by the
      platform's library; only what `Faithful` says of it is used. */
  datatype Library = Library(
    decodeKey: string -> Option<bytes>, encodeKey: bytes -> string,
    hostPort: string -> Option<(string, string)>,
    prefix: string -> Option<Net>, address: string -> Option<Net>, show: Ipv4.address -> string)

  /** Texts that cannot disturb a line: no line end, comment sign, comma or white space. */
  predicate Plain(s: string) {
    s != [] && forall i :: 0 <= i < |s| ==> s[i] != '\n' && s[i] != '#' && s[i] != ',' && !Space(s[i])
  }

  ghost predicate Faithful(lib: Library) {
    && (forall b: bytes :: |b| == 32 ==> Plain(lib.encodeKey(b)) && lib.decodeKey(lib.encodeKey(b)) == Some(b))
    && (forall s :: lib.hostPort(s).Some? ==>
          var (h, p) := lib.hostPort(s).value; s == h + ":" + p || s == "[" + h + "]:" + p)
    && (forall s :: lib.prefix(s).Some? && lib.prefix(s).value.V4? ==>
          Plain(s) && Ipv4.ValidPrefix(lib.prefix(s).value.net))
    && (forall s :: lib.address(s).Some? && lib.address(s).value.V4? ==> Plain(s))
    && (forall a :: Plain(lib.show(a)) && lib.prefix(lib.show(a) + "/32") == Some(V4(Ipv4.Prefix(a, 32))))
  }

  // ---------------------------------------------------------------- keys of the format

  datatype Section = Interface | Peer

  datatype Key =
    | PrivateKey | Address | Dns | Mtu | Jc | Jmin | Jmax | S1 | S2 | H1 | H2 | H3 | H4
    | PublicKey | PresharedKey | AllowedIps | Endpoint | Keepalive

  function Name(k: Key): string {
    match k
    case PrivateKey => "PrivateKey"
    case Address => "Address"
    case Dns => "DNS"
    case Mtu => "MTU"
    case Jc => "Jc"
    case Jmin => "Jmin"
    case Jmax => "Jmax"
    case S1 => "S1"
    case S2 => "S2"
    case H1 => "H1"
    case H2 => "H2"
    case H3 => "H3"
    case H4 => "H4"
    case PublicKey => "PublicKey"
    case PresharedKey => "PresharedKey"
    case AllowedIps => "AllowedIPs"
    case Endpoint => "Endpoint"
    case Keepalive => "PersistentKeepalive"
  }

  function Home(k: Key): Section {
    match k
    case PublicKey => Peer
    case PresharedKey => Peer
    case AllowedIps => Peer
    case Endpoint => Peer
    case Keepalive => Peer
    case _ => Interface
  }

  function KeyOf(section: Section, name: string): Option<Key> {
    if section.Interface? then
      if name == "PrivateKey" then Some(PrivateKey)
      else if name == "Address" then Some(Address)
      else if name == "DNS" then Some(Dns)
      else if name == "MTU" then Some(Mtu)
      else Parameter(name)
    else
      if name == "PublicKey" then Some(PublicKey)
      else if name == "PresharedKey" then Some(PresharedKey)
      else if name == "Endpoint" then Some(Endpoint)
      else if name == "AllowedIPs" then Some(AllowedIps)
      else if name == "PersistentKeepalive" then Some(Keepalive)
      else None
  }

  function Parameter(name: string): Option<Key> {
    if name == "Jc" then Some(Jc)
    else if name == "Jmin" then Some(Jmin)
    else if name == "Jmax" then Some(Jmax)
    else if name == "S1" then Some(S1)
    else if name == "S2" then Some(S2)
    else if name == "H1" then Some(H1)
    else if name == "H2" then Some(H2)
    else if name == "H3" then Some(H3)
    else if name == "H4" then Some(H4)
    else None
  }

  lemma ParameterOfName(k: Key)
    requires Limit(k).Some?
    ensures Parameter(Name(k)) == Some(k) && |Name(k)| <= 4 && Name(k) != "DNS" && Name(k) != "MTU"
  {
    assert "Jmin"[2] != "Jmax"[2];
    assert "S1"[1] != "S2"[1] && "S1"[0] != "H1"[0] && "S1"[0] != "Jc"[0];
    assert "H1"[1] != "H2"[1] && "H1"[1] != "H3"[1] && "H1"[1] != "H4"[1];
    assert "H2"[1] != "H3"[1] && "H2"[1] != "H4"[1] && "H3"[1] != "H4"[1];
  }

  lemma KeyOfName(k: Key)
    ensures KeyOf(Home(k), Name(k)) == Some(k)
  {
    if Limit(k).Some? {
      ParameterOfName(k);
      hide Parameter, Name;
    } else {
      assert "DNS"[0] != "MTU"[0];
    }
  }

  // ---------------------------------------------------------------- parsing

  datatype Config = Config(secret: Option<bytes>, public: Option<bytes>, psk: Option<bytes>,
                           address: Option<Ipv4.address>, dns: Option<Ipv4.address>, mtu: int,
                           endpoint: Option<string>, allowed: seq<Ipv4.Prefix>, ignored: bool,
                           params: map<Key, nat>, keepalive: Option<nat>)

  datatype State = State(section: Option<Section>, sections: set<Section>, seen: set<Key>, config: Config)

  function Blank(): Config { Config(None, None, None, None, None, 1280, None, [], false, map[], None) }

  function KeyBytes(lib: Library, v: string): Option<bytes> {
    match lib.decodeKey(v)
    case None => None
    case Some(b) => if |b| == 32 && exists i :: 0 <= i < |b| && b[i] != 0 then Some(b) else None
  }

  /** The bound on each numeric parameter: a 32-bit number, some of them much less. */
  function Limit(k: Key): Option<nat> {
    match k
    case Jc => Some(128)
    case Jmin => Some(1280)
    case Jmax => Some(1280)
    case S1 => Some(1280)
    case S2 => Some(1280)
    case H1 => Some(0xffff_ffff)
    case H2 => Some(0xffff_ffff)
    case H3 => Some(0xffff_ffff)
    case H4 => Some(0xffff_ffff)
    case _ => None
  }

  function Addresses(lib: Library, c: Config, ss: seq<string>): Option<Config>
    decreases |ss|
  {
    if ss == [] then Some(c)
    else
      var s := Trim(ss[0]);
      match lib.prefix(if '/' in s then s else s + "/32")
      case None => None
      case Some(V4(net)) => if c.address.Some? then None else Addresses(lib, c.(address := Some(net.addr)), ss[1..])
      case Some(V6) => Addresses(lib, c.(ignored := true), ss[1..])
  }

  function Allowances(lib: Library, c: Config, ss: seq<string>): Option<Config>
    decreases |ss|
  {
    if ss == [] then Some(c)
    else match lib.prefix(Trim(ss[0]))
      case None => None
      case Some(V4(net)) =>
        if !Ipv4.ValidPrefix(net) then None
        else Allowances(lib, c.(allowed := c.allowed + [Masked(net)]), ss[1..])
      case Some(V6) => Allowances(lib, c.(ignored := true), ss[1..])
  }

  function Masked(net: Ipv4.Prefix): Ipv4.Prefix
    requires Ipv4.ValidPrefix(net)
  {
    Ipv4.Masked(net)
  }

  /** The host and port of an endpoint text that the parser accepts. */
  function EndpointHost(lib: Library, v: string): Option<string> {
    match lib.hostPort(v)
    case None => None
    case Some((h, p)) =>
      var n := Signed(p);
      if n.None? || h == "" || ' ' in h || '\r' in h || '\n' in h || '\t' in h || n.value < 1
        || n.value > 65535 then None
      else Some(h)
  }

  predicate IsV6(lib: Library, h: string) { lib.address(h) == Some(V6) }

  function Assign(lib: Library, c: Config, k: Key, v: string): Option<Config> {
    match k
    case PrivateKey => var b := KeyBytes(lib, v); if b.None? then None else Some(c.(secret := b))
    case PublicKey => var b := KeyBytes(lib, v); if b.None? then None else Some(c.(public := b))
    case PresharedKey => var b := KeyBytes(lib, v); if b.None? then None else Some(c.(psk := b))
    case Address => Addresses(lib, c, Split(v, ','))
    case Dns => (match lib.address(v) case Some(V4(net)) => Some(c.(dns := Some(net.addr))) case _ => None)
    case Mtu =>
      var n := Signed(v);
      if n.None? || n.value < 1280 || n.value > 1420 then None else Some(c.(mtu := n.value))
    case Endpoint =>
      var h := EndpointHost(lib, v);
      if h.None? || IsV6(lib, h.value) then None else Some(c.(endpoint := Some(v)))
    case AllowedIps => Allowances(lib, c, Split(v, ','))
    case Keepalive =>
      var n := Decimal(v);
      if n.None? || n.value >= 0x1_0000 then None else Some(c.(keepalive := n))
    case _ => SetParameter(c, k, v)
  }

  function SetParameter(c: Config, k: Key, v: string): Option<Config> {
    var n, most := Decimal(v), Limit(k);
    if n.None? || most.None? || n.value > most.value then None else Some(c.(params := c.params[k := n.value]))
  }

  function Enter(st: State, s: Section): Option<State> {
    if s in st.sections then None else Some(st.(section := Some(s), sections := st.sections + {s}))
  }

  function Put(lib: Library, st: State, k: Key, v: string): Option<State> {
    if k in st.seen then None
    else
      var c := Assign(lib, st.config, k, v);
      if c.None? then None else Some(st.(seen := st.seen + {k}, config := c.value))
  }

  /** A line without its comment and surrounding blanks. */
  function Clean(raw: string): string { Trim(Before(raw, '#')) }

  /** What a cleaned line does: nothing, a section, a field, or an error. */
  function Meaning(lib: Library, st: State, line: string): Option<State> {
    if line == "" then Some(st)
    else if line[0] == '[' then
      if line == "[Interface]" then Enter(st, Interface)
      else if line == "[Peer]" then Enter(st, Peer)
      else None
    else
      match Cut(line, '=')
      case None => None
      case Some((k, v)) =>
        if st.section.None? then None else Entered(lib, st, KeyOf(st.section.value, Trim(k)), Trim(v))
  }

  function Entered(lib: Library, st: State, k: Option<Key>, v: string): Option<State> {
    if k.None? then None else Put(lib, st, k.value, v)
  }

  function Line(lib: Library, st: State, raw: string): Option<State> { Meaning(lib, st, Clean(raw)) }

  function Lines(lib: Library, st: State, ls: seq<string>): Option<State>
    decreases |ls|
  {
    if ls == [] then Some(st)
    else
      var next := Line(lib, st, ls[0]);
      if next.None? then None else Lines(lib, next.value, ls[1..])
  }

  function ParamOr0(c: Config, k: Key): nat { if k in c.params then c.params[k] else 0 }

  predicate Complete(c: Config) {
    && c.secret.Some? && c.public.Some? && c.address.Some? && c.endpoint.Some? && c.allowed != [] && c.dns.Some?
    && ParamOr0(c, Jmin) <= ParamOr0(c, Jmax)
  }

  function Begin(): State { State(None, {}, {}, Blank()) }

  function Parsed(lib: Library, raw: string): Option<Config> {
    if Utf8Size(raw) > 32768 then None
    else
      var st := Lines(lib, Begin(), Split(raw, '\n'));
      if st.None? || !Complete(st.value.config) then None else Some(st.value.config)
  }

  /** The parser's loop over the lines. */
  method Parse(lib: Library, raw: string) returns (r: Option<Config>)
    ensures r == Parsed(lib, raw)
  {
    hide Line, Complete;
    if Utf8Size(raw) > 32768 { return None; }
    var lines := Split(raw, '\n');
    var st := Begin();
    for i := 0 to |lines|
      invariant Lines(lib, st, lines[i..]) == Lines(lib, Begin(), lines)
    {
      var next := Line(lib, st, lines[i]);
      assert lines[i..][1..] == lines[i + 1..];
      if next.None? { return None; }
      st := next.value;
    }
    assert Lines(lib, st, lines[|lines|..]) == Some(st);
    if !Complete(st.config) { return None; }
    return Some(st.config);
  }

  // ---------------------------------------------------------------- lines and entries

  /** A configuration text as its printer thinks of it. */
  datatype Entry = Heading(section: Section) | Field(key: Key, value: string) | Empty

  function Title(s: Section): string { if s.Interface? then "[Interface]" else "[Peer]" }

  function LineOf(e: Entry): string {
    match e
    case Heading(s) => Title(s)
    case Field(k, v) => Name(k) + " = " + v
    case Empty => ""
  }

  function Render(es: seq<Entry>): string {
    if es == [] then "" else LineOf(es[0]) + ['\n'] + Render(es[1..])
  }

  /** Values that keep to their line and end in something visible. */
  predicate Printable(v: string) { v != [] && '\n' !in v && '#' !in v && !Space(v[|v| - 1]) }

  predicate GoodEntry(e: Entry) { e.Field? ==> Printable(e.value) }

  function Act(lib: Library, st: State, e: Entry): Option<State> {
    match e
    case Heading(s) => Enter(st, s)
    case Field(k, v) => Put(lib, st, k, TrimLeft(v))
    case Empty => Some(st)
  }

  function Acts(lib: Library, st: State, es: seq<Entry>): Option<State>
    decreases |es|
  {
    if es == [] then Some(st)
    else
      var next := Act(lib, st, es[0]);
      if next.None? then None else Acts(lib, next.value, es[1..])
  }

  /** Every field stands under the heading of its own section. */
  predicate Placed(section: Option<Section>, es: seq<Entry>)
    decreases |es|
  {
    es == [] || (
      && (es[0].Field? ==> section == Some(Home(es[0].key)))
      && Placed(if es[0].Heading? then Some(es[0].section) else section, es[1..]))
  }

  predicate GoodEntries(es: seq<Entry>) { es == [] || (GoodEntry(es[0]) && GoodEntries(es[1..])) }

  predicate Wordlike(s: string) {
    Solid(s) && s[0] != '[' && forall i :: 0 <= i < |s| ==> s[i] != '#' && s[i] != '=' && s[i] != '\n'
  }

  lemma ParameterIsWord(k: Key)
    requires Limit(k).Some?
    ensures Wordlike(Name(k))
  {
  }

  lemma PeerIsWord(k: Key)
    requires Home(k).Peer?
    ensures Wordlike(Name(k))
  {
    assert |"PersistentKeepalive"| == 19;
  }

  lemma NameIsWord(k: Key)
    ensures Wordlike(Name(k))
  {
    if Limit(k).Some? { ParameterIsWord(k); } else if Home(k).Peer? { PeerIsWord(k); }
  }

  lemma FieldText(name: string, v: string)
    requires Wordlike(name) && Printable(v)
    ensures var line := name + " = " + v;
      && '\n' !in line && '#' !in line && Solid(line) && line[0] != '['
      && line == (name + [' ']) + ['='] + ([' '] + v) && '=' !in name + [' ']
  {
  }

  lemma CleanField(name: string, v: string)
    requires Wordlike(name) && Printable(v)
    ensures var line := name + " = " + v;
      && '\n' !in line && Clean(line) == line && line[0] != '['
      && Cut(line, '=') == Some((name + [' '], [' '] + v))
  {
    FieldText(name, v);
    var line := name + " = " + v;
    BeforeNone(line, '#');
    TrimSolid(line);
    CutFirst(name + [' '], '=', [' '] + v);
    hide Trim, Before, Cut, Wordlike, Printable;
  }

  lemma FieldLine(lib: Library, st: State, k: Key, v: string)
    requires Printable(v) && st.section == Some(Home(k))
    ensures '\n' !in LineOf(Field(k, v)) && Line(lib, st, LineOf(Field(k, v))) == Put(lib, st, k, TrimLeft(v))
  {
    hide KeyOf, Trim, TrimLeft, Before, Cut, Put, Clean, Name;
    NameIsWord(k);
    KeyOfName(k);
    CleanField(Name(k), v);
    TrimSpaced(Name(k));
    TrimIndented(v);
  }

  lemma CleanSolid(t: string)
    requires Solid(t) && '#' !in t
    ensures Clean(t) == t
  {
    BeforeNone(t, '#');
    TrimSolid(t);
  }

  lemma TitleText(s: Section)
    ensures Solid(Title(s)) && '#' !in Title(s) && '\n' !in Title(s) && Title(s)[0] == '['
  {
  }

  lemma TitleLine(lib: Library, st: State, s: Section)
    ensures '\n' !in Title(s) && Line(lib, st, Title(s)) == Enter(st, s)
  {
    TitleText(s);
    CleanSolid(Title(s));
    hide Clean, Cut, Enter, Solid;
    assert |"[Interface]"| != |"[Peer]"|;
  }

  lemma EmptyLine(lib: Library, st: State)
    ensures Line(lib, st, "") == Some(st)
  {
  }

  lemma EntryLine(lib: Library, st: State, e: Entry)
    requires GoodEntry(e) && (e.Field? ==> st.section == Some(Home(e.key)))
    ensures '\n' !in LineOf(e) && Line(lib, st, LineOf(e)) == Act(lib, st, e)
    ensures var n := Act(lib, st, e); n.Some? ==> n.value.section == if e.Heading? then Some(e.section) else st.section
  {
    hide Line, Name, Title, Assign;
    match e
    case Heading(s) => TitleLine(lib, st, s);
    case Field(k, v) => FieldLine(lib, st, k, v);
    case Empty => EmptyLine(lib, st);
  }

  /** Reading the printed lines is acting on the entries they were printed from. */
  lemma {:induction false} LinesAreEntries(lib: Library, st: State, es: seq<Entry>)
    requires GoodEntries(es) && Placed(st.section, es)
    ensures Lines(lib, st, Split(Render(es), '\n')) == Acts(lib, st, es)
    decreases |es|
  {
    hide Line, LineOf, Act, Home;
    if es == [] {
      EmptyLine(lib, st);
      assert Split("", '\n') == [""];
    } else {
      var rest := Render(es[1..]);
      EntryLine(lib, st, es[0]);
      SplitFirst(LineOf(es[0]), '\n', rest);
      hide Split;
      var ls := Split(Render(es), '\n');
      assert ls[0] == LineOf(es[0]) && ls[1..] == Split(rest, '\n');
      var n := Act(lib, st, es[0]);
      if n.Some? { LinesAreEntries(lib, n.value, es[1..]); }
    }
  }
}
