/** A library that meets everything the profile results ask of one, so that they are not empty:
    keys in a hexadecimal alphabet, addresses as decimal numbers, one known endpoint. */
module AwgLibrary {
  import opened Bytes
  import opened Text
  import opened AwgConfig
  import AwgProfile
  import Ipv4
  import Pool

  function Letter(n: nat): (c: char)
    requires n < 16
    ensures 'a' <= c <= 'p' && c as int - 'a' as int == n
  {
    'a' + n as char
  }

  function Encode(b: bytes): (s: string)
    ensures |s| == 2 * |b| && forall c :: c in s ==> 'a' <= c <= 'p'
  {
    if b == [] then "" else [Letter(b[0] / 16), Letter(b[0] % 16)] + Encode(b[1..])
  }

  function Decode(s: string): Option<bytes> {
    if s == "" then Some([])
    else if |s| < 2 || !('a' <= s[0] <= 'p') || !('a' <= s[1] <= 'p') then None
    else
      var rest := Decode(s[2..]);
      var first: byte := (s[0] as int - 'a' as int) * 16 + (s[1] as int - 'a' as int);
      if rest.None? then None else Some([first] + rest.value)
  }

  lemma {:induction false} DecodeEncode(b: bytes)
    ensures Decode(Encode(b)) == Some(b)
  {
    if b != [] {
      DecodeEncode(b[1..]);
      assert Encode(b)[2..] == Encode(b[1..]);
      assert [b[0]] + b[1..] == b;
    }
  }

  function Address(s: string): Option<Net> {
    var n := Decimal(s);
    if n.Some? && n.value < Ipv4.SPACE then Some(V4(Ipv4.Prefix(n.value, 32))) else None
  }

  function Prefix(s: string): Option<Net> {
    if |s| >= 3 && s[|s| - 3..] == "/32" then Address(s[..|s| - 3]) else None
  }

  function HostPort(s: string): Option<(string, string)> { if s == "a:1" then Some(("a", "1")) else None }

  function ShowAddress(a: Ipv4.address): string { Show(a) }

  function Simple(): Library { Library(Decode, Encode, HostPort, Prefix, Address, ShowAddress) }

  lemma DigitsPlain(s: string)
    requires s != [] && forall c :: c in s ==> Digit(c)
    ensures Plain(s) && Plain(s + "/32")
  {
    var t := s + "/32";
    forall i | 0 <= i < |s| ensures Digit(s[i]) { assert s[i] in s; }
    forall i | 0 <= i < |t| ensures t[i] != '\n' && t[i] != '#' && t[i] != ',' && !Space(t[i]) {
      if i < |s| { assert t[i] == s[i]; }
    }
  }

  lemma AddressPlain(s: string)
    requires Address(s).Some?
    ensures Plain(s)
  {
    DecimalDigits(s);
    DigitsPlain(s);
  }

  lemma PrefixPlain(s: string)
    requires Prefix(s).Some?
    ensures Plain(s) && Prefix(s).value.V4? && Ipv4.ValidPrefix(Prefix(s).value.net)
  {
    var n := |s| - 3;
    DecimalDigits(s[..n]);
    DigitsPlain(s[..n]);
    assert s == s[..n] + "/32";
  }

  lemma ShowReads(a: Ipv4.address)
    ensures Plain(Show(a)) && Prefix(Show(a) + "/32") == Some(V4(Ipv4.Prefix(a, 32)))
  {
    DigitsPlain(Show(a));
    DecimalShow(a);
    hide Show, Decimal;
    var s := Show(a) + "/32";
    assert s[|s| - 3..] == "/32" && s[..|s| - 3] == Show(a);
  }

  lemma KeyPlain(b: bytes)
    requires |b| == 32
    ensures Plain(Encode(b))
  {
    hide Encode;
    forall i | 0 <= i < |Encode(b)| ensures 'a' <= Encode(b)[i] <= 'p' { assert Encode(b)[i] in Encode(b); }
  }

  lemma SimpleIsFaithful()
    ensures Faithful(Simple())
  {
    var lib := Simple();
    forall b: bytes | |b| == 32 ensures Plain(lib.encodeKey(b)) && lib.decodeKey(lib.encodeKey(b)) == Some(b) {
      DecodeEncode(b);
      KeyPlain(b);
    }
    forall s | lib.prefix(s).Some? && lib.prefix(s).value.V4?
      ensures Plain(s) && Ipv4.ValidPrefix(lib.prefix(s).value.net)
    {
      PrefixPlain(s);
    }
    forall s | lib.address(s).Some? && lib.address(s).value.V4? ensures Plain(s) { AddressPlain(s); }
    forall a ensures Plain(lib.show(a)) && lib.prefix(lib.show(a) + "/32") == Some(V4(Ipv4.Prefix(a, 32)))
    {
      ShowReads(a);
    }
    hide Encode, Decode, Prefix, Address, ShowAddress, Plain;
    assert "a" + ":" + "1" == "a:1";
  }

  /** The assumptions of the profile results can be met together: there is a faithful library
      and a server configuration that passes its checks. */
  lemma ProfilesExist()
    ensures Faithful(Simple())
    ensures AwgProfile.Validated(Simple(), AwgProfile.Server("a:1", Ipv4.Prefix(1, 29), "1", ["1/32"], 1280))
  {
    SimpleIsFaithful();
    assert Decimal("1") == Some(1);
    assert Signed("1") == Some(1);
    assert "1/32"[..1] == "1" && "1/32"[1..] == "/32";
    SmallServer();
  }

  lemma SmallServer()
    ensures Pool.ValidServer(Ipv4.Prefix(1, 29))
  {
    var p := Ipv4.Prefix(1, 29);
    assert Ipv4.Pow2(1) == 2 && Ipv4.Pow2(2) == 4;
    assert Ipv4.Size(29) == 8;
    Ipv4.QuotientIff(1, 8, 0);
    Ipv4.QuotientIff(2, 8, 0);
  }
}
