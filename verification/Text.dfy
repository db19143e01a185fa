/** The string operations the configuration format is built from: cutting, trimming, splitting,
    decimal numbers. */
module Text {
  import opened Bytes

  /** Unicode white space. */
  predicate Space(c: char) {
    var n := c as int;
    || 9 <= n <= 13 || n == 0x20 || n == 0x85 || n == 0xa0 || n == 0x1680 || 0x2000 <= n <= 0x200a
    || n == 0x2028 || n == 0x2029 || n == 0x202f || n == 0x205f || n == 0x3000
  }

  predicate Solid(s: string) { s != [] && !Space(s[0]) && !Space(s[|s| - 1]) }

  function TrimLeft(s: string): (t: string)
    ensures |t| <= |s|
  {
    if s != [] && Space(s[0]) then TrimLeft(s[1..]) else s
  }

  function TrimRight(s: string): (t: string)
    ensures |t| <= |s|
  {
    if s != [] && Space(s[|s| - 1]) then TrimRight(s[..|s| - 1]) else s
  }

  function Trim(s: string): string { TrimRight(TrimLeft(s)) }

  lemma TrimSolid(s: string)
    requires Solid(s)
    ensures Trim(s) == s
  {
  }

  lemma {:induction false} TrimLeftEnd(s: string)
    requires s != [] && !Space(s[|s| - 1])
    ensures TrimLeft(s) != [] && TrimLeft(s)[|TrimLeft(s)| - 1] == s[|s| - 1] && TrimRight(TrimLeft(s)) == TrimLeft(s)
  {
    if Space(s[0]) { TrimLeftEnd(s[1..]); }
  }

  lemma {:induction false} TrimLeftIs(s: string) returns (i: nat)
    ensures i <= |s| && TrimLeft(s) == s[i..] && (forall k :: 0 <= k < i ==> Space(s[k]))
    ensures i < |s| ==> !Space(s[i])
  {
    if s != [] && Space(s[0]) {
      var j := TrimLeftIs(s[1..]);
      i := j + 1;
      assert forall k :: 0 < k < i ==> s[k] == s[1..][k - 1];
    } else {
      i := 0;
    }
  }

  lemma {:induction false} TrimRightIs(s: string) returns (j: nat)
    ensures j <= |s| && TrimRight(s) == s[..j] && (forall k :: j <= k < |s| ==> Space(s[k]))
    ensures j > 0 ==> !Space(s[j - 1])
  {
    if s != [] && Space(s[|s| - 1]) {
      j := TrimRightIs(s[..|s| - 1]);
      assert forall k :: 0 <= k < |s| - 1 ==> s[..|s| - 1][k] == s[k];
    } else {
      j := |s|;
    }
  }

  /** Trimming takes exactly the white space at both ends. */
  lemma TrimExactly(s: string) returns (i: nat, j: nat)
    ensures i <= j <= |s| && Trim(s) == s[i..j] && (i < j ==> Solid(s[i..j]))
    ensures forall k :: 0 <= k < |s| && !(i <= k < j) ==> Space(s[k])
  {
    i := TrimLeftIs(s);
    var t := s[i..];
    var n := TrimRightIs(t);
    j := i + n;
    assert t[..n] == s[i..j];
    forall k | 0 <= k < |s| && !(i <= k < j) ensures Space(s[k]) {
      if k >= j { assert t[k - i] == s[k]; }
    }
    if i < j { assert t[n - 1] == s[j - 1]; }
  }

  /** One blank in front and a visible end: trimming takes the blanks in front only. */
  lemma TrimIndented(s: string)
    requires s != [] && !Space(s[|s| - 1])
    ensures Trim([' '] + s) == TrimLeft(s)
  {
    assert ([' '] + s)[1..] == s;
    TrimLeftEnd(s);
  }

  lemma TrimSpaced(s: string)
    requires Solid(s)
    ensures Trim(s + [' ']) == s
  {
    var t := s + [' '];
    assert TrimLeft(t) == t && t[|t| - 1] == ' ' && t[..|t| - 1] == s;
    assert TrimRight(s) == s;
  }

  /** The part in front of the first `c`, or everything. */
  function Before(s: string, c: char): string {
    if s == [] || s[0] == c then [] else [s[0]] + Before(s[1..], c)
  }

  lemma {:induction false} BeforeNone(s: string, c: char)
    requires c !in s
    ensures Before(s, c) == s
  {
    if s != [] {
      assert c !in s[1..];
      BeforeNone(s[1..], c);
    }
  }

  /** Both parts around the first `c`, if there is one. */
  function Cut(s: string, c: char): Option<(string, string)> {
    var k := Before(s, c);
    BeforeShort(s, c);
    if |k| == |s| then None else Some((k, s[|k| + 1..]))
  }

  lemma {:induction false} BeforeShort(s: string, c: char)
    ensures |Before(s, c)| <= |s|
  {
    if s != [] && s[0] != c { BeforeShort(s[1..], c); }
  }

  lemma {:induction false} BeforeFirst(a: string, c: char, b: string)
    requires c !in a
    ensures Before(a + [c] + b, c) == a
  {
    if a != [] {
      assert c !in a[1..];
      BeforeFirst(a[1..], c, b);
      assert (a + [c] + b)[1..] == a[1..] + [c] + b;
    }
  }

  lemma CutFirst(a: string, c: char, b: string)
    requires c !in a
    ensures Cut(a + [c] + b, c) == Some((a, b))
  {
    BeforeFirst(a, c, b);
    hide Before;
    assert (a + [c] + b)[|a| + 1..] == b;
  }

  function Split(s: string, c: char): (ss: seq<string>)
    ensures |ss| >= 1
  {
    if s == [] then [[]]
    else
      var rest := Split(s[1..], c);
      if s[0] == c then [[]] + rest else [[s[0]] + rest[0]] + rest[1..]
  }

  lemma {:induction false} SplitFirst(a: string, c: char, b: string)
    requires c !in a
    ensures Split(a + [c] + b, c) == [a] + Split(b, c)
  {
    var s := a + [c] + b;
    if a == [] {
      assert s == [c] + b && s[1..] == b;
    } else {
      assert c !in a[1..];
      SplitFirst(a[1..], c, b);
      assert s[1..] == a[1..] + [c] + b;
      assert [a[0]] + a[1..] == a;
    }
  }

  lemma {:induction false} SplitNone(s: string, c: char)
    requires c !in s
    ensures Split(s, c) == [s]
  {
    if s != [] {
      assert c !in s[1..];
      SplitNone(s[1..], c);
      assert [s[0]] + s[1..] == s;
    }
  }

  /** The size of a text in UTF-8. */
  function Utf8Size(s: string): nat {
    if s == [] then 0
    else
      var n := s[0] as int;
      (if n < 0x80 then 1 else if n < 0x800 then 2 else if n < 0x1_0000 then 3 else 4) + Utf8Size(s[1..])
  }

  // ---------------------------------------------------------------- decimal numbers

  predicate Digit(c: char) { '0' <= c <= '9' }

  function Show(n: nat): (s: string)
    ensures s != [] && forall c :: c in s ==> Digit(c)
  {
    if n < 10 then [DigitOf(n)] else Show(n / 10) + [DigitOf(n % 10)]
  }

  function DigitOf(n: nat): (c: char)
    requires n < 10
    ensures Digit(c) && c as int - '0' as int == n
  {
    '0' + n as char
  }

  /** Decimal digits only, at least one; leading zeros are allowed. */
  function Decimal(s: string): Option<nat> {
    if s == [] || !Digit(s[|s| - 1]) then None
    else
      var d := s[|s| - 1] as int - '0' as int;
      if |s| == 1 then Some(d)
      else
        var high := Decimal(s[..|s| - 1]);
        if high.None? then None else Some(high.value * 10 + d)
  }

  lemma {:induction false} DecimalShow(n: nat)
    ensures Decimal(Show(n)) == Some(n)
  {
    if n >= 10 {
      DecimalShow(n / 10);
      assert Show(n)[..|Show(n)| - 1] == Show(n / 10);
    }
  }

  /** Exactly the texts of digits are numbers, and a zero in front changes nothing. */
  lemma {:induction false} DecimalExactly(s: string)
    ensures Decimal(s).Some? <==> s != [] && forall c :: c in s ==> Digit(c)
    ensures Decimal(s).Some? ==> Decimal("0" + s) == Decimal(s)
  {
    if s != [] {
      var n := |s| - 1;
      assert s == s[..n] + [s[n]];
      if n > 0 { DecimalExactly(s[..n]); }
      assert ("0" + s)[..n + 1] == "0" + s[..n];
      assert Decimal("0") == Some(0);
    }
  }

  /** A number with an optional sign that fits 64 bits. */
  function Signed(s: string): Option<int> {
    var digits := if s != [] && (s[0] == '+' || s[0] == '-') then s[1..] else s;
    match Decimal(digits)
    case None => None
    case Some(n) =>
      var size: int := n;
      var value := if s[0] == '-' then -size else size;
      if -0x8000_0000_0000_0000 <= value < 0x8000_0000_0000_0000 then Some(value) else None
  }

  lemma SignedShow(n: nat)
    requires n < 0x8000_0000_0000_0000
    ensures Signed(Show(n)) == Some(n)
  {
    DecimalShow(n);
    hide Decimal;
    assert Show(n)[0] in Show(n);
  }

  /** A sign in front counts, up to the ends of the 64-bit range. */
  lemma SignedExactly(n: nat)
    ensures Signed("+" + Show(n)) == if n < 0x8000_0000_0000_0000 then Some(n) else None
    ensures Signed("-" + Show(n)) == if n <= 0x8000_0000_0000_0000 then Some(-(n as int)) else None
  {
    DecimalShow(n);
    hide Decimal;
    assert ("+" + Show(n))[1..] == Show(n) && ("-" + Show(n))[1..] == Show(n);
  }

  lemma {:induction false} DecimalDigits(s: string)
    requires Decimal(s).Some?
    ensures s != [] && forall c :: c in s ==> Digit(c)
  {
    if |s| > 1 {
      DecimalDigits(s[..|s| - 1]);
      assert s == s[..|s| - 1] + [s[|s| - 1]];
    }
  }

  /** A port text ends in a digit and holds nothing but digits and a sign. */
  lemma SignedChars(s: string)
    requires Signed(s).Some?
    ensures s != [] && Digit(s[|s| - 1]) && forall c :: c in s ==> Digit(c) || c == '+' || c == '-'
  {
    var digits := if s != [] && (s[0] == '+' || s[0] == '-') then s[1..] else s;
    DecimalDigits(digits);
    assert digits[|digits| - 1] in digits;
  }
}
