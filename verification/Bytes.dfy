/** Byte strings and the fixed-width integer encodings every wire format here uses. */
module Bytes {

  type byte = b: int | 0 <= b < 256
  type bytes = seq<byte>

  datatype Option<+T> = None | Some(value: T)

  /** 256 to the power `width`: the number of values `width` bytes can hold. */
  function Values(width: nat): (n: nat)
    ensures n >= 1
  {
    if width == 0 then 1 else 256 * Values(width - 1)
  }

  lemma Widths()
    ensures Values(1) == 0x100 && Values(2) == 0x1_0000
    ensures Values(4) == 0x1_0000_0000 && Values(8) == 0x1_0000_0000_0000_0000
  {
    assert Values(3) == 0x100_0000;
    assert Values(5) == 0x100_0000_0000;
    assert Values(6) == 0x1_0000_0000_0000;
    assert Values(7) == 0x100_0000_0000_0000;
  }

  /** Big-endian, keeping the low `width` bytes of `n` as an unsigned conversion does. */
  function Be(n: nat, width: nat): (s: bytes)
    ensures |s| == width
  {
    if width == 0 then [] else Be(n / 256, width - 1) + [n % 256]
  }

  function FromBe(s: bytes): (n: nat)
    ensures n < Values(|s|)
  {
    if s == [] then 0 else FromBe(s[..|s| - 1]) * 256 + s[|s| - 1]
  }

  /** Little-endian, keeping the low `width` bytes of `n`. */
  function Le(n: nat, width: nat): (s: bytes)
    ensures |s| == width
  {
    if width == 0 then [] else [n % 256] + Le(n / 256, width - 1)
  }

  function FromLe(s: bytes): (n: nat)
    ensures n < Values(|s|)
  {
    if s == [] then 0 else s[0] + 256 * FromLe(s[1..])
  }

  lemma {:induction false} BeRoundTrip(n: nat, width: nat)
    requires n < Values(width)
    ensures FromBe(Be(n, width)) == n
  {
    if width > 0 {
      BeRoundTrip(n / 256, width - 1);
      assert Be(n, width)[..width - 1] == Be(n / 256, width - 1);
    }
  }

  lemma {:induction false} BeInverse(s: bytes)
    ensures Be(FromBe(s), |s|) == s
  {
    if s != [] {
      var n := |s| - 1;
      BeInverse(s[..n]);
      assert FromBe(s) / 256 == FromBe(s[..n]) && FromBe(s) % 256 == s[n];
      assert s == s[..n] + [s[n]];
    }
  }

  lemma {:induction false} LeRoundTrip(n: nat, width: nat)
    requires n < Values(width)
    ensures FromLe(Le(n, width)) == n
  {
    if width > 0 {
      LeRoundTrip(n / 256, width - 1);
      assert Le(n, width)[1..] == Le(n / 256, width - 1);
    }
  }

  function Min(a: int, b: int): int { if a < b then a else b }

  function Zeros(n: nat): (s: bytes)
    ensures |s| == n && forall i :: 0 <= i < n ==> s[i] == 0
  {
    seq(n, _ => 0)
  }

  /** Concatenation of a list of byte strings. */
  function Concat(ss: seq<bytes>): bytes {
    if ss == [] then [] else ss[0] + Concat(ss[1..])
  }

  /** Copies `s` into the buffer from offset `at`. */
  method Put(a: array<byte>, at: nat, s: bytes)
    requires at + |s| <= a.Length
    modifies a
    ensures a[..] == old(a[..])[..at] + s + old(a[..])[at + |s|..]
  {
    var i := 0;
    while i < |s|
      invariant 0 <= i <= |s|
      invariant a[at..at + i] == s[..i]
      invariant forall k :: 0 <= k < a.Length && !(at <= k < at + i) ==> a[k] == old(a[k])
    {
      a[at + i] := s[i];
      i := i + 1;
    }
    assert forall k :: at <= k < at + |s| ==> a[k] == a[at..at + |s|][k - at];
  }
}
