/** The Internet checksum of RFC 1071, section 1. */
module InternetChecksum {
  import opened Bytes

  /** The sum of the big-endian 16-bit words, an odd last byte counting as a high byte. */
  function WordSum(p: bytes): nat {
    if p == [] then 0
    else if |p| == 1 then p[0] * 256
    else p[0] * 256 + p[1] + WordSum(p[2..])
  }

  /** End-around carry until 16 bits are left. */
  function Fold(s: nat): nat
    decreases s
  {
    if s < 0x1_0000 then s else Fold(s % 0x1_0000 + s / 0x1_0000)
  }

  function Checksum(p: bytes): (c: nat)
    ensures c < 0x1_0000
  {
    FoldRange(WordSum(p));
    0xffff - Fold(WordSum(p))
  }

  lemma {:induction false} WordSumBound(p: bytes)
    ensures WordSum(p) <= 0xffff * ((|p| + 1) / 2)
  {
    if |p| > 1 { WordSumBound(p[2..]); }
  }

  /** The 32-bit accumulator holds the sum of any buffer up to 131074 bytes, and no IPv4 packet
      or pseudo-header is longer. */
  lemma AccumulatorFits(p: bytes)
    requires |p| <= 131074
    ensures WordSum(p) < 0x1_0000_0000
  {
    WordSumBound(p);
  }

  lemma {:induction false} FoldRange(s: nat)
    ensures Fold(s) <= 0xffff
    ensures Fold(s) == 0 <==> s == 0
    decreases s
  {
    if s >= 0x1_0000 { FoldRange(s % 0x1_0000 + s / 0x1_0000); }
  }

  /** Folding keeps the residue modulo 65535. */
  lemma {:induction false} FoldResidue(s: nat)
    ensures exists k: nat :: s == Fold(s) + 0xffff * k
    decreases s
  {
    if s < 0x1_0000 {
      assert s == Fold(s) + 0xffff * 0;
    } else {
      var h, l := s / 0x1_0000, s % 0x1_0000;
      FoldResidue(l + h);
      var k: nat :| l + h == Fold(l + h) + 0xffff * k;
      assert s == Fold(s) + 0xffff * (k + h);
    }
  }

  lemma FoldFull(s: nat, k: nat)
    requires s > 0 && s == 0xffff * k
    ensures Fold(s) == 0xffff
  {
    FoldRange(s);
    FoldResidue(s);
    var j: nat :| s == Fold(s) + 0xffff * j;
    assert Fold(s) == 0xffff * (k - j);
  }

  /** Adding the checksum of a sum, or 65535 in place of 0, makes it fold to all ones. */
  lemma Completes(s: nat, c: nat)
    requires c == 0xffff - Fold(s) || (c == 0xffff && Fold(s) == 0xffff)
    ensures Fold(s + c) == 0xffff
  {
    FoldRange(s);
    FoldResidue(s);
    var k: nat :| s == Fold(s) + 0xffff * k;
    if c == 0xffff - Fold(s) {
      FoldFull(s + c, k + 1);
    } else {
      FoldFull(s + c, k + 2);
    }
  }

  // ---------------------------------------------------------------- where the field sits

  lemma {:induction false} WordSumAppend(a: bytes, b: bytes)
    requires |a| % 2 == 0
    ensures WordSum(a + b) == WordSum(a) + WordSum(b)
  {
    if a == [] {
      assert a + b == b;
    } else {
      WordSumAppend(a[2..], b);
      assert (a + b)[2..] == a[2..] + b;
    }
  }

  lemma WordSumField(c: nat)
    requires c < 0x1_0000
    ensures WordSum(Be(c, 2)) == c
  {
    var f := Be(c, 2);
    assert Be(c / 256, 1) == Be(c / 256 / 256, 0) + [c / 256 % 256];
    assert f == [c / 256, c % 256];
    assert f[2..] == [];
  }

  /** Writing a checksum over a zero field at an even offset makes the buffer verify. */
  lemma FieldVerifies(before: bytes, after: bytes, c: nat)
    requires |before| % 2 == 0 && c < 0x1_0000
    requires var zeroed := Checksum(before + [0, 0] + after); c == zeroed || (zeroed == 0 && c == 0xffff)
    ensures Checksum(before + Be(c, 2) + after) == 0
  {
    hide Fold;
    WordSumAppend(before, [0, 0]);
    WordSumAppend(before + [0, 0], after);
    WordSumAppend(before, Be(c, 2));
    WordSumAppend(before + Be(c, 2), after);
    WordSumField(c);
    assert WordSum([0, 0]) == 0 by { WordSumField(0); assert Be(0, 2) == [0, 0]; }
    Completes(WordSum(before + [0, 0] + after), c);
  }

  /** The accumulating loop, in 32-bit arithmetic. */
  method Accumulate(p: bytes) returns (s: nat)
    ensures s == WordSum(p) % 0x1_0000_0000
  {
    s := 0;
    var left := p;
    while |left| > 1
      invariant s < 0x1_0000_0000
      invariant (s + WordSum(left)) % 0x1_0000_0000 == WordSum(p) % 0x1_0000_0000
      decreases |left|
    {
      var word: nat := left[0] as int * 256 + left[1] as int;
      WrapAdd(s, word, WordSum(left[2..]));
      s := (s + word) % 0x1_0000_0000;
      left := left[2..];
    }
    if |left| > 0 {
      s := (s + left[0] as int * 256) % 0x1_0000_0000;
    }
  }

  method Sum(p: bytes) returns (c: nat)
    ensures c == 0xffff - Fold(WordSum(p) % 0x1_0000_0000)
    ensures |p| <= 131074 ==> c == Checksum(p)
  {
    var s := Accumulate(p);
    FoldRange(s);
    while s >= 0x1_0000
      invariant Fold(s) == Fold(WordSum(p) % 0x1_0000_0000)
    {
      s := s % 0x1_0000 + s / 0x1_0000;
    }
    if |p| <= 131074 { AccumulatorFits(p); }
    c := 0xffff - s;
  }

  lemma WrapAdd(s: nat, w: nat, rest: nat)
    ensures ((s + w) % 0x1_0000_0000 + rest) % 0x1_0000_0000 == (s + (w + rest)) % 0x1_0000_0000
  {
  }
}
