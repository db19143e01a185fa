/** IPv4 addresses as numbers, and prefixes as their high bits. */
module Ipv4 {

  const SPACE: nat := 0x1_0000_0000

  type address = a: nat | a < SPACE

  datatype Prefix = Prefix(addr: address, bits: nat)

  predicate ValidPrefix(p: Prefix) { p.bits <= 32 }

  function Pow2(n: nat): (r: nat)
    ensures r >= 1
  {
    if n == 0 then 1 else 2 * Pow2(n - 1)
  }

  /** The number of addresses under a prefix. */
  function Size(bits: nat): (r: nat)
    requires bits <= 32
    ensures r >= 1
  {
    Pow2(32 - bits)
  }

  function Quotient(x: nat, s: nat): nat
    requires s >= 1
  {
    x / s
  }

  function Multiple(s: nat, q: nat): nat {
    if q == 0 then 0 else Multiple(s, q - 1) + s
  }

  /** Equal high bits: both numbers shifted right by the host part. */
  predicate Contains(p: Prefix, ip: nat)
    requires ValidPrefix(p)
  {
    ip < SPACE && Quotient(ip, Size(p.bits)) == Quotient(p.addr, Size(p.bits))
  }

  /** The address with its host part cleared: the lowest address under the prefix. */
  function Base(p: Prefix): (b: nat)
    requires ValidPrefix(p)
    ensures b <= p.addr
  {
    QuotientIff(p.addr, Size(p.bits), Quotient(p.addr, Size(p.bits)));
    Multiple(Size(p.bits), Quotient(p.addr, Size(p.bits)))
  }

  function Masked(p: Prefix): (m: Prefix)
    requires ValidPrefix(p)
  {
    Prefix(Base(p), p.bits)
  }

  lemma {:induction false} MultipleIs(s: nat, q: nat)
    ensures Multiple(s, q) == s * q
  {
    if q > 0 {
      MultipleIs(s, q - 1);
      assert s * (q - 1) + s == s * q;
    }
  }

  lemma {:induction false} MultipleMonotone(s: nat, a: nat, b: nat)
    requires a < b
    ensures Multiple(s, a) + s <= Multiple(s, b)
  {
    if a < b - 1 { MultipleMonotone(s, a, b - 1); }
  }

  lemma InQuotient(x: nat, s: nat)
    requires s >= 1
    ensures Multiple(s, Quotient(x, s)) <= x < Multiple(s, Quotient(x, s)) + s
  {
    MultipleIs(s, x / s);
    assert x == s * (x / s) + x % s;
  }

  lemma QuotientIff(x: nat, s: nat, q: nat)
    requires s >= 1
    ensures Quotient(x, s) == q <==> Multiple(s, q) <= x < Multiple(s, q) + s
  {
    hide Quotient, Multiple;
    InQuotient(x, s);
    var r := Quotient(x, s);
    if r > q { MultipleMonotone(s, q, r); }
    if r < q { MultipleMonotone(s, r, q); }
  }

  /** A prefix holds exactly the addresses from its base on, as many as its size. */
  lemma ContainsInterval(p: Prefix, ip: nat)
    requires ValidPrefix(p)
    ensures Contains(p, ip) <==> ip < SPACE && Base(p) <= ip < Base(p) + Size(p.bits)
  {
    hide Quotient, Multiple, Size;
    QuotientIff(ip, Size(p.bits), Quotient(p.addr, Size(p.bits)));
  }

  lemma MaskedContains(p: Prefix, ip: nat)
    requires ValidPrefix(p)
    ensures Contains(Masked(p), ip) <==> Contains(p, ip)
  {
    hide Quotient, Multiple, Size;
    QuotientIff(Base(p), Size(p.bits), Quotient(p.addr, Size(p.bits)));
  }

  /** Masking gives the first address of the prefix, and the same for all ways to write a prefix. */
  lemma MaskedIsFirst(p: Prefix, q: Prefix)
    requires ValidPrefix(p) && ValidPrefix(q)
    ensures Contains(p, Masked(p).addr) && forall ip: nat :: Contains(p, ip) ==> Masked(p).addr <= ip
    ensures Masked(p) == Masked(q) <==> p.bits == q.bits && Contains(p, q.addr)
  {
    hide Quotient, Multiple, Size, Contains;
    ContainsInterval(p, Masked(p).addr);
    forall ip: nat | Contains(p, ip) ensures Masked(p).addr <= ip { ContainsInterval(p, ip); }
    if p.bits == q.bits { SameBase(p, q); }
  }

  lemma SameBase(p: Prefix, q: Prefix)
    requires ValidPrefix(p) && p.bits == q.bits
    ensures Base(p) == Base(q) <==> Contains(p, q.addr)
  {
    ContainsInterval(p, q.addr);
    ContainsInterval(q, q.addr);
    ContainsInterval(p, p.addr);
    hide Size;
  }
}
