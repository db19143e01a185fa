/** Counters that wrap around. */
module Modular {

  function Wrap(n: nat, cycle: nat): (w: nat)
    requires cycle > 0
    ensures w < cycle
  {
    n % cycle
  }

  lemma AtLeast(d: int, m: nat)
    requires d >= 1
    ensures d * m >= m
  {
  }

  lemma Difference(p: nat, q: nat, m: nat, s: nat, r: nat)
    requires p < q && p * m + s == q * m + r
    ensures s >= r + m
  {
    AtLeast(q - p, m);
    assert (q - p) * m == q * m - p * m;
  }

  /** Quotient and remainder are unique. */
  lemma Remainder(x: nat, q: nat, r: nat, m: nat)
    requires m > 0 && r < m && x == q * m + r
    ensures x % m == r
  {
    var p, s := x / m, x % m;
    assert p * m + s == x;
    if p < q { Difference(p, q, m, s, r); }
    if q < p { Difference(q, p, m, r, s); }
  }

  lemma Divided(x: nat, m: nat)
    requires m > 0
    ensures x == (x / m) * m + x % m
  {
  }

  lemma Distributed(p: nat, q: nat, m: nat)
    ensures (p + q) * m == p * m + q * m
  {
  }

  /** Wrapping before adding does not matter. */
  lemma WrapAdd(a: nat, b: nat, cycle: nat)
    requires cycle > 0
    ensures Wrap(Wrap(a, cycle) + b, cycle) == Wrap(a + b, cycle)
  {
    var c := a % cycle + b;
    Divided(a, cycle);
    Divided(c, cycle);
    Distributed(a / cycle, c / cycle, cycle);
    Remainder(a + b, a / cycle + c / cycle, c % cycle, cycle);
  }
}
