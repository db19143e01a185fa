/** The AmneziaWG address pool: which addresses a peer may have, and the allocator. */
module Pool {
  import opened Bytes
  import opened Ipv4

  /** There is an address after `ip` under the prefix, so `ip` is not its last one. */
  predicate NotLast(p: Prefix, ip: nat)
    requires ValidPrefix(p)
  {
    Contains(p, ip + 1)
  }

  /** A server address the configuration check accepts: a host address of a /16 to /29. */
  predicate ValidServer(p: Prefix) {
    16 <= p.bits <= 29 && p.addr != Base(p) && NotLast(p, p.addr)
  }

  /** What the worker accepts as a peer address: neither network, broadcast nor server. */
  predicate Assignable(p: Prefix, ip: nat)
    requires ValidPrefix(p)
  {
    Contains(p, ip) && ip != p.addr && ip != Base(p) && NotLast(p, ip)
  }

  /** In numbers: strictly between the first and the last address of the prefix. */
  lemma AssignableRange(p: Prefix, ip: nat)
    requires ValidServer(p)
    ensures Assignable(p, ip) <==> Base(p) < ip < Base(p) + Size(p.bits) - 1 && ip + 1 < SPACE && ip != p.addr
  {
    hide Quotient, Multiple, Size, Contains;
    ContainsInterval(p, ip);
    ContainsInterval(p, ip + 1);
  }

  /** In numbers: a prefix of 16 to 29 bits, and an address strictly between its first and its last. */
  lemma ServerRange(p: Prefix)
    requires ValidPrefix(p)
    ensures ValidServer(p) <==>
      16 <= p.bits <= 29 && Base(p) < p.addr < Base(p) + Size(p.bits) - 1 && p.addr + 1 < SPACE
  {
    hide Quotient, Multiple, Size, Contains;
    ContainsInterval(p, p.addr + 1);
  }

  /** The first address from `ip` on that is free and not the last of the prefix. */
  function Lowest(p: Prefix, used: set<nat>, ip: nat): (r: Option<nat>)
    requires ValidPrefix(p)
    decreases SPACE - ip
  {
    if !NotLast(p, ip) then None
    else if ip !in used then Some(ip)
    else Lowest(p, used, ip + 1)
  }

  function Allocated(p: Prefix, used: set<nat>): Option<nat>
    requires ValidPrefix(p)
  {
    Lowest(p, used + {p.addr}, Base(p) + 1)
  }

  lemma {:induction false} LowestIs(p: Prefix, used: set<nat>, ip: nat)
    requires ValidPrefix(p) && ip > Base(p)
    ensures match Lowest(p, used, ip)
      case Some(a) => ip <= a && Contains(p, a) && NotLast(p, a) && a !in used
                      && forall q: nat :: ip <= q < a ==> q in used
      case None => forall q: nat :: ip <= q && NotLast(p, q) ==> q in used
    decreases SPACE - ip
  {
    hide Quotient, Multiple, Size, Contains;
    ContainsInterval(p, ip);
    ContainsInterval(p, ip + 1);
    if !NotLast(p, ip) {
      forall q: nat | ip <= q ensures !NotLast(p, q) {
        ContainsInterval(p, q + 1);
      }
    } else if ip in used {
      LowestIs(p, used, ip + 1);
    }
  }

  /** The allocator hands out the lowest assignable address nobody has, and fails exactly
      when every assignable address is taken. */
  lemma AllocatedIs(p: Prefix, used: set<nat>)
    requires ValidServer(p)
    ensures match Allocated(p, used)
      case Some(a) => Assignable(p, a) && a !in used && forall q: nat :: q < a && Assignable(p, q) ==> q in used
      case None => forall q: nat :: Assignable(p, q) ==> q in used
  {
    hide Quotient, Multiple, Size, Contains, Lowest;
    LowestIs(p, used + {p.addr}, Base(p) + 1);
    forall q: nat | Assignable(p, q) ensures q > Base(p) && (q in used + {p.addr} <==> q in used) {
      ContainsInterval(p, q);
    }
  }

  /** The assignable addresses, and how many there are. */
  function Range(lo: nat, n: nat): (s: set<nat>)
    ensures forall q :: q in s <==> lo <= q < lo + n
    ensures |s| == n
  {
    if n == 0 then {} else Range(lo, n - 1) + {lo + n - 1}
  }

  lemma SubsetCount(a: set<nat>, b: set<nat>)
    requires a <= b
    ensures |a| <= |b| && (|a| == |b| <==> a == b)
  {
    assert b == a + (b - a);
  }

  lemma Assignables(p: Prefix) returns (all: set<nat>)
    requires ValidServer(p)
    ensures forall q :: q in all <==> Assignable(p, q)
    ensures Size(p.bits) >= 3 && |all| == Size(p.bits) - 3
  {
    SizeAtLeast(p);
    InSpace(p);
    hide Quotient, Multiple, Size, Contains, Assignable, Base, ValidServer;
    var range := Range(Base(p) + 1, Size(p.bits) - 2);
    all := range - {p.addr};
    forall q ensures q in all <==> Assignable(p, q) { AssignableRange(p, q); }
    assert range == all + {p.addr};
  }

  /** Allocation fails if and only if as many peers exist as the prefix has addresses, less
      the network, broadcast and server ones. */
  lemma Capacity(p: Prefix, used: set<nat>)
    requires ValidServer(p) && forall q :: q in used ==> Assignable(p, q)
    ensures Size(p.bits) >= 3 && |used| <= Size(p.bits) - 3
    ensures Allocated(p, used).None? <==> |used| == Size(p.bits) - 3
  {
    var all := Assignables(p);
    AllocatedIs(p, used);
    hide Size, Allocated, Assignable, ValidServer;
    SubsetCount(used, all);
  }

  lemma SizeAtLeast(p: Prefix)
    requires ValidServer(p)
    ensures Base(p) < p.addr < Base(p) + Size(p.bits) - 1 && Size(p.bits) >= 3
  {
    hide Quotient, Multiple, Size, Contains;
    ContainsInterval(p, p.addr);
    ContainsInterval(p, p.addr + 1);
  }

  lemma {:induction false} Pow2Split(a: nat, b: nat)
    ensures Pow2(a + b) == Multiple(Pow2(a), Pow2(b))
  {
    if b == 0 {
      assert Multiple(Pow2(a), 1) == Multiple(Pow2(a), 0) + Pow2(a);
    } else {
      Pow2Split(a, b - 1);
      MultipleIs(Pow2(a), Pow2(b - 1));
      MultipleIs(Pow2(a), Pow2(b));
      assert Pow2(a) * (2 * Pow2(b - 1)) == 2 * (Pow2(a) * Pow2(b - 1));
    }
  }

  lemma Doubled(n: nat)
    ensures Pow2(2 * n) == Pow2(n) * Pow2(n)
  {
    hide Pow2, Multiple;
    Pow2Split(n, n);
    MultipleIs(Pow2(n), Pow2(n));
  }

  lemma Thirtytwo()
    ensures Pow2(32) == SPACE
  {
    assert Pow2(8) == 256;
    Doubled(8);
    Doubled(16);
  }

  /** A prefix does not run past the last address. */
  lemma InSpace(p: Prefix)
    requires ValidPrefix(p)
    ensures Base(p) + Size(p.bits) <= SPACE
  {
    var s, q := Size(p.bits), Quotient(p.addr, Size(p.bits));
    Thirtytwo();
    Pow2Split(32 - p.bits, p.bits);
    assert Multiple(s, Pow2(p.bits)) == SPACE;
    InQuotient(p.addr, s);
    hide Quotient, Multiple, Size, Pow2;
    if Pow2(p.bits) < q { MultipleMonotone(s, Pow2(p.bits), q); }
    if q < Pow2(p.bits) { MultipleMonotone(s, q, Pow2(p.bits)); }
  }

  /** The allocator's loop. */
  method Allocate(p: Prefix, taken: set<nat>) returns (r: Option<nat>)
    requires ValidPrefix(p)
    ensures r == Allocated(p, taken)
  {
    hide Quotient, Multiple, Size, Contains;
    var used := taken + {p.addr};
    var ip := Base(p) + 1;
    while NotLast(p, ip)
      invariant Lowest(p, used, ip) == Allocated(p, taken)
      decreases SPACE - ip
    {
      ContainsInterval(p, ip + 1);
      if ip !in used { return Some(ip); }
      ip := ip + 1;
    }
    return None;
  }
}
