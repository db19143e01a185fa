/** All proxied connections of the program: their synthetic addresses come from one counter, which
    tells them apart for as long as it does not come round. */
module CapturedFlows {
  import opened Bytes
  import opened Modular
  import opened TcpTrace
  import opened CaptureSession
  import opened CapturedConn
  import Pcapng
  import SyntheticPacket

  const SPAN: nat := 2_097_152_000 // 2^24 * 125: counter values apart before a source comes again

  /** Where a connection goes: an IPv4 address and a port. */
  datatype Target = Target(address: bytes, port: nat)

  predicate ValidTarget(t: Target) { |t.address| == 4 && 1 <= t.port <= 65535 }

  /** The source written for the connection with counter value `id`. */
  function Source(id: nat): (s: Target)
    ensures ValidTarget(s)
  {
    Target([198, 18, id / 65536 % 256, id / 256 % 256], 1024 + id % 64000)
  }

  function EndsFor(id: nat, t: Target): SyntheticPacket.Ends {
    SyntheticPacket.Ends(Source(id).address, t.address, Source(id).port, t.port)
  }

  // ---------------------------------------------------------------- when sources differ

  lemma Parts(id: nat)
    ensures id / 256 == id / 65536 * 256 + id / 256 % 256
    ensures id / 256 % 65536 == id / 65536 % 256 * 256 + id / 256 % 256
  {
    var x := id / 256;
    assert x / 256 == id / 65536;
    Divided(x / 256, 256);
    Remainder(x, x / 256 / 256, x / 256 % 256 * 256 + x % 256, 65536);
  }

  /** What is a multiple of 65536 and of 250 is one of 65536 * 125. */
  lemma Cofactor(m: int, n: int)
    requires 65536 * m == 250 * n
    ensures m == 125 * (7 * n - 1835 * m)
  {
  }

  /** Equal remainders by 64000: the difference is a multiple of it, and so of 256. */
  lemma SamePort(a: nat, b: nat)
    requires a % 64000 == b % 64000
    ensures a - b == 64000 * (a / 64000 - b / 64000) && a / 256 - b / 256 == 250 * (a / 64000 - b / 64000)
    ensures a - b == 256 * (a / 256 - b / 256)
  {
    var n := a / 64000 - b / 64000;
    assert a - b == 64000 * n;
    assert a == b + 256 * (250 * n);
  }

  lemma SameAddress(a: nat, b: nat)
    requires a / 65536 % 256 == b / 65536 % 256 && a / 256 % 256 == b / 256 % 256
    ensures a / 256 - b / 256 == 65536 * (a / 256 / 65536 - b / 256 / 65536)
  {
    Parts(a);
    Parts(b);
  }

  lemma Carried(b: nat, j: nat, m: nat)
    requires m > 0
    ensures (b + j * m) / m == b / m + j && (b + j * m) % m == b % m
  {
    var a := b + j * m;
    Divided(b, m);
    Divided(a, m);
    Distributed(b / m, j, m);
    Remainder(a, b / m + j, b % m, m);
    if a / m < b / m + j { Difference(a / m, b / m + j, m, a % m, b % m); }
    if b / m + j < a / m { Difference(b / m + j, a / m, m, b % m, a % m); }
  }

  lemma Again(b: nat, k: nat)
    ensures Source(b + SPAN * k) == Source(b)
  {
    var a := b + SPAN * k;
    Carried(b, 32000 * k, 65536);
    Carried(b / 65536, 125 * k, 256);
    Carried(b, 8192000 * k, 256);
    Carried(b / 256, 32000 * k, 256);
    Carried(b, 32768 * k, 64000);
    SourceIs(a, b);
  }

  lemma SourceIs(a: nat, b: nat)
    requires a / 65536 % 256 == b / 65536 % 256 && a / 256 % 256 == b / 256 % 256 && a % 64000 == b % 64000
    ensures Source(a) == Source(b)
  {
  }

  /** The counters are a whole number of rounds apart. */
  predicate Rounds(a: nat, b: nat) { (a - b) % SPAN == 0 }

  lemma WholeRounds(a: nat, b: nat, k: int)
    requires a - b == SPAN * k
    ensures Rounds(a, b)
  {
  }

  lemma ComesAgain(a: nat, b: nat)
    requires Rounds(a, b)
    ensures Source(a) == Source(b)
  {
    var k := (a - b) / SPAN;
    assert a - b == SPAN * k;
    hide Source, Rounds;
    if k >= 0 { Again(b, k); } else { Again(a, -k); }
  }

  /** Two connections get the same synthetic source exactly when their counters are a multiple of
      SPAN apart. */
  lemma SameSource(a: nat, b: nat)
    ensures Source(a) == Source(b) <==> Rounds(a, b)
  {
    if Source(a) == Source(b) {
      assert Source(a).address[2] == Source(b).address[2] && Source(a).address[3] == Source(b).address[3];
      SamePort(a, b);
      SameAddress(a, b);
      var m, n := a / 256 / 65536 - b / 256 / 65536, a / 64000 - b / 64000;
      hide Source, Rounds;
      Cofactor(m, n);
      WholeRounds(a, b, 7 * n - 1835 * m);
    }
    hide Source, Rounds;
    if Rounds(a, b) { ComesAgain(a, b); }
  }

  // ---------------------------------------------------------------- when connections can be told apart

  function AllEnds(flows: map<nat, Target>): (ends: map<nat, SyntheticPacket.Ends>)
    ensures (forall id :: id in flows ==> ValidTarget(flows[id])) ==> AllValid(ends)
  {
    map id | id in flows :: EndsFor(id, flows[id])
  }

  /** No two connections to one target have counters a multiple of SPAN apart, and no two are each
      directed at the synthetic source of the other. */
  predicate Distinct(flows: map<nat, Target>) {
    && (forall a, b :: a in flows && b in flows && a != b && Rounds(a, b) ==> flows[a] != flows[b])
    && (forall a, b :: a in flows && b in flows && flows[a] == Source(b) ==> flows[b] != Source(a))
  }

  lemma SameEnds(a: nat, s: Target, b: nat, t: Target)
    ensures EndsFor(a, s) == EndsFor(b, t) <==> s == t && Rounds(a, b)
    ensures EndsFor(a, s) == SyntheticPacket.Reverse(EndsFor(b, t)) <==> s == Source(b) && t == Source(a)
  {
    SameSource(a, b);
    hide Source, Rounds;
  }

  lemma DistinctSeparate(flows: map<nat, Target>)
    requires Distinct(flows) && forall id :: id in flows ==> ValidTarget(flows[id])
    ensures Separate(AllEnds(flows))
  {
    hide Source, Rounds;
    var ends := AllEnds(flows);
    forall a, b | a in ends && b in ends
      ensures SyntheticPacket.ValidEnds(ends[a])
      ensures (a != b ==> ends[a] != ends[b]) && ends[a] != SyntheticPacket.Reverse(ends[b])
    {
      SameEnds(a, flows[a], b, flows[b]);
    }
  }

  lemma SeparateDistinct(flows: map<nat, Target>)
    requires Separate(AllEnds(flows))
    ensures Distinct(flows)
  {
    hide Source, Rounds;
    var ends := AllEnds(flows);
    forall a, b | a in flows && b in flows
      ensures a != b && Rounds(a, b) ==> flows[a] != flows[b]
      ensures flows[a] == Source(b) ==> flows[b] != Source(a)
    {
      assert a in ends && b in ends;
      SameEnds(a, flows[a], b, flows[b]);
    }
  }

  /** Exactly when the packets of different connections can be told apart. */
  lemma SeparateExactly(flows: map<nat, Target>)
    requires forall id :: id in flows ==> ValidTarget(flows[id])
    ensures Separate(AllEnds(flows)) <==> Distinct(flows)
  {
    hide Separate, Distinct;
    if Distinct(flows) { DistinctSeparate(flows); }
    if Separate(AllEnds(flows)) { SeparateDistinct(flows); }
  }

  /** Fewer connections than SPAN, numbered one after the other, none of them to an address of
      198.18.0.0/16: all can be told apart. */
  lemma FewAreDistinct(flows: map<nat, Target>, first: nat)
    requires forall id :: id in flows ==>
      first <= id < first + SPAN && ValidTarget(flows[id]) && flows[id].address[..2] != [198, 18]
    ensures Distinct(flows)
  {
    forall a, b | a in flows && b in flows ensures a != b ==> !Rounds(a, b) {
      if a != b { Near(a, b, first); }
    }
    forall a, b | a in flows && b in flows ensures flows[a] != Source(b) {
      assert Source(b).address[..2] == [198, 18];
    }
  }

  lemma Near(a: nat, b: nat, first: nat)
    requires a != b && first <= a < first + SPAN && first <= b < first + SPAN
    ensures !Rounds(a, b)
  {
  }

  // ---------------------------------------------------------------- captures

  /** A connection before its first record. */
  const BEFORE := Progress(None, First())

  /** From the records of all connections to the bytes of a capture: where connections can be told
      apart and no late record for another session falls between those of connection `conn`,
      reading the capture back gives for `conn` a prefix of one handshake and the bytes recorded
      there, a valid conversation; and all that was offered while the capture still runs. */
  lemma FlowsKept(flows: map<nat, Target>, es: seq<Event>, conn: nat, entries: seq<Entry>, id: nat)
    requires conn in flows && Distinct(flows) && forall c :: c in flows ==> ValidTarget(flows[c])
    requires forall i :: 0 <= i < |es| ==> Honest(AllEnds(flows), es[i])
    requires SegmentsOf(Offers(es), conn) == Deposited(BEFORE, entries, id) && Unbroken(entries, id)
    ensures var k, rs := Run(Start(), es), Recorded(entries, id);
      var items := Pcapng.Items(Concat(k.blocks));
      && items.Some?
      && var heard := Conversation(EndsFor(conn, flows[conn]), items.value);
        && heard <= Trace(rs) && !Watch(Fresh, heard).Broken?
        && (Watch(Fresh, heard).Established? ==>
              Watch(Fresh, heard).up <= Said(rs, true) && Watch(Fresh, heard).down <= Said(rs, false))
        && (k.running ==> heard == Trace(rs))
  {
    assert AllEnds(flows)[conn] == EndsFor(conn, flows[conn]);
    assert BEFORE.session != Some(id);
    DistinctSeparate(flows);
    RecordsMakeTrace(BEFORE, entries, id);
    hide *;
    KeptBytes(AllEnds(flows), es, conn, Recorded(entries, id));
  }
}
