/** A capture session: blocks are kept in the order offered until the session ends or is full. */
module CaptureSession {
  import opened Bytes
  import opened TcpTrace

  const MAX_BYTES: nat := 0x200_0000

  datatype Kept = Kept(running: bool, size: nat, blocks: seq<bytes>)

  function Offer(k: Kept, b: bytes): Kept {
    if !k.running then k
    else if k.size + |b| > MAX_BYTES then k.(running := false)
    else Kept(true, k.size + |b|, k.blocks + [b])
  }

  function OfferAll(k: Kept, bs: seq<bytes>): Kept
    decreases |bs|
  {
    if bs == [] then k else OfferAll(Offer(k, bs[0]), bs[1..])
  }

  lemma {:induction false} OfferAllAppend(k: Kept, a: seq<bytes>, b: seq<bytes>)
    ensures OfferAll(k, a + b) == OfferAll(OfferAll(k, a), b)
    decreases |a|
  {
    hide Offer;
    if a == [] {
      assert a + b == b;
    } else {
      OfferAllAppend(Offer(k, a[0]), a[1..], b);
      assert (a + b)[1..] == a[1..] + b;
    }
  }

  // ---------------------------------------------------------------- runs over many connections

  /** Connections offer the blocks of their segments in any interleaving, among packets that
      belong to no TCP connection; the session may be ended from outside at any moment. */
  datatype Event = Offered(conn: nat, segment: Option<Seg>, block: bytes) | Halt

  function Step(k: Kept, e: Event): Kept {
    match e
    case Offered(_, _, b) => Offer(k, b)
    case Halt => k.(running := false)
  }

  function Run(k: Kept, es: seq<Event>): Kept {
    if es == [] then k else Step(Run(k, es[..|es| - 1]), es[|es| - 1])
  }

  function Offers(es: seq<Event>): seq<Event> {
    if es == [] then []
    else
      var e := es[|es| - 1];
      Offers(es[..|es| - 1]) + if e.Offered? then [e] else []
  }

  function BlocksOf(es: seq<Event>): (bs: seq<bytes>)
    ensures |bs| == |es|
  {
    seq(|es|, i requires 0 <= i < |es| => if es[i].Offered? then es[i].block else [])
  }

  function Total(bs: seq<bytes>): nat {
    if bs == [] then 0 else Total(bs[..|bs| - 1]) + |bs[|bs| - 1]|
  }

  function Start(): Kept { Kept(true, 0, []) }

  /** In every run the kept blocks are the first ones offered, all of them while the session
      runs, and never more than the limit together. */
  lemma {:induction false} KeepsFirstOffers(es: seq<Event>)
    ensures var k := Run(Start(), es);
      && k.blocks <= BlocksOf(Offers(es))
      && (k.running ==> k.blocks == BlocksOf(Offers(es)))
      && k.size == Total(k.blocks) <= MAX_BYTES
  {
    if es != [] {
      var n := |es| - 1;
      KeepsFirstOffers(es[..n]);
      var k := Run(Start(), es[..n]);
      var was := Offers(es[..n]);
      if es[n].Offered? {
        BlocksOfSnoc(was, es[n]);
        if k.running && k.size + |es[n].block| <= MAX_BYTES {
          assert (k.blocks + [es[n].block])[..|k.blocks|] == k.blocks;
        }
      } else {
        assert was + [] == was;
      }
    }
  }

  /** Exactly how long a session runs: until it is ended from outside or the blocks offered exceed
      the limit. */
  lemma {:induction false} RunsExactly(es: seq<Event>)
    ensures Run(Start(), es).running <==> Halt !in es && Total(BlocksOf(Offers(es))) <= MAX_BYTES
  {
    if es == [] {
      assert BlocksOf([]) == [];
    } else {
      var n := |es| - 1;
      var k := Run(Start(), es[..n]);
      assert Run(Start(), es) == Step(k, es[n]);
      assert es == es[..n] + [es[n]];
      hide BlocksOf, Total, Offers, Run, Start;
      RunsExactly(es[..n]);
      SizeIsOffered(es[..n]);
      OfferedTotal(es);
    }
  }

  lemma SizeIsOffered(es: seq<Event>)
    ensures var k := Run(Start(), es); k.running ==> k.size == Total(BlocksOf(Offers(es)))
  {
    hide Run, BlocksOf, Total, Offers;
    KeepsFirstOffers(es);
  }

  lemma OfferedTotal(es: seq<Event>)
    requires es != []
    ensures var n := |es| - 1;
      Total(BlocksOf(Offers(es))) == Total(BlocksOf(Offers(es[..n]))) + if es[n].Offered? then |es[n].block| else 0
  {
    var n := |es| - 1;
    var was := Offers(es[..n]);
    if es[n].Offered? {
      BlocksOfSnoc(was, es[n]);
      assert (BlocksOf(was) + [es[n].block])[..|BlocksOf(was)|] == BlocksOf(was);
    } else {
      assert was + [] == was;
    }
  }

  /** The event that ended a session: an end from outside, or the first block that did not fit; what
      is kept are all the blocks offered before it. */
  ghost predicate EndedBy(es: seq<Event>, i: nat) {
    && i < |es| && Run(Start(), es[..i]).running && Run(Start(), es).blocks == BlocksOf(Offers(es[..i]))
    && (es[i].Halt? || Total(BlocksOf(Offers(es[..i]))) + |es[i].block| > MAX_BYTES)
  }

  lemma {:induction false} EndsForReason(es: seq<Event>)
    requires !Run(Start(), es).running
    ensures exists i: nat :: EndedBy(es, i)
  {
    var n := |es| - 1;
    var front := es[..n];
    if Run(Start(), front).running {
      KeepsFirstOffers(front);
      assert EndedBy(es, n);
    } else {
      EndsForReason(front);
      var i: nat :| EndedBy(front, i);
      assert front[..i] == es[..i];
      assert EndedBy(es, i);
    }
  }

  lemma BlocksOfSnoc(es: seq<Event>, e: Event)
    requires e.Offered?
    ensures BlocksOf(es + [e]) == BlocksOf(es) + [e.block]
  {
  }

  /** The segments one connection offered, in its own order. */
  function SegmentsOf(es: seq<Event>, conn: nat): seq<Seg> {
    if es == [] then []
    else
      var e := es[|es| - 1];
      SegmentsOf(es[..|es| - 1], conn)
      + if e.Offered? && e.conn == conn && e.segment.Some? then [e.segment.value] else []
  }

  lemma {:induction false} PrefixSegments(es: seq<Event>, n: nat, conn: nat)
    requires n <= |es|
    ensures SegmentsOf(es[..n], conn) <= SegmentsOf(es, conn)
  {
    if n == |es| {
      assert es[..n] == es;
    } else {
      var m := |es| - 1;
      PrefixSegments(es[..m], n, conn);
      assert es[..m][..n] == es[..n];
    }
  }

  lemma PrefixOf(a: seq<Seg>, b: seq<Seg>, c: seq<Seg>)
    requires a <= b && b <= c
    ensures a <= c
  {
  }

  /** However connections interleave and whenever the session fills up or is stopped, what it
      keeps of a connection that offers its trace in order is a valid conversation carrying a
      prefix of that connection's recorded bytes; while it runs it holds all that was offered. */
  lemma KeptConversation(es: seq<Event>, conn: nat, rs: seq<Rec>)
    requires SegmentsOf(Offers(es), conn) <= Trace(rs)
    ensures var k := Run(Start(), es);
      && |k.blocks| <= |Offers(es)|
      && var kept := SegmentsOf(Offers(es)[..|k.blocks|], conn);
        && kept <= Trace(rs) && !Watch(Fresh, kept).Broken?
        && (Watch(Fresh, kept).Established? ==>
              Watch(Fresh, kept).up <= Said(rs, true) && Watch(Fresh, kept).down <= Said(rs, false))
        && (k.running ==> kept == SegmentsOf(Offers(es), conn))
  {
    KeepsFirstOffers(es);
    var k := Run(Start(), es);
    var n := |k.blocks|;
    hide Run, Offers, SegmentsOf, BlocksOf, Total, Trace, Said, Watch;
    PrefixSegments(Offers(es), n, conn);
    var kept := SegmentsOf(Offers(es)[..n], conn);
    PrefixOf(kept, SegmentsOf(Offers(es), conn), Trace(rs));
    CutConversation(rs, kept);
    if k.running {
      assert Offers(es)[..n] == Offers(es);
    }
  }

  // ---------------------------------------------------------------- the session object

  const HOLDBACK: nat := 2_000_000

  class Session {
    var running: bool
    var size: nat
    var blocks: seq<bytes>
    var times: seq<nat>

    ghost predicate Valid()
      reads this
    {
      |times| == |blocks|
    }

    ghost function State(): Kept
      reads this
    {
      Kept(running, size, blocks)
    }

    constructor ()
      ensures Valid() && State() == Start()
    {
      running, size, blocks, times := true, 0, [], [];
    }

    method Emit(b: bytes, now: nat) returns (ok: bool)
      requires Valid()
      modifies this
      ensures Valid() && State() == Offer(old(State()), b)
      ensures times == old(times) + if ok then [now] else []
      ensures ok <==> |blocks| > |old(blocks)|
    {
      if !running { return false; }
      if size + |b| > MAX_BYTES {
        running := false;
        return false;
      }
      blocks, times, size := blocks + [b], times + [now], size + |b|;
      return true;
    }

    method Stop()
      requires Valid()
      modifies this`running
      ensures Valid() && State() == Step(old(State()), Halt)
    {
      running := false;
    }

    /** The next blocks for a live viewer: a contiguous run, held back for two seconds while
        the session runs; `done` only once the session has ended and everything was handed out. */
    method LiveBlocks(from: nat, now: nat) returns (out: seq<bytes>, done: bool)
      requires Valid() && from <= |blocks|
      ensures from + |out| <= |blocks| && out == blocks[from..from + |out|]
      ensures done <==> !running && from + |out| == |blocks|
      ensures !running ==> done
      ensures running && out != [] ==> now - times[from + |out| - 1] >= HOLDBACK
      ensures running ==> forall i :: from + |out| <= i < |blocks| ==> now - times[i] < HOLDBACK
    {
      var end := |blocks|;
      if running {
        while end > from && now - times[end - 1] < HOLDBACK
          invariant from <= end <= |blocks|
          invariant forall i :: end <= i < |blocks| ==> now - times[i] < HOLDBACK
        {
          end := end - 1;
        }
      }
      return blocks[from..end], !running && end == |blocks|;
    }
  }
}
