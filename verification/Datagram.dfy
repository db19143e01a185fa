/** One UDP datagram carried as unreliable QUIC DATAGRAM fragments: the wire
    format, the sender's splitting and the receiver's reassembly table. */
module Datagram {
  import opened Bytes
  import opened Limits

  const CHUNK: nat := 1000
  const MAX_FRAGMENTS: nat := 66
  const HEADER: nat := 16
  const SLOTS: nat := 8
  const QUEUE: nat := 32
  const LIFETIME: int := 500_000_000 // nanoseconds
  const SEQUENCE_SPACE: nat := 0x1_0000_0000

  // ---------------------------------------------------------------- wire format

  datatype Fragment = Fragment(flow: nat, seqno: nat, index: nat, total: nat, payload: bytes)

  predicate Representable(f: Fragment) {
    f.flow < Values(8) && f.seqno < Values(4) && f.index < Values(2) && f.total < Values(2)
  }

  function Encode(f: Fragment): (b: bytes) {
    Be(f.flow, 8) + Be(f.seqno, 4) + Be(f.index, 2) + Be(f.total, 2) + f.payload
  }

  function Decode(b: bytes): (f: Fragment)
    requires |b| >= HEADER
    ensures |f.payload| == |b| - HEADER
  {
    Fragment(FromBe(b[..8]), FromBe(b[8..12]), FromBe(b[12..14]), FromBe(b[14..16]), b[16..])
  }

  lemma HeaderFields(flow: bytes, seqno: bytes, index: bytes, total: bytes, payload: bytes)
    requires |flow| == 8 && |seqno| == 4 && |index| == 2 && |total| == 2
    ensures var b := flow + seqno + index + total + payload;
      b[..8] == flow && b[8..12] == seqno && b[12..14] == index && b[14..16] == total && b[16..] == payload
  {
  }

  lemma DecodeEncode(f: Fragment)
    requires Representable(f)
    ensures |Encode(f)| == HEADER + |f.payload|
    ensures Decode(Encode(f)) == f
  {
    HeaderFields(Be(f.flow, 8), Be(f.seqno, 4), Be(f.index, 2), Be(f.total, 2), f.payload);
    BeRoundTrip(f.flow, 8);
    BeRoundTrip(f.seqno, 4);
    BeRoundTrip(f.index, 2);
    BeRoundTrip(f.total, 2);
  }

  // ---------------------------------------------------------------- splitting

  function TotalFor(length: nat): (n: nat)
    ensures n >= 1
    ensures length > CHUNK ==> (n - 1) * CHUNK < length <= n * CHUNK
    ensures length <= CHUNK <==> n == 1
    ensures length <= MAX_UDP ==> n <= MAX_FRAGMENTS
  {
    if (length + CHUNK - 1) / CHUNK < 1 then 1 else (length + CHUNK - 1) / CHUNK
  }

  function Piece(d: bytes, i: nat): (p: bytes)
    requires i < TotalFor(|d|)
    ensures |p| <= CHUNK
    ensures i < TotalFor(|d|) - 1 ==> |p| == CHUNK
    ensures TotalFor(|d|) > 1 ==> |p| > 0
  {
    d[i * CHUNK..Min(|d|, i * CHUNK + CHUNK)]
  }

  /** Fragment `i` of datagram `d` written as number `seqno` on flow `id`. */
  function FragmentOf(id: nat, seqno: nat, d: bytes, i: nat): Fragment
    requires i < TotalFor(|d|)
  {
    Fragment(id, seqno, i, TotalFor(|d|), Piece(d, i))
  }

  function Split(id: nat, seqno: nat, d: bytes): (bs: seq<bytes>)
    ensures |bs| == TotalFor(|d|)
  {
    seq(TotalFor(|d|), i requires 0 <= i < TotalFor(|d|) => Encode(FragmentOf(id, seqno, d, i)))
  }

  // ---------------------------------------------------------------- reassembly

  datatype Assembly = Assembly(at: int, pieces: seq<Option<bytes>>, count: nat, size: nat)
  type Parts = map<nat, Assembly>

  datatype Ending = Pending | Completed | Oversize

  /** What one fragment did to the table: how many assemblies expired, whether one was begun,
      how the fragment's own assembly ended, and whether the fragment was refused. */
  datatype Fate = Fate(expired: nat, begun: bool, ending: Ending, refused: bool) {
    /** What this adds to the shared drop counter. */
    function Drops(): nat { expired + (if ending.Oversize? then 1 else 0) + if refused then 1 else 0 }
  }

  function Begun(f: Fate): nat { if f.begun then 1 else 0 }
  function Completions(f: Fate): nat { if f.ending.Completed? then 1 else 0 }
  function Oversizes(f: Fate): nat { if f.ending.Oversize? then 1 else 0 }
  function Expirations(f: Fate): nat { f.expired }

  const NOTHING := Fate(0, false, Pending, false)

  datatype Outcome = Outcome(parts: Parts, delivered: Option<bytes>, fate: Fate)

  predicate Acceptable(f: Fragment) {
    && 1 <= f.total <= MAX_FRAGMENTS
    && f.index < f.total
    && (f.index < f.total - 1 ==> |f.payload| == CHUNK)
    && (f.total > 1 && f.index == f.total - 1 ==> |f.payload| != 0)
  }

  function Expire(parts: Parts, now: int): (live: Parts)
    ensures live.Keys <= parts.Keys
    ensures |live| <= |parts|
  {
    var live := map q | q in parts && now - parts[q].at <= LIFETIME :: parts[q];
    SubsetSize(live.Keys, parts.Keys);
    live
  }

  /** The number of pieces present. */
  function Filled(pieces: seq<Option<bytes>>): (n: nat)
    ensures n <= |pieces|
  {
    if pieces == [] then 0
    else Filled(pieces[..|pieces| - 1]) + if pieces[|pieces| - 1].Some? then 1 else 0
  }

  /** The pieces present, joined in index order. */
  function Join(pieces: seq<Option<bytes>>): bytes {
    if pieces == [] then []
    else Join(pieces[..|pieces| - 1]) + match pieces[|pieces| - 1] case None => [] case Some(p) => p
  }

  function Empty(total: nat): (pieces: seq<Option<bytes>>)
    ensures |pieces| == total
    ensures forall i :: 0 <= i < total ==> pieces[i] == None
  {
    seq(total, _ => None)
  }

  /** One fragment against the table: the value the receiver's `accept` computes. */
  function AcceptFragment(parts: Parts, f: Fragment, now: int): (o: Outcome)
  {
    if !Acceptable(f) then
      Outcome(parts, None, NOTHING.(refused := true))
    else if f.total == 1 then
      Outcome(parts, Some(f.payload), NOTHING)
    else
      var live := Expire(parts, now);
      var o := Insert(live, f, now);
      o.(fate := o.fate.(expired := |parts| - |live|))
  }

  /** A multi-fragment datagram's piece against the assemblies still alive. */
  function Insert(live: Parts, f: Fragment, now: int): (o: Outcome)
    requires f.index < f.total
    ensures o.fate.expired == 0
  {
    if f.seqno in live then
      var a := live[f.seqno];
      if |a.pieces| != f.total then Outcome(live, None, NOTHING.(refused := true))
      else if a.pieces[f.index].Some? then Outcome(live, None, NOTHING)
      else Fill(live, a, f)
    else if |live| >= SLOTS then
      Outcome(live, None, NOTHING.(refused := true))
    else
      var o := Fill(live, Assembly(now, Empty(f.total), 0, 0), f);
      o.(fate := o.fate.(begun := true))
  }

  /** Store the fragment's payload in its empty place, then check size and completeness. */
  function Fill(live: Parts, a: Assembly, f: Fragment): (o: Outcome)
    requires f.index < f.total == |a.pieces|
    ensures o.fate.expired == 0 && !o.fate.begun && !o.fate.refused
  {
    var a' := Assembly(a.at, a.pieces[f.index := Some(f.payload)], a.count + 1, a.size + |f.payload|);
    if a'.size > MAX_UDP then Outcome(live - {f.seqno}, None, NOTHING.(ending := Oversize))
    else if a'.count == f.total then Outcome(live - {f.seqno}, Some(Join(a'.pieces)), NOTHING.(ending := Completed))
    else Outcome(live[f.seqno := a'], None, NOTHING)
  }

  // ---------------------------------------------------------------- stale assemblies

  /** The numbers whose assemblies were begun at most one lifetime before `now`. */
  function Young(parts: Parts, now: int): set<nat> {
    set q | q in parts && now - parts[q].at <= LIFETIME
  }

  lemma ExpireIsYoung(parts: Parts, now: int)
    ensures Expire(parts, now).Keys == Young(parts, now)
    ensures forall q :: q in Young(parts, now) ==> Expire(parts, now)[q] == parts[q]
  {
  }

  /** Any acceptable piece of a larger datagram clears the table of stale assemblies, each counted
      as a drop, and leaves every young one of another number as it was. */
  lemma StaleGoes(parts: Parts, f: Fragment, now: int)
    requires Acceptable(f) && f.total > 1
    ensures var o := AcceptFragment(parts, f, now);
      && (forall q :: q in o.parts ==> now - o.parts[q].at <= LIFETIME)
      && (forall q :: q in Young(parts, now) && q != f.seqno ==> q in o.parts && o.parts[q] == parts[q])
      && o.fate.expired == |parts| - |Young(parts, now)|
  {
    hide Join;
    var live := Expire(parts, now);
    ExpireIsYoung(parts, now);
    assert |live| == |live.Keys|;
  }

  /** What becomes of every fragment. One that breaks the format is refused, and so is a piece that
      disagrees with its young assembly on the number of pieces or finds all slots young; a piece seen
      before changes nothing; a piece without a young assembly begins one; a piece whose assembly would
      grow too large ends it; and all the others are kept, or complete the datagram. */
  lemma FateExactly(parts: Parts, f: Fragment, now: int)
    ensures var o := AcceptFragment(parts, f, now);
      var several := Acceptable(f) && f.total > 1;
      var known := several && f.seqno in Young(parts, now);
      var fits := if known then |parts[f.seqno].pieces| == f.total else several && |Young(parts, now)| < SLOTS;
      var seen := known && fits && parts[f.seqno].pieces[f.index].Some?;
      var size := if known then parts[f.seqno].size else 0;
      && (o.fate.refused <==> !Acceptable(f) || (several && !fits))
      && (o.fate.begun <==> several && fits && !known)
      && (o.fate.ending.Oversize? <==> several && fits && !seen && size + |f.payload| > MAX_UDP)
      && (o.delivered.Some? <==> Acceptable(f) && (f.total == 1 || o.fate.ending.Completed?))
      && (several && fits && !seen && o.fate.ending.Pending? ==>
            f.seqno in o.parts && o.parts[f.seqno].pieces[f.index] == Some(f.payload))
      && (!several ==> o.parts == parts)
  {
    hide Join, Filled;
    if Acceptable(f) && f.total > 1 {
      ExpireIsYoung(parts, now);
      var live := Expire(parts, now);
      assert |live| == |live.Keys|;
    }
  }

  /** Stale assemblies hold no slot: where there are only such, a first piece is never refused. */
  lemma StaleNeverBlocks(parts: Parts, f: Fragment, now: int)
    requires Acceptable(f) && f.total > 1 && |f.payload| <= CHUNK
    requires forall q :: q in parts ==> now - parts[q].at > LIFETIME
    ensures var o := AcceptFragment(parts, f, now);
      && !o.fate.refused && o.fate.begun && o.parts.Keys == {f.seqno} && o.fate.expired == |parts|
      && o.parts[f.seqno].at == now && o.parts[f.seqno].pieces == Empty(f.total)[f.index := Some(f.payload)]
  {
    hide Join;
    ExpireIsYoung(parts, now);
    assert Young(parts, now) == {};
    assert Expire(parts, now) == map[];
  }

  // ---------------------------------------------------------------- the invariant

  ghost predicate SoundAssembly(a: Assembly) {
    && 2 <= |a.pieces| <= MAX_FRAGMENTS
    && 1 <= a.count < |a.pieces|
    && a.count == Filled(a.pieces)
    && a.size == |Join(a.pieces)| <= MAX_UDP
  }

  ghost predicate Sound(parts: Parts) {
    && |parts| <= SLOTS
    && forall q :: q in parts ==> SoundAssembly(parts[q])
  }

  lemma SubsetSize(a: set<nat>, b: set<nat>)
    requires a <= b
    ensures |a| <= |b|
  {
    assert b == a + (b - a);
  }

  lemma {:induction false} FillCounts(pieces: seq<Option<bytes>>, i: nat, p: bytes)
    requires i < |pieces| && pieces[i] == None
    ensures Filled(pieces[i := Some(p)]) == Filled(pieces) + 1
    ensures |Join(pieces[i := Some(p)])| == |Join(pieces)| + |p|
  {
    var n := |pieces| - 1;
    var after := pieces[i := Some(p)];
    if i == n {
      assert after[..n] == pieces[..n];
    } else {
      FillCounts(pieces[..n], i, p);
      assert after[..n] == pieces[..n][i := Some(p)];
    }
  }

  lemma {:induction false} EmptyCounts(total: nat)
    ensures Filled(Empty(total)) == 0 && Join(Empty(total)) == []
  {
    if total > 0 {
      EmptyCounts(total - 1);
      assert Empty(total)[..total - 1] == Empty(total - 1);
    }
  }

  lemma {:induction false} FilledAll(pieces: seq<Option<bytes>>)
    ensures Filled(pieces) == |pieces| <==> forall i :: 0 <= i < |pieces| ==> pieces[i].Some?
  {
    if pieces != [] {
      var n := |pieces| - 1;
      FilledAll(pieces[..n]);
      assert forall i :: 0 <= i < n ==> pieces[..n][i] == pieces[i];
    }
  }

  lemma ExpireSound(parts: Parts, now: int)
    requires Sound(parts)
    ensures Sound(Expire(parts, now))
  {
  }

  lemma RemoveSize(parts: Parts, q: nat)
    ensures |parts - {q}| == |parts| - if q in parts then 1 else 0
  {
    var rest := parts - {q};
    assert rest.Keys == parts.Keys - {q};
    assert |rest.Keys| == |rest| && |parts.Keys| == |parts|;
  }

  lemma RemoveSound(parts: Parts, q: nat)
    requires Sound(parts)
    ensures Sound(parts - {q})
  {
    RemoveSize(parts, q);
  }

  lemma PutSound(parts: Parts, q: nat, a: Assembly)
    requires Sound(parts) && SoundAssembly(a)
    requires q in parts || |parts| < SLOTS
    ensures Sound(parts[q := a])
    ensures |parts[q := a]| == |parts| + if q in parts then 0 else 1
  {
  }

  lemma FillKeepsSound(live: Parts, a: Assembly, f: Fragment)
    requires Sound(live) && Acceptable(f) && f.total > 1
    requires |a.pieces| == f.total && a.pieces[f.index] == None && a.count < f.total
    requires a.count == Filled(a.pieces) && a.size == |Join(a.pieces)|
    requires f.seqno in live || |live| < SLOTS
    ensures var o := Fill(live, a, f);
      Sound(o.parts) && (o.delivered.Some? ==> |o.delivered.value| <= MAX_UDP)
  {
    hide Join, Filled, Sound;
    FillCounts(a.pieces, f.index, f.payload);
    var pieces := a.pieces[f.index := Some(f.payload)];
    var a' := Assembly(a.at, pieces, a.count + 1, a.size + |f.payload|);
    if a'.size > MAX_UDP || a'.count == f.total {
      RemoveSound(live, f.seqno);
    } else {
      PutSound(live, f.seqno, a');
    }
  }

  lemma FillSize(live: Parts, a: Assembly, f: Fragment)
    requires f.index < f.total == |a.pieces|
    ensures var o := Fill(live, a, f);
      |o.parts| + Completions(o.fate) + Oversizes(o.fate) == |live| + if f.seqno in live then 0 else 1
  {
    hide Join;
    RemoveSize(live, f.seqno);
  }

  lemma InsertKeepsSound(live: Parts, f: Fragment, now: int)
    requires Sound(live) && Acceptable(f) && f.total > 1
    ensures var o := Insert(live, f, now);
      && Sound(o.parts)
      && (o.delivered.Some? ==> |o.delivered.value| <= MAX_UDP)
      && |o.parts| + Completions(o.fate) + Oversizes(o.fate) == |live| + Begun(o.fate)
  {
    if f.seqno in live {
      var a := live[f.seqno];
      if |a.pieces| == f.total && a.pieces[f.index].None? {
        FillKeepsSound(live, a, f);
        FillSize(live, a, f);
      }
    } else if |live| < SLOTS {
      EmptyCounts(f.total);
      var blank := Assembly(now, Empty(f.total), 0, 0);
      FillKeepsSound(live, blank, f);
      FillSize(live, blank, f);
    }
  }

  /** Every fragment whatsoever keeps the table sound; nothing delivered exceeds the
      relay buffers; and the table's size changes exactly as the fragment's fate says. */
  lemma AcceptKeepsSound(parts: Parts, f: Fragment, now: int)
    requires Sound(parts)
    requires |f.payload| <= CHUNK
    ensures var o := AcceptFragment(parts, f, now);
      && Sound(o.parts)
      && (o.delivered.Some? ==> |o.delivered.value| <= MAX_UDP)
      && |o.parts| + Completions(o.fate) + Expirations(o.fate) + Oversizes(o.fate) == |parts| + Begun(o.fate)
  {
    if Acceptable(f) && f.total > 1 {
      ExpireSound(parts, now);
      InsertKeepsSound(Expire(parts, now), f, now);
    }
  }
}
