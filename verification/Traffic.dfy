/** Per-user traffic: a ring of 600 one-second buckets that stands for the log of all additions. */
module Traffic {
  import opened Modular

  const SLOTS: nat := 600
  const CYCLE: nat := 0x1_0000_0000_0000_0000 // unsigned 64-bit counters

  datatype Bucket = Bucket(second: nat, tx: nat, rx: nat)

  /** One addition: the second it falls in and the two signed amounts, of which only positive
      ones count. */
  datatype Event = Event(second: nat, tx: int, rx: int)

  function Slot(second: nat): (i: nat)
    ensures i < SLOTS
  {
    second % SLOTS
  }

  function Amount(e: Event, up: bool): nat {
    var n := if up then e.tx else e.rx;
    if n > 0 then n else 0
  }

  function Part(b: Bucket, up: bool): nat { if up then b.tx else b.rx }

  type Ring = s: seq<Bucket> | |s| == SLOTS witness seq(SLOTS, _ => Bucket(0, 0, 0))

  function Empty(): Ring { seq(SLOTS, _ => Bucket(0, 0, 0)) }

  function Added(b: Bucket, e: Event): Bucket {
    var c := if b.second != e.second then Bucket(e.second, 0, 0) else b;
    Bucket(e.second, Plus(c.tx, Amount(e, true)), Plus(c.rx, Amount(e, false)))
  }

  function Plus(n: nat, amount: nat): nat { if amount > 0 then Wrap(n + amount, CYCLE) else n }

  function AddTo(r: Ring, e: Event): Ring { r[Slot(e.second) := Added(r[Slot(e.second)], e)] }

  function RingOf(log: seq<Event>): Ring {
    if log == [] then Empty() else AddTo(RingOf(log[..|log| - 1]), log[|log| - 1])
  }

  predicate Inside(second: nat, now: nat, span: nat) { now - span < second <= now }

  /** The sum over the first `n` buckets whose second lies in the span that ends now. */
  function RingSum(r: Ring, n: nat, now: nat, span: nat, up: bool): nat
    requires n <= SLOTS
  {
    if n == 0 then 0
    else
      var b := r[n - 1];
      var before := RingSum(r, n - 1, now, span, up);
      if Inside(b.second, now, span) then Wrap(before + Part(b, up), CYCLE) else before
  }

  // ---------------------------------------------------------------- sums over the log

  function WindowSum(log: seq<Event>, now: nat, span: nat, up: bool): nat {
    if log == [] then 0
    else
      var e := log[|log| - 1];
      WindowSum(log[..|log| - 1], now, span, up) + if Inside(e.second, now, span) then Amount(e, up) else 0
  }

  /** The part of the window that falls on one slot. */
  function SlotSum(log: seq<Event>, now: nat, span: nat, up: bool, i: nat): nat {
    if log == [] then 0
    else
      var e := log[|log| - 1];
      SlotSum(log[..|log| - 1], now, span, up, i)
      + if Inside(e.second, now, span) && Slot(e.second) == i then Amount(e, up) else 0
  }

  function SecondSum(log: seq<Event>, second: nat, up: bool): nat {
    if log == [] then 0
    else
      var e := log[|log| - 1];
      SecondSum(log[..|log| - 1], second, up) + if e.second == second then Amount(e, up) else 0
  }

  function SlotsSum(log: seq<Event>, now: nat, span: nat, up: bool, n: nat): nat {
    if n == 0 then 0 else SlotsSum(log, now, span, up, n - 1) + SlotSum(log, now, span, up, n - 1)
  }

  lemma {:induction false} SlotsStep(log: seq<Event>, now: nat, span: nat, up: bool, n: nat)
    requires log != []
    ensures var e := log[|log| - 1];
      SlotsSum(log, now, span, up, n) == SlotsSum(log[..|log| - 1], now, span, up, n)
        + if Inside(e.second, now, span) && Slot(e.second) < n then Amount(e, up) else 0
  {
    hide Inside, Slot, Amount;
    if n > 0 { SlotsStep(log, now, span, up, n - 1); }
  }

  lemma {:induction false} NoSlots(now: nat, span: nat, up: bool, n: nat)
    ensures SlotsSum([], now, span, up, n) == 0
  {
    if n > 0 { NoSlots(now, span, up, n - 1); }
  }

  /** Every event falls on exactly one slot. */
  lemma {:induction false} SlotsPartition(log: seq<Event>, now: nat, span: nat, up: bool)
    ensures SlotsSum(log, now, span, up, SLOTS) == WindowSum(log, now, span, up)
  {
    if log == [] {
      NoSlots(now, span, up, SLOTS);
    } else {
      hide Inside, Slot, Amount, SlotsSum;
      SlotsPartition(log[..|log| - 1], now, span, up);
      SlotsStep(log, now, span, up, SLOTS);
    }
  }

  // ---------------------------------------------------------------- what a bucket holds

  /** All additions so far are for seconds up to now. */
  predicate Past(log: seq<Event>, now: nat) { forall k :: 0 <= k < |log| ==> log[k].second <= now }

  /** A second that some window ending now still covers. */
  predicate Live(second: nat, now: nat) { now < second + SLOTS }

  /** Where an addition is followed on its slot by one for an older second, it no longer
      matters by now. */
  predicate Harmless(log: seq<Event>, now: nat) {
    forall k, j :: 0 <= k < j < |log| && Slot(log[k].second) == Slot(log[j].second) && log[j].second < log[k].second ==>
      !Live(log[k].second, now)
  }

  predicate Unused(log: seq<Event>, i: nat) {
    forall k :: 0 <= k < |log| ==> Slot(log[k].second) != i
  }

  predicate Seen(log: seq<Event>, second: nat) {
    exists k :: 0 <= k < |log| && log[k].second == second
  }

  /** Nothing fell on the bucket's slot yet; or, as far as a window ending now can tell, it is
      the one second of that slot, with everything added in that second. */
  predicate Holds(log: seq<Event>, b: Bucket, i: nat, now: nat) {
    || (Unused(log, i) && b == Bucket(0, 0, 0))
    || (&& Slot(b.second) == i
        && (forall k :: 0 <= k < |log| && Slot(log[k].second) == i && Live(log[k].second, now) ==>
              log[k].second == b.second)
        && (Live(b.second, now) ==>
              b.tx == Wrap(SecondSum(log, b.second, true), CYCLE)
                && b.rx == Wrap(SecondSum(log, b.second, false), CYCLE)))
  }

  lemma Zero()
    ensures Wrap(0, CYCLE) == 0
  {
  }

  lemma PlusWrap(n: nat, amount: nat)
    ensures Plus(Wrap(n, CYCLE), amount) == Wrap(n + amount, CYCLE)
  {
    WrapAdd(n, amount, CYCLE);
  }

  lemma {:induction false} UnseenSum(log: seq<Event>, second: nat, up: bool)
    requires !Seen(log, second)
    ensures SecondSum(log, second, up) == 0
  {
    if log != [] {
      var n := |log| - 1;
      assert log[n].second != second;
      forall k | 0 <= k < n ensures log[..n][k].second != second { assert log[k].second != second; }
      UnseenSum(log[..n], second, up);
    }
  }

  lemma OtherSlot(log: seq<Event>, e: Event, b: Bucket, i: nat, now: nat)
    requires Holds(log, b, i, now) && Slot(e.second) != i
    ensures Holds(log + [e], b, i, now)
  {
    hide Slot, Wrap, Live;
    var next := log + [e];
    assert next[..|log|] == log;
    if Unused(log, i) { assert Unused(next, i); }
  }

  /** On one slot, a second newer than another is newer by a whole round. */
  lemma WholeRound(a: nat, b: nat)
    requires Slot(a) == Slot(b) && a < b
    ensures a + SLOTS <= b
  {
  }

  /** Once a later addition on its slot is for another second, a second is live no more. */
  lemma Superseded(log: seq<Event>, e: Event, k: nat, now: nat)
    requires Harmless(log + [e], now) && Past(log + [e], now) && k < |log|
    requires Slot(log[k].second) == Slot(e.second) && log[k].second != e.second
    ensures !Live(log[k].second, now)
  {
    var next := log + [e];
    assert next[k] == log[k] && next[|log|] == e;
    if log[k].second < e.second { WholeRound(log[k].second, e.second); }
  }

  lemma SameSlot(log: seq<Event>, e: Event, b: Bucket, now: nat)
    requires Holds(log, b, Slot(e.second), now) && Harmless(log + [e], now) && Past(log + [e], now)
    ensures Holds(log + [e], Added(b, e), Slot(e.second), now)
  {
    var i, next := Slot(e.second), log + [e];
    var c := Added(b, e);
    forall k | 0 <= k < |next| && Slot(next[k].second) == i && Live(next[k].second, now)
      ensures next[k].second == c.second
    {
      if k < |log| && log[k].second != e.second { Superseded(log, e, k, now); }
    }
    hide Slot, Wrap, Amount, SecondSum, Plus, Harmless, Past;
    SumStep(log, e);
    PlusWrap(SecondSum(log, e.second, true), Amount(e, true));
    PlusWrap(SecondSum(log, e.second, false), Amount(e, false));
    assert Wrap(0, CYCLE) == 0 by { Zero(); }
    if Live(e.second, now) {
      if Seen(log, e.second) {
        var k :| 0 <= k < |log| && log[k].second == e.second;
        assert Slot(log[k].second) == i;
        assert !Unused(log, i);
      } else {
        UnseenSum(log, e.second, true);
        UnseenSum(log, e.second, false);
      }
    }
  }

  lemma SumStep(log: seq<Event>, e: Event)
    ensures forall up :: SecondSum(log + [e], e.second, up) == SecondSum(log, e.second, up) + Amount(e, up)
  {
    assert (log + [e])[..|log|] == log;
  }

  lemma {:induction false} RingHolds(log: seq<Event>, i: nat, now: nat)
    requires Harmless(log, now) && Past(log, now) && i < SLOTS
    ensures Holds(log, RingOf(log)[i], i, now)
  {
    if log != [] {
      var n := |log| - 1;
      var was, e := log[..n], log[n];
      assert log == was + [e];
      RingHolds(was, i, now);
      hide Holds, Added, Slot, Harmless, Past;
      if Slot(e.second) == i {
        SameSlot(was, e, RingOf(was)[i], now);
      } else {
        OtherSlot(was, e, RingOf(was)[i], i, now);
      }
    }
  }

  // ---------------------------------------------------------------- the window

  lemma OneSecondPerSlot(a: nat, b: nat, now: nat, span: nat)
    requires span <= SLOTS && Inside(a, now, span) && Inside(b, now, span) && Slot(a) == Slot(b)
    ensures a == b
  {
  }

  lemma {:induction false} SlotIsSecond(log: seq<Event>, now: nat, span: nat, up: bool, second: nat)
    requires span <= SLOTS && Inside(second, now, span)
    ensures SlotSum(log, now, span, up, Slot(second)) == SecondSum(log, second, up)
  {
    if log != [] {
      var e := log[|log| - 1];
      SlotIsSecond(log[..|log| - 1], now, span, up, second);
      if Inside(e.second, now, span) && Slot(e.second) == Slot(second) {
        OneSecondPerSlot(e.second, second, now, span);
      }
      hide Slot, Inside, Amount;
    }
  }

  lemma {:induction false} SlotEmpty(log: seq<Event>, now: nat, span: nat, up: bool, i: nat)
    requires forall k :: 0 <= k < |log| && Slot(log[k].second) == i ==> !Inside(log[k].second, now, span)
    ensures SlotSum(log, now, span, up, i) == 0
  {
    hide Slot, Inside, Amount;
    if log != [] {
      var n := |log| - 1;
      assert forall k :: 0 <= k < n ==> log[..n][k] == log[k];
      SlotEmpty(log[..n], now, span, up, i);
    }
  }

  lemma BucketIsSlot(log: seq<Event>, b: Bucket, i: nat, now: nat, span: nat, up: bool)
    requires span <= SLOTS && Holds(log, b, i, now)
    ensures (if Inside(b.second, now, span) then Part(b, up) else 0) == Wrap(SlotSum(log, now, span, up, i), CYCLE)
  {
    hide Slot, SlotSum, SecondSum;
    if Unused(log, i) && b == Bucket(0, 0, 0) {
      SlotEmpty(log, now, span, up, i);
    } else if Inside(b.second, now, span) {
      SlotIsSecond(log, now, span, up, b.second);
    } else {
      forall k | 0 <= k < |log| && Slot(log[k].second) == i ensures !Inside(log[k].second, now, span) {
        if Live(log[k].second, now) { assert log[k].second == b.second; }
      }
      SlotEmpty(log, now, span, up, i);
    }
  }

  lemma AddWrapped(a: nat, b: nat)
    ensures Wrap(Wrap(a, CYCLE) + Wrap(b, CYCLE), CYCLE) == Wrap(a + b, CYCLE)
    ensures Wrap(b, CYCLE) == 0 ==> Wrap(a, CYCLE) == Wrap(a + b, CYCLE)
  {
    WrapAdd(a, Wrap(b, CYCLE), CYCLE);
    WrapAdd(b, a, CYCLE);
  }

  lemma {:induction false} RingIsSlots(log: seq<Event>, n: nat, now: nat, span: nat, up: bool)
    requires span <= SLOTS && Harmless(log, now) && Past(log, now) && n <= SLOTS
    ensures RingSum(RingOf(log), n, now, span, up) == Wrap(SlotsSum(log, now, span, up, n), CYCLE)
  {
    if n > 0 {
      RingIsSlots(log, n - 1, now, span, up);
      RingHolds(log, n - 1, now);
      var b := RingOf(log)[n - 1];
      BucketIsSlot(log, b, n - 1, now, span, up);
      var before, slot := SlotsSum(log, now, span, up, n - 1), SlotSum(log, now, span, up, n - 1);
      hide RingOf, Holds, Inside, Past, Harmless, Part, SlotSum, Wrap;
      AddWrapped(before, slot);
    }
  }

  /** The ring's totals for a span ending now are those of the whole log, modulo 64 bits. */
  predicate Exact(log: seq<Event>, now: nat, span: nat, up: bool) {
    RingSum(RingOf(log), SLOTS, now, span, up) == Wrap(WindowSum(log, now, span, up), CYCLE)
  }

  lemma HarmlessIsExact(log: seq<Event>, now: nat, span: nat, up: bool)
    requires span <= SLOTS && Harmless(log, now) && Past(log, now)
    ensures Exact(log, now, span, up)
  {
    RingIsSlots(log, SLOTS, now, span, up);
    SlotsPartition(log, now, span, up);
  }

  // ---------------------------------------------------------------- the exact condition

  function Seconds(log: seq<Event>): (ss: seq<nat>)
    ensures |ss| == |log| && forall k :: 0 <= k < |log| ==> ss[k] == log[k].second
  {
    seq(|log|, k requires 0 <= k < |log| => log[k].second)
  }

  /** Whenever an addition is followed on its own slot by one for an older second, some
      addition is at least 600 seconds newer than the first. */
  predicate Safe(ss: seq<nat>) {
    forall k, j :: 0 <= k < j < |ss| && Slot(ss[k]) == Slot(ss[j]) && ss[j] < ss[k] ==> Overtaken(ss, ss[k])
  }

  predicate Overtaken(ss: seq<nat>, second: nat) {
    exists m :: 0 <= m < |ss| && ss[m] >= second + SLOTS
  }

  /** A clock that does not run backwards is safe. */
  lemma InOrderIsSafe(ss: seq<nat>)
    requires forall k, j :: 0 <= k < j < |ss| ==> ss[k] <= ss[j]
    ensures Safe(ss)
  {
  }

  lemma SafeIsHarmless(log: seq<Event>, now: nat)
    requires Safe(Seconds(log)) && Past(log, now)
    ensures Harmless(log, now)
  {
    hide Slot;
    var ss := Seconds(log);
    forall k, j | 0 <= k < j < |log| && Slot(log[k].second) == Slot(log[j].second) && log[j].second < log[k].second
      ensures !Live(log[k].second, now)
    {
      assert Overtaken(ss, ss[k]);
      var m :| 0 <= m < |ss| && ss[m] >= ss[k] + SLOTS;
      assert log[m].second <= now;
    }
  }

  /** One byte in the `k`-th of the additions, none in the others. */
  function Single(ss: seq<nat>, k: nat): (log: seq<Event>)
    ensures |log| == |ss|
  {
    seq(|ss|, i requires 0 <= i < |ss| => Event(ss[i], if i == k then 1 else 0, 0))
  }

  function Newest(ss: seq<nat>): (m: nat)
    ensures forall i :: 0 <= i < |ss| ==> ss[i] <= m
    ensures ss != [] ==> m in ss
  {
    if ss == [] then 0
    else
      var n := Newest(ss[..|ss| - 1]);
      assert forall i :: 0 <= i < |ss| - 1 ==> ss[..|ss| - 1][i] == ss[i];
      if n > ss[|ss| - 1] then n else ss[|ss| - 1]
  }

  /** After addition `j` the byte of addition `k` is in no bucket any more. */
  lemma {:induction false} ByteLost(ss: seq<nat>, k: nat, j: nat, n: nat, i: nat)
    requires k < j < |ss| && n <= |ss| && i < SLOTS && Slot(ss[k]) == Slot(ss[j]) && ss[j] != ss[k]
    ensures var b := RingOf(Single(ss, k)[..n])[i];
      b.tx == 0 || (k < n <= j && i == Slot(ss[k]) && b.second == ss[k])
  {
    var log := Single(ss, k);
    if n > 0 {
      ByteLost(ss, k, j, n - 1, i);
      assert log[..n][..n - 1] == log[..n - 1] && log[..n][n - 1] == log[n - 1];
      hide Slot, Single;
      var r, e := RingOf(log[..n - 1]), log[n - 1];
      assert RingOf(log[..n]) == AddTo(r, e);
      assert e == Event(ss[n - 1], if n - 1 == k then 1 else 0, 0) by { SingleAt(ss, k, n - 1); }
    }
  }

  lemma SingleAt(ss: seq<nat>, k: nat, i: nat)
    requires i < |ss|
    ensures Single(ss, k)[i] == Event(ss[i], if i == k then 1 else 0, 0)
  {
  }

  lemma {:induction false} ByteCounted(ss: seq<nat>, k: nat, n: nat, now: nat)
    requires k < |ss| && n <= |ss| && Inside(ss[k], now, SLOTS)
    ensures WindowSum(Single(ss, k)[..n], now, SLOTS, true) == if k < n then 1 else 0
  {
    var log := Single(ss, k);
    if n > 0 {
      ByteCounted(ss, k, n - 1, now);
      assert log[..n][..n - 1] == log[..n - 1] && log[..n][n - 1] == log[n - 1];
    }
  }

  lemma {:induction false} EmptySum(r: Ring, n: nat, now: nat, span: nat)
    requires n <= SLOTS && forall i :: 0 <= i < SLOTS ==> r[i].tx == 0
    ensures RingSum(r, n, now, span, true) == 0
  {
    if n > 0 { EmptySum(r, n - 1, now, span); }
  }

  /** Where the condition fails, one byte in the wrong addition is lost from the full window. */
  lemma UnsafeLoses(ss: seq<nat>) returns (log: seq<Event>, now: nat)
    requires !Safe(ss)
    ensures Seconds(log) == ss && Past(log, now) && !Exact(log, now, SLOTS, true)
  {
    var k, j :| 0 <= k < j < |ss| && Slot(ss[k]) == Slot(ss[j]) && ss[j] < ss[k] && !Overtaken(ss, ss[k]);
    log, now := Single(ss, k), Newest(ss);
    assert log[..|ss|] == log;
    forall i | 0 <= i < SLOTS ensures RingOf(log)[i].tx == 0 { ByteLost(ss, k, j, |ss|, i); }
    EmptySum(RingOf(log), SLOTS, now, SLOTS);
    assert Inside(ss[k], now, SLOTS) by {
      var m :| 0 <= m < |ss| && ss[m] == now;
      assert !(ss[m] >= ss[k] + SLOTS);
    }
    ByteCounted(ss, k, |ss|, now);
  }

  /** Whatever the amounts, the spans up to 600 seconds and the later moment of asking, the ring
      gives the totals of the whole log, modulo 64 bits: exactly for safe sequences of seconds,
      so in particular whenever the clock does not run backwards. */
  lemma RingIsWindow(ss: seq<nat>)
    ensures Safe(ss) <==>
      forall log, now: nat, span: nat, up :: Seconds(log) == ss && Past(log, now) && span <= SLOTS ==>
        Exact(log, now, span, up)
  {
    hide Exact, Safe, Past, Seconds;
    if Safe(ss) {
      forall log, now: nat, span: nat, up | Seconds(log) == ss && Past(log, now) && span <= SLOTS
        ensures Exact(log, now, span, up)
      {
        SafeIsHarmless(log, now);
        HarmlessIsExact(log, now, span, up);
      }
    } else {
      var log, now := UnsafeLoses(ss);
    }
  }

  /** A clock that steps back by a whole round shows it: not safe, and a window loses traffic. */
  lemma DisorderLosesTraffic()
    ensures !Safe([600, 0])
    ensures exists log, now: nat :: Seconds(log) == [600, 0] && Past(log, now) && !Exact(log, now, SLOTS, true)
  {
    var ss: seq<nat> := [600, 0];
    assert Slot(ss[0]) == Slot(ss[1]) && ss[1] < ss[0] && !Overtaken(ss, ss[0]);
    var log, now := UnsafeLoses(ss);
  }

  // ---------------------------------------------------------------- the ring object

  datatype Totals = Totals(tx: nat, rx: nat, rateTx: nat, rateRx: nat)

  class UserTraffic {
    const buckets: array<Bucket>

    ghost predicate Valid() { buckets.Length == SLOTS }

    constructor ()
      ensures Valid() && fresh(buckets) && buckets[..] == Empty()
    {
      buckets := new Bucket[SLOTS](_ => Bucket(0, 0, 0));
    }

    method Add(e: Event)
      requires Valid()
      modifies buckets
      ensures buckets[..] == AddTo(old(buckets[..]), e)
    {
      var i := Slot(e.second);
      if buckets[i].second != e.second { buckets[i] := Bucket(e.second, 0, 0); }
      if e.tx > 0 { buckets[i] := buckets[i].(tx := Wrap(buckets[i].tx + e.tx, CYCLE)); }
      if e.rx > 0 { buckets[i] := buckets[i].(rx := Wrap(buckets[i].rx + e.rx, CYCLE)); }
    }

    /** The totals shown for a user. */
    method Snapshot(now: nat) returns (t: Totals)
      requires Valid()
      ensures var r: Ring := buckets[..];
        && t.tx == RingSum(r, SLOTS, now, 600, true) && t.rx == RingSum(r, SLOTS, now, 600, false)
        && t.rateTx == RingSum(r, SLOTS, now, 5, true) / 5 && t.rateRx == RingSum(r, SLOTS, now, 5, false) / 5
    {
      ghost var r: Ring := buckets[..];
      var tx, rx, fastTx, fastRx := 0, 0, 0, 0;
      for i := 0 to buckets.Length
        invariant tx == RingSum(r, i, now, 600, true) && rx == RingSum(r, i, now, 600, false)
        invariant fastTx == RingSum(r, i, now, 5, true) && fastRx == RingSum(r, i, now, 5, false)
      {
        var b := buckets[i];
        assert r[i] == b;
        if Inside(b.second, now, 600) {
          tx, rx := Wrap(tx + b.tx, CYCLE), Wrap(rx + b.rx, CYCLE);
          if b.second > now - 5 { fastTx, fastRx := Wrap(fastTx + b.tx, CYCLE), Wrap(fastRx + b.rx, CYCLE); }
        }
      }
      return Totals(tx, rx, fastTx / 5, fastRx / 5);
    }
  }
}
