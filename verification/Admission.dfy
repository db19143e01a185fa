/** Flow workers against shutdown: the admission and stop steps of a handler, interleaved
    in every possible way. */
module Admission {
  import opened Limits

  /** A worker holds its slot while it works, gives it back, and then leaves the wait group. */
  datatype Stage = Working | Leaving

  /** A stop marks the handler closed, cancels its flows, waits for the group, returns. */
  datatype StopStage = Marked | Cancelled | Returned

  datatype State = State(closed: bool, slots: nat, group: nat, workers: map<nat, Stage>, stops: map<nat, StopStage>)

  const START := State(false, 0, 0, map[], map[])

  datatype Step =
    | Arrive(worker: nat) // one locked region: refused, or slot and group taken together
    | ReleaseSlot(worker: nat)
    | LeaveGroup(worker: nat)
    | Mark(stop: nat)
    | Cancel(stop: nat)
    | Return(stop: nat) // enabled only when the group is empty

  predicate Enabled(s: State, step: Step) {
    match step
    case Arrive(w) => w !in s.workers
    case ReleaseSlot(w) => w in s.workers && s.workers[w] == Working
    case LeaveGroup(w) => w in s.workers && s.workers[w] == Leaving
    case Mark(k) => k !in s.stops
    case Cancel(k) => k in s.stops && s.stops[k] == Marked
    case Return(k) => k in s.stops && s.stops[k] == Cancelled && s.group == 0
  }

  predicate Admits(s: State) { !s.closed && s.slots < MAX_FLOWS }

  function Next(s: State, step: Step): State
    requires Enabled(s, step)
  {
    match step
    case Arrive(w) =>
      if Admits(s) then s.(slots := s.slots + 1, group := s.group + 1, workers := s.workers[w := Working]) else s
    case ReleaseSlot(w) =>
      s.(slots := if s.slots > 0 then s.slots - 1 else 0, workers := s.workers[w := Leaving])
    case LeaveGroup(w) =>
      s.(group := if s.group > 0 then s.group - 1 else 0, workers := s.workers - {w})
    case Mark(k) => s.(closed := true, stops := s.stops[k := Marked])
    case Cancel(k) => s.(stops := s.stops[k := Cancelled])
    case Return(k) => s.(stops := s.stops[k := Returned])
  }

  ghost predicate Legal(s: State, steps: seq<Step>)
    decreases |steps|
  {
    steps == [] || (Enabled(s, steps[0]) && Legal(Next(s, steps[0]), steps[1..]))
  }

  function Run(s: State, steps: seq<Step>): State
    requires Legal(s, steps)
    decreases |steps|
  {
    if steps == [] then s else Run(Next(s, steps[0]), steps[1..])
  }

  function Running(s: State): set<nat> { set w | w in s.workers && s.workers[w] == Working }

  /** Held slots are the running workers, the group is every worker, a stop implies closed, and
      a stop that has returned implies there is no worker at all. */
  ghost predicate Invariant(s: State) {
    && s.slots == |Running(s)| <= MAX_FLOWS
    && s.group == |s.workers|
    && (s.stops != map[] ==> s.closed)
    && (forall k :: k in s.stops && s.stops[k] == Returned ==> s.workers == map[])
  }

  lemma ArriveKeeps(s: State, w: nat)
    requires Invariant(s) && Enabled(s, Arrive(w))
    ensures Invariant(Next(s, Arrive(w)))
  {
    if Admits(s) {
      assert Running(Next(s, Arrive(w))) == Running(s) + {w} && w !in Running(s);
      assert forall k :: k in s.stops ==> s.stops != map[];
    }
  }

  lemma ReleaseKeeps(s: State, w: nat)
    requires Invariant(s) && Enabled(s, ReleaseSlot(w))
    ensures Invariant(Next(s, ReleaseSlot(w)))
  {
    assert Running(Next(s, ReleaseSlot(w))) == Running(s) - {w} && w in Running(s);
  }

  lemma LeaveKeeps(s: State, w: nat)
    requires Invariant(s) && Enabled(s, LeaveGroup(w))
    ensures Invariant(Next(s, LeaveGroup(w)))
  {
    var s' := Next(s, LeaveGroup(w));
    assert Running(s') == Running(s);
    assert s'.workers.Keys == s.workers.Keys - {w};
    assert |s'.workers.Keys| == |s.workers.Keys| - 1;
  }

  lemma NextKeeps(s: State, step: Step)
    requires Invariant(s) && Enabled(s, step)
    ensures Invariant(Next(s, step))
  {
    match step
    case Arrive(w) => ArriveKeeps(s, w);
    case ReleaseSlot(w) => ReleaseKeeps(s, w);
    case LeaveGroup(w) => LeaveKeeps(s, w);
    case Mark(k) => assert Running(Next(s, step)) == Running(s);
    case Cancel(k) => assert Running(Next(s, step)) == Running(s);
    case Return(k) =>
      assert Running(Next(s, step)) == Running(s);
      assert s.workers.Keys == {};
  }

  lemma {:induction false} RunKeeps(s: State, steps: seq<Step>)
    requires Invariant(s) && Legal(s, steps)
    ensures Invariant(Run(s, steps))
    decreases |steps|
  {
    hide Invariant, Next, Enabled;
    if steps != [] {
      NextKeeps(s, steps[0]);
      RunKeeps(Next(s, steps[0]), steps[1..]);
    }
  }

  lemma {:induction false} ReturnedStays(s: State, steps: seq<Step>, k: nat)
    requires Legal(s, steps) && k in s.stops && s.stops[k] == Returned
    ensures k in Run(s, steps).stops && Run(s, steps).stops[k] == Returned
    decreases |steps|
  {
    if steps != [] {
      ReturnedStays(Next(s, steps[0]), steps[1..], k);
    }
  }

  /** For every interleaving: running workers never exceed the limit and match the held slots;
      and once any stop has returned no worker is left, none ever starts again, and every
      later arrival is refused. */
  lemma StopIsFinal(before: seq<Step>, after: seq<Step>, k: nat)
    requires Legal(START, before) && Legal(Run(START, before), after)
    ensures var s := Run(START, before); s.slots == |Running(s)| <= MAX_FLOWS
    ensures var s := Run(START, before);
      k in s.stops && s.stops[k] == Returned ==>
        var t := Run(s, after); t.workers == map[] && !Admits(t)
  {
    assert Invariant(START);
    RunKeeps(START, before);
    var s := Run(START, before);
    if k in s.stops && s.stops[k] == Returned {
      RunKeeps(s, after);
      ReturnedStays(s, after, k);
    }
  }

  /** The wait group never grows once a stop has begun, so no stop waits for a late worker. */
  lemma {:induction false} GroupOnlyShrinks(s: State, steps: seq<Step>)
    requires Invariant(s) && Legal(s, steps) && s.stops != map[]
    ensures Run(s, steps).group <= s.group && Run(s, steps).workers.Keys <= s.workers.Keys
    decreases |steps|
  {
    if steps != [] {
      var s' := Next(s, steps[0]);
      NextKeeps(s, steps[0]);
      assert s'.stops != map[] by { var k :| k in s.stops; assert k in s'.stops; }
      GroupOnlyShrinks(s', steps[1..]);
    }
  }

  predicate Marks(steps: seq<Step>) { exists i :: 0 <= i < |steps| && steps[i].Mark? }

  lemma {:induction false} ClosedByMark(s: State, steps: seq<Step>)
    requires Legal(s, steps)
    ensures Run(s, steps).closed <==> s.closed || Marks(steps)
    decreases |steps|
  {
    if steps != [] {
      ClosedByMark(Next(s, steps[0]), steps[1..]);
      var rest := steps[1..];
      if Marks(rest) {
        var i :| 0 <= i < |rest| && rest[i].Mark?;
        assert steps[i + 1].Mark?;
      }
      if i :| 0 <= i < |steps| && steps[i].Mark? {
        assert i > 0 ==> rest[i - 1] == steps[i];
      }
    }
  }

  /** Exactly which flows get a worker: those that arrive before any stop has begun and while fewer
      than 128 workers run. */
  lemma AdmittedExactly(steps: seq<Step>, w: nat)
    requires Legal(START, steps) && Enabled(Run(START, steps), Arrive(w))
    ensures var s := Run(START, steps);
      w in Next(s, Arrive(w)).workers <==> !Marks(steps) && |Running(s)| < 128
  {
    assert Invariant(START);
    RunKeeps(START, steps);
    ClosedByMark(START, steps);
  }

  // ---------------------------------------------------------------- the handler object

  class TunHandler {
    var closed: bool
    var slots: nat
    var group: nat
    ghost var workers: map<nat, Stage>
    ghost var stops: map<nat, StopStage>

    constructor ()
      ensures View() == START
    {
      closed, slots, group := false, 0, 0;
      workers, stops := map[], map[];
    }

    ghost function View(): State reads this { State(closed, slots, group, workers, stops) }

    /** The locked region of a new flow, the same for both protocols. */
    method Admit(ghost w: nat) returns (ok: bool)
      requires Enabled(View(), Arrive(w))
      modifies this`slots, this`group, this`workers
      ensures View() == Next(old(View()), Arrive(w)) && ok == old(Admits(View()))
    {
      if closed { return false; }
      if slots >= MAX_FLOWS { return false; }
      slots := slots + 1;
      group := group + 1;
      workers := workers[w := Working];
      return true;
    }

    method GiveBackSlot(ghost w: nat)
      requires Invariant(View()) && Enabled(View(), ReleaseSlot(w))
      modifies this`slots, this`workers
      ensures View() == Next(old(View()), ReleaseSlot(w))
    {
      assert w in Running(View());
      slots := slots - 1;
      workers := workers[w := Leaving];
    }

    method Done(ghost w: nat)
      requires Invariant(View()) && Enabled(View(), LeaveGroup(w))
      modifies this`group, this`workers
      ensures View() == Next(old(View()), LeaveGroup(w))
    {
      assert w in workers.Keys;
      group := group - 1;
      workers := workers - {w};
    }

    method MarkClosed(ghost k: nat)
      requires Enabled(View(), Mark(k))
      modifies this`closed, this`stops
      ensures View() == Next(old(View()), Mark(k))
    {
      closed := true;
      stops := stops[k := Marked];
    }
  }
}
