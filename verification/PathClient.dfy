/** The client object that owns the sockets; each method is tied to its operation in Paths. */
module PathClient {
  import opened Bytes
  import P = Paths
  import opened Paths

  class Migrator {
    var phase: Phase
    var active: Option<nat>
    var prepared: Option<Path>
    var parked: Option<Path>
    var count: nat
    var retiring: set<nat>
    var closed: multiset<nat>
    ghost var history: seq<Event>

    constructor ()
      ensures State() == NEW
    {
      phase, active, prepared, parked := Idle, None, None, None;
      count, retiring, closed, history := 0, {}, multiset{}, [];
    }

    ghost function State(): Client
      reads this
    {
      Client(phase, active, prepared, parked, Sockets(count, retiring, closed), history)
    }

    method NewTransport() returns (t: nat)
      modifies this`count
      ensures t == old(count) && State() == Open(old(State()))
    {
      t := count;
      count := count + 1;
    }

    method CloseTransport(t: nat)
      modifies this`closed
      ensures State() == CloseSocket(old(State()), t)
    {
      closed := closed + multiset{t};
    }

    method Start(opens: bool, dials: bool) returns (ok: bool)
      modifies this`phase, this`active, this`count, this`closed
      ensures (State(), ok) == P.Start(old(State()), opens, dials)
    {
      if !phase.Idle? || !opens { return false; }
      var t := NewTransport();
      if !dials {
        CloseTransport(t);
        return false;
      }
      phase, active := Connected, Some(t);
      return true;
    }

    method DiscardPrepared(ghost why: Reason)
      modifies this`prepared, this`retiring, this`history
      ensures State() == DropPrepared(old(State()), why)
    {
      if prepared.None? { return; }
      retiring := retiring + {prepared.value.transport};
      history := history + [Gone(prepared.value.key, why)];
      prepared := None;
    }

    method DiscardParked(ghost why: Reason)
      modifies this`parked, this`retiring, this`history
      ensures State() == DropParked(old(State()), why)
    {
      if parked.None? { return; }
      retiring := retiring + {parked.value.transport};
      history := history + [Gone(parked.value.key, why)];
      parked := None;
    }

    /** Both the control worker's prepare and the one inside a cold migration. */
    method Prepare(key: string, w: World) returns (ok: bool)
      modifies this`prepared, this`parked, this`count, this`retiring, this`closed, this`history
      ensures (State(), ok) == P.Prepare(old(State()), key, w)
    {
      if !phase.Connected? { return false; }
      if prepared.Some? && prepared.value.key != key {
        if parked.Some? && parked.value.key == key {
          prepared, parked := parked, prepared;
        } else {
          DiscardParked(Displaced(key));
          parked, prepared := prepared, None;
        }
      }
      if prepared.None? && parked.Some? && parked.value.key == key {
        prepared, parked := parked, None;
      }
      assert State() == Promote(old(State()), key);
      if prepared.None? {
        if !w.opens { return false; }
        var t := NewTransport();
        if !w.adds {
          CloseTransport(t);
          return false;
        }
        history := history + [Added(key, t)];
        prepared := Some(Path(key, t, None));
      }
      assert (State(), true) == AddPath(Promote(old(State()), key), key, w);
      var p := prepared.value;
      history := history + [Probed(p.transport, w.probes, w.done)];
      prepared := Some(p.(checked := if w.probes then Some(w.done) else None));
      return w.probes;
    }

    method InvalidatePath(key: string)
      modifies this`prepared, this`parked, this`retiring, this`history
      ensures State() == Invalidate(old(State()), key)
    {
      if prepared.Some? && prepared.value.key == key {
        DiscardPrepared(Invalidated);
      }
      if parked.Some? && parked.value.key == key {
        DiscardParked(Invalidated);
      }
    }

    method MigrateTo(key: string, w: World) returns (ok: bool)
      modifies this`active, this`prepared, this`parked, this`count, this`retiring, this`closed, this`history
      ensures (State(), ok) == Migrate(old(State()), key, w)
    {
      ghost var began := |history|;
      if !phase.Connected? { return false; }
      var warm := prepared.Some? && prepared.value.key == key && prepared.value.checked.Some?
                  && w.now - prepared.value.checked.value < FRESH;
      if !warm {
        var ready := Prepare(key, w);
        if !ready { return false; }
      }
      ok := Switch(key, w, began);
    }

    method Switch(ghost asked: string, w: World, ghost began: nat) returns (ok: bool)
      modifies this`active, this`prepared, this`retiring, this`history
      ensures (State(), ok) == SwitchPath(old(State()), asked, w, began)
    {
      if prepared.None? || active.None? { return false; }
      var next := prepared.value;
      history := history + [Switched(asked, next.transport, w.now, began)];
      if !w.switches {
        DiscardPrepared(SwitchFailed);
        return false;
      }
      var previous := active.value;
      active := Some(next.transport);
      prepared := None;
      history := history + [Gone(next.key, Migrated)];
      retiring := retiring + {previous};
      return true;
    }

    /** A retirement's last act, whichever way its waiting ended. */
    method FinishRetirement(t: nat)
      requires t in retiring
      modifies this`retiring, this`closed
      ensures State() == Next(old(State()), Retired(t))
    {
      retiring := retiring - {t};
      CloseTransport(t);
    }

    /** Waits until every retirement has closed its socket. */
    method AwaitRetirements()
      modifies this`retiring, this`closed
      ensures retiring == {} && closed == old(closed) + multiset(old(retiring))
    {
      while retiring != {}
        invariant closed + multiset(retiring) == old(closed) + multiset(old(retiring))
        decreases |retiring|
      {
        var t :| t in retiring;
        assert multiset(retiring) == multiset(retiring - {t}) + multiset{t};
        FinishRetirement(t);
      }
      assert closed + multiset{} == closed;
    }

    method Stop()
      modifies this
      ensures State() == P.Stop(old(State()))
    {
      if phase.Idle? { return; }
      DiscardPrepared(Stopped);
      DiscardParked(Stopped);
      AwaitRetirements();
      if active.Some? { CloseTransport(active.value); }
      active := None;
      phase := Idle;
    }
  }
}
