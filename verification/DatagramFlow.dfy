/** The mutable side of the fragment protocol: the per-connection multiplexer and its flows. */
module DatagramFlow {
  import opened Bytes
  import opened Limits
  import opened Datagram

  datatype Failure = Closed | TooLarge | FlowLimit | Duplicate | TooLate

  class Mux {
    var flows: map<nat, Flow>
    var send: seq<bytes> // everything queued for the sender, oldest first
    var drops: nat
    var closed: bool

    constructor ()
      ensures flows == map[] && send == [] && drops == 0 && !closed && Valid()
    {
      flows, send, drops, closed := map[], [], 0, false;
    }

    ghost predicate Valid()
      reads this, flows.Values
    {
      && |flows| <= MAX_FLOWS
      && forall id :: id in flows ==> flows[id].mux == this && flows[id].id == id && flows[id].Valid()
    }

    method Register(id: nat) returns (f: Flow?, error: Option<Failure>)
      requires Valid() && id < Values(8)
      modifies this`flows
      ensures Valid()
      ensures f == null <==> error.Some?
      ensures f == null ==> flows == old(flows)
      ensures error.Some? <==> closed || |old(flows)| >= MAX_FLOWS || id in old(flows)
      ensures f != null ==> fresh(f) && flows == old(flows)[id := f]
      ensures f != null ==> f.parts == map[] && f.recv == [] && f.counter == 0 && !f.done
    {
      if closed { return null, Some(Closed); }
      if |flows| >= MAX_FLOWS { return null, Some(FlowLimit); }
      if id in flows { return null, Some(Duplicate); }
      var flow := new Flow(this, id);
      flows := flows[id := flow];
      return flow, None;
    }

    /** One received datagram: refused by length, refused for want of a flow, or handed to its
        own flow and to no other. */
    method Receive(b: bytes, now: int)
      requires Valid()
      modifies this`drops, flows.Values`parts, flows.Values`recv
      ensures Valid()
      ensures var known := HEADER <= |b| <= HEADER + CHUNK && Decode(b).flow in flows;
        && (!known ==> drops == old(drops) + 1)
        && (forall id :: id in flows && !(known && id == Decode(b).flow) ==>
              flows[id].parts == old(flows[id].parts) && flows[id].recv == old(flows[id].recv))
        && (known ==> flows[Decode(b).flow].Accepted(old(flows[Decode(b).flow].parts), old(flows[Decode(b).flow].recv),
                                                     old(drops), b, now))
    {
      hide Sound, AcceptFragment, FromBe;
      if |b| < HEADER || |b| > HEADER + CHUNK {
        drops := drops + 1;
        return;
      }
      var id := FromBe(b[..8]);
      if id !in flows {
        drops := drops + 1;
        return;
      }
      flows[id].Accept(b, now);
    }
  }

  class Flow {
    const mux: Mux
    const id: nat
    var counter: nat
    var recv: seq<bytes> // delivered and not yet read, at most QUEUE of them
    var done: bool
    var parts: Parts

    constructor (mux: Mux, id: nat)
      requires id < Values(8)
      ensures this.mux == mux && this.id == id && Valid()
      ensures counter == 0 && recv == [] && !done && parts == map[]
    {
      this.mux, this.id := mux, id;
      counter, recv, done, parts := 0, [], false, map[];
    }

    ghost predicate Valid()
      reads this
    {
      && id < Values(8) && counter < SEQUENCE_SPACE
      && Sound(parts)
      && Bounded(recv)
    }

    /** The state after `Accept` in terms of the state before: the table and the shared drop
        counter follow AcceptFragment, and a delivery joins the queue unless that is full. */
    ghost predicate Accepted(parts0: Parts, recv0: seq<bytes>, drops0: nat, b: bytes, now: int)
      requires |b| >= HEADER
      reads this, mux
    {
      if done then parts == parts0 && recv == recv0 && mux.drops == drops0
      else Follows(recv0, drops0, AcceptFragment(parts0, Decode(b), now))
    }

    ghost predicate Follows(recv0: seq<bytes>, drops0: nat, o: Outcome)
      reads this, mux
    {
      && parts == o.parts
      && recv == Queued(recv0, o.delivered)
      && mux.drops == drops0 + o.fate.Drops() + Overflow(recv0, o.delivered)
    }

    method Accept(b: bytes, now: int)
      requires Valid() && HEADER <= |b| <= HEADER + CHUNK
      modifies this`parts, this`recv, mux`drops
      ensures Valid()
      ensures Accepted(old(parts), old(recv), old(mux.drops), b, now)
    {
      if done { return; }
      AcceptKeepsSound(parts, Decode(b), now);
      QueuedBounded(recv, AcceptFragment(parts, Decode(b), now).delivered);
      Reassemble(Decode(b), now);
    }

    method Reassemble(f: Fragment, now: int)
      modifies this`parts, this`recv, mux`drops
      ensures Follows(old(recv), old(mux.drops), AcceptFragment(old(parts), f, now))
    {
      ghost var o := AcceptFragment(parts, f, now);
      if !Acceptable(f) {
        mux.drops := mux.drops + 1;
        assert Follows(old(recv), old(mux.drops), o);
        return;
      }
      if f.total == 1 {
        Deliver(f.payload);
        assert Follows(old(recv), old(mux.drops), o);
        return;
      }
      ExpireParts(now);
      InsertPiece(f, now);
      assert Follows(old(recv), old(mux.drops), o);
    }

    method InsertPiece(f: Fragment, now: int)
      requires f.index < f.total
      modifies this`parts, this`recv, mux`drops
      ensures Follows(old(recv), old(mux.drops), Insert(old(parts), f, now))
    {
      ghost var o := Insert(parts, f, now);
      var a;
      if f.seqno !in parts {
        if |parts| >= SLOTS {
          mux.drops := mux.drops + 1;
          assert Follows(old(recv), old(mux.drops), o);
          return;
        }
        a := Assembly(now, Empty(f.total), 0, 0);
        parts := parts[f.seqno := a];
      } else {
        a := parts[f.seqno];
        assert parts == old(parts)[f.seqno := a];
      }
      if |a.pieces| != f.total {
        mux.drops := mux.drops + 1;
        assert f.seqno in old(parts) && parts == old(parts);
        assert Follows(old(recv), old(mux.drops), o);
        return;
      }
      if a.pieces[f.index].Some? {
        assert f.seqno in old(parts) && parts == old(parts);
        assert Follows(old(recv), old(mux.drops), o);
        return;
      }
      FillPiece(f);
      FillTwice(old(parts), a, f);
      assert Follows(old(recv), old(mux.drops), o);
    }

    /** Stores a piece in its empty place, then drops an oversize assembly or hands over a whole one. */
    method FillPiece(f: Fragment)
      requires f.seqno in parts && f.index < f.total == |parts[f.seqno].pieces|
        && parts[f.seqno].pieces[f.index] == None
      modifies this`parts, this`recv, mux`drops
      ensures Follows(old(recv), old(mux.drops), Fill(old(parts), old(parts)[f.seqno], f))
    {
      ghost var o := Fill(parts, parts[f.seqno], f);
      var a := parts[f.seqno];
      a := Assembly(a.at, a.pieces[f.index := Some(f.payload)], a.count + 1, a.size + |f.payload|);
      if a.size > MAX_UDP {
        parts := parts - {f.seqno};
        mux.drops := mux.drops + 1;
        assert Follows(old(recv), old(mux.drops), o);
      } else if a.count == f.total {
        var packet := JoinPieces(a.pieces);
        parts := parts - {f.seqno};
        Deliver(packet);
        assert Follows(old(recv), old(mux.drops), o);
      } else {
        parts := parts[f.seqno := a];
        assert Follows(old(recv), old(mux.drops), o);
      }
    }

    method ExpireParts(now: int)
      modifies this`parts, mux`drops
      ensures parts == Expire(old(parts), now)
      ensures forall q :: q in old(parts) && now - old(parts)[q].at > LIFETIME ==> q !in parts
      ensures forall q :: q in old(parts) && now - old(parts)[q].at <= LIFETIME ==> q in parts
      ensures mux.drops == old(mux.drops) + |old(parts)| - |parts|
    {
      var ids := parts.Keys;
      while ids != {}
        invariant ids <= old(parts).Keys
        invariant parts == map q | q in old(parts) && (q in ids || now - old(parts)[q].at <= LIFETIME) :: old(parts)[q]
        invariant mux.drops == old(mux.drops) + |old(parts)| - |parts|
        decreases |ids|
      {
        var q :| q in ids;
        if now - parts[q].at > LIFETIME {
          ghost var before := parts;
          parts := parts - {q};
          assert parts.Keys == before.Keys - {q} && |parts.Keys| == |before.Keys| - 1;
          mux.drops := mux.drops + 1;
        }
        ids := ids - {q};
      }
    }

    method Deliver(b: bytes)
      modifies this`recv, mux`drops
      ensures recv == Queued(old(recv), Some(b))
      ensures mux.drops == old(mux.drops) + Overflow(old(recv), Some(b))
      ensures |old(recv)| < 32 ==> recv == old(recv) + [b] && mux.drops == old(mux.drops)
      ensures |old(recv)| >= 32 ==> recv == old(recv) && mux.drops == old(mux.drops) + 1
    {
      if |recv| < QUEUE {
        recv := recv + [b];
      } else {
        mux.drops := mux.drops + 1;
      }
    }

    /** Takes the oldest packet; with a buffer as large as the relay's it is never cut short.
        A read past its deadline takes nothing, even if a packet is there. `None` with no
        failure means the caller would wait. */
    method Read(buffer: array<byte>, late: bool, seeClosed: bool) returns (n: Option<nat>, error: Option<Failure>)
      requires Valid()
      modifies this`recv, buffer
      ensures Valid()
      ensures error == Some(TooLate) <==> late
      ensures error.Some? ==> late || (error == Some(Closed) && (done || mux.closed))
      ensures error.Some? || old(recv) == [] ==> n == None && recv == old(recv)
      ensures error.None? && old(recv) != [] ==>
        && n.Some? && recv == old(recv)[1..]
        && n.value == Min(buffer.Length, |old(recv)[0]|)
        && buffer[..n.value] == old(recv)[0][..n.value]
      ensures n.Some? && buffer.Length >= MAX_UDP ==> buffer[..n.value] == old(recv)[0]
    {
      if late { return None, Some(TooLate); }
      if (done || mux.closed) && (seeClosed || recv == []) { return None, Some(Closed); }
      if recv == [] { return None, None; }
      var p := recv[0];
      recv := recv[1..];
      var size := if buffer.Length < |p| then buffer.Length else |p|;
      Put(buffer, 0, p[..size]);
      return Some(size), None;
    }

    /** Queues the datagram's fragments under the next number. The sender drains the queue
        meanwhile: `room` pushes find space and the next one, if there is one, does not. */
    method Write(b: bytes, late: bool, room: nat) returns (n: nat, error: Option<Failure>)
      requires Valid()
      modifies this`counter, mux`send, mux`drops
      ensures Valid()
      ensures error == (if done || mux.closed then Some(Closed) else if late then Some(TooLate)
                        else if |b| > MAX_UDP then Some(TooLarge) else None)
      ensures error.Some? ==>
        n == 0 && counter == old(counter) && mux.send == old(mux.send) && mux.drops == old(mux.drops)
      ensures error.None? ==>
        && n == |b| && counter == (old(counter) + 1) % SEQUENCE_SPACE
        && mux.send == old(mux.send) + Split(id, counter, b)[..Min(room, TotalFor(|b|))]
        && mux.drops == old(mux.drops) + if room < TotalFor(|b|) then 1 else 0
    {
      if done || mux.closed { return 0, Some(Closed); }
      if late { return 0, Some(TooLate); }
      if |b| > MAX_UDP { return 0, Some(TooLarge); }
      counter := (counter + 1) % SEQUENCE_SPACE;
      QueueFragments(counter, b, room);
      return |b|, None;
    }

    method QueueFragments(seqno: nat, b: bytes, room: nat)
      modifies mux`send, mux`drops
      ensures mux.send == old(mux.send) + Split(id, seqno, b)[..Min(room, TotalFor(|b|))]
      ensures mux.drops == old(mux.drops) + if room < TotalFor(|b|) then 1 else 0
    {
      var total := TotalFor(|b|);
      ghost var queued: seq<bytes> := [];
      var i := 0;
      while i < total
        invariant 0 <= i <= total && i <= room
        invariant queued == Split(id, seqno, b)[..i] && mux.send == old(mux.send) + queued
        invariant mux.drops == old(mux.drops)
      {
        var start := i * CHUNK;
        var end := if |b| < start + CHUNK then |b| else start + CHUNK;
        var p := EncodeFragment(seqno, i, total, b[start..end]);
        if i == room {
          mux.drops := mux.drops + 1;
          return;
        }
        assert p == Split(id, seqno, b)[i];
        mux.send := mux.send + [p];
        queued := queued + [p];
        i := i + 1;
      }
    }

    /** Fills the wire buffer field by field. */
    method EncodeFragment(seqno: nat, index: nat, total: nat, payload: bytes) returns (b: bytes)
      ensures b == Encode(Fragment(id, seqno, index, total, payload))
    {
      var p := new byte[HEADER + |payload|](_ => 0);
      Put(p, 0, Be(id, 8));
      Put(p, 8, Be(seqno, 4));
      Put(p, 12, Be(index, 2));
      Put(p, 14, Be(total, 2));
      assert p[..HEADER] == Be(id, 8) + Be(seqno, 4) + Be(index, 2) + Be(total, 2);
      Put(p, 16, payload);
      b := p[..];
    }

    method Close()
      modifies this`done, mux`flows
      ensures done
      ensures mux.flows == if old(done) then old(mux.flows) else old(mux.flows) - {id}
    {
      if done { return; }
      done := true;
      mux.flows := mux.flows - {id};
    }
  }

  /** Storing a piece does not depend on whether the assembly is already in the table. */
  lemma FillTwice(live: Parts, a: Assembly, f: Fragment)
    requires f.index < f.total == |a.pieces|
    ensures Fill(live[f.seqno := a], a, f) == Fill(live, a, f)
  {
    assert live[f.seqno := a] - {f.seqno} == live - {f.seqno};
  }

  /** A full queue at most, and every packet fits the relay buffers. */
  ghost predicate Bounded(recv: seq<bytes>) {
    |recv| <= QUEUE && forall i :: 0 <= i < |recv| ==> |recv[i]| <= MAX_UDP
  }

  lemma QueuedBounded(recv: seq<bytes>, delivered: Option<bytes>)
    requires Bounded(recv) && (delivered.Some? ==> |delivered.value| <= MAX_UDP)
    ensures Bounded(Queued(recv, delivered))
  {
  }

  function Queued(recv: seq<bytes>, delivered: Option<bytes>): seq<bytes> {
    if delivered.Some? && |recv| < QUEUE then recv + [delivered.value] else recv
  }

  function Overflow(recv: seq<bytes>, delivered: Option<bytes>): nat {
    if delivered.Some? && |recv| >= QUEUE then 1 else 0
  }

  method JoinPieces(pieces: seq<Option<bytes>>) returns (packet: bytes)
    ensures packet == Join(pieces)
  {
    packet := [];
    var i := 0;
    while i < |pieces|
      invariant 0 <= i <= |pieces|
      invariant packet == Join(pieces[..i])
    {
      assert pieces[..i + 1][..i] == pieces[..i];
      if pieces[i].Some? { packet := packet + pieces[i].value; }
      i := i + 1;
    }
    assert pieces[..|pieces|] == pieces;
  }
}
