/** The mutable stream objects: frames over a raw stream, and packets over frames. */
module FramedStream {
  import opened Bytes
  import opened Limits
  import opened Framing
  import opened FramingRuns
  import PacketRuns

  datatype Packet = Whole(b: bytes) | Blocked | TooLong

  /** One direction of a lossless ordered byte stream: everything written so far, how much of
      it has reached the reading end and how much of that has been consumed. */
  class RawStream {
    var sent: bytes
    var arrived: nat
    var taken: nat

    constructor ()
      ensures sent == [] && arrived == taken == 0
    {
      sent, arrived, taken := [], 0, 0;
    }

    ghost predicate Valid() reads this { State().Ordered() }
    function State(): Raw reads this { Raw(sent, arrived, taken) }

    method Append(b: bytes)
      modifies this`sent
      ensures sent == old(sent) + b
    {
      sent := sent + b;
    }

    method WritePacket(b: bytes) returns (ok: bool)
      modifies this`sent
      ensures ok == (|b| <= MAX_FRAME)
      ensures sent == if ok then old(sent) + Frame(b) else old(sent)
    {
      if |b| > MAX_FRAME { return false; }
      var header := Be(|b|, 2);
      Append(header);
      Append(b);
      assert old(sent) + header + b == old(sent) + (header + b);
      return true;
    }

    /** The next frame, unless its length is over `max`; waiting for it takes no step. */
    method ReadPacket(max: nat) returns (p: Packet)
      requires Valid()
      modifies this`taken
      ensures Valid()
      ensures var a := old(State().Available());
        if |a| >= 2 && FromBe(a[..2]) > max then p == TooLong && taken == old(taken) + 2
        else match NextFrame(a)
          case Waiting => p == Blocked && taken == old(taken)
          case Got(b, rest) => p == Whole(b) && taken == arrived - |rest|
    {
      var a := sent[taken..arrived];
      if |a| < 2 { return Blocked; }
      var n := FromBe(a[..2]);
      if n > max {
        taken := taken + 2;
        return TooLong;
      }
      if |a| < 2 + n { return Blocked; }
      taken := taken + 2 + n;
      return Whole(a[2..2 + n]);
    }
  }

  class MStream {
    const incoming: RawStream
    const outgoing: RawStream
    var pending: bytes
    var eof: bool
    var writeClosed: bool

    constructor (incoming: RawStream, outgoing: RawStream)
      ensures this.incoming == incoming && this.outgoing == outgoing
      ensures pending == [] && !eof && !writeClosed
    {
      this.incoming, this.outgoing := incoming, outgoing;
      pending, eof, writeClosed := [], false, false;
    }

    function Ends(): Reader reads this { Reader(pending, eof) }

    /** This object and its incoming stream are the reading side of connection `c`. */
    ghost predicate Reads(c: Conn)
      reads this, incoming
    {
      incoming.Valid() && c.reader == Ends() && c.raw == incoming.State()
    }

    method Read(buffer: array<byte>) returns (n: nat, result: Result)
      requires incoming.Valid()
      modifies this`pending, this`eof, incoming`taken, buffer
      ensures incoming.Valid()
      ensures var t := Framing.Read(old(Ends()), old(incoming.State().Available()), buffer.Length);
        && Ends() == t.reader && incoming.taken == incoming.arrived - |t.left| && result == t.result
      ensures result.Data? ==> n == |result.b| <= buffer.Length && buffer[..n] == result.b
      ensures !result.Data? ==> n == 0
    {
      if buffer.Length == 0 { return 0, Data([]); }
      if |pending| == 0 {
        if eof { return 0, End; }
        var p := incoming.ReadPacket(LIMIT);
        match p {
          case Blocked => return 0, Wait;
          case TooLong => return 0, FrameLimit;
          case Whole(b) =>
            if |b| == 0 {
              eof := true;
              return 0, End;
            }
            pending := b;
        }
      }
      n := Min(buffer.Length, |pending|);
      var head := pending[..n];
      Put(buffer, 0, head);
      pending := pending[n..];
      return n, Data(head);
    }

    /** Chunks of at most LIMIT bytes; nothing at all for an empty write or after the half-close.
        The raw stream takes `working` more frames and then fails: the frames sent are those of
        the bytes reported as written. */
    method Write(b: bytes, working: nat) returns (total: nat, ok: bool)
      modifies outgoing`sent
      ensures writeClosed ==> !ok && total == 0
      ensures !writeClosed ==> total == Min(|b|, working * LIMIT) && (ok <==> total == |b|)
      ensures outgoing.sent == old(outgoing.sent) + Chunked(b[..total])
    {
      if writeClosed {
        assert old(outgoing.sent) + [] == outgoing.sent;
        return 0, false;
      }
      var left, frames := b, 0;
      total := 0;
      assert old(outgoing.sent) + [] == outgoing.sent;
      while |left| > 0
        invariant total + |left| == |b| && left == b[total..] && frames <= working
        invariant total == Min(|b|, frames * LIMIT)
        invariant outgoing.sent == old(outgoing.sent) + Chunked(b[..total])
        decreases |left|
      {
        var n := Min(|left|, LIMIT);
        if frames == working { return total, false; }
        var fits := outgoing.WritePacket(left[..n]);
        FramesAdd(b, frames, total, n);
        assert old(outgoing.sent) + Chunked(b[..total]) + Frame(left[..n])
          == old(outgoing.sent) + (Chunked(b[..total]) + Frame(left[..n]));
        total, frames := total + n, frames + 1;
        left := left[n..];
      }
      return total, true;
    }

    /** The first call sends one empty frame; any later call sends nothing. */
    method CloseWrite()
      modifies this`writeClosed, outgoing`sent
      ensures writeClosed
      ensures outgoing.sent == if old(writeClosed) then old(outgoing.sent) else old(outgoing.sent) + FIN
    {
      if writeClosed { return; }
      writeClosed := true;
      var fits := outgoing.WritePacket([]);
    }
  }

  /** `held` is what the reader that has the read lock has of its packet so far. */
  class PacketStream {
    const stream: MStream
    var held: bytes

    constructor (stream: MStream)
      ensures this.stream == stream && held == []
    {
      this.stream := stream;
      held := [];
    }

    /** The first inner write of a packet: its length, unless it is over the limit. */
    method WriteLength(b: bytes, working: nat) returns (ok: bool)
      modifies stream.outgoing`sent
      ensures ok == (|b| <= MAX_UDP && !stream.writeClosed && working > 0)
      ensures stream.outgoing.sent == old(stream.outgoing.sent) + if ok then Chunked(Be(|b|, 2)) else []
    {
      assert stream.outgoing.sent + [] == stream.outgoing.sent;
      if |b| > MAX_UDP { return false; }
      var n;
      var length := Be(|b|, 2);
      n, ok := stream.Write(length, working);
      assert length[..2] == length && length[..0] == [];
    }

    /** Length and body as two writes of the inner stream, whose lock is free between them: a
        half-close may come there, and then the length stands alone and the write fails. The raw
        stream takes `working` more frames of this write and then fails: what was sent is the
        length and the first chunks of the packet, and the write fails unless that is all of it. */
    method Write(b: bytes, closes: bool, working: nat) returns (ok: bool)
      modifies stream.outgoing`sent, stream`writeClosed
      ensures stream.writeClosed == (old(stream.writeClosed) || (closes && |b| <= MAX_UDP && working > 0))
      ensures ok == (|b| <= MAX_UDP && !stream.writeClosed && working > 0 && |b| <= (working - 1) * LIMIT)
      ensures stream.outgoing.sent == old(stream.outgoing.sent) +
        if |b| > MAX_UDP || old(stream.writeClosed) || working == 0 then []
        else Chunked(Be(|b|, 2)) + if closes then FIN else Chunked(b[..Min(|b|, (working - 1) * LIMIT)])
    {
      ok := WriteLength(b, working);
      if !ok { return; }
      ghost var length := Chunked(Be(|b|, 2));
      assert stream.outgoing.sent == old(stream.outgoing.sent) + length;
      if closes { stream.CloseWrite(); }
      ghost var before := stream.outgoing.sent;
      var n;
      n, ok := stream.Write(b, working - 1);
      hide *;
      assert closes ==> before + [] == old(stream.outgoing.sent) + (length + FIN);
    }

    /** One inner read for the packet in progress. */
    method Pull(ghost c: Conn) returns (o: PacketRuns.Outcome)
      requires stream.Reads(c)
      modifies this`held, stream`pending, stream`eof, stream.incoming`taken
      ensures var (r, result) := PacketRuns.Pull(PacketRuns.Reading(c, old(held)));
        stream.Reads(r.conn) && held == r.held && o == result
    {
      hide Framing.Read;
      var n := PacketRuns.Needs(held);
      var buffer := new byte[n](_ => 0);
      var k, result := stream.Read(buffer);
      assert result == ResultOf(c, n) && stream.Reads(Step(c, ReadUpTo(n)));
      match result {
        case Data(b) =>
          held := held + b;
          if PacketRuns.TooLong(held) { held := []; return PacketRuns.Failed; }
          match NextFrame(held) {
            case Waiting => return PacketRuns.More;
            case Got(p, _) => held := []; return PacketRuns.Packet(p);
          }
        case Wait => return PacketRuns.Blocked;
        case End => held := []; return PacketRuns.Failed;
        case FrameLimit => held := []; return PacketRuns.Failed;
      }
    }

    /** Inner reads until the packet is there, cut only by the caller's buffer; one that has to
        wait keeps what it holds and goes on from there. */
    method Read(buffer: array<byte>, ghost c: Conn) returns (o: PacketRuns.Outcome, n: nat)
      requires stream.Reads(c)
      modifies this`held, stream`pending, stream`eof, stream.incoming`taken, buffer
      ensures var (r, result) := PacketRuns.ReadOn(PacketRuns.Reading(c, old(held)));
        stream.Reads(r.conn) && held == r.held && o == result
      ensures o.Packet? ==> n == Min(buffer.Length, |o.p|) && buffer[..n] == o.p[..n]
    {
      hide PacketRuns.Pull;
      n := 0;
      ghost var r := PacketRuns.Reading(c, held);
      o := Pull(c);
      while o.More?
        invariant r.conn.raw.Ordered() && PacketRuns.ReadOn(r) == PacketRuns.ReadOn(PacketRuns.Reading(c, old(held)))
        invariant stream.Reads(PacketRuns.Pull(r).0.conn) && held == PacketRuns.Pull(r).0.held
          && o == PacketRuns.Pull(r).1
        decreases PacketRuns.Backlog(r.conn)
      {
        r := PacketRuns.Pull(r).0;
        o := Pull(r.conn);
      }
      if o.Packet? {
        n := Min(buffer.Length, |o.p|);
        Put(buffer, 0, o.p[..n]);
      }
    }
  }

  /** The next full chunk, or the last one, extends the chunked form of what came before. */
  lemma FramesAdd(b: bytes, frames: nat, total: nat, n: nat)
    requires total == frames * LIMIT < |b| && n == Min(|b| - total, LIMIT)
    ensures Chunked(b[..total + n]) == Chunked(b[..total]) + Frame(b[total..][..n])
    ensures total + n == Min(|b|, (frames + 1) * LIMIT)
  {
    assert b[..total + n] == b[..total] + b[total..][..n];
    ChunkedAdd(b[..total], b[total..][..n], frames);
  }

  lemma {:induction false} ChunkedAdd(a: bytes, c: bytes, frames: nat)
    requires |a| == frames * LIMIT && 0 < |c| <= LIMIT
    ensures Chunked(a + c) == Chunked(a) + Frame(c)
    decreases frames
  {
    hide Frame;
    if frames == 0 {
      assert a + c == c && c[..|c|] == c && c[|c|..] == [];
      assert Frame(c) + [] == Frame(c) && [] + Frame(c) == Frame(c);
    } else {
      var rest := a[LIMIT..];
      ChunkedAdd(rest, c, frames - 1);
      assert (a + c)[..LIMIT] == a[..LIMIT] && (a + c)[LIMIT..] == rest + c;
      assert Frame(a[..LIMIT]) + (Chunked(rest) + Frame(c)) == Frame(a[..LIMIT]) + Chunked(rest) + Frame(c);
    }
  }
}
