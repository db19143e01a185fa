/** Length-prefixed frames over an ordered byte stream, the in-band half-close they carry,
    and what a reader holding only part of the stream can make of it. */
module Framing {
  import opened Bytes

  const LIMIT: nat := 32768
  const MAX_FRAME: nat := 65535

  function Frame(p: bytes): (s: bytes)
    ensures |s| == 2 + |p|
  {
    Be(|p|, 2) + p
  }

  datatype Next = Waiting | Got(payload: bytes, rest: bytes)

  /** The first frame of `s`, once all of it is there. */
  function NextFrame(s: bytes): (n: Next)
    ensures n.Got? ==> |n.rest| < |s|
  {
    if |s| < 2 || |s| < 2 + FromBe(s[..2]) then Waiting
    else Got(s[2..2 + FromBe(s[..2])], s[2 + FromBe(s[..2])..])
  }

  lemma NextRest(s: bytes)
    requires NextFrame(s).Got?
    ensures NextFrame(s).rest == s[|s| - |NextFrame(s).rest|..]
  {
  }

  lemma FrameParts(header: bytes, p: bytes, rest: bytes)
    requires |header| == 2
    ensures var s := header + p + rest; s[..2] == header && s[2..2 + |p|] == p && s[2 + |p|..] == rest
  {
  }

  lemma NextOfFrame(p: bytes, rest: bytes)
    requires |p| <= MAX_FRAME
    ensures NextFrame(Frame(p) + rest) == Got(p, rest)
  {
    Widths();
    BeRoundTrip(|p|, 2);
    FrameParts(Be(|p|, 2), p, rest);
    hide Be, FromBe, Values;
  }

  /** More bytes behind a complete frame change nothing about it. */
  lemma NextMonotone(s: bytes, t: bytes)
    requires NextFrame(s).Got?
    ensures NextFrame(s + t) == Got(NextFrame(s).payload, NextFrame(s).rest + t)
  {
    assert (s + t)[..2] == s[..2];
    var n := FromBe(s[..2]);
    assert (s + t)[2..2 + n] == s[2..2 + n] && (s + t)[2 + n..] == s[2 + n..] + t;
  }

  // ---------------------------------------------------------------- whole streams

  datatype Decoded = Malformed | Decoded(content: bytes, fin: bool)

  /** A whole number of frames, none over the reader's limit, with an empty one only at the end. */
  function Decode(s: bytes): Decoded {
    if s == [] then Decoded([], false)
    else match NextFrame(s)
      case Waiting => Malformed
      case Got(p, rest) =>
        if p == [] then (if rest == [] then Decoded([], true) else Malformed)
        else if |p| > LIMIT then Malformed
        else match Decode(rest)
          case Malformed => Malformed
          case Decoded(content, fin) => Decoded(p + content, fin)
  }

  lemma {:induction false} DecodeAppend(s: bytes, p: bytes)
    requires Decode(s).Decoded? && !Decode(s).fin && |p| <= LIMIT
    ensures Decode(s + Frame(p)) == if p == [] then Decoded(Decode(s).content, true)
      else Decoded(Decode(s).content + p, false)
    decreases |s|
  {
    hide NextFrame, Frame;
    var whole := s + Frame(p);
    if s == [] {
      NextOfFrame(p, []);
      assert whole == Frame(p) + [];
      assert Decode([]) == Decoded([], false);
      assert p + [] == p;
    } else {
      var q, rest := NextFrame(s).payload, NextFrame(s).rest;
      NextMonotone(s, Frame(p));
      assert NextFrame(whole) == Got(q, rest + Frame(p));
      DecodeAppend(rest, p);
      assert q + (Decode(rest).content + p) == q + Decode(rest).content + p;
      assert rest + Frame(p) != [];
    }
  }

  /** What a write puts on the stream: frames of at most LIMIT bytes, none for nothing. */
  function Chunked(b: bytes): bytes {
    if b == [] then []
    else Frame(b[..Min(|b|, LIMIT)]) + Chunked(b[Min(|b|, LIMIT)..])
  }

  lemma {:induction false} DecodeChunked(s: bytes, b: bytes)
    requires Decode(s).Decoded? && !Decode(s).fin
    ensures Decode(s + Chunked(b)) == Decoded(Decode(s).content + b, false)
    decreases |b|
  {
    hide NextFrame, Frame, Decode;
    if b == [] {
      assert s + Chunked(b) == s && Decode(s).content + b == Decode(s).content;
    } else {
      var n := Min(|b|, LIMIT);
      var s' := s + Frame(b[..n]);
      DecodeAppend(s, b[..n]);
      DecodeChunked(s', b[n..]);
      assert s' + Chunked(b[n..]) == s + Chunked(b);
      assert Decode(s).content + b[..n] + b[n..] == Decode(s).content + b;
    }
  }

  // ---------------------------------------------------------------- the reading end

  datatype Reader = Reader(pending: bytes, eof: bool)
  datatype Result = Data(b: bytes) | End | Wait | FrameLimit
  datatype Taken = Taken(reader: Reader, left: bytes, result: Result)

  /** One read of at most `n` bytes when `available` has arrived and is not yet consumed.
      A read that would block takes no step. */
  function Read(r: Reader, available: bytes, n: nat): (t: Taken)
    ensures |t.left| <= |available|
    ensures t.result.Data? ==> |t.result.b| <= n && (n > 0 ==> t.result.b != [])
  {
    if n == 0 then Taken(r, available, Data([]))
    else if r.pending != [] then Copy(r, available, n)
    else if r.eof then Taken(r, available, End)
    else if |available| >= 2 && FromBe(available[..2]) > LIMIT then Taken(r, available[2..], FrameLimit)
    else match NextFrame(available)
      case Waiting => Taken(r, available, Wait)
      case Got(p, rest) =>
        if p == [] then Taken(Reader([], true), rest, End)
        else Copy(Reader(p, false), rest, n)
  }

  function Copy(r: Reader, available: bytes, n: nat): Taken {
    var k := Min(n, |r.pending|);
    Taken(r.(pending := r.pending[k..]), available, Data(r.pending[..k]))
  }

  /** What the reader could still hand over without anything more arriving. */
  function Payload(s: bytes): bytes {
    match NextFrame(s)
    case Waiting => []
    case Got(p, rest) => if p == [] then [] else p + Payload(rest)
  }

  function Content(r: Reader, available: bytes): bytes {
    r.pending + if r.eof then [] else Payload(available)
  }

  /** A partial stream yields a prefix of the whole stream's content, and all of it once whole. */
  lemma {:induction false} PayloadPrefix(s: bytes, t: bytes)
    requires Decode(s + t).Decoded?
    ensures Payload(s) <= Decode(s + t).content
    ensures t == [] ==> Payload(s) == Decode(s + t).content
    decreases |s|
  {
    hide NextFrame;
    if NextFrame(s).Got? {
      NextMonotone(s, t);
      var p, rest := NextFrame(s).payload, NextFrame(s).rest;
      if p != [] {
        PayloadPrefix(rest, t);
      }
    } else if t == [] {
      assert s + t == s;
    }
  }
}
