/** The receive side of a message stream: chunks of any size go in, whole frames come out. */
module FrameAssembly {
  import opened Bytes
  import opened GrpcFraming

  /** Where the first frame of `buf` ends, if it is complete. */
  function FrameEnd(buf: bytes): (n: nat)
    ensures n == 0 || 5 <= n <= |buf|
  {
    if |buf| < 5 then 0
    else
      var n := 5 + FromBigEndian(buf[1..5]);
      if |buf| < n then 0 else n
  }

  predicate Complete(buf: bytes) {
    FrameEnd(buf) > 0
  }

  /** `frame` is exactly one frame. */
  predicate WholeFrame(frame: bytes) {
    Complete(frame) && FrameEnd(frame) == |frame|
  }

  function Flat(parts: seq<bytes>): bytes {
    if parts == [] then [] else parts[0] + Flat(parts[1..])
  }

  lemma {:induction false} FlatAppends(a: seq<bytes>, b: seq<bytes>)
    ensures Flat(a + b) == Flat(a) + Flat(b)
  {
    if a == [] {
      assert a + b == b;
    } else {
      assert (a + b)[1..] == a[1..] + b;
      FlatAppends(a[1..], b);
    }
  }

  /** A frame is a flag octet, of any value, four octets of length and a body of that length. */
  lemma WholeFrameIs(frame: bytes)
    ensures WholeFrame(frame) <==>
      exists flag: byte, body: bytes :: |body| < 0x1_0000_0000 && frame == [flag] + BigEndian(4, |body|) + body
  {
    hide BigEndian, FromBigEndian;
    Widths();
    if WholeFrame(frame) {
      BigEndianPrintsBack(frame[1..5]);
      var body := frame[5..];
      assert frame == [frame[0]] + BigEndian(4, |body|) + body;
    }
    forall flag: byte, body: bytes | |body| < 0x1_0000_0000 && frame == [flag] + BigEndian(4, |body|) + body
      ensures WholeFrame(frame)
    {
      BigEndianReadsBack(4, |body|);
      assert frame[1..5] == BigEndian(4, |body|);
    }
  }

  /** A buffer holds a complete frame exactly if some front part of it is one. */
  lemma CompleteIs(buf: bytes)
    ensures Complete(buf) <==> exists k: nat :: k <= |buf| && WholeFrame(buf[..k])
  {
    if Complete(buf) {
      var n := FrameEnd(buf);
      assert buf[..n][1..5] == buf[1..5];
      assert WholeFrame(buf[..n]);
    }
    if k: nat :| k <= |buf| && WholeFrame(buf[..k]) {
      WholeFrameIsPrefix(buf[..k], buf[k..]);
      assert buf == buf[..k] + buf[k..];
    }
  }

  /** What a byte stream means, without reference to how it arrives: cut into whole frames, with an
      incomplete rest. */
  ghost predicate Parses(stream: bytes, frames: seq<bytes>, rest: bytes) {
    && stream == Flat(frames) + rest
    && (forall f | f in frames :: WholeFrame(f))
    && !Complete(rest)
  }

  lemma WholeFrameIsPrefix(frame: bytes, more: bytes)
    requires WholeFrame(frame)
    ensures FrameEnd(frame + more) == |frame|
  {
    assert (frame + more)[1..5] == frame[1..5];
  }

  /** There is only one way to cut a stream. */
  lemma {:induction false} ParseIsUnique(stream: bytes, fa: seq<bytes>, ra: bytes, fb: seq<bytes>, rb: bytes)
    requires Parses(stream, fa, ra) && Parses(stream, fb, rb)
    ensures fa == fb && ra == rb
  {
    if fa == [] || fb == [] {
      assert fa == [] ==> stream == ra;
      assert fb == [] ==> stream == rb;
      if fa != [] {
        FirstFrame(stream, fa, ra);
      }
      if fb != [] {
        FirstFrame(stream, fb, rb);
      }
    } else {
      FirstFrame(stream, fa, ra);
      FirstFrame(stream, fb, rb);
      ParseIsUnique(stream[|fa[0]|..], fa[1..], ra, fb[1..], rb);
      assert fa == [fa[0]] + fa[1..] && fb == [fb[0]] + fb[1..];
    }
  }

  lemma FirstFrame(stream: bytes, frames: seq<bytes>, rest: bytes)
    requires Parses(stream, frames, rest) && frames != []
    ensures FrameEnd(stream) == |frames[0]| > 0
    ensures frames[0] == stream[..|frames[0]|]
    ensures Parses(stream[|frames[0]|..], frames[1..], rest)
  {
    var tail := Flat(frames[1..]) + rest;
    assert stream == frames[0] + tail;
    WholeFrameIsPrefix(frames[0], tail);
    assert stream[|frames[0]|..] == tail;
  }

  /** The receive buffer of the pump task and the frames it has handed to its callback. */
  class Assembler {
    var recvBuf: bytes
    var delivered: seq<bytes>
    ghost var received: bytes

    ghost predicate Valid()
      reads this
    {
      Parses(received, delivered, recvBuf)
    }

    constructor ()
      ensures Valid() && received == [] && delivered == [] && recvBuf == []
    {
      recvBuf, delivered, received := [], [], [];
    }

    /** One DATA chunk: append it, then hand out every frame that is now complete. */
    method OnChunk(chunk: bytes)
      requires Valid()
      modifies this
      ensures Valid()
      ensures received == old(received) + chunk
      ensures old(delivered) <= delivered
    {
      recvBuf := recvBuf + chunk;
      received := received + chunk;
      assert received == Flat(delivered) + recvBuf;
      while true
        invariant received == old(received) + chunk
        invariant received == Flat(delivered) + recvBuf
        invariant forall f | f in delivered :: WholeFrame(f)
        invariant old(delivered) <= delivered
        decreases |recvBuf|
      {
        if |recvBuf| < 5 {
          break;
        }
        var msgLen := FromBigEndian(recvBuf[1..5]);
        if |recvBuf| < 5 + msgLen {
          break;
        }
        var frame := recvBuf[..5 + msgLen];
        assert frame[1..5] == recvBuf[1..5];
        FlatAppends(delivered, [frame]);
        assert Flat([frame]) == frame + Flat([]);
        assert recvBuf == frame + recvBuf[5 + msgLen..];
        recvBuf := recvBuf[5 + msgLen..];
        delivered := delivered + [frame];
      }
    }
  }

  /** A whole connection. What comes out depends on the bytes only, not on how they were chunked:
      it is the one way to cut their concatenation. */
  method Pump(chunks: seq<bytes>) returns (delivered: seq<bytes>, leftover: bytes)
    ensures Parses(Flat(chunks), delivered, leftover)
  {
    var a := new Assembler();
    for i := 0 to |chunks|
      invariant a.Valid() && fresh(a)
      invariant a.received == Flat(chunks[..i])
    {
      a.OnChunk(chunks[i]);
      FlatAppends(chunks[..i], [chunks[i]]);
      assert Flat([chunks[i]]) == chunks[i] + Flat([]);
      assert chunks[..i + 1] == chunks[..i] + [chunks[i]];
    }
    assert chunks[..|chunks|] == chunks;
    return a.delivered, a.recvBuf;
  }

  /** Two ways of chunking the same bytes deliver the same frames and leave the same rest. */
  lemma ChunkingIsIrrelevant(a: seq<bytes>, b: seq<bytes>, fa: seq<bytes>, ra: bytes, fb: seq<bytes>, rb: bytes)
    requires Flat(a) == Flat(b)
    requires Parses(Flat(a), fa, ra) && Parses(Flat(b), fb, rb)
    ensures fa == fb && ra == rb
  {
    ParseIsUnique(Flat(a), fa, ra, fb, rb);
  }

  function Frames(bodies: seq<bytes>): (frames: seq<bytes>)
    ensures |frames| == |bodies|
    ensures forall k | 0 <= k < |bodies| :: frames[k] == Frame(bodies[k])
  {
    seq(|bodies|, k requires 0 <= k < |bodies| => Frame(bodies[k]))
  }

  lemma FrameIsWhole(body: bytes)
    requires |body| < 0x1_0000_0000
    ensures WholeFrame(Frame(body))
  {
    Widths();
    BigEndianReadsBack(4, |body|);
    assert Frame(body)[1..5] == BigEndian(4, |body|);
  }

  /** A stream of encoded messages, however chunked, is delivered as exactly those messages: one
      frame each, in order, nothing left over, and each decoding to its message alone. */
  lemma SentIsDelivered(bodies: seq<bytes>, chunks: seq<bytes>, frames: seq<bytes>, rest: bytes)
    requires forall b | b in bodies :: |b| < 0x1_0000_0000
    requires Flat(chunks) == Flat(Frames(bodies))
    requires Parses(Flat(chunks), frames, rest)
    ensures rest == [] && frames == Frames(bodies)
    ensures forall k | 0 <= k < |bodies| :: Unframe(frames[k]).Ok? && Unframe(frames[k]).value == (bodies[k], [])
  {
    forall k | 0 <= k < |bodies|
      ensures WholeFrame(Frame(bodies[k])) && Unframe(Frame(bodies[k])) == Unframe(Frame(bodies[k]) + [])
      ensures Unframe(Frame(bodies[k]) + []).Ok? && Unframe(Frame(bodies[k]) + []).value == (bodies[k], [])
    {
      FrameIsWhole(bodies[k]);
      FrameReadsBack(bodies[k], []);
      assert Frame(bodies[k]) + [] == Frame(bodies[k]);
    }
    forall f | f in Frames(bodies)
      ensures WholeFrame(f)
    {
      var k :| 0 <= k < |bodies| && Frames(bodies)[k] == f;
    }
    ParseIsUnique(Flat(chunks), frames, rest, Frames(bodies), []);
  }
}
