/** Length-Prefixed-Message of gRPC over HTTP2: a flag octet, a big-endian u32, the body. */
module GrpcFraming {
  import opened Wrappers
  import opened Bytes

  datatype FrameError = TooShort | Compressed | Incomplete

  /** The specification of `encode_frame`. The length field is the low 32 bits of the body's length. */
  function Frame(body: bytes): (f: bytes)
    ensures |f| == 5 + |body|
  {
    [0] + BigEndian(4, |body|) + body
  }

  /** The specification of `decode_frame`: the message and what follows it. */
  function Unframe(data: bytes): Result<(bytes, bytes), FrameError> {
    if |data| < 5 then Err(TooShort)
    else if data[0] != 0 then Err(Compressed)
    else if |data| - 5 < FromBigEndian(data[1..5]) then Err(Incomplete)
    else Ok((data[5..5 + FromBigEndian(data[1..5])], data[5 + FromBigEndian(data[1..5])..]))
  }

  method EncodeFrame(body: bytes) returns (buf: bytes)
    ensures buf == Frame(body) && |buf| == 5 + |body| && buf[0] == 0
    ensures FromBigEndian(buf[1..5]) == |body| % 0x1_0000_0000 && buf[5..] == body
    ensures var n := |body| % 0x1_0000_0000; Unframe(buf) == Ok((body[..n], body[n..]))
  {
    FrameReadsBack(body, []);
    assert Frame(body) + [] == Frame(body);
    buf := [];
    buf := buf + [0];
    buf := buf + BigEndian(4, |body|);
    buf := buf + body;
    assert buf == Frame(body);
    Widths();
    BigEndianTruncates(4, |body|);
    assert buf[1..5] == BigEndian(4, |body|);
    assert body[|body| % 0x1_0000_0000..] + [] == body[|body| % 0x1_0000_0000..];
  }

  method DecodeFrame(input: bytes) returns (r: Result<(bytes, bytes), FrameError>)
    ensures r == Unframe(input)
  {
    var data := input;
    if |data| < 5 {
      return Err(TooShort);
    }
    var compressed := data[0];
    data := data[1..];
    if compressed != 0 {
      return Err(Compressed);
    }
    assert data[..4] == input[1..5];
    var msgLen := FromBigEndian(data[..4]);
    data := data[4..];
    assert data == input[5..];
    if |data| < msgLen {
      return Err(Incomplete);
    }
    var msg := data[..msgLen];
    data := data[msgLen..];
    assert msg == input[5..5 + msgLen] && data == input[5 + msgLen..];
    r := Ok((msg, data));
  }

  /** What comes back of any body: as much of it as the low 32 bits of its length say, and then the rest of
      it with whatever followed the frame. So the frame reads back as that body exactly under 4 GiB. */
  lemma FrameReadsBack(body: bytes, rest: bytes)
    ensures var n := |body| % 0x1_0000_0000; Unframe(Frame(body) + rest) == Ok((body[..n], body[n..] + rest))
    ensures Unframe(Frame(body) + rest) == Ok((body, rest)) <==> |body| < 0x1_0000_0000
  {
    hide BigEndian, FromBigEndian;
    var data, n := Frame(body) + rest, |body| % 0x1_0000_0000;
    Widths();
    BigEndianTruncates(4, |body|);
    assert data[1..5] == BigEndian(4, |body|);
    assert data[5..5 + n] == body[..n] && data[5 + n..] == body[n..] + rest;
    assert n <= |data| - 5 && data[0] == 0;
    if |body| < 0x1_0000_0000 {
      assert body[..n] == body && body[n..] + rest == rest;
    } else {
      assert |body[..n]| < |body|;
    }
  }

  /** A frame cut short is refused as too short or incomplete, according to whether its header is there; a
      frame with the compressed flag is refused as such. */
  lemma CutFrame(body: bytes, k: nat, flag: byte, rest: bytes)
    requires |body| < 0x1_0000_0000
    ensures k < |Frame(body)| ==> Unframe(Frame(body)[..k]) == Err(if k < 5 then TooShort else Incomplete)
    ensures flag != 0 ==> Unframe([flag] + Frame(body)[1..] + rest) == Err(Compressed)
  {
    hide BigEndian, FromBigEndian;
    Widths();
    BigEndianReadsBack(4, |body|);
    assert Frame(body)[1..5] == BigEndian(4, |body|);
    if 5 <= k < |Frame(body)| {
      assert Frame(body)[..k][1..5] == Frame(body)[1..5];
    }
  }

  /** What decodes is exactly a frame followed by the remainder. */
  lemma FramePrintsBack(data: bytes)
    requires Unframe(data).Ok?
    ensures var (msg, rest) := Unframe(data).value; |msg| < 0x1_0000_0000 && data == Frame(msg) + rest
  {
    var (msg, rest) := Unframe(data).value;
    Widths();
    BigEndianPrintsBack(data[1..5]);
    assert data == [data[0]] + data[1..5] + msg + rest;
  }
}
