/** KNST plaintext frames: a 30-octet header in front of a protobuf payload. */
module Knst {
  import opened Wrappers
  import opened Bytes
  import opened Text
  import Utf8
  import Uuid

  const MAGIC: bytes := [0x4B, 0x4E, 0x53, 0x54]
  const VERSION: byte := 1
  const HEADER_SIZE := 30

  const CONTENT_E2EE_SIGNAL: byte := 1
  const CONTENT_CALL_SIGNAL: byte := 12
  const CONTENT_SESSION_RESET: byte := 21
  const CONTENT_SESSION_RESET_INIT: byte := 24
  const CONTENT_SESSION_PING: byte := 25

  /** What comes from the protobuf schemas, which are not part of this model: the content-type numbers
      the source does not spell out, and the two message codecs. */
  datatype Schema = Schema(
    heartbeat: byte, deliveryReceipt: byte, senderSync: byte, sessionReady: byte,
    encodeContent: string -> bytes,
    decodeContent: bytes -> Option<string>,
    encodePing: string -> bytes)

  ghost predicate Faithful(schema: Schema) {
    forall text {:trigger schema.encodeContent(text)} :: schema.decodeContent(schema.encodeContent(text)) == Some(text)
  }

  datatype Disposition = TranscriptIncoming | TranscriptOwnDevice | SilentControl | NotCarried

  function DispositionOf(schema: Schema, ct: byte): Disposition {
    if ct == CONTENT_E2EE_SIGNAL then TranscriptIncoming
    else if ct == schema.senderSync then TranscriptOwnDevice
    else if ct in {CONTENT_CALL_SIGNAL, schema.heartbeat, schema.deliveryReceipt, CONTENT_SESSION_RESET,
                   CONTENT_SESSION_RESET_INIT, CONTENT_SESSION_PING, schema.sessionReady} then SilentControl
    else NotCarried
  }

  /** The specification of `frame_whole`; the length field is the low 32 bits of the payload's length. */
  function Frame(payload: bytes, ct: byte, messageId: string): bytes {
    MAGIC + [VERSION, ct] + MessageUuid(messageId) + BigEndian(2, 0) + BigEndian(2, 1) + BigEndian(4, |payload|)
        + payload
  }

  function MessageUuid(messageId: string): (b: bytes)
    ensures |b| == 16
  {
    if Uuid.Parse(messageId).Some? then Uuid.Parse(messageId).value else Uuid.NIL
  }

  method FrameWhole(payload: bytes, ct: byte, messageId: string) returns (out: bytes)
    ensures out == Frame(payload, ct, messageId)
    ensures IsFrame(out) && |out| == HEADER_SIZE + |payload| && out[5] == ct
    ensures if Uuid.Parse(messageId).Some? then out[6..22] == Uuid.Parse(messageId).value
            else forall k | 6 <= k < 22 :: out[k] == 0
    ensures DeclaredPayload(out) == payload[..|payload| % 0x1_0000_0000]
  {
    hide BigEndian, FromBigEndian;
    FrameReadsBack(payload, ct, messageId, []);
    assert Frame(payload, ct, messageId) + [] == Frame(payload, ct, messageId);
    var parsed := Uuid.Parse(messageId);
    var uuid := if parsed.Some? then parsed.value else Uuid.NIL;
    out := [];
    out := out + MAGIC;
    out := out + [VERSION];
    out := out + [ct];
    out := out + uuid;
    out := out + BigEndian(2, 0);
    out := out + BigEndian(2, 1);
    out := out + BigEndian(4, |payload|);
    out := out + payload;
    assert out == Frame(payload, ct, messageId);
  }

  predicate IsFrame(data: bytes) {
    |data| >= HEADER_SIZE && MAGIC <= data && data[4] == VERSION
  }

  function EncodeText(schema: Schema, text: string, messageId: string): bytes {
    Frame(schema.encodeContent(text), CONTENT_E2EE_SIGNAL, messageId)
  }

  function EncodeSessionPing(schema: Schema, messageId: string): bytes {
    Frame(schema.encodePing(messageId), CONTENT_SESSION_PING, messageId)
  }

  /** The payload a frame declares, cut to what is there. */
  function DeclaredPayload(data: bytes): bytes
    requires IsFrame(data)
  {
    var raw := data[HEADER_SIZE..];
    var n := FromBigEndian(data[26..30]);
    if n < |raw| then raw[..n] else raw
  }

  function DecodeText(schema: Schema, data: bytes): string {
    if !IsFrame(data) then Utf8.DecodeLossy(data)
    else if DispositionOf(schema, data[5]) == SilentControl then ""
    else
      var payload := DeclaredPayload(data);
      var content := schema.decodeContent(payload);
      if content.Some? then content.value else Utf8.DecodeLossy(payload)
  }

  /** Every header field reads back where the layout puts it, and as much of the payload as the low 32 bits
      of its length say: all of it exactly under 4 GiB. */
  lemma FrameReadsBack(payload: bytes, ct: byte, messageId: string, junk: bytes)
    ensures var data, n := Frame(payload, ct, messageId) + junk, |payload| % 0x1_0000_0000;
            && IsFrame(data) && data[..5] == [0x4B, 0x4E, 0x53, 0x54, 1] && data[5] == ct
            && data[6..22] == MessageUuid(messageId)
            && FromBigEndian(data[22..24]) == 0 && FromBigEndian(data[24..26]) == 1
            && FromBigEndian(data[26..30]) == n
            && DeclaredPayload(data) == payload[..n]
            && (DeclaredPayload(data) == payload <==> |payload| < 0x1_0000_0000)
  {
    hide MessageUuid, BigEndian, FromBigEndian;
    var data := Frame(payload, ct, messageId) + junk;
    Widths();
    BigEndianReadsBack(2, 0);
    BigEndianReadsBack(2, 1);
    BigEndianTruncates(4, |payload|);
    HeaderFields(MessageUuid(messageId), BigEndian(2, 0), BigEndian(2, 1), BigEndian(4, |payload|), ct, payload, junk);
    var n := |payload| % 0x1_0000_0000;
    assert n <= |data[HEADER_SIZE..]| && (payload + junk)[..n] == payload[..n];
    assert |payload| < 0x1_0000_0000 ==> payload[..n] == payload;
    assert |payload| >= 0x1_0000_0000 ==> |payload[..n]| < |payload|;
  }

  lemma HeaderFields(uuid: bytes, index: bytes, total: bytes, length: bytes, ct: byte, payload: bytes, junk: bytes)
    requires |uuid| == 16 && |index| == |total| == 2 && |length| == 4
    ensures var data := MAGIC + [VERSION, ct] + uuid + index + total + length + payload + junk;
            && |data| >= HEADER_SIZE && MAGIC <= data && data[4] == VERSION && data[5] == ct && data[6..22] == uuid
            && data[..5] == MAGIC + [VERSION]
            && data[22..24] == index && data[24..26] == total && data[26..30] == length
                 && data[HEADER_SIZE..] == payload + junk
  {
  }

  /** Whatever trails a frame does not change what it says. */
  lemma TrailingBytesAreIgnored(schema: Schema, payload: bytes, ct: byte, messageId: string, junk: bytes)
    ensures DecodeText(schema, Frame(payload, ct, messageId) + junk)
            == DecodeText(schema, Frame(payload, ct, messageId))
  {
    hide Frame, DeclaredPayload;
    FrameReadsBack(payload, ct, messageId, junk);
    FrameReadsBack(payload, ct, messageId, []);
    assert Frame(payload, ct, messageId) + [] == Frame(payload, ct, messageId);
  }

  /** A control frame never reaches the transcript, whatever its payload and however it was cut. */
  lemma ControlFramesAreSilent(schema: Schema, payload: bytes, ct: byte, messageId: string, junk: bytes)
    requires DispositionOf(schema, ct) == SilentControl
    ensures DecodeText(schema, Frame(payload, ct, messageId) + junk) == ""
  {
    hide MessageUuid;
    var data := Frame(payload, ct, messageId) + junk;
    assert |data| >= 30 && data[..4] == MAGIC && data[4] == VERSION && data[5] == ct;
  }

  /** The numbers of the types that carry user content are told apart from the silent ones. */
  ghost predicate Distinct(schema: Schema) {
    && schema.senderSync !in {1, 12, 21, 24, 25, schema.heartbeat, schema.deliveryReceipt, schema.sessionReady}
    && 1 !in {schema.heartbeat, schema.deliveryReceipt, schema.sessionReady}
  }

  /** Which types never reach the transcript: calls, heartbeats, receipts, resets, pings and readiness; chat
      text and own messages from another device do, and so does what nobody sends yet. */
  lemma SilentTypes(schema: Schema, ct: byte)
    requires Distinct(schema)
    ensures DispositionOf(schema, ct) == SilentControl <==>
              ct in {12, 21, 24, 25, schema.heartbeat, schema.deliveryReceipt, schema.sessionReady}
    ensures DispositionOf(schema, ct) == TranscriptIncoming <==> ct == 1
    ensures DispositionOf(schema, ct) == TranscriptOwnDevice <==> ct == schema.senderSync
  {
  }

  /** A session ping is never seen. */
  lemma PingIsSilent(schema: Schema, messageId: string, junk: bytes)
    requires Distinct(schema)
    ensures DecodeText(schema, EncodeSessionPing(schema, messageId) + junk) == ""
    ensures var data := EncodeSessionPing(schema, messageId);
            IsFrame(data) && data[5] == 25 && data[6..22] == MessageUuid(messageId)
            && DeclaredPayload(data) == schema.encodePing(messageId)[..|schema.encodePing(messageId)| % 0x1_0000_0000]
  {
    hide MessageUuid, BigEndian, FromBigEndian;
    FrameReadsBack(schema.encodePing(messageId), CONTENT_SESSION_PING, messageId, []);
    assert EncodeSessionPing(schema, messageId) + [] == EncodeSessionPing(schema, messageId);
    ControlFramesAreSilent(schema, schema.encodePing(messageId), CONTENT_SESSION_PING, messageId, junk);
  }

  /** What is shown of a frame that is not silent: the text of its content, or its payload as it is if the
      content is no text; and of anything that is no frame, all of it. */
  lemma WhatIsShown(schema: Schema, payload: bytes, ct: byte, messageId: string, data: bytes)
    requires Distinct(schema) && |payload| < 0x1_0000_0000
    requires ct !in {12, 21, 24, 25, schema.heartbeat, schema.deliveryReceipt, schema.sessionReady}
    ensures DecodeText(schema, Frame(payload, ct, messageId)) ==
            if schema.decodeContent(payload).Some?
                then schema.decodeContent(payload).value else Utf8.DecodeLossy(payload)
    ensures !IsFrame(data) ==> DecodeText(schema, data) == Utf8.DecodeLossy(data)
  {
    hide Frame, DeclaredPayload, Utf8.DecodeLossy;
    FrameReadsBack(payload, ct, messageId, []);
    assert Frame(payload, ct, messageId) + [] == Frame(payload, ct, messageId);
  }

  // ---- wrapping outgoing text ----

  /** What the orchestrator may be handed as an outgoing plaintext. */
  predicate Presentable(plaintext: bytes) {
    IsFrame(plaintext) || (plaintext != [] && plaintext[0] == 0)
  }

  /** The wrap-once step of `prepare_outgoing`. */
  function Wrap(schema: Schema, plaintext: bytes, messageId: string): bytes {
    if Presentable(plaintext) then plaintext else EncodeText(schema, Utf8.DecodeLossy(plaintext), messageId)
  }

  /** A frame starts with "KNST" and a version octet of 1, and is at least 30 octets long. */
  lemma IsFrameIs(data: bytes)
    ensures IsFrame(data) <==> |data| >= 30 && data[..5] == [0x4B, 0x4E, 0x53, 0x54, 1]
  {
    assert |data| >= 5 ==> data[..5] == data[..4] + [data[4]];
  }

  lemma WrapPresents(schema: Schema, plaintext: bytes, messageId: string)
    ensures Presentable(Wrap(schema, plaintext, messageId))
  {
    hide MessageUuid, Utf8.DecodeLossy;
    if !Presentable(plaintext) {
      var data := EncodeText(schema, Utf8.DecodeLossy(plaintext), messageId);
      assert data[..4] == MAGIC && data[4] == VERSION;
    }
  }

  /** Preparing twice is preparing once. */
  lemma WrapIsIdempotent(schema: Schema, plaintext: bytes, id: string, again: string)
    ensures Wrap(schema, Wrap(schema, plaintext, id), again) == Wrap(schema, plaintext, id)
  {
    WrapPresents(schema, plaintext, id);
  }

  /** The peer reads the text that was typed, unless its octets happen to be a frame. */
  lemma WrappedTextReadsBack(schema: Schema, text: string, id: string)
    requires Faithful(schema) && |schema.encodeContent(text)| < 0x1_0000_0000
    requires !IsFrame(Utf8.Encode(text))
    ensures DecodeText(schema, Wrap(schema, Utf8.Encode(text), id)) == text
    ensures Utf8.Encode(text) == [] || Utf8.Encode(text)[0] != 0 ==>
              var data := Wrap(schema, Utf8.Encode(text), id);
              IsFrame(data) && data[5] == 1 && data[6..22] == MessageUuid(id)
  {
    hide Frame, DeclaredPayload, Utf8.DecodeLossy, Utf8.Encode;
    Utf8.ReadsBack(text);
    Utf8.LossyIsExact(Utf8.Encode(text));
    var payload := schema.encodeContent(text);
    var data := Frame(payload, CONTENT_E2EE_SIGNAL, id);
    FrameReadsBack(payload, CONTENT_E2EE_SIGNAL, id, []);
    assert data + [] == data;
  }
}
