/** CIv1, the binary container of an invite: printer, parser, and the laws between them. */
module InviteCodec {
  import opened Wrappers
  import opened Bytes
  import opened Text
  import opened Invites
  import Base64
  import Hex
  import Utf8
  import Uuid

  const MAGIC: bytes := [0x43, 0x49, 0x76, 0x31]
  const FLAG_HAS_USERNAME: byte := 1
  const MAX_FUTURE_SKEW := 300

  /** The fields of a container, as the wire carries them. */
  datatype Header = Header(flags: byte, v: byte, jti: bytes, uuid: bytes, device: bytes, eph: bytes, ts: u64,
      sig: bytes)
  datatype Raw = Raw(h: Header, server: string, un: Option<string>, ttl: Option<u32>)

  ghost predicate WellFormed(raw: Raw) {
    && |raw.h.jti| == |raw.h.uuid| == |raw.h.device| == 16
    && |raw.h.eph| == (if raw.h.v <= 3 then 32 else 0)
    && |raw.h.sig| == 64
    && |Utf8.Encode(raw.server)| <= 255
    && (raw.un.Some? <==> raw.h.flags % 2 == 1)
    && (raw.un.Some? ==> |Utf8.Encode(raw.un.value)| <= 255)
    && (raw.ttl.Some? <==> raw.h.v >= 5)
  }

  // ---- layout ----

  /** The header's octets in front of `rest`. */
  function HeaderThen(h: Header, rest: bytes): bytes {
    MAGIC + ([h.flags] + ([h.v] + (h.jti + (h.uuid + (h.device + (h.eph + (BigEndian(8, h.ts) + (h.sig + rest))))))))
  }

  /** A length octet and that many octets of UTF-8, in front of `rest`. */
  function TextThen(s: string, rest: bytes): bytes
    requires |Utf8.Encode(s)| <= 255
  {
    [|Utf8.Encode(s)|] + (Utf8.Encode(s) + rest)
  }

  function UsernameThen(un: Option<string>, rest: bytes): bytes
    requires un.Some? ==> |Utf8.Encode(un.value)| <= 255
  {
    if un.Some? then TextThen(un.value, rest) else rest
  }

  function TtlThen(ttl: Option<u32>, rest: bytes): bytes {
    if ttl.Some? then BigEndian(4, ttl.value) + rest else rest
  }

  function RawThen(raw: Raw, rest: bytes): bytes
    requires WellFormed(raw)
  {
    HeaderThen(raw.h, TextThen(raw.server, UsernameThen(raw.un, TtlThen(raw.ttl, rest))))
  }

  function Print(raw: Raw): bytes
    requires WellFormed(raw)
  {
    RawThen(raw, [])
  }

  // ---- parsing ----

  function Split(d: bytes, n: nat): (r: Result<(bytes, bytes), InviteError>)
    ensures r.Ok? ==> |r.value.0| == n && d == r.value.0 + r.value.1
  {
    if n <= |d| then Ok((d[..n], d[n..])) else Err(Truncated)
  }

  function ParseHeader(d: bytes): (r: Result<(Header, bytes), InviteError>) {
    var (magic, d) :- Split(d, 4);
    if magic != MAGIC then Err(BadMagic) else
    var (flags, d) :- Split(d, 1);
    var (v, d) :- Split(d, 1);
    var (jti, d) :- Split(d, 16);
    var (uuid, d) :- Split(d, 16);
    var (device, d) :- Split(d, 16);
    var (eph, d) :- Split(d, if v[0] <= 3 then 32 else 0);
    var (ts, d) :- Split(d, 8);
    var (sig, d) :- Split(d, 64);
    Widths();
    BigEndianPrintsBack(ts);
    Ok((Header(flags[0], v[0], jti, uuid, device, eph, FromBigEndian(ts), sig), d))
  }

  function ParseText(d: bytes): Result<(string, bytes), InviteError> {
    var (n, d) :- Split(d, 1);
    var (text, d) :- Split(d, n[0]);
    match Utf8.Decode(text)
    case None => Err(BadUtf8)
    case Some(s) => Ok((s, d))
  }

  function ParseUsername(flags: byte, d: bytes): Result<(Option<string>, bytes), InviteError> {
    if flags % 2 == 1 then
      var (s, d) :- ParseText(d);
      Ok((Some(s), d))
    else Ok((None, d))
  }

  function ParseTtl(v: byte, d: bytes): Result<(Option<u32>, bytes), InviteError> {
    if v >= 5 then
      var (t, d) :- Split(d, 4);
      Widths();
      BigEndianPrintsBack(t);
      Ok((Some(FromBigEndian(t)), d))
    else Ok((None, d))
  }

  /** The container at the front of `d`, and what follows it. */
  function ParseRaw(d: bytes): Result<(Raw, bytes), InviteError> {
    var (h, d) :- ParseHeader(d);
    var (server, d) :- ParseText(d);
    var (un, d) :- ParseUsername(h.flags, d);
    var (ttl, d) :- ParseTtl(h.v, d);
    Ok((Raw(h, server, un, ttl), d))
  }

  lemma SplitFront(a: bytes, b: bytes)
    ensures Split(a + b, |a|) == Ok((a, b))
  {
    assert (a + b)[..|a|] == a && (a + b)[|a|..] == b;
  }

  lemma HeaderReadsBack(h: Header, rest: bytes)
    requires |h.jti| == |h.uuid| == |h.device| == 16 && |h.sig| == 64
    requires |h.eph| == if h.v <= 3 then 32 else 0
    ensures ParseHeader(HeaderThen(h, rest)) == Ok((h, rest))
  {
    var d9 := h.sig + rest;
    var d8 := BigEndian(8, h.ts) + d9;
    var d7 := h.eph + d8;
    var d6 := h.device + d7;
    var d5 := h.uuid + d6;
    var d4 := h.jti + d5;
    var d3 := [h.v] + d4;
    var d2 := [h.flags] + d3;
    hide Split;
    SplitFront(MAGIC, d2);
    SplitFront([h.flags], d3);
    SplitFront([h.v], d4);
    SplitFront(h.jti, d5);
    SplitFront(h.uuid, d6);
    SplitFront(h.device, d7);
    SplitFront(h.eph, d8);
    SplitFront(BigEndian(8, h.ts), d9);
    SplitFront(h.sig, rest);
    Widths();
    BigEndianReadsBack(8, h.ts);
  }

  lemma HeaderPrintsBack(d: bytes)
    requires ParseHeader(d).Ok?
    ensures var (h, rest) := ParseHeader(d).value;
            && |h.jti| == |h.uuid| == |h.device| == 16 && |h.sig| == 64
            && |h.eph| == (if h.v <= 3 then 32 else 0)
            && d == HeaderThen(h, rest)
  {
    hide Split;
    var (h, rest) := ParseHeader(d).value;
    var d2 := Split(d, 4).value.1;
    var (flags, d3) := Split(d2, 1).value;
    var (v, d4) := Split(d3, 1).value;
    var (jti, d5) := Split(d4, 16).value;
    var (uuid, d6) := Split(d5, 16).value;
    var (device, d7) := Split(d6, 16).value;
    var (eph, d8) := Split(d7, if v[0] <= 3 then 32 else 0).value;
    var (ts, d9) := Split(d8, 8).value;
    BigEndianPrintsBack(ts);
    assert flags == [h.flags] && v == [h.v];
  }

  lemma TextReadsBack(s: string, rest: bytes)
    requires |Utf8.Encode(s)| <= 255
    ensures ParseText(TextThen(s, rest)) == Ok((s, rest))
  {
    hide Split;
    SplitFront([|Utf8.Encode(s)|], Utf8.Encode(s) + rest);
    SplitFront(Utf8.Encode(s), rest);
    Utf8.ReadsBack(s);
  }

  lemma TextPrintsBack(d: bytes)
    requires ParseText(d).Ok?
    ensures var (s, rest) := ParseText(d).value; |Utf8.Encode(s)| <= 255 && d == TextThen(s, rest)
  {
    hide Split;
    var (n, d2) := Split(d, 1).value;
    var (text, _) := Split(d2, n[0]).value;
    Utf8.PrintsBack(text);
    assert n == [n[0]];
  }

  lemma RawReadsBack(raw: Raw, rest: bytes)
    requires WellFormed(raw)
    ensures ParseRaw(RawThen(raw, rest)) == Ok((raw, rest))
  {
    hide HeaderThen, ParseHeader, TextThen, ParseText;
    var t := TtlThen(raw.ttl, rest);
    var u := UsernameThen(raw.un, t);
    HeaderReadsBack(raw.h, TextThen(raw.server, u));
    TextReadsBack(raw.server, u);
    if raw.un.Some? {
      TextReadsBack(raw.un.value, t);
    }
    if raw.ttl.Some? {
      SplitFront(BigEndian(4, raw.ttl.value), rest);
      Widths();
      BigEndianReadsBack(4, raw.ttl.value);
    }
  }

  lemma RawPrintsBack(d: bytes)
    requires ParseRaw(d).Ok?
    ensures var (raw, rest) := ParseRaw(d).value; WellFormed(raw) && d == RawThen(raw, rest)
  {
    hide HeaderThen, ParseHeader, TextThen, ParseText;
    HeaderPrintsBack(d);
    var (h, d2) := ParseHeader(d).value;
    TextPrintsBack(d2);
    var (server, d3) := ParseText(d2).value;
    if h.flags % 2 == 1 {
      TextPrintsBack(d3);
    }
    var (un, d4) := ParseUsername(h.flags, d3).value;
    if h.v >= 5 {
      var (t, _) := Split(d4, 4).value;
      BigEndianPrintsBack(t);
    }
  }

  lemma RawThenAppends(raw: Raw, rest: bytes)
    requires WellFormed(raw)
    ensures RawThen(raw, rest) == Print(raw) + rest
  {
    TtlThenAppends(raw.ttl, [], rest);
    UsernameThenAppends(raw.un, TtlThen(raw.ttl, []), rest);
    TextThenAppends(raw.server, UsernameThen(raw.un, TtlThen(raw.ttl, [])), rest);
    HeaderThenAppends(raw.h, TextThen(raw.server, UsernameThen(raw.un, TtlThen(raw.ttl, []))), rest);
    assert [] + rest == rest;
  }

  lemma HeaderThenAppends(h: Header, a: bytes, b: bytes)
    ensures HeaderThen(h, a + b) == HeaderThen(h, a) + b
  {
  }

  lemma TextThenAppends(s: string, a: bytes, b: bytes)
    requires |Utf8.Encode(s)| <= 255
    ensures TextThen(s, a + b) == TextThen(s, a) + b
  {
  }

  lemma UsernameThenAppends(un: Option<string>, a: bytes, b: bytes)
    requires un.Some? ==> |Utf8.Encode(un.value)| <= 255
    ensures UsernameThen(un, a + b) == UsernameThen(un, a) + b
  {
  }

  lemma TtlThenAppends(ttl: Option<u32>, a: bytes, b: bytes)
    ensures TtlThen(ttl, a + b) == TtlThen(ttl, a) + b
  {
  }

  /** Containers are a prefix code: if one is a prefix of another they are the same container. */
  lemma PrefixFree(a: Raw, b: Raw)
    requires WellFormed(a) && WellFormed(b) && Print(a) <= Print(b)
    ensures a == b
  {
    hide RawThen, ParseRaw;
    var rest := Print(b)[|Print(a)|..];
    assert Print(b) == Print(a) + rest;
    RawThenAppends(a, rest);
    RawReadsBack(a, rest);
    RawReadsBack(b, []);
  }

  // ---- invites ----

  /** The username that is put on the wire: trimmed, and dropped when blank. */
  function WireUsername(un: Option<string>): (r: Option<string>) {
    if un.Some? && Trim(un.value) != "" then Some(Trim(un.value)) else None
  }

  /** The checks of `encode_binary`, in its order. */
  function RawOf(inv: Invite): (r: Result<Raw, InviteError>)
    ensures r.Ok? ==> WellFormed(r.value)
  {
    var jti, uuid := Uuid.Parse(inv.jti), Uuid.Parse(inv.uuid);
    if jti.None? || uuid.None? then Err(BadUuid) else
    var device := Hex.Decode(inv.deviceId);
    if device.None? || |device.value| != 16 then Err(BadDeviceId) else
    var sig := Base64.Decode(Base64.Standard, inv.sig);
    if sig.None? || |sig.value| != 64 then Err(BadSignature) else
    var un := WireUsername(inv.un);
    if un.Some? && |Utf8.Encode(un.value)| > 255 then Err(BadUsername) else
    if inv.server == "" || |Utf8.Encode(inv.server)| > 255 then Err(BadServer) else
    var eph := if inv.v <= 3 then Base64.Decode(Base64.Standard, inv.ephKey) else Some([]);
    if eph.None? || (inv.v <= 3 && |eph.value| != 32) then Err(BadEphKey) else
    if inv.ts < 0 then Err(BadTimestamp) else
    if inv.v >= 5 && inv.ttl.None? then Err(MissingTtl) else
    var flags: byte := if un.Some? then FLAG_HAS_USERNAME else 0;
    var h := Header(flags, inv.v, jti.value, uuid.value, device.value, eph.value, inv.ts, sig.value);
    Ok(Raw(h, inv.server, un, if inv.v >= 5 then inv.ttl else None))
  }

  function Encode(inv: Invite): Result<bytes, InviteError> {
    var raw :- RawOf(inv);
    Ok(Print(raw))
  }

  function Signed64(n: u64): i64 {
    if n < 0x8000_0000_0000_0000 then n else n - 0x1_0000_0000_0000_0000
  }

  function InviteOf(raw: Raw): Invite
    requires |raw.h.jti| == |raw.h.uuid| == 16
  {
    Invite(raw.h.v, Uuid.ToString(raw.h.jti), Uuid.ToString(raw.h.uuid), Hex.Encode(raw.h.device), raw.server,
           if raw.h.v <= 3 then Base64.Encode(Base64.Standard, raw.h.eph) else "",
           Signed64(raw.h.ts), Base64.Encode(Base64.Standard, raw.h.sig), raw.un, raw.ttl)
  }

  /** The time and lifetime checks a receiver with clock `now` makes. */
  predicate Admitted(ts: i64, v: byte, ttl: Option<u32>, now: int) {
    && 0 < ts <= now + MAX_FUTURE_SKEW
    && (v >= 5 && ttl.Some? ==> ttl.value >= MIN_TTL_SECONDS)
  }

  function Decode(data: bytes, now: int): Result<Invite, InviteError> {
    var (raw, rest) :- ParseRaw(data);
    var ts := Signed64(raw.h.ts);
    if rest != [] then Err(TrailingBytes)
    else if !(0 < ts <= now + MAX_FUTURE_SKEW) then Err(BadTimestamp)
    else if raw.ttl.Some? && raw.ttl.value < MIN_TTL_SECONDS then Err(TtlBelowFloor)
    else
      RawPrintsBack(data);
      Ok(InviteOf(raw))
  }

  /** What the wire keeps of an invite: canonical identifiers, a trimmed username, and only the
      fields the version carries. */
  function Normal(inv: Invite): Invite
    requires Uuid.Parse(inv.jti).Some? && Uuid.Parse(inv.uuid).Some?
  {
    inv.(jti := Uuid.ToString(Uuid.Parse(inv.jti).value),
         uuid := Uuid.ToString(Uuid.Parse(inv.uuid).value),
         deviceId := AsciiLower(inv.deviceId),
         ephKey := if inv.v <= 3 then inv.ephKey else "",
         un := WireUsername(inv.un),
         ttl := if inv.v >= 5 then inv.ttl else None)
  }

  /** A length octet and that many octets of text. */
  function Sized(s: string): bytes
    requires |Utf8.Encode(s)| <= 255
  {
    [|Utf8.Encode(s)|] + Utf8.Encode(s)
  }

  /** Where the fixed-width fields stand in a container: "CIv1", the username flag, the version, the two
      identifiers, the device, up to version 3 a key of 32 octets, the time, the signature. */
  lemma Layout(inv: Invite)
    requires Encode(inv).Ok?
    ensures var d, key := Encode(inv).value, if inv.v <= 3 then 32 else 0;
            && |d| >= 126 + key
            && d[..4] == [0x43, 0x49, 0x76, 0x31] && d[4] == (if WireUsername(inv.un).Some? then 1 else 0)
                 && d[5] == inv.v
            && Uuid.Parse(inv.jti) == Some(d[6..22]) && Uuid.Parse(inv.uuid) == Some(d[22..38])
            && Hex.Decode(inv.deviceId) == Some(d[38..54])
            && (inv.v <= 3 ==> Base64.Decode(Base64.Standard, inv.ephKey) == Some(d[54..86]))
            && FromBigEndian(d[54 + key..62 + key]) == inv.ts
            && Base64.Decode(Base64.Standard, inv.sig) == Some(d[62 + key..126 + key])
  {
    hide Utf8.Encode, Base64.Decode, Hex.Decode, Uuid.Parse, BigEndian, FromBigEndian, WireUsername;
    hide HeaderThen, TextThen, UsernameThen, TtlThen;
    var raw := RawOf(inv).value;
    HeaderLayout(raw.h, TextThen(raw.server, UsernameThen(raw.un, TtlThen(raw.ttl, []))));
    Widths();
    BigEndianReadsBack(8, inv.ts);
  }

  /** And behind them: the server, the username if there is one, and from version 5 on the lifetime. */
  lemma LayoutBehind(inv: Invite)
    requires Encode(inv).Ok?
    ensures var d, key := Encode(inv).value, if inv.v <= 3 then 32 else 0;
            var un := WireUsername(inv.un);
            && |d| >= 126 + key
            && |Utf8.Encode(inv.server)| <= 255 && (un.Some? ==> |Utf8.Encode(un.value)| <= 255)
            && (inv.v >= 5 ==> inv.ttl.Some?)
            && d[126 + key..] == Sized(inv.server) + ((if un.Some? then Sized(un.value) else [])
                                 + (if inv.v >= 5 then BigEndian(4, inv.ttl.value) else []))
  {
    hide Utf8.Encode, Base64.Decode, Hex.Decode, Uuid.Parse, BigEndian, WireUsername, HeaderThen;
    var raw := RawOf(inv).value;
    TailLayout(raw.server, raw.un, raw.ttl);
    hide TextThen, UsernameThen, TtlThen, Sized;
    HeaderLayout(raw.h, TextThen(raw.server, UsernameThen(raw.un, TtlThen(raw.ttl, []))));
  }

  lemma TailLayout(server: string, un: Option<string>, ttl: Option<u32>)
    requires |Utf8.Encode(server)| <= 255 && (un.Some? ==> |Utf8.Encode(un.value)| <= 255)
    ensures TextThen(server, UsernameThen(un, TtlThen(ttl, []))) ==
      Sized(server) + ((if un.Some? then Sized(un.value) else []) + (if ttl.Some? then BigEndian(4, ttl.value) else []))
  {
    hide Utf8.Encode, BigEndian;
    assert ttl.Some? ==> BigEndian(4, ttl.value) + [] == BigEndian(4, ttl.value);
    var rest := TtlThen(ttl, []);
    assert un.Some? ==> TextThen(un.value, rest) == Sized(un.value) + rest;
    assert un.None? ==> [] + rest == rest;
    assert TextThen(server, UsernameThen(un, rest)) == Sized(server) + UsernameThen(un, rest);
  }

  lemma HeaderLayout(h: Header, rest: bytes)
    requires |h.jti| == |h.uuid| == |h.device| == 16 && |h.sig| == 64
    requires |h.eph| == if h.v <= 3 then 32 else 0
    ensures var d, key := HeaderThen(h, rest), |h.eph|;
            && |d| == 126 + key + |rest|
            && d[..4] == [0x43, 0x49, 0x76, 0x31] && d[4] == h.flags && d[5] == h.v
            && d[6..22] == h.jti && d[22..38] == h.uuid && d[38..54] == h.device && d[54..54 + key] == h.eph
            && d[54 + key..62 + key] == BigEndian(8, h.ts) && d[62 + key..126 + key] == h.sig
            && d[126 + key..] == rest
  {
    var d9 := h.sig + rest;
    var d8 := BigEndian(8, h.ts) + d9;
    hide BigEndian;
    var d7 := h.eph + d8;
    var d6 := h.device + d7;
    var d5 := h.uuid + d6;
    var d4 := h.jti + d5;
    var d, key := HeaderThen(h, rest), |h.eph|;
    assert d[..4] == MAGIC && d[6..] == d4;
    assert d4[..16] == h.jti && d[22..] == d5 && d5[..16] == h.uuid && d[38..] == d6;
    assert d6[..16] == h.device && d[54..] == d7 && d7[..key] == h.eph && d[54 + key..] == d8;
    assert d8[..8] == BigEndian(8, h.ts) && d[62 + key..] == d9 && d9[..64] == h.sig;
  }

  lemma InviteOfRawOf(inv: Invite)
    requires RawOf(inv).Ok?
    ensures InviteOf(RawOf(inv).value) == Normal(inv)
  {
    hide Base64.Decode, Base64.Encode, Uuid.Parse, Uuid.ToString, Hex.Decode, Hex.Encode;
    Hex.PrintsBack(inv.deviceId);
    Base64.PrintsBack(Base64.Standard, inv.sig);
    if inv.v <= 3 {
      Base64.PrintsBack(Base64.Standard, inv.ephKey);
    }
  }

  /** Every invite that encodes comes back in normal form, exactly when the receiver admits it. */
  lemma EncodeThenDecode(inv: Invite, now: int)
    requires Encode(inv).Ok?
    ensures Admitted(inv.ts, inv.v, inv.ttl, now) <==>
              0 < inv.ts <= now + 300 && (inv.v >= 5 && inv.ttl.Some? ==> inv.ttl.value >= 60)
    ensures Decode(Encode(inv).value, now).Ok? <==> Admitted(inv.ts, inv.v, inv.ttl, now)
    ensures Admitted(inv.ts, inv.v, inv.ttl, now) ==> Decode(Encode(inv).value, now) == Ok(Normal(inv))
  {
    hide RawThen, ParseRaw, InviteOf, Normal;
    var raw := RawOf(inv).value;
    RawReadsBack(raw, []);
    InviteOfRawOf(inv);
  }

  /** Whether re-encoding an accepted container can give the same octets back. */
  ghost predicate Canonicalized(data: bytes, inv: Invite)
    requires |data| > 4
  {
    && data[4] <= 1
    && inv.server != ""
    && (inv.un.Some? ==> inv.un.value != "" && Trimmed(inv.un.value))
  }

  /** `raw` with the username and the flag octet the encoder would write. */
  function Rewritten(raw: Raw): Raw {
    var un := WireUsername(raw.un);
    raw.(h := raw.h.(flags := if un.Some? then FLAG_HAS_USERNAME else 0), un := un)
  }

  lemma RawOfInviteOf(raw: Raw)
    requires WellFormed(raw) && raw.h.ts < 0x8000_0000_0000_0000
    ensures RawOf(InviteOf(raw)).Ok? <==>
      raw.server != "" && (WireUsername(raw.un).Some? ==> |Utf8.Encode(WireUsername(raw.un).value)| <= 255)
    ensures RawOf(InviteOf(raw)).Ok? ==> RawOf(InviteOf(raw)) == Ok(Rewritten(raw))
    ensures InviteOf(raw).server == raw.server && InviteOf(raw).un == raw.un
  {
    hide Base64.Decode, Base64.Encode, Uuid.Parse, Uuid.ToString, Hex.Decode, Hex.Encode, Utf8.Encode, Trim;
    Uuid.ReadsBack(raw.h.jti);
    Uuid.ReadsBack(raw.h.uuid);
    Hex.ReadsBack(raw.h.device);
    Base64.ReadsBack(Base64.Standard, raw.h.sig);
    Base64.ReadsBack(Base64.Standard, raw.h.eph);
  }

  /** For octets the decoder accepts, re-encoding gives them back exactly when the flag octet is 0
      or 1, the server is not empty and any username is neither empty nor untrimmed. */
  lemma DecodeThenEncode(data: bytes, now: int)
    requires Decode(data, now).Ok?
    ensures |data| > 4
    ensures Encode(Decode(data, now).value) == Ok(data) <==> Canonicalized(data, Decode(data, now).value)
  {
    hide RawThen, ParseRaw, InviteOf, RawOf, Trim, Utf8.Encode;
    RawPrintsBack(data);
    var raw := ParseRaw(data).value.0;
    var inv := InviteOf(raw);
    FlagsAreFifth(raw);
    RawOfInviteOf(raw);
    if raw.un.Some? {
      TrimTrims(raw.un.value);
    }
    assert Canonicalized(data, inv) <==> raw.server != "" && Rewritten(raw) == raw;
    if Encode(inv) == Ok(data) {
      PrefixFree(Rewritten(raw), raw);
    }
  }

  lemma FlagsAreFifth(raw: Raw)
    requires WellFormed(raw)
    ensures |Print(raw)| > 4 && Print(raw)[4] == raw.h.flags
  {
    hide TextThen, UsernameThen, TtlThen, BigEndian;
  }

  /** No proper prefix and no proper extension of an accepted container is accepted, by any clock. */
  lemma NoOtherCutDecodes(data: bytes, other: bytes, now: int, later: int)
    requires Decode(data, now).Ok? && Decode(other, later).Ok?
    requires data <= other || other <= data
    ensures data == other
  {
    hide ParseRaw, InviteOf, RawThen;
    RawPrintsBack(data);
    RawPrintsBack(other);
    var a, b := ParseRaw(data).value.0, ParseRaw(other).value.0;
    if data <= other {
      PrefixFree(a, b);
    } else {
      PrefixFree(b, a);
    }
  }
}
