/** The code that reads and writes CIv1: a cursor over the buffer and a buffer that grows. */
module InviteWire {
  import opened Wrappers
  import opened Bytes
  import opened Text
  import opened Invites
  import Codec = InviteCodec
  import Base64
  import Hex
  import Utf8
  import Uuid

  class Reader {
    const data: bytes
    var i: nat

    ghost predicate Valid()
      reads this
    {
      i <= |data|
    }

    ghost function Rest(): bytes
      requires Valid()
      reads this
    {
      data[i..]
    }

    constructor (data: bytes)
      ensures Valid() && this.data == data && Rest() == data
    {
      this.data := data;
      i := 0;
    }

    method AtEnd() returns (end: bool)
      requires Valid()
      ensures end <==> Rest() == []
    {
      end := i == |data|;
    }

    /** The next `n` octets; on failure the index stays where it was. */
    method Take(n: nat) returns (r: Result<bytes, InviteError>)
      requires Valid()
      modifies this
      ensures Valid() && Follows(Codec.Split(old(Rest()), n), r, Rest())
      ensures r.Err? ==> i == old(i)
    {
      if i + n > |data| {
        return Err(Truncated);
      }
      assert data[i..][..n] == data[i..i + n] && data[i..][n..] == data[i + n..];
      r := Ok(data[i..i + n]);
      i := i + n;
    }

    method U8() returns (r: Result<byte, InviteError>)
      requires Valid()
      modifies this
      ensures Valid()
      ensures var spec := Codec.Split(old(Rest()), 1);
              if spec.Ok? then r == Ok(spec.value.0[0]) && Rest() == spec.value.1 else r == Err(spec.error)
    {
      var b :- Take(1);
      r := Ok(b[0]);
    }

    /** A length octet and that much UTF-8. */
    method Text() returns (r: Result<string, InviteError>)
      requires Valid()
      modifies this
      ensures Valid() && Follows(Codec.ParseText(old(Rest())), r, Rest())
    {
      hide Codec.Split, Utf8.Decode;
      var n :- U8();
      var text :- Take(n);
      var s := Utf8.Decode(text);
      r := if s.Some? then Ok(s.value) else Err(BadUtf8);
    }

    /** The fixed-width part, from the magic to the signature. */
    method Header() returns (r: Result<Codec.Header, InviteError>)
      requires Valid()
      modifies this
      ensures Valid() && Follows(Codec.ParseHeader(old(Rest())), r, Rest())
    {
      hide Codec.Split, BigEndian, FromBigEndian, Pow256;
      var magic :- Take(4);
      if magic != Codec.MAGIC {
        return Err(BadMagic);
      }
      var flags :- U8();
      var v :- U8();
      var jti :- Take(16);
      var uuid :- Take(16);
      var device :- Take(16);
      var eph :- Take(if v <= 3 then 32 else 0);
      var ts :- Take(8);
      var sig :- Take(64);
      Widths();
      BigEndianPrintsBack(ts);
      r := Ok(Codec.Header(flags, v, jti, uuid, device, eph, FromBigEndian(ts), sig));
    }

    method Username(flags: byte) returns (r: Result<Option<string>, InviteError>)
      requires Valid()
      modifies this
      ensures Valid() && Follows(Codec.ParseUsername(flags, old(Rest())), r, Rest())
    {
      hide Codec.ParseText;
      r := Ok(None);
      if flags % 2 == 1 {
        var text :- Text();
        r := Ok(Some(text));
      }
    }

    method Ttl(v: byte) returns (r: Result<Option<u32>, InviteError>)
      requires Valid()
      modifies this
      ensures Valid() && Follows(Codec.ParseTtl(v, old(Rest())), r, Rest())
    {
      hide Codec.Split;
      r := Ok(None);
      if v >= 5 {
        var t :- Take(4);
        Widths();
        BigEndianPrintsBack(t);
        r := Ok(Some(FromBigEndian(t)));
      }
    }
  }

  /** A reader step agrees with its specification: same value and same octets left, or same error. */
  ghost predicate Follows<T>(spec: Result<(T, bytes), InviteError>, r: Result<T, InviteError>, rest: bytes) {
    if spec.Ok? then r == Ok(spec.value.0) && rest == spec.value.1 else r == Err(spec.error)
  }

  /** `decode_binary` computes the specification's answer, errors included. */
  method DecodeBinary(data: bytes, now: int) returns (r: Result<Invite, InviteError>)
    ensures r == Codec.Decode(data, now)
  {
    hide Codec.ParseHeader, Codec.ParseText, Codec.ParseUsername, Codec.ParseTtl, Codec.InviteOf, Codec.RawThen,
        Utf8.Encode;
    var reader := new Reader(data);
    var h :- reader.Header();
    var server :- reader.Text();
    var un :- reader.Username(h.flags);
    var ttl :- reader.Ttl(h.v);
    var end := reader.AtEnd();
    if !end {
      return Err(TrailingBytes);
    }
    var ts := Codec.Signed64(h.ts);
    if !(0 < ts <= now + Codec.MAX_FUTURE_SKEW) {
      return Err(BadTimestamp);
    }
    if ttl.Some? && ttl.value < MIN_TTL_SECONDS {
      return Err(TtlBelowFloor);
    }
    Codec.RawPrintsBack(data);
    r := Ok(Codec.InviteOf(Codec.Raw(h, server, un, ttl)));
  }

  lemma HeaderFlat(h: Codec.Header)
    ensures Codec.MAGIC + [h.flags] + [h.v] + h.jti + h.uuid + h.device + h.eph + BigEndian(8, h.ts) + h.sig
            == Codec.HeaderThen(h, [])
  {
    hide BigEndian;
  }

  lemma PrintFlat(raw: Codec.Raw)
    requires Codec.WellFormed(raw)
    ensures Codec.Print(raw) ==
      Codec.HeaderThen(raw.h, []) + Codec.TextThen(raw.server, []) + Codec.UsernameThen(raw.un, [])
          + Codec.TtlThen(raw.ttl, [])
  {
    hide Codec.HeaderThen, Codec.TextThen, Codec.UsernameThen, Codec.TtlThen, Utf8.Encode;
    var ttl := Codec.TtlThen(raw.ttl, []);
    var un := Codec.UsernameThen(raw.un, ttl);
    var server := Codec.TextThen(raw.server, un);
    Codec.UsernameThenAppends(raw.un, [], ttl);
    Codec.TextThenAppends(raw.server, [], un);
    Codec.HeaderThenAppends(raw.h, [], server);
    assert [] + ttl == ttl && [] + un == un && [] + server == server;
  }

  method PutText(out: bytes, s: string) returns (r: bytes)
    requires |Utf8.Encode(s)| <= 255
    ensures r == out + Codec.TextThen(s, [])
  {
    hide Utf8.Encode;
    r := out + [|Utf8.Encode(s)|];
    r := r + Utf8.Encode(s);
  }

  /** `encode_binary` produces the specification's octets, errors included. */
  method EncodeBinary(inv: Invite) returns (r: Result<bytes, InviteError>)
    ensures r == Codec.Encode(inv)
  {
    hide Utf8.Encode, Base64.Decode, Hex.Decode, Uuid.Parse, Trim, BigEndian, Codec.HeaderThen, Codec.TextThen,
        Codec.RawThen;
    var jti, uuid := Uuid.Parse(inv.jti), Uuid.Parse(inv.uuid);
    if jti.None? || uuid.None? { return Err(BadUuid); }
    var device := Hex.Decode(inv.deviceId);
    if device.None? || |device.value| != 16 { return Err(BadDeviceId); }
    var sig := Base64.Decode(Base64.Standard, inv.sig);
    if sig.None? || |sig.value| != 64 { return Err(BadSignature); }
    var un := Codec.WireUsername(inv.un);
    if un.Some? && |Utf8.Encode(un.value)| > 255 { return Err(BadUsername); }
    if inv.server == "" || |Utf8.Encode(inv.server)| > 255 { return Err(BadServer); }

    var out: bytes := Codec.MAGIC;
    out := out + [if un.Some? then Codec.FLAG_HAS_USERNAME else 0];
    out := out + [inv.v];
    out := out + jti.value;
    out := out + uuid.value;
    out := out + device.value;
    var eph: Option<bytes> := Some([]);
    if inv.v <= 3 {
      eph := Base64.Decode(Base64.Standard, inv.ephKey);
      if eph.None? || |eph.value| != 32 { return Err(BadEphKey); }
    }
    out := out + eph.value;
    if inv.ts < 0 { return Err(BadTimestamp); }
    out := out + BigEndian(8, inv.ts);
    out := out + sig.value;
    ghost var flag := if un.Some? then Codec.FLAG_HAS_USERNAME else 0;
    ghost var h := Codec.Header(flag, inv.v, jti.value, uuid.value, device.value, eph.value, inv.ts, sig.value);
    HeaderFlat(h);
    out := PutText(out, inv.server);
    if un.Some? {
      out := PutText(out, un.value);
    }
    assert out == Codec.HeaderThen(h, []) + Codec.TextThen(inv.server, []) + Codec.UsernameThen(un, []);
    ghost var ttl := if inv.v >= 5 then inv.ttl else None;
    if inv.v >= 5 {
      if inv.ttl.None? { return Err(MissingTtl); }
      out := out + BigEndian(4, inv.ttl.value);
    }
    assert ttl.Some? ==> BigEndian(4, ttl.value) + [] == BigEndian(4, ttl.value);
    assert Codec.RawOf(inv) == Ok(Codec.Raw(h, inv.server, un, ttl));
    PrintFlat(Codec.Raw(h, inv.server, un, ttl));
    assert out == Codec.Print(Codec.Raw(h, inv.server, un, ttl));
    r := Ok(out);
  }
}
