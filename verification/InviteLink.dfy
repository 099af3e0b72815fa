/** Invites as text: base64url, the two link forms, the parser that accepts them all, and minting. */
module InviteLink {
  import opened Wrappers
  import opened Bytes
  import opened Text
  import opened Invites
  import Codec = InviteCodec
  import Base64
  import Hex
  import Utf8
  import Uuid

  const HTTPS_ADD := "https://konstruct.cc/add?invite="
  const SCHEME_ADD := "konstruct://add?invite="
  const PARAM := "invite="

  function ToBase64Url(inv: Invite): Result<string, InviteError> {
    var data :- Codec.Encode(inv);
    Ok(Base64.Encode(Base64.UrlNoPad, data))
  }

  function HttpsLink(inv: Invite): Result<string, InviteError> {
    var s :- ToBase64Url(inv);
    Ok(HTTPS_ADD + s)
  }

  function SchemeLink(inv: Invite): Result<string, InviteError> {
    var s :- ToBase64Url(inv);
    Ok(SCHEME_ADD + s)
  }

  // ---- parsing ----

  /** The text between the first "invite=" and the next '&'. */
  function ExtractInviteParam(raw: string): Option<string> {
    match Find(raw, PARAM)
    case None => None
    case Some(q) =>
      var rest := raw[q + |PARAM|..];
      var end := Find(rest, "&");
      Some(if end.Some? then rest[..end.value] else rest)
  }

  /** base64url without padding, else padded standard base64. */
  function DecodePayload(s: string): Option<bytes> {
    var cleaned := Trim(s);
    var url := Base64.Decode(Base64.UrlNoPad, cleaned);
    if url.Some? then url else Base64.Decode(Base64.Standard, cleaned)
  }

  /** `parse_invite` on a receiver with clock `now`; `legacy` reads the older JSON form. */
  function ParseInvite(raw: string, now: int, legacy: bytes -> Option<Invite>): Result<Invite, InviteError> {
    var trimmed := Trim(raw);
    var param := ExtractInviteParam(trimmed);
    var payload := if param.Some? then param.value else trimmed;
    match DecodePayload(payload)
    case None => Err(Unrecognized)
    case Some(data) =>
      if Codec.MAGIC <= data then Codec.Decode(data, now)
      else if legacy(data).Some? then Ok(legacy(data).value)
      else Err(Unrecognized)
  }

  /** The cheap test a text field applies before offering to redeem. */
  predicate LooksLikeInvite(raw: string) {
    var t := Trim(raw);
    || Find(t, PARAM).Some?
    || "konstruct://" <= t
    || Find(t, "konstruct.cc/add").Some?
    || (|Utf8.Encode(t)| > 40 && Base64.Decode(Base64.UrlNoPad, t).Some?
         && Codec.MAGIC <= Base64.Decode(Base64.UrlNoPad, t).value)
  }

  // ---- minting ----

  /** `trim_start_matches`: the prefix is taken off as often as it occurs. */
  function StripStart(s: string, p: string): string
    requires p != ""
  {
    if p <= s then StripStart(s[|p|..], p) else s
  }

  function StripSlashes(s: string): string {
    if s != "" && s[|s| - 1] == '/' then StripSlashes(s[..|s| - 1]) else s
  }

  function NormalizeServer(url: string): string {
    var s := StripSlashes(StripStart(StripStart(Trim(url), "https://"), "http://"));
    if |s| >= 4 && s[|s| - 4..] == ":443" then s[..|s| - 4] else s
  }

  function Times(s: string, n: nat): string {
    if n == 0 then "" else s + Times(s, n - 1)
  }

  lemma {:induction false} StripTimes(p: string, n: nat, rest: string)
    requires p != "" && !(p <= rest)
    ensures StripStart(Times(p, n) + rest, p) == rest
  {
    var s := Times(p, n) + rest;
    if n == 0 {
      assert s == rest;
    } else {
      assert s == p + (Times(p, n - 1) + rest);
      assert s[|p|..] == Times(p, n - 1) + rest;
      StripTimes(p, n - 1, rest);
    }
  }

  lemma {:induction false} StripSlashesOff(s: string, n: nat)
    requires s == "" || s[|s| - 1] != '/'
    ensures StripSlashes(s + Times("/", n)) == s
    ensures n > 0 ==> Times("/", n)[|Times("/", n)| - 1] == '/' && |Times("/", n)| == n
  {
    if n == 0 {
      assert s + Times("/", 0) == s;
    } else {
      TimesEnds(n);
      assert (s + Times("/", n))[..|s| + n - 1] == s + Times("/", n - 1);
      StripSlashesOff(s, n - 1);
    }
  }

  lemma {:induction false} TimesEnds(n: nat)
    requires n > 0
    ensures Times("/", n) == Times("/", n - 1) + "/" && |Times("/", n)| == n
  {
    if n > 1 {
      TimesEnds(n - 1);
    }
  }

  /** A bare host name, perhaps with a port other than 443. */
  predicate Host(h: string) {
    h != "" && '/' !in h && Trimmed(h) && h !in {"http:", "https:"}
  }

  /** Whatever white space, schemes, port 443 and closing slashes are put around a host, the server is
      that host. */
  lemma NormalizeServerIs(before: string, https: nat, http: nat, host: string, port: bool, slashes: nat, after: string)
    requires AllWhite(before) && AllWhite(after) && Host(host)
    requires port || !(|host| >= 4 && host[|host| - 4..] == ":443")
    ensures var named := host + (if port then ":443" else "");
            NormalizeServer(before
                + (Times("https://", https) + (Times("http://", http) + (named + Times("/", slashes))))
                            + after) == host
  {
    hide Trim, StripStart, StripSlashes;
    var named := host + if port then ":443" else "";
    var bare := named + Times("/", slashes);
    var url := Times("https://", https) + (Times("http://", http) + bare);
    StripSlashesOff(named, slashes);
    UrlIsTrimmed(https, http, bare);
    TrimStripsWhite(before, url, after);
    assert bare[..|named|] == named;
    assert if port then named[|named| - 1] == '3' else named == host;
    NoScheme(named, slashes);
    SchemesStrip(https, http, bare);
    assert port ==> named[|named| - 4..] == ":443" && named[..|named| - 4] == host;
  }

  lemma NoScheme(named: string, slashes: nat)
    requires named !in {"", "http:", "https:"} && '/' !in named
    ensures !("https://" <= named + Times("/", slashes)) && !("http://" <= named + Times("/", slashes))
  {
    var bare := named + Times("/", slashes);
    assert "https://" <= bare ==> bare[5] == ':' && bare[6] == '/' && bare[..6] == "https:";
    assert "http://" <= bare ==> bare[4] == ':' && bare[5] == '/' && bare[..5] == "http:";
    assert |named| == 6 ==> named == bare[..6];
    assert |named| == 5 ==> named == bare[..5];
    AllSlashes(slashes);
    assert forall i | |named| <= i < |bare| :: bare[i] in Times("/", slashes);
    assert forall i | 0 <= i < |named| :: bare[i] in named;
  }

  lemma {:induction false} AllSlashes(n: nat)
    ensures forall c | c in Times("/", n) :: c == '/'
  {
    if n > 0 {
      AllSlashes(n - 1);
    }
  }

  lemma SchemesStrip(https: nat, http: nat, bare: string)
    requires !("https://" <= bare) && !("http://" <= bare)
    ensures StripStart(StripStart(Times("https://", https) + (Times("http://", http) + bare), "https://"), "http://")
            == bare
  {
    var rest := Times("http://", http) + bare;
    if http > 0 {
      assert rest == "http://" + (Times("http://", http - 1) + bare);
      assert rest[4] == ':';
    } else {
      assert rest == bare;
    }
    StripTimes("https://", https, rest);
    StripTimes("http://", http, bare);
  }

  lemma UrlIsTrimmed(https: nat, http: nat, bare: string)
    requires bare != "" && !White(bare[0]) && !White(bare[|bare| - 1])
    ensures var url := Times("https://", https) + (Times("http://", http) + bare);
            url != "" && Trimmed(url)
  {
    var rest := Times("http://", http) + bare;
    assert rest[|rest| - 1] == bare[|bare| - 1];
    assert http > 0 ==> rest[0] == 'h';
    assert http == 0 ==> rest == bare;
  }

  /** What `mint` takes from outside: a fresh version-4 identifier, the clock, Unicode
      lower-casing, and Ed25519 (`sign` yields nothing when the self-check fails). */
  datatype World = World(
    freshId: bytes, now: i64, lower: string -> string, sign: (bytes, bytes) -> Option<bytes>)

  ghost predicate Plausible(w: World) {
    && |w.freshId| == 16
    && Lowercasing(w.lower)
    && forall key, msg {:trigger w.sign(key, msg)} :: w.sign(key, msg).Some? ==> |w.sign(key, msg).value| == 64
  }

  function Unsigned(userId: bytes, device: string, url: string, username: Option<string>, ttl: u32, w: World): Invite
    requires |userId| == |w.freshId| == 16
  {
    Invite(CURRENT_VERSION, Uuid.ToString(w.freshId), w.lower(Uuid.ToString(userId)), device, NormalizeServer(url), "",
           w.now, "", Codec.WireUsername(username), Some(ttl))
  }

  function Mint(userId: string, deviceId: string, url: string, keyHex: string, username: Option<string>, ttl: u32,
      w: World)
    : Result<Invite, InviteError>
    requires |w.freshId| == 16
  {
    if ttl < MIN_TTL_SECONDS then Err(TtlBelowFloor) else
    var id := Uuid.Parse(userId);
    if id.None? then Err(BadUuid) else
    var device := w.lower(deviceId);
    if |device| != 32 || (exists c | c in device :: !Hex.IsHexDigit(c)) then Err(BadDeviceId) else
    var unsigned := Unsigned(id.value, device, url, username, ttl, w);
    var canonical :- Canonical(unsigned, w.lower);
    var key := Hex.Decode(keyHex);
    if key.None? || |key.value| != 32 then Err(BadSigningKey) else
    var sig := w.sign(key.value, Utf8.Encode(canonical));
    if sig.None? then Err(SelfVerifyFailed) else
    Ok(unsigned.(sig := Base64.Encode(Base64.Standard, sig.value)))
  }

  // ---- the laws ----

  lemma ParamIsFirst(prefix: string, tail: string)
    requires prefix == HTTPS_ADD || prefix == SCHEME_ADD
    ensures Find(prefix + tail, PARAM) == Some(|prefix| - |PARAM|)
  {
    var s := prefix + tail;
    var q := |prefix| - |PARAM|;
    hide Find, OccursAt;
    assert prefix[q..] == PARAM;
    if prefix == HTTPS_ADD {
      assert prefix[..|prefix| - 1] == "https://konstruct.cc/add?invite";
    } else {
      assert prefix[..|prefix| - 1] == "konstruct://add?invite";
    }
    assert '=' !in prefix[..|prefix| - 1];
    ParamAt(prefix, tail, q);
    var found := Find(s, PARAM).value;
    OccurrenceChar(s, PARAM, found, 6);
    assert forall i | 0 <= i < |prefix| - 1 :: s[i] == prefix[..|prefix| - 1][i];
  }

  lemma ParamAt(prefix: string, tail: string, q: nat)
    requires q + |PARAM| == |prefix| && prefix[q..] == PARAM
    ensures OccursAt(prefix + tail, PARAM, q)
  {
    assert (prefix + tail)[q..q + |PARAM|] == prefix[q..];
  }

  /** A base64url payload cannot be mistaken for a parameter, an end of parameter, or padding. */
  lemma PayloadIsClean(data: bytes)
    requires data != []
    ensures var s := Base64.Encode(Base64.UrlNoPad, data);
            s != "" && Trimmed(s) && '&' !in s && '=' !in s
  {
    Base64.UrlOutputIsAlphabetic(data);
    var s := Base64.Encode(Base64.UrlNoPad, data);
    hide Base64.Encode;
    assert s[0] in s && s[|s| - 1] in s;
  }

  lemma PayloadDecodes(data: bytes)
    requires data != []
    ensures DecodePayload(Base64.Encode(Base64.UrlNoPad, data)) == Some(data)
  {
    var s := Base64.Encode(Base64.UrlNoPad, data);
    hide Base64.Encode, Base64.Decode, Trim;
    PayloadIsClean(data);
    TrimTrims(s);
    Base64.ReadsBack(Base64.UrlNoPad, data);
  }

  /** Padded standard base64 is read as well. */
  lemma StandardPayloadDecodes(data: bytes)
    requires data != []
    ensures var s := Base64.Encode(Base64.Standard, data);
            s != "" && Trimmed(s) && '&' !in s && DecodePayload(s) == Some(data)
  {
    var s := Base64.Encode(Base64.Standard, data);
    Base64.StandardOutputIsBlack(data);
    hide Base64.Encode, Base64.Decode, Trim;
    Base64.ReadsBack(Base64.Standard, data);
    assert s != "" by {
      if s == "" {
        Base64.ReadsBack(Base64.Standard, []);
        EmptyText();
      }
    }
    assert s[0] in s && s[|s| - 1] in s;
    TrimTrims(s);
    if Base64.Decode(Base64.UrlNoPad, s).Some? {
      Base64.StandardAsUrl(data);
    }
  }

  lemma EmptyText()
    ensures Base64.Encode(Base64.Standard, []) == ""
  {
  }

  /** So a link with a standard payload is read as the one with the base64url payload. */
  lemma StandardLinkReadsBack(data: bytes, now: int, legacy: bytes -> Option<Invite>)
    requires data != []
    ensures ParseInvite(HTTPS_ADD + Base64.Encode(Base64.Standard, data), now, legacy) ==
            ParseInvite(HTTPS_ADD + Base64.Encode(Base64.UrlNoPad, data), now, legacy)
  {
    var standard, url := Base64.Encode(Base64.Standard, data), Base64.Encode(Base64.UrlNoPad, data);
    hide Base64.Encode, Base64.Decode, Trim, ExtractInviteParam, DecodePayload;
    StandardPayloadDecodes(data);
    PayloadDecodes(data);
    PayloadIsClean(data);
    TrimTrims(HTTPS_ADD + standard);
    TrimTrims(HTTPS_ADD + url);
    ParamExtracted(HTTPS_ADD, standard, "");
    ParamExtracted(HTTPS_ADD, url, "");
  }

  /** The four texts an invite travels as. */
  datatype Form = Https | Scheme | Bare | HttpsThen(more: string)

  function FormText(form: Form, payload: string): string {
    match form
    case Https => HTTPS_ADD + payload
    case Scheme => SCHEME_ADD + payload
    case Bare => payload
    case HttpsThen(more) => HTTPS_ADD + payload + "&" + more
  }

  lemma ParamExtracted(prefix: string, payload: string, more: string)
    requires prefix == HTTPS_ADD || prefix == SCHEME_ADD
    requires '&' !in payload
    ensures ExtractInviteParam(prefix + payload) == Some(payload)
    ensures ExtractInviteParam(prefix + payload + "&" + more) == Some(payload)
  {
    ParamIsFirst(prefix, payload);
    assert (prefix + payload)[|prefix|..] == payload;
    NoAmpersand(payload);
    var s := prefix + payload + "&" + more;
    assert s == prefix + (payload + "&" + more);
    ParamIsFirst(prefix, payload + "&" + more);
    var rest := payload + "&" + more;
    assert s[|prefix|..] == rest;
    FirstAmpersand(payload, more);
  }

  lemma NoAmpersand(s: string)
    requires '&' !in s
    ensures Find(s, "&") == None
  {
    if Find(s, "&").Some? {
      OccurrenceChar(s, "&", Find(s, "&").value, 0);
    }
  }

  lemma FirstAmpersand(payload: string, more: string)
    requires '&' !in payload
    ensures Find(payload + "&" + more, "&") == Some(|payload|)
    ensures (payload + "&" + more)[..|payload|] == payload
  {
    var rest := payload + "&" + more;
    assert OccursAt(rest, "&", |payload|);
    OccurrenceChar(rest, "&", Find(rest, "&").value, 0);
    assert forall i | 0 <= i < |payload| :: rest[i] == payload[i];
  }

  lemma NoParamInPayload(payload: string)
    requires '=' !in payload
    ensures ExtractInviteParam(payload) == None
  {
    if Find(payload, PARAM).Some? {
      OccurrenceChar(payload, PARAM, Find(payload, PARAM).value, 6);
    }
  }

  lemma TrimKeepsLink(link: string, more: string)
    requires link != "" && !White(link[0])
    ensures Trim(link + "&" + more) == link + "&" + TrimEnd(more)
  {
    hide TrimEnd;
    TrimEndStops(link + "&", more);
    assert link + "&" + more == (link + "&") + more;
  }

  /** Whatever the form, the parser hands exactly the encoded container to the decoder. */
  lemma PayloadSurvives(form: Form, data: bytes)
    requires data != []
    ensures var payload := Base64.Encode(Base64.UrlNoPad, data);
            var trimmed := Trim(FormText(form, payload));
            var param := ExtractInviteParam(trimmed);
            (if param.Some? then param.value else trimmed) == payload
  {
    var payload := Base64.Encode(Base64.UrlNoPad, data);
    hide Base64.Encode, Trim, TrimEnd, ExtractInviteParam;
    PayloadIsClean(data);
    match form {
      case Https =>
        TrimTrims(HTTPS_ADD + payload);
        ParamExtracted(HTTPS_ADD, payload, "");
      case Scheme =>
        TrimTrims(SCHEME_ADD + payload);
        ParamExtracted(SCHEME_ADD, payload, "");
      case Bare =>
        TrimTrims(payload);
        NoParamInPayload(payload);
      case HttpsThen(more) =>
        TrimKeepsLink(HTTPS_ADD + payload, more);
        ParamExtracted(HTTPS_ADD, payload, TrimEnd(more));
    }
  }

  /** Every encodable invite that the receiver admits is read back in normal form from each of its
      texts; one it does not admit is refused. */
  lemma EveryFormReadsBack(inv: Invite, form: Form, now: int, legacy: bytes -> Option<Invite>)
    requires Codec.Encode(inv).Ok?
    ensures var text := FormText(form, ToBase64Url(inv).value);
            && (Codec.Admitted(inv.ts, inv.v, inv.ttl, now) ==> ParseInvite(text, now, legacy) == Ok(Codec.Normal(inv)))
            && (!Codec.Admitted(inv.ts, inv.v, inv.ttl, now) ==> ParseInvite(text, now, legacy).Err?)
            && (form.Https? ==> HttpsLink(inv) == Ok(text)) && (form.Scheme? ==> SchemeLink(inv) == Ok(text))
    ensures HttpsLink(inv) == Ok("https://konstruct.cc/add?invite=" + ToBase64Url(inv).value)
    ensures SchemeLink(inv) == Ok("konstruct://add?invite=" + ToBase64Url(inv).value)
  {
    hide Base64.Encode, Base64.Decode, Trim, ExtractInviteParam, Codec.ParseRaw, Codec.RawOf, Codec.Normal,
        Codec.Decode, DecodePayload;
    var data := Codec.Encode(inv).value;
    StartsWithMagic(inv);
    PayloadSurvives(form, data);
    PayloadDecodes(data);
    Codec.EncodeThenDecode(inv, now);
  }

  lemma StartsWithMagic(inv: Invite)
    requires Codec.Encode(inv).Ok?
    ensures Codec.MAGIC <= Codec.Encode(inv).value && Codec.Encode(inv).value != []
  {
    hide Codec.TextThen, Codec.UsernameThen, Codec.TtlThen, BigEndian;
  }

  lemma WireUsernameSettles(un: Option<string>)
    ensures Codec.WireUsername(Codec.WireUsername(un)) == Codec.WireUsername(un)
  {
    hide Trim;
    if un.Some? {
      TrimTrims(un.value);
      TrimTrims(Trim(un.value));
    }
  }

  lemma UuidTextIsLower(b: bytes, lower: string -> string)
    requires |b| == 16 && Lowercasing(lower)
    ensures lower(Uuid.ToString(b)) == Uuid.ToString(b)
  {
    hide Uuid.ToString;
    Uuid.TextIsPlain(b);
    var s := Uuid.ToString(b);
    assert Ascii(s);
  }

  /** Whose invite it is: the user's identifier, the device's, a fresh one-time identifier, the clock, the
      server's bare name, the username without the white space around it, if anything is left of it. */
  lemma MintNames(userId: string, deviceId: string, url: string, keyHex: string, username: Option<string>,
      ttl: u32, w: World)
    requires Plausible(w) && Mint(userId, deviceId, url, keyHex, username, ttl, w).Ok?
    ensures var inv := Mint(userId, deviceId, url, keyHex, username, ttl, w).value;
            && Uuid.Parse(userId).Some? && Uuid.Parse(inv.uuid) == Uuid.Parse(userId)
            && Uuid.Parse(inv.jti) == Some(w.freshId)
            && inv.deviceId == w.lower(deviceId) && |inv.deviceId| == 32
            && (forall c | c in inv.deviceId :: c in "0123456789abcdef")
            && inv.v == 5 && inv.ts == w.now && inv.ttl == Some(ttl) && ttl >= 60 && inv.ephKey == ""
            && inv.server == NormalizeServer(url)
            && (inv.un.Some? ==>
                  && username.Some? && inv.un.value != "" && Trimmed(inv.un.value)
                  && exists before, after ::
                       AllWhite(before) && AllWhite(after) && username.value == before + inv.un.value + after)
            && (inv.un.None? ==> username.None? || AllWhite(username.value))
  {
    hide Uuid.ToString, Uuid.Parse, Hex.Decode, Base64.Encode, Utf8.Encode, Trim, NormalizeServer, Joined;
    var inv := Mint(userId, deviceId, url, keyHex, username, ttl, w).value;
    var id := Uuid.Parse(userId).value;
    UuidTextIsLower(id, w.lower);
    Uuid.ReadsBack(id);
    Uuid.ReadsBack(w.freshId);
    if username.Some? {
      TrimTrims(username.value);
      var before, after := TrimIsMiddle(username.value);
      if Trim(username.value) == "" {
        assert username.value == before + after;
      }
    }
    forall c | c in inv.deviceId
      ensures c in "0123456789abcdef"
    {
      LowHexDigit(c);
    }
  }

  lemma LowHexDigit(c: char)
    requires Hex.IsHexDigit(c) && LowerChar(c) == c
    ensures c in "0123456789abcdef"
  {
    var d := Hex.Value(c).value;
    Hex.DigitTable(d);
  }

  /** Minting succeeds exactly when the lifetime, the two identifiers and the key are acceptable and the
      signature verifies. */
  lemma MintSucceeds(userId: string, deviceId: string, url: string, keyHex: string, username: Option<string>,
      ttl: u32, w: World)
    requires Plausible(w)
    requires forall key, msg {:trigger w.sign(key, msg)} :: w.sign(key, msg).Some?
    ensures Mint(userId, deviceId, url, keyHex, username, ttl, w).Ok? <==>
      && ttl >= 60 && Uuid.Parse(userId).Some?
      && |w.lower(deviceId)| == 32 && (forall c | c in w.lower(deviceId) :: c in "0123456789abcdef")
      && Hex.Decode(keyHex).Some? && |Hex.Decode(keyHex).value| == 32
  {
    hide Uuid.ToString, Uuid.Parse, Hex.Decode, Base64.Encode, Utf8.Encode, Trim, NormalizeServer, Joined;
    forall c | c in w.lower(deviceId)
      ensures Hex.IsHexDigit(c) <==> c in "0123456789abcdef"
    {
      if Hex.IsHexDigit(c) {
        LowHexDigit(c);
      }
    }
  }

  /** A minted invite is already in normal form, and encodes unless the server name or the username
      does not fit or the clock is before the epoch. */
  lemma MintedIsNormal(userId: string, deviceId: string, url: string, keyHex: string, username: Option<string>,
      ttl: u32, w: World)
    requires Plausible(w) && Mint(userId, deviceId, url, keyHex, username, ttl, w).Ok?
    ensures var inv := Mint(userId, deviceId, url, keyHex, username, ttl, w).value;
            && Uuid.Parse(inv.jti).Some? && Uuid.Parse(inv.uuid).Some? && Codec.Normal(inv) == inv
            && inv.v == 5 && inv.ttl == Some(ttl) && ttl >= MIN_TTL_SECONDS
            && (Codec.Encode(inv).Ok? <==>
                && inv.ts >= 0
                && inv.server != "" && |Utf8.Encode(inv.server)| <= 255
                && (inv.un.Some? ==> |Utf8.Encode(inv.un.value)| <= 255))
  {
    hide Uuid.ToString, Uuid.Parse, Hex.Decode, Hex.Encode, Base64.Encode, Base64.Decode, Utf8.Encode;
    hide Trim, NormalizeServer, Joined, Codec.Print;
    var inv := Mint(userId, deviceId, url, keyHex, username, ttl, w).value;
    var id := Uuid.Parse(userId).value;
    UuidTextIsLower(id, w.lower);
    Uuid.ReadsBack(id);
    Uuid.ReadsBack(w.freshId);
    assert AsciiLower(inv.deviceId) == inv.deviceId by {
      assert inv.deviceId == w.lower(deviceId);
      assert forall k | 0 <= k < |inv.deviceId| :: inv.deviceId[k] in w.lower(deviceId);
    }
    Hex.Accepts(inv.deviceId);
    WireUsernameSettles(username);
    var msg := Utf8.Encode(Canonical(inv.(sig := ""), w.lower).value);
    Base64.ReadsBack(Base64.Standard, w.sign(Hex.Decode(keyHex).value, msg).value);
  }

  /** A minted invite survives the wire. Any receiver whose clock is at most 300 seconds behind reads
      back the very same invite from any of its texts, so it recomputes the string that was signed,
      and the signature it finds is the one made over that string. */
  lemma MintedInviteSurvives(userId: string, deviceId: string, url: string, keyHex: string, username: Option<string>,
      ttl: u32, w: World, form: Form, now: int, legacy: bytes -> Option<Invite>)
    requires Plausible(w) && Mint(userId, deviceId, url, keyHex, username, ttl, w).Ok?
    requires Codec.Encode(Mint(userId, deviceId, url, keyHex, username, ttl, w).value).Ok?
    ensures var inv := Mint(userId, deviceId, url, keyHex, username, ttl, w).value;
            var parsed := ParseInvite(FormText(form, ToBase64Url(inv).value), now, legacy);
            if 0 < inv.ts <= now + 300 then
              && parsed == Ok(inv)
              && Canonical(parsed.value, w.lower).Ok? && Hex.Decode(keyHex).Some?
              && Base64.Decode(Base64.Standard, parsed.value.sig)
                 == w.sign(Hex.Decode(keyHex).value, Utf8.Encode(Canonical(parsed.value, w.lower).value))
            else
              parsed.Err?
  {
    hide Uuid.ToString, Uuid.Parse, Hex.Decode, Base64.Encode, Base64.Decode, Utf8.Encode, Trim, NormalizeServer,
        Joined, Codec.Normal, Codec.Encode, ParseInvite, FormText, ToBase64Url, Unsigned;
    var inv := Mint(userId, deviceId, url, keyHex, username, ttl, w).value;
    MintedIsNormal(userId, deviceId, url, keyHex, username, ttl, w);
    EveryFormReadsBack(inv, form, now, legacy);
    MintedSignature(userId, deviceId, url, keyHex, username, ttl, w);
  }

  lemma MintedSignature(userId: string, deviceId: string, url: string, keyHex: string, username: Option<string>,
      ttl: u32, w: World)
    requires Plausible(w) && Mint(userId, deviceId, url, keyHex, username, ttl, w).Ok?
    ensures var inv := Mint(userId, deviceId, url, keyHex, username, ttl, w).value;
            && Hex.Decode(keyHex).Some? && Canonical(inv, w.lower).Ok?
            && Base64.Decode(Base64.Standard, inv.sig)
                 == w.sign(Hex.Decode(keyHex).value, Utf8.Encode(Canonical(inv, w.lower).value))
  {
    hide Uuid.ToString, Uuid.Parse, Hex.Decode, Base64.Encode, Base64.Decode, Utf8.Encode, Trim, NormalizeServer,
        Joined;
    var inv := Mint(userId, deviceId, url, keyHex, username, ttl, w).value;
    assert Canonical(inv, w.lower) == Canonical(inv.(sig := ""), w.lower);
    var msg := Utf8.Encode(Canonical(inv, w.lower).value);
    Base64.ReadsBack(Base64.Standard, w.sign(Hex.Decode(keyHex).value, msg).value);
  }

  /** Octets that are no container are read as the older form, or refused, from any of the texts. */
  lemma LegacyFormsReadBack(data: bytes, form: Form, now: int, legacy: bytes -> Option<Invite>)
    requires data != [] && !(Codec.MAGIC <= data)
    ensures ParseInvite(FormText(form, Base64.Encode(Base64.UrlNoPad, data)), now, legacy) ==
            if legacy(data).Some? then Ok(legacy(data).value) else Err(Unrecognized)
  {
    hide Base64.Encode, Base64.Decode, Trim, ExtractInviteParam, DecodePayload, FormText;
    PayloadSurvives(form, data);
    PayloadDecodes(data);
  }

  /** A short text without '=', ':' and '/' is not offered. */
  lemma PlainTextIsNotOffered(s: string)
    requires '=' !in s && ':' !in s && '/' !in s && |Utf8.Encode(s)| <= 40
    ensures !LooksLikeInvite(s)
  {
    hide Trim, Utf8.Encode;
    var t := Trim(s);
    assert "konstruct://" <= t ==> t[9] == ':' && t[9] in t;
    var before, after := TrimIsMiddle(s);
    assert forall c | c in t :: c in s;
    if Find(t, PARAM).Some? {
      OccurrenceChar(t, PARAM, Find(t, PARAM).value, 6);
    }
    if Find(t, "konstruct.cc/add").Some? {
      OccurrenceChar(t, "konstruct.cc/add", Find(t, "konstruct.cc/add").value, 12);
    }
    EncodesShorter(before, t, after);
  }

  lemma EncodesShorter(a: string, b: string, c: string)
    ensures |Utf8.Encode(b)| <= |Utf8.Encode(a + b + c)|
  {
    hide Utf8.Encode;
    Utf8.EncodeAppends(a + b, c);
    Utf8.EncodeAppends(a, b);
  }

  /** The text field offers to redeem every one of the texts. */
  lemma EveryFormIsOffered(inv: Invite, form: Form)
    requires Codec.Encode(inv).Ok?
    ensures LooksLikeInvite(FormText(form, ToBase64Url(inv).value))
  {
    hide Base64.Encode, Base64.Decode, Trim, Codec.ParseRaw, Codec.RawOf, Codec.Decode, Utf8.Encode;
    var data := Codec.Encode(inv).value;
    var payload := ToBase64Url(inv).value;
    StartsWithMagic(inv);
    PayloadSurvives(form, data);
    if ExtractInviteParam(Trim(FormText(form, payload))).None? {
      Base64.UrlOutputIsAlphabetic(data);
      Base64.ReadsBack(Base64.UrlNoPad, data);
      LongEnough(inv);
      assert |payload| <= |Utf8.Encode(payload)|;
    }
  }

  lemma LongEnough(inv: Invite)
    requires Codec.Encode(inv).Ok?
    ensures |Codec.Encode(inv).value| > 40
  {
    hide Codec.TextThen, Codec.UsernameThen, Codec.TtlThen, BigEndian;
  }
}
