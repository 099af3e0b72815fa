/** Device-minted contact invites: the record, its canonical (signed) string. */
module Invites {
  import opened Wrappers
  import opened Bytes
  import opened Text

  const CURRENT_VERSION: byte := 5
  const MIN_TTL_SECONDS: u32 := 60

  datatype Invite = Invite(
    v: byte,
    jti: string,
    uuid: string,
    deviceId: string,
    server: string,
    ephKey: string,
    ts: i64,
    sig: string,
    un: Option<string>,
    ttl: Option<u32>)

  datatype InviteError =
    | UnsupportedVersion | MissingTtl                                    // canonical string
    | BadUuid | BadDeviceId | BadSignature | BadServer | BadUsername     // encoding
    | BadEphKey | BadTimestamp
    | Truncated | BadMagic | BadUtf8 | TrailingBytes | TtlBelowFloor     // decoding
    | Unrecognized                                                       // links
    | BadSigningKey | SelfVerifyFailed                                   // minting

  /** What the model asks of Unicode lower-casing (`str::to_lowercase`): it is the ASCII mapping on
      ASCII text, it leaves no ASCII capital, and it never makes a separator appear. */
  ghost predicate Lowercasing(lower: string -> string) {
    && (forall s: string | Ascii(s) :: lower(s) == AsciiLower(s))
    && (forall s: string :: forall c | c in lower(s) :: LowerChar(c) == c)
    && (forall s: string | '|' !in s :: '|' !in lower(s))
  }

  function OrEmpty(un: Option<string>): string {
    if un.Some? then un.value else ""
  }

  /** Fields separated by '|'. */
  function Joined(fields: seq<string>): string {
    if fields == [] then ""
    else if |fields| == 1 then fields[0]
    else fields[0] + "|" + Joined(fields[1..])
  }

  /** The string a device signs (`canonical_string`). */
  function Canonical(inv: Invite, lower: string -> string): Result<string, InviteError> {
    var v, jti, uuid, ts := Decimal(inv.v), lower(inv.jti), lower(inv.uuid), DecimalInt(inv.ts);
    match inv.v
    case 1 => Ok(Joined([v, jti, uuid, inv.server, inv.ephKey, ts]))
    case 2 => Ok(Joined([v, jti, uuid, inv.deviceId, inv.server, inv.ephKey, ts]))
    case 3 => Ok(Joined([v, jti, uuid, inv.deviceId, inv.server, inv.ephKey, ts, OrEmpty(inv.un)]))
    case 4 => Ok(Joined([v, jti, uuid, inv.deviceId, inv.server, ts, OrEmpty(inv.un)]))
    case 5 =>
      if inv.ttl.None? then Err(MissingTtl) else
        Ok(Joined([v, jti, uuid, inv.deviceId, inv.server, ts, OrEmpty(inv.un), Decimal(inv.ttl.value)]))
    case _ => Err(UnsupportedVersion)
  }

  /** The signed string, version by version. */
  lemma CanonicalIs(inv: Invite, lower: string -> string)
    ensures var c := Canonical(inv, lower);
            && (inv.v == 1 ==>
                  c == Ok("1" + "|" + lower(inv.jti) + "|" + lower(inv.uuid) + "|" + inv.server
                        + "|" + inv.ephKey + "|" + DecimalInt(inv.ts)))
            && (inv.v == 2 ==>
                  c == Ok("2" + "|" + lower(inv.jti) + "|" + lower(inv.uuid) + "|" + inv.deviceId
                        + "|" + inv.server + "|" + inv.ephKey + "|" + DecimalInt(inv.ts)))
            && (inv.v == 3 ==>
                  c == Ok("3" + "|" + lower(inv.jti) + "|" + lower(inv.uuid) + "|" + inv.deviceId + "|" + inv.server
                        + "|" + inv.ephKey + "|" + DecimalInt(inv.ts) + "|" + OrEmpty(inv.un)))
            && (inv.v == 4 ==>
                  c == Ok("4" + "|" + lower(inv.jti) + "|" + lower(inv.uuid) + "|" + inv.deviceId
                        + "|" + inv.server + "|" + DecimalInt(inv.ts) + "|" + OrEmpty(inv.un)))
            && (inv.v == 5 && inv.ttl.Some? ==>
                  c == Ok("5" + "|" + lower(inv.jti) + "|" + lower(inv.uuid) + "|" + inv.deviceId + "|" + inv.server
                        + "|" + DecimalInt(inv.ts) + "|" + OrEmpty(inv.un) + "|" + Decimal(inv.ttl.value)))
            && (c.Err? <==> inv.v == 0 || inv.v > 5 || (inv.v == 5 && inv.ttl.None?))
    ensures OrEmpty(inv.un) == if inv.un.Some? then inv.un.value else ""
  {
    hide Joined;
    var j, u, ts, un := lower(inv.jti), lower(inv.uuid), DecimalInt(inv.ts), OrEmpty(inv.un);
    assert inv.v < 10 ==> Decimal(inv.v) == [DigitChar(inv.v)];
    match inv.v {
      case 1 => Join6("1", j, u, inv.server, inv.ephKey, ts);
      case 2 => Join7("2", j, u, inv.deviceId, inv.server, inv.ephKey, ts);
      case 3 => Join8("3", j, u, inv.deviceId, inv.server, inv.ephKey, ts, un);
      case 4 => Join7("4", j, u, inv.deviceId, inv.server, ts, un);
      case 5 =>
        if inv.ttl.Some? {
          Join8("5", j, u, inv.deviceId, inv.server, ts, un, Decimal(inv.ttl.value));
        }
      case _ =>
    }
  }

  lemma Join2(a: string, b: string)
    ensures Joined([a, b]) == a + "|" + b
  {
    assert [a, b][1..] == [b];
  }

  lemma Join3(a: string, b: string, c: string)
    ensures Joined([a, b, c]) == a + "|" + b + "|" + c
  {
    assert [a, b, c][1..] == [b, c];
    Join2(b, c);
  }

  lemma Join4(a: string, b: string, c: string, d: string)
    ensures Joined([a, b, c, d]) == a + "|" + b + "|" + c + "|" + d
  {
    assert [a, b, c, d][1..] == [b, c, d];
    Join3(b, c, d);
  }

  lemma Join5(a: string, b: string, c: string, d: string, e: string)
    ensures Joined([a, b, c, d, e]) == a + "|" + b + "|" + c + "|" + d + "|" + e
  {
    assert [a, b, c, d, e][1..] == [b, c, d, e];
    Join4(b, c, d, e);
  }

  lemma Join6(a: string, b: string, c: string, d: string, e: string, f: string)
    ensures Joined([a, b, c, d, e, f]) == a + "|" + b + "|" + c + "|" + d + "|" + e + "|" + f
  {
    assert [a, b, c, d, e, f][1..] == [b, c, d, e, f];
    Join5(b, c, d, e, f);
  }

  lemma Join7(a: string, b: string, c: string, d: string, e: string, f: string, g: string)
    ensures Joined([a, b, c, d, e, f, g]) == a + "|" + b + "|" + c + "|" + d + "|" + e + "|" + f + "|" + g
  {
    assert [a, b, c, d, e, f, g][1..] == [b, c, d, e, f, g];
    Join6(b, c, d, e, f, g);
  }

  lemma Join8(a: string, b: string, c: string, d: string, e: string, f: string, g: string, h: string)
    ensures Joined([a, b, c, d, e, f, g, h]) == a + "|" + b + "|" + c + "|" + d + "|" + e + "|" + f + "|" + g + "|" + h
  {
    assert [a, b, c, d, e, f, g, h][1..] == [b, c, d, e, f, g, h];
    Join7(b, c, d, e, f, g, h);
  }

  /** Everything a version's signature covers; `None` marks a field the version leaves out. */
  datatype Signed = Signed(
    v: byte, jti: string, uuid: string, deviceId: Option<string>, server: string,
    ephKey: Option<string>, ts: int, un: Option<string>, ttl: Option<u32>)

  function SignedPart(inv: Invite, lower: string -> string): Signed {
    Signed(inv.v, lower(inv.jti), lower(inv.uuid),
           if inv.v >= 2 then Some(inv.deviceId) else None,
           inv.server,
           if inv.v <= 3 then Some(inv.ephKey) else None,
           inv.ts,
           if inv.v >= 3 then Some(OrEmpty(inv.un)) else None,
           if inv.v >= 5 then inv.ttl else None)
  }

  /** No separator in any field but the username. */
  predicate SeparatorFree(inv: Invite) {
    '|' !in inv.jti && '|' !in inv.uuid && '|' !in inv.deviceId && '|' !in inv.server && '|' !in inv.ephKey
  }

  /** Equal joins of separator-free heads peel off field by field, down to the last field, which
      may hold anything. */
  lemma {:induction false} JoinedIsInjective(a: seq<string>, b: seq<string>)
    requires |a| == |b| > 0
    requires forall k | 0 <= k < |a| - 1 :: '|' !in a[k] && '|' !in b[k]
    requires Joined(a) == Joined(b)
    ensures a == b
  {
    if |a| == 1 {
      assert a == [a[0]] && b == [b[0]];
    } else {
      SameHead('|', a[0], Joined(a[1..]), b[0], Joined(b[1..]));
      JoinedIsInjective(a[1..], b[1..]);
      assert a == [a[0]] + a[1..] && b == [b[0]] + b[1..];
    }
  }

  /** The fields before a free-form username, the username, and the fields after it (all but the
      username separator-free). */
  lemma {:induction false} JoinedAroundUsername(a: seq<string>, x: string, s: string, b: seq<string>, y: string,
      t: string)
    requires |a| == |b|
    requires forall k | 0 <= k < |a| :: '|' !in a[k] && '|' !in b[k]
    requires '|' !in s && '|' !in t
    requires Joined(a + [x, s]) == Joined(b + [y, t])
    ensures a == b && x == y && s == t
  {
    if a == [] {
      assert a + [x, s] == [x, s] && b + [y, t] == [y, t];
      assert [x, s][1..] == [s] && [y, t][1..] == [t];
      SameLast('|', x, s, y, t);
    } else {
      var p, q := a + [x, s], b + [y, t];
      assert p[1..] == a[1..] + [x, s] && q[1..] == b[1..] + [y, t];
      SameHead('|', a[0], Joined(p[1..]), b[0], Joined(q[1..]));
      JoinedAroundUsername(a[1..], x, s, b[1..], y, t);
      assert a == [a[0]] + a[1..] && b == [b[0]] + b[1..];
    }
  }

  lemma NumbersAreSeparatorFree(n: nat, i: int)
    ensures '|' !in Decimal(n) && '|' !in DecimalInt(i)
  {
  }

  /** The version is the text before the first separator. */
  lemma SameVersion(a: Invite, b: Invite, lower: string -> string)
    requires Canonical(a, lower).Ok? && Canonical(a, lower) == Canonical(b, lower)
    ensures a.v == b.v
  {
    var x := TailAfterVersion(a, lower);
    var y := TailAfterVersion(b, lower);
    NumbersAreSeparatorFree(a.v, 0);
    NumbersAreSeparatorFree(b.v, 0);
    SameHead('|', Decimal(a.v), x, Decimal(b.v), y);
    DecimalReadsBack(a.v);
    DecimalReadsBack(b.v);
  }

  lemma TailAfterVersion(a: Invite, lower: string -> string) returns (tail: string)
    requires Canonical(a, lower).Ok?
    ensures Canonical(a, lower).value == Decimal(a.v) + "|" + tail
  {
    var s := Canonical(a, lower).value;
    tail := s[|Decimal(a.v)| + 1..];
  }

  /** The signed string determines the invite, and nothing but what it signs: two invites have the
      same canonical string exactly when they agree on everything their version covers. */
  lemma SameStringIffSameSignedPart(a: Invite, b: Invite, lower: string -> string)
    requires Lowercasing(lower) && SeparatorFree(a) && SeparatorFree(b)
    requires Canonical(a, lower).Ok? && Canonical(b, lower).Ok?
    ensures Canonical(a, lower) == Canonical(b, lower) <==> SignedPart(a, lower) == SignedPart(b, lower)
  {
    if Canonical(a, lower) == Canonical(b, lower) {
      SameVersion(a, b, lower);
      SameStringSameSignedPart(a, b, lower);
    }
  }

  lemma SameStringSameSignedPart(a: Invite, b: Invite, lower: string -> string)
    requires Lowercasing(lower) && SeparatorFree(a) && SeparatorFree(b)
    requires Canonical(a, lower).Ok? && Canonical(a, lower) == Canonical(b, lower) && a.v == b.v
    ensures SignedPart(a, lower) == SignedPart(b, lower)
  {
    var av, bv := Decimal(a.v), Decimal(b.v);
    var aj, bj, au, bu := lower(a.jti), lower(b.jti), lower(a.uuid), lower(b.uuid);
    var at, bt := DecimalInt(a.ts), DecimalInt(b.ts);
    NumbersAreSeparatorFree(a.v, a.ts);
    NumbersAreSeparatorFree(b.v, b.ts);
    match a.v {
      case 1 => JoinedIsInjective([av, aj, au, a.server, a.ephKey, at], [bv, bj, bu, b.server, b.ephKey, bt]);
      case 2 =>
        JoinedIsInjective([av, aj, au, a.deviceId, a.server, a.ephKey, at],
                          [bv, bj, bu, b.deviceId, b.server, b.ephKey, bt]);
      case 3 =>
        JoinedIsInjective([av, aj, au, a.deviceId, a.server, a.ephKey, at, OrEmpty(a.un)],
                          [bv, bj, bu, b.deviceId, b.server, b.ephKey, bt, OrEmpty(b.un)]);
      case 4 =>
        JoinedIsInjective([av, aj, au, a.deviceId, a.server, at, OrEmpty(a.un)],
                          [bv, bj, bu, b.deviceId, b.server, bt, OrEmpty(b.un)]);
      case _ =>
        var al, bl := Decimal(a.ttl.value), Decimal(b.ttl.value);
        NumbersAreSeparatorFree(a.ttl.value, 0);
        NumbersAreSeparatorFree(b.ttl.value, 0);
        var p, q := [av, aj, au, a.deviceId, a.server, at], [bv, bj, bu, b.deviceId, b.server, bt];
        assert p + [OrEmpty(a.un), al] == [av, aj, au, a.deviceId, a.server, at, OrEmpty(a.un), al];
        assert q + [OrEmpty(b.un), bl] == [bv, bj, bu, b.deviceId, b.server, bt, OrEmpty(b.un), bl];
        JoinedAroundUsername(p, OrEmpty(a.un), al, q, OrEmpty(b.un), bl);
        DecimalReadsBack(a.ttl.value);
        DecimalReadsBack(b.ttl.value);
    }
    DecimalIntIsInjective(a.ts, b.ts);
  }
}
