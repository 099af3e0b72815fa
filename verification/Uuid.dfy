/** UUID text of RFC 9562, section 4, with the spellings the `uuid` crate's `parse_str` accepts:
    32 digits, the hyphenated form, that form in braces, and its URN. */
module Uuid {
  import opened Wrappers
  import opened Bytes
  import opened Text
  import Hex

  const NIL: bytes := [0, 0, 0, 0, 0, 0, 0, 0, 0, 0, 0, 0, 0, 0, 0, 0]

  function Hyphenate(h: string): (s: string)
    requires |h| == 32
    ensures |s| == 36
  {
    h[..8] + "-" + h[8..12] + "-" + h[12..16] + "-" + h[16..20] + "-" + h[20..]
  }

  /** `Uuid::to_string`. */
  function ToString(b: bytes): (s: string)
    requires |b| == 16
    ensures |s| == 36
  {
    Hyphenate(Hex.Encode(b))
  }

  predicate Hyphenated(s: string) {
    |s| == 36 && s[8] == '-' && s[13] == '-' && s[18] == '-' && s[23] == '-'
  }

  function Unhyphenate(s: string): (h: string)
    requires Hyphenated(s)
    ensures |h| == 32
  {
    s[..8] + s[9..13] + s[14..18] + s[19..23] + s[24..]
  }

  function ParseHyphenated(s: string): Option<bytes> {
    if Hyphenated(s) then Hex.Decode(Unhyphenate(s)) else None
  }

  /** `Uuid::parse_str`. */
  function Parse(s: string): (r: Option<bytes>)
    ensures r.Some? ==> |r.value| == 16
  {
    if |s| == 32 then Hex.Decode(s)
    else if |s| == 36 then ParseHyphenated(s)
    else if |s| == 38 && s[0] == '{' && s[37] == '}' then ParseHyphenated(s[1..37])
    else if |s| == 45 && s[..9] == "urn:uuid:" then ParseHyphenated(s[9..])
    else None
  }

  lemma ReadsBack(b: bytes)
    requires |b| == 16
    ensures Parse(ToString(b)) == Some(b)
  {
    var h := Hex.Encode(b);
    Hex.ReadsBack(b);
    assert Unhyphenate(Hyphenate(h)) == h;
  }

  /** The five groups of RFC 9562, section 4: 8, 4, 4, 4 and 12 digits. */
  lemma Groups(b: bytes)
    requires |b| == 16
    ensures var s := ToString(b);
            && s[..8] == Hex.Encode(b[..4]) && s[9..13] == Hex.Encode(b[4..6]) && s[14..18] == Hex.Encode(b[6..8])
            && s[19..23] == Hex.Encode(b[8..10]) && s[24..] == Hex.Encode(b[10..])
            && s[8] == s[13] == s[18] == s[23] == '-'
  {
    hide Hex.Encode;
    var a, c, d, e, f := b[..4], b[4..6], b[6..8], b[8..10], b[10..];
    assert b == a + (c + (d + (e + f)));
    Hex.EncodeAppends(a, c + (d + (e + f)));
    Hex.EncodeAppends(c, d + (e + f));
    Hex.EncodeAppends(d, e + f);
    Hex.EncodeAppends(e, f);
    FiveGroups(Hex.Encode(a), Hex.Encode(c), Hex.Encode(d), Hex.Encode(e), Hex.Encode(f));
  }

  lemma FiveGroups(a: string, c: string, d: string, e: string, f: string)
    requires |a| == 8 && |c| == |d| == |e| == 4 && |f| == 12
    ensures var s := Hyphenate(a + (c + (d + (e + f))));
            && s[..8] == a && s[9..13] == c && s[14..18] == d && s[19..23] == e && s[24..] == f
            && s[8] == s[13] == s[18] == s[23] == '-'
  {
    var h := a + (c + (d + (e + f)));
    assert h[..8] == a && h[8..12] == c && h[12..16] == d && h[16..20] == e && h[20..] == f;
  }

  lemma LowerHyphenate(h: string)
    requires |h| == 32
    ensures AsciiLower(Hyphenate(h)) == Hyphenate(AsciiLower(h))
  {
  }

  lemma Rehyphenate(s: string)
    requires Hyphenated(s)
    ensures Hyphenate(Unhyphenate(s)) == s
  {
    var h := Unhyphenate(s);
    assert h[..8] == s[..8] && h[8..12] == s[9..13] && h[12..16] == s[14..18];
    assert h[16..20] == s[19..23] && h[20..] == s[24..];
  }

  /** For the hyphenated spelling, reading and printing only lower-cases. */
  lemma PrintsBack(s: string)
    requires |s| == 36 && Parse(s).Some?
    ensures ToString(Parse(s).value) == AsciiLower(s)
  {
    var h := Unhyphenate(s);
    Hex.PrintsBack(h);
    LowerHyphenate(h);
    Rehyphenate(s);
  }

  lemma TextIsPlain(b: bytes)
    requires |b| == 16
    ensures AsciiLower(ToString(b)) == ToString(b)
    ensures forall c | c in ToString(b) :: Hex.IsHexDigit(c) || c == '-'
  {
    var h, s := Hex.Encode(b), ToString(b);
    forall k | 0 <= k < 36
      ensures (Hex.IsHexDigit(s[k]) || s[k] == '-') && LowerChar(s[k]) == s[k]
    {
      assert s[k] == '-' || s[k] in h;
    }
  }
}
