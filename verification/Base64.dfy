/** Base 64 of RFC 4648, section 4 (padded, `+` and `/`) and section 5 (`-` and `_`, here unpadded).
    Both decoders are strict: canonical padding only, and no stray bits in the last group. */
module Base64 {
  import opened Wrappers
  import opened Bytes

  datatype Alphabet = Standard | UrlNoPad

  type sextet = x: int | 0 <= x < 64

  // ---- sextets and octets ----

  function Sextet1(x: byte): sextet { x / 4 }
  function Sextet2(x: byte, y: byte): sextet { x % 4 * 16 + y / 16 }
  function Sextet3(y: byte, z: byte): sextet { y % 16 * 4 + z / 64 }
  function Sextet4(z: byte): sextet { z % 64 }

  function Sextets(b: bytes): (d: seq<sextet>)
    ensures |d| == (4 * |b| + 2) / 3
  {
    if b == [] then []
    else if |b| == 1 then [Sextet1(b[0]), Sextet2(b[0], 0)]
    else if |b| == 2 then [Sextet1(b[0]), Sextet2(b[0], b[1]), Sextet3(b[1], 0)]
    else [Sextet1(b[0]), Sextet2(b[0], b[1]), Sextet3(b[1], b[2]), Sextet4(b[2])] + Sextets(b[3..])
  }

  function Octet1(p: sextet, q: sextet): byte { p * 4 + q / 16 }
  function Octet2(q: sextet, r: sextet): byte { q % 16 * 16 + r / 4 }
  function Octet3(r: sextet, t: sextet): byte { r % 4 * 64 + t }

  lemma GroupReadsBack(x: byte, y: byte, z: byte)
    ensures Octet1(Sextet1(x), Sextet2(x, y)) == x
    ensures Octet2(Sextet2(x, y), Sextet3(y, z)) == y
    ensures Octet3(Sextet3(y, z), Sextet4(z)) == z
    ensures Sextet2(x, 0) % 16 == 0 && Sextet3(y, 0) % 4 == 0
  {
  }

  lemma GroupPrintsBack(p: sextet, q: sextet, r: sextet, t: sextet)
    ensures Sextet1(Octet1(p, q)) == p
    ensures Sextet2(Octet1(p, q), Octet2(q, r)) == q
    ensures Sextet3(Octet2(q, r), Octet3(r, t)) == r
    ensures Sextet4(Octet3(r, t)) == t
    ensures q % 16 == 0 ==> Sextet2(Octet1(p, q), 0) == q
    ensures r % 4 == 0 ==> Sextet3(Octet2(q, r), 0) == r
  {
  }

  /** Three octets are the same 24 bits as four sextets, high bits first. */
  lemma GroupIsPositional(x: byte, y: byte, z: byte)
    ensures x * 65536 + y * 256 + z ==
            Sextet1(x) * 262144 + Sextet2(x, y) * 4096 + Sextet3(y, z) * 64 + Sextet4(z)
  {
  }

  /** A short last group must leave its unused bits zero. */
  function Octets(d: seq<sextet>): Option<bytes> {
    if d == [] then Some([])
    else if |d| == 1 then None
    else if |d| == 2 then
      if d[1] % 16 == 0 then Some([Octet1(d[0], d[1])]) else None
    else if |d| == 3 then
      if d[2] % 4 == 0 then Some([Octet1(d[0], d[1]), Octet2(d[1], d[2])]) else None
    else
      match Octets(d[4..])
      case None => None
      case Some(rest) => Some([Octet1(d[0], d[1]), Octet2(d[1], d[2]), Octet3(d[2], d[3])] + rest)
  }

  lemma {:induction false} OctetsReadBack(b: bytes)
    ensures Octets(Sextets(b)) == Some(b)
  {
    hide Octet1, Octet2, Octet3, Sextet1, Sextet2, Sextet3, Sextet4;
    if |b| == 1 {
      GroupReadsBack(b[0], 0, 0);
      assert b == [b[0]];
    } else if |b| == 2 {
      GroupReadsBack(b[0], b[1], 0);
      assert b == [b[0], b[1]];
    } else if |b| >= 3 {
      GroupReadsBack(b[0], b[1], b[2]);
      OctetsReadBack(b[3..]);
      assert Sextets(b)[4..] == Sextets(b[3..]);
      assert b == [b[0], b[1], b[2]] + b[3..];
    }
  }

  lemma {:induction false} OctetsPrintBack(d: seq<sextet>)
    requires Octets(d).Some?
    ensures Sextets(Octets(d).value) == d
  {
    hide Octet1, Octet2, Octet3, Sextet1, Sextet2, Sextet3, Sextet4;
    if d != [] {
      GroupPrintsBack(d[0], d[1], if |d| > 2 then d[2] else 0, if |d| > 3 then d[3] else 0);
      if |d| >= 4 {
        OctetsPrintBack(d[4..]);
        var b := Octets(d).value;
        assert b[3..] == Octets(d[4..]).value;
        assert d == [d[0], d[1], d[2], d[3]] + d[4..];
      }
    }
  }

  // ---- sextets and characters ----

  function Char62(a: Alphabet): char { if a.Standard? then '+' else '-' }
  function Char63(a: Alphabet): char { if a.Standard? then '/' else '_' }

  function Digit(a: Alphabet, d: sextet): char {
    if d < 26 then ('A' as int + d) as char
    else if d < 52 then ('a' as int + d - 26) as char
    else if d < 62 then ('0' as int + d - 52) as char
    else if d == 62 then Char62(a) else Char63(a)
  }

  function Value(a: Alphabet, c: char): Option<sextet> {
    if 'A' <= c <= 'Z' then Some(c as int - 'A' as int)
    else if 'a' <= c <= 'z' then Some(c as int - 'a' as int + 26)
    else if '0' <= c <= '9' then Some(c as int - '0' as int + 52)
    else if c == Char62(a) then Some(62)
    else if c == Char63(a) then Some(63)
    else None
  }

  /** Tables 1 and 2 of RFC 4648: the capitals, the small letters, the digits and two more. */
  lemma DigitTable(a: Alphabet, d: sextet)
    ensures Digit(a, 0) == 'A' && Digit(a, 25) == 'Z' && Digit(a, 26) == 'a' && Digit(a, 51) == 'z'
    ensures Digit(a, 52) == '0' && Digit(a, 61) == '9'
    ensures d !in {25, 51, 61, 62, 63} ==> Digit(a, d + 1) as int == Digit(a, d) as int + 1
    ensures Digit(Standard, 62) == '+' && Digit(Standard, 63) == '/'
    ensures Digit(UrlNoPad, 62) == '-' && Digit(UrlNoPad, 63) == '_'
  {
  }

  lemma DigitReadsBack(a: Alphabet, d: sextet)
    ensures Value(a, Digit(a, d)) == Some(d)
  {
  }

  predicate InAlphabet(a: Alphabet, c: char) {
    Value(a, c).Some?
  }

  function Chars(a: Alphabet, d: seq<sextet>): (s: string)
    ensures |s| == |d|
  {
    if d == [] then "" else [Digit(a, d[0])] + Chars(a, d[1..])
  }

  function Values(a: Alphabet, s: string): (d: Option<seq<sextet>>)
    ensures d.Some? ==> |d.value| == |s|
  {
    if s == "" then Some([])
    else
      match (Value(a, s[0]), Values(a, s[1..]))
      case (Some(d), Some(rest)) => Some([d] + rest)
      case _ => None
  }

  lemma {:induction false} ValuesReadBack(a: Alphabet, d: seq<sextet>)
    ensures Values(a, Chars(a, d)) == Some(d)
  {
    if d != [] {
      DigitReadsBack(a, d[0]);
      ValuesReadBack(a, d[1..]);
      assert Chars(a, d)[1..] == Chars(a, d[1..]);
      assert d == [d[0]] + d[1..];
    }
  }

  lemma {:induction false} ValuesPrintBack(a: Alphabet, s: string)
    requires Values(a, s).Some?
    ensures Chars(a, Values(a, s).value) == s
  {
    if s != "" {
      ValuesPrintBack(a, s[1..]);
      assert Values(a, s).value[1..] == Values(a, s[1..]).value;
    }
  }

  lemma {:induction false} CharsAreAlphabetic(a: Alphabet, d: seq<sextet>)
    ensures forall c | c in Chars(a, d) :: InAlphabet(a, c)
  {
    if d != [] {
      CharsAreAlphabetic(a, d[1..]);
      DigitReadsBack(a, d[0]);
    }
  }

  // ---- padding ----

  /** The padding after `n` digits. */
  function Padding(a: Alphabet, n: nat): string {
    if a.UrlNoPad? then "" else if n % 4 == 2 then "==" else if n % 4 == 3 then "=" else ""
  }

  function Unpad(a: Alphabet, s: string): Option<string> {
    if a.UrlNoPad? then Some(s)
    else if |s| % 4 != 0 then None
    else if |s| >= 4 && s[|s| - 2..] == "==" then Some(s[..|s| - 2])
    else if |s| >= 4 && s[|s| - 1] == '=' then Some(s[..|s| - 1])
    else Some(s)
  }

  function Encode(a: Alphabet, b: bytes): string {
    Chars(a, Sextets(b)) + Padding(a, |Sextets(b)|)
  }

  function Decode(a: Alphabet, s: string): Option<bytes> {
    match Unpad(a, s)
    case None => None
    case Some(digits) =>
      match Values(a, digits)
      case None => None
      case Some(d) => Octets(d)
  }

  lemma UnpadPadded(a: Alphabet, digits: string)
    requires '=' !in digits
    requires |digits| % 4 != 1
    ensures Unpad(a, digits + Padding(a, |digits|)) == Some(digits)
  {
    var n := |digits|;
    var s := digits + Padding(a, n);
    assert s[..n] == digits;
    if a.UrlNoPad? || digits == "" {
      assert s == digits;
    } else {
      var last := digits[n - 1];
      assert last in digits;
      if n % 4 == 2 {
        assert |s| == n + 2 && |s| % 4 == 0 && s[n..] == "==";
      } else if n % 4 == 3 {
        assert |s| == n + 1 && |s| % 4 == 0 && s[n - 1..][0] == last && s[n] == '=';
      } else {
        assert s == digits && s[n - 2..][1] == last && s[n - 1] == last;
      }
    }
  }

  lemma PadUnpadded(a: Alphabet, s: string)
    requires Unpad(a, s).Some?
    requires |Unpad(a, s).value| % 4 != 1
    ensures var digits := Unpad(a, s).value; s == digits + Padding(a, |digits|)
  {
    var digits := Unpad(a, s).value;
    assert s == digits + s[|digits|..];
    if |s| == |digits| + 1 {
      assert s[|digits|..] == [s[|digits|]];
    }
  }

  lemma ReadsBack(a: Alphabet, b: bytes)
    ensures Decode(a, Encode(a, b)) == Some(b)
  {
    hide Sextets, Octets, Chars, Values, Unpad, Padding;
    OctetsReadBack(b);
    ValuesReadBack(a, Sextets(b));
    CharsAreAlphabetic(a, Sextets(b));
    UnpadPadded(a, Chars(a, Sextets(b)));
  }

  lemma PrintsBack(a: Alphabet, s: string)
    requires Decode(a, s).Some?
    ensures Encode(a, Decode(a, s).value) == s
  {
    hide Sextets, Octets, Chars, Values, Unpad, Padding;
    var digits := Unpad(a, s).value;
    ValuesPrintBack(a, digits);
    OctetsPrintBack(Values(a, digits).value);
    PadUnpadded(a, s);
  }

  /** Unpadded output stays inside the alphabet: no '&', no '=', no white space. */
  lemma UrlOutputIsAlphabetic(b: bytes)
    ensures forall c | c in Encode(UrlNoPad, b) :: InAlphabet(UrlNoPad, c)
    ensures |Encode(UrlNoPad, b)| == (4 * |b| + 2) / 3
  {
    hide Sextets, Chars;
    CharsAreAlphabetic(UrlNoPad, Sextets(b));
  }

  // ---- one text, two alphabets ----

  lemma {:induction false} BothAlphabets(s: string)
    requires Values(UrlNoPad, s).Some? && Values(Standard, s).Some?
    ensures Values(UrlNoPad, s) == Values(Standard, s)
  {
    if s != "" {
      BothAlphabets(s[1..]);
    }
  }

  lemma {:induction false} NoPaddingInside(a: Alphabet, s: string)
    requires Values(a, s).Some?
    ensures '=' !in s
  {
    if s != "" {
      NoPaddingInside(a, s[1..]);
      assert s == [s[0]] + s[1..];
    }
  }

  /** A padded standard text that also reads as unpadded base64url means the same octets. */
  lemma StandardAsUrl(b: bytes)
    requires Decode(UrlNoPad, Encode(Standard, b)).Some?
    ensures Decode(UrlNoPad, Encode(Standard, b)) == Some(b)
  {
    var d, s := Sextets(b), Encode(Standard, b);
    NoPaddingInside(UrlNoPad, s);
    hide Octets, Sextets, Values;
    assert Padding(Standard, |d|) == "" by {
      assert forall c | c in Padding(Standard, |d|) :: c in s;
    }
    assert s == Chars(Standard, d);
    ValuesReadBack(Standard, d);
    BothAlphabets(s);
    OctetsReadBack(b);
  }

  lemma StandardOutputIsBlack(b: bytes)
    ensures forall c | c in Encode(Standard, b) :: c == '=' || InAlphabet(Standard, c)
  {
    CharsAreAlphabetic(Standard, Sextets(b));
  }
}
