/** Base 16 of RFC 4648, section 8: lower-case output, either case accepted. */
module Hex {
  import opened Wrappers
  import opened Bytes
  import opened Text

  function Digit(d: nat): (c: char)
    requires d < 16
  {
    if d < 10 then ('0' as int + d) as char else ('a' as int + d - 10) as char
  }

  function Value(c: char): (r: Option<nat>)
    ensures r.Some? ==> r.value < 16
  {
    if '0' <= c <= '9' then Some(c as int - '0' as int)
    else if 'a' <= c <= 'f' then Some(c as int - 'a' as int + 10)
    else if 'A' <= c <= 'F' then Some(c as int - 'A' as int + 10)
    else None
  }

  predicate IsHexDigit(c: char) {
    Value(c).Some?
  }

  function Encode(b: bytes): (s: string)
    ensures |s| == 2 * |b|
    ensures forall c | c in s :: IsHexDigit(c) && LowerChar(c) == c
  {
    if b == [] then "" else [Digit(b[0] / 16), Digit(b[0] % 16)] + Encode(b[1..])
  }

  lemma DigitTable(d: nat)
    requires d < 16
    ensures Digit(d) == "0123456789abcdef"[d]
  {
  }

  /** Each octet is two digits, the high half first. */
  lemma {:induction false} Positions(b: bytes, k: nat)
    requires k < |b|
    ensures Encode(b)[2 * k] == Digit(b[k] / 16)
    ensures Encode(b)[2 * k + 1] == Digit(b[k] % 16)
  {
    if k > 0 {
      Positions(b[1..], k - 1);
    }
  }

  lemma {:induction false} EncodeAppends(a: bytes, b: bytes)
    ensures Encode(a + b) == Encode(a) + Encode(b)
  {
    if a == [] {
      assert a + b == b;
    } else {
      assert (a + b)[1..] == a[1..] + b;
      EncodeAppends(a[1..], b);
    }
  }

  function Decode(s: string): (r: Option<bytes>)
    ensures r.Some? ==> 2 * |r.value| == |s|
  {
    if s == "" then Some([])
    else if |s| == 1 then None
    else
      match (Value(s[0]), Value(s[1]), Decode(s[2..]))
      case (Some(hi), Some(lo), Some(rest)) => Some([hi * 16 + lo] + rest)
      case _ => None
  }

  lemma {:induction false} ReadsBack(b: bytes)
    ensures Decode(Encode(b)) == Some(b)
  {
    if b != [] {
      ReadsBack(b[1..]);
      assert Encode(b)[2..] == Encode(b[1..]);
      assert b == [b[0]] + b[1..];
    }
  }

  lemma {:induction false} PrintsBack(s: string)
    requires Decode(s).Some?
    ensures Encode(Decode(s).value) == AsciiLower(s)
  {
    if s != "" {
      PrintsBack(s[2..]);
      var b := Decode(s).value;
      assert b[1..] == Decode(s[2..]).value;
      assert Digit(b[0] / 16) == LowerChar(s[0]) && Digit(b[0] % 16) == LowerChar(s[1]);
      assert AsciiLower(s) == [LowerChar(s[0]), LowerChar(s[1])] + AsciiLower(s[2..]);
    }
  }

  /** What decodes is exactly an even number of hexadecimal digits. */
  lemma {:induction false} Accepts(s: string)
    ensures Decode(s).Some? <==> |s| % 2 == 0 && forall c | c in s :: IsHexDigit(c)
  {
    if |s| >= 2 {
      Accepts(s[2..]);
      assert s == [s[0], s[1]] + s[2..];
      assert s[0] in s && s[1] in s;
    } else if |s| == 1 {
      assert Decode(s).None?;
    }
  }
}
