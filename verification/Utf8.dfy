/** UTF-8 as RFC 3629 defines it: the encoder, the strict decoder behind `String::from_utf8`,
    and the replacing decoder behind `String::from_utf8_lossy`. */
module Utf8 {
  import opened Wrappers
  import opened Bytes

  const REPLACEMENT: char := '\U{FFFD}'

  function EncodeChar(c: char): (b: bytes)
    ensures 1 <= |b| <= 4
  {
    var n := c as int;
    if n < 0x80 then [n]
    else if n < 0x800 then [0xC0 + n / 64, 0x80 + n % 64]
    else if n < 0x1_0000 then [0xE0 + n / 4096, 0x80 + n / 64 % 64, 0x80 + n % 64]
    else [0xF0 + n / 262144, 0x80 + n / 4096 % 64, 0x80 + n / 64 % 64, 0x80 + n % 64]
  }

  /** The table of RFC 3629, section 3: how many octets a code point takes, their leading bits, and where
      its own bits go. */
  lemma CharTable(c: char)
    ensures var n, b := c as int, EncodeChar(c);
            if n <= 0x7F then b == [n]
            else if n <= 0x7FF then
              && |b| == 2 && 0xC0 <= b[0] < 0xE0 && 0x80 <= b[1] < 0xC0
              && n == (b[0] as int - 0xC0) * 64 + (b[1] - 0x80)
            else if n <= 0xFFFF then
              && |b| == 3 && 0xE0 <= b[0] < 0xF0 && 0x80 <= b[1] < 0xC0 && 0x80 <= b[2] < 0xC0
              && n == (b[0] as int - 0xE0) * 4096 + (b[1] as int - 0x80) * 64 + (b[2] - 0x80)
            else
              && |b| == 4 && 0xF0 <= b[0] < 0xF8
              && 0x80 <= b[1] < 0xC0 && 0x80 <= b[2] < 0xC0 && 0x80 <= b[3] < 0xC0
              && n == (b[0] as int - 0xF0) * 262144 + (b[1] as int - 0x80) * 4096
                   + (b[2] as int - 0x80) * 64 + (b[3] as int - 0x80)
  {
    var n := c as int;
    Digits3(n);
    Digits4(n);
  }

  function Encode(s: string): (b: bytes)
    ensures |s| <= |b|
  {
    if s == [] then [] else EncodeChar(s[0]) + Encode(s[1..])
  }

  lemma {:induction false} EncodeAppends(a: string, b: string)
    ensures Encode(a + b) == Encode(a) + Encode(b)
  {
    hide EncodeChar;
    if a == "" {
      assert a + b == b;
    } else {
      assert (a + b)[1..] == a[1..] + b;
      EncodeAppends(a[1..], b);
    }
  }

  predicate Continuation(b: byte) {
    0x80 <= b < 0xC0
  }

  /** Second octets that may follow a three- or four-octet lead (RFC 3629, section 4). */
  predicate SecondAfter(lead: byte, b: byte) {
    && Continuation(b)
    && (lead == 0xE0 ==> 0xA0 <= b)
    && (lead == 0xED ==> b < 0xA0)
    && (lead == 0xF0 ==> 0x90 <= b)
    && (lead == 0xF4 ==> b < 0x90)
  }

  /** The code point that continuation octets `y`, `z`, `w` complete. */
  function Join2(x: int, y: int): int { x * 64 + y - 0x80 }
  function Join3(x: int, y: int, z: int): int { x * 4096 + (y - 0x80) * 64 + z - 0x80 }
  function Join4(x: int, y: int, z: int, w: int): int { x * 262144 + (y - 0x80) * 4096 + (z - 0x80) * 64 + w - 0x80 }

  /** The first character of `b` and how many octets it takes, if `b` starts with a well-formed one. */
  function DecodeChar(b: bytes): (r: Option<(char, nat)>)
    ensures r.Some? ==> 1 <= r.value.1 <= |b|
  {
    if b == [] then None
    else if b[0] < 0x80 then Some((b[0] as char, 1))
    else if 0xC2 <= b[0] < 0xE0 && |b| >= 2 && Continuation(b[1]) then
      Some((Join2(b[0] - 0xC0, b[1]) as char, 2))
    else if 0xE0 <= b[0] < 0xF0 && |b| >= 3 && SecondAfter(b[0], b[1]) && Continuation(b[2]) then
      Some((Join3(b[0] - 0xE0, b[1], b[2]) as char, 3))
    else if 0xF0 <= b[0] < 0xF5 && |b| >= 4 && SecondAfter(b[0], b[1]) && Continuation(b[2]) && Continuation(b[3]) then
      Some((Join4(b[0] - 0xF0, b[1], b[2], b[3]) as char, 4))
    else None
  }

  function Decode(b: bytes): Option<string> {
    if b == [] then Some("")
    else
      match DecodeChar(b)
      case None => None
      case Some((c, n)) =>
        match Decode(b[n..])
        case None => None
        case Some(s) => Some([c] + s)
  }

  lemma Digits3(n: nat)
    ensures n == n / 4096 * 4096 + n / 64 % 64 * 64 + n % 64
  {
    assert n / 4096 == n / 64 / 64;
  }

  lemma Digits4(n: nat)
    ensures n == n / 262144 * 262144 + n / 4096 % 64 * 4096 + n / 64 % 64 * 64 + n % 64
  {
    Digits3(n);
    assert n / 262144 == n / 4096 / 64;
  }

  /** Joining is positional, to base 64. */
  lemma Split2(x: nat, y: byte)
    requires Continuation(y)
    ensures Join2(x, y) / 64 == x && Join2(x, y) % 64 == y - 0x80
  {
  }

  lemma Split3(x: nat, y: byte, z: byte)
    requires Continuation(y) && Continuation(z)
    ensures var n := Join3(x, y, z); n / 4096 == x && n / 64 % 64 == y - 0x80 && n % 64 == z - 0x80
  {
    Split2(x, y);
    Split2(Join2(x, y), z);
    assert Join3(x, y, z) == Join2(Join2(x, y), z);
  }

  lemma Split4(x: nat, y: byte, z: byte, w: byte)
    requires Continuation(y) && Continuation(z) && Continuation(w)
    ensures var n := Join4(x, y, z, w);
            n / 262144 == x && n / 4096 % 64 == y - 0x80 && n / 64 % 64 == z - 0x80 && n % 64 == w - 0x80
  {
    assert Join4(x, y, z, w) == Join2(Join3(x, y, z), w);
    Split3(x, y, z);
    Split2(Join3(x, y, z), w);
    Nested(Join4(x, y, z, w));
  }

  lemma Nested(n: int)
    ensures n / 4096 == n / 64 / 64 && n / 262144 == n / 64 / 4096
  {
  }

  lemma CharReadsBack(c: char, rest: bytes)
    ensures DecodeChar(EncodeChar(c) + rest) == Some((c, |EncodeChar(c)|))
  {
    var n := c as int;
    if n >= 0x1_0000 {
      assert n < 0x11_0000;
      Digits4(n);
    } else if n >= 0x800 {
      Digits3(n);
    }
  }

  lemma CharPrintsBack(b: bytes)
    requires DecodeChar(b).Some?
    ensures var (c, n) := DecodeChar(b).value; EncodeChar(c) == b[..n]
  {
    var (c, n) := DecodeChar(b).value;
    if n == 2 {
      Split2(b[0] - 0xC0, b[1]);
    } else if n == 3 {
      Split3(b[0] - 0xE0, b[1], b[2]);
    } else if n == 4 {
      Split4(b[0] - 0xF0, b[1], b[2], b[3]);
    }
    assert EncodeChar(c) == b[..n];
  }

  lemma {:induction false} ReadsBack(s: string)
    ensures Decode(Encode(s)) == Some(s)
  {
    hide DecodeChar, EncodeChar;
    if s != [] {
      var head, tail := EncodeChar(s[0]), Encode(s[1..]);
      CharReadsBack(s[0], tail);
      assert (head + tail)[|head|..] == tail;
      ReadsBack(s[1..]);
      assert [s[0]] + s[1..] == s;
    }
  }

  lemma {:induction false} PrintsBack(b: bytes)
    requires Decode(b).Some?
    ensures Encode(Decode(b).value) == b
  {
    hide DecodeChar, EncodeChar;
    if b != [] {
      var (c, n) := DecodeChar(b).value;
      CharPrintsBack(b);
      PrintsBack(b[n..]);
      var s := Decode(b[n..]).value;
      assert ([c] + s)[1..] == s;
      assert b == b[..n] + b[n..];
    }
  }

  /** How many octets one replacement character stands for: the longest prefix of `b` that could
      still have become a well-formed character, and at least one. */
  function BrokenLength(b: bytes): (n: nat)
    requires b != []
    ensures 1 <= n <= |b|
  {
    if 0xE0 <= b[0] < 0xF5 && |b| >= 2 && SecondAfter(b[0], b[1]) then
      if 0xF0 <= b[0] && |b| >= 3 && Continuation(b[2]) then 3 else 2
    else 1
  }

  function DecodeLossy(b: bytes): string
    decreases |b|
  {
    if b == [] then ""
    else
      match DecodeChar(b)
      case Some((c, n)) => [c] + DecodeLossy(b[n..])
      case None => [REPLACEMENT] + DecodeLossy(b[BrokenLength(b)..])
  }

  /** On well-formed input the two decoders agree. */
  lemma {:induction false} LossyIsExact(b: bytes)
    requires Decode(b).Some?
    ensures DecodeLossy(b) == Decode(b).value
  {
    hide DecodeChar;
    if b != [] {
      LossyIsExact(b[DecodeChar(b).value.1..]);
    }
  }

  /** Well-formed text in front of anything is kept. */
  lemma {:induction false} LossyKeepsText(s: string, rest: bytes)
    ensures DecodeLossy(Encode(s) + rest) == s + DecodeLossy(rest)
  {
    hide DecodeChar, EncodeChar, BrokenLength;
    if s == "" {
      assert Encode(s) + rest == rest;
    } else {
      var head, tail := EncodeChar(s[0]), Encode(s[1..]);
      assert Encode(s) + rest == head + (tail + rest);
      CharReadsBack(s[0], tail + rest);
      assert (head + (tail + rest))[|head|..] == tail + rest;
      LossyKeepsText(s[1..], rest);
      assert [s[0]] + s[1..] == s;
    }
  }

  /** Where no well-formed character starts, one U+FFFD stands for the longest piece that could have become
      one, or for one octet. */
  lemma LossyReplaces(b: bytes, more: bytes) returns (missing: bytes)
    requires b != [] && DecodeChar(b).None?
    ensures var n := BrokenLength(b);
            && DecodeLossy(b) == ['\U{FFFD}'] + DecodeLossy(b[n..])
            && (n > 1 ==> DecodeChar(b[..n] + missing).Some? && DecodeChar(b[..n] + missing).value.1 > n)
            && (n < |b| ==> DecodeChar(b[..n + 1] + more).None?)
  {
    var n := BrokenLength(b);
    missing := if n == 2 && b[0] >= 0xF0 then [0x80, 0x80] else [0x80];
    if n < |b| {
      var d := b[..n + 1] + more;
      assert forall k | 0 <= k <= n :: d[k] == b[k];
    }
  }
}
