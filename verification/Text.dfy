/** The string operations of the Rust standard library that the modelled code relies on.
    A Rust string is a sequence of Unicode scalar values. */
module Text {
  import opened Wrappers
  import opened Bytes

  predicate Ascii(s: string) {
    forall c | c in s :: c as int < 0x80
  }

  function LowerChar(c: char): char {
    if 'A' <= c <= 'Z' then (c as int + 32) as char else c
  }

  function AsciiLower(s: string): (r: string)
    ensures |r| == |s| && forall k | 0 <= k < |s| :: r[k] == LowerChar(s[k])
  {
    seq(|s|, i requires 0 <= i < |s| => LowerChar(s[i]))
  }

  // ---- trimming ----

  /** The Unicode White_Space property. */
  predicate White(c: char) {
    var n := c as int;
    || 0x09 <= n <= 0x0D || n == 0x20 || n == 0x85 || n == 0xA0 || n == 0x1680
    || 0x2000 <= n <= 0x200A || n == 0x2028 || n == 0x2029 || n == 0x202F || n == 0x205F || n == 0x3000
  }

  function TrimStart(s: string): string {
    if s != [] && White(s[0]) then TrimStart(s[1..]) else s
  }

  function TrimEnd(s: string): string {
    if s != [] && White(s[|s| - 1]) then TrimEnd(s[..|s| - 1]) else s
  }

  function Trim(s: string): string {
    TrimEnd(TrimStart(s))
  }

  predicate Trimmed(s: string) {
    s == "" || (!White(s[0]) && !White(s[|s| - 1]))
  }

  predicate AllWhite(s: string) {
    forall c | c in s :: White(c)
  }

  lemma {:induction false} TrimStartIsSuffix(s: string) returns (before: string)
    ensures TrimStart(s) == "" || !White(TrimStart(s)[0])
    ensures s == before + TrimStart(s) && AllWhite(before)
  {
    before := "";
    if s != [] && White(s[0]) {
      before := TrimStartIsSuffix(s[1..]);
      assert s == [s[0]] + s[1..];
      before := [s[0]] + before;
    }
  }

  lemma {:induction false} TrimEndIsPrefix(s: string) returns (after: string)
    ensures TrimEnd(s) <= s
    ensures TrimEnd(s) == "" || !White(TrimEnd(s)[|TrimEnd(s)| - 1])
    ensures s == TrimEnd(s) + after && AllWhite(after)
  {
    after := "";
    if s != [] && White(s[|s| - 1]) {
      after := TrimEndIsPrefix(s[..|s| - 1]);
      assert s == s[..|s| - 1] + [s[|s| - 1]];
      after := after + [s[|s| - 1]];
    }
  }

  /** `Trim` takes off white space at both ends, and nothing else. */
  lemma TrimIsMiddle(s: string) returns (before: string, after: string)
    ensures s == before + Trim(s) + after && AllWhite(before) && AllWhite(after)
  {
    before := TrimStartIsSuffix(s);
    after := TrimEndIsPrefix(TrimStart(s));
    assert s == before + (Trim(s) + after);
  }

  /** So whatever white space surrounds a trimmed text, trimming gives that text. */
  lemma {:induction false} TrimStripsWhite(before: string, s: string, after: string)
    requires AllWhite(before) && AllWhite(after) && Trimmed(s) && s != ""
    ensures Trim(before + s + after) == s
  {
    if before != "" {
      var t := before + s + after;
      assert t[0] == before[0] && t[1..] == before[1..] + s + after;
      TrimStripsWhite(before[1..], s, after);
    } else {
      assert before + s + after == s + after;
      TrimEndStops(s, after);
      TrimEndOfWhite(after);
      assert s + "" == s;
    }
  }

  lemma {:induction false} TrimEndOfWhite(s: string)
    requires AllWhite(s)
    ensures TrimEnd(s) == ""
  {
    if s != "" {
      TrimEndOfWhite(s[..|s| - 1]);
    }
  }

  /** `Trim` yields a trimmed string, and is the identity on exactly the trimmed ones. */
  lemma TrimTrims(s: string)
    ensures Trimmed(Trim(s))
    ensures Trim(s) == s <==> Trimmed(s)
  {
    var _ := TrimStartIsSuffix(s);
    var _ := TrimEndIsPrefix(TrimStart(s));
  }

  /** Trimming the end of `s + t` cannot reach past a last character of `s` that is not white. */
  lemma {:induction false} TrimEndStops(s: string, t: string)
    requires s != "" && !White(s[|s| - 1])
    ensures TrimEnd(s + t) == s + TrimEnd(t)
  {
    if t == "" {
      assert s + t == s;
    } else {
      assert (s + t)[..|s + t| - 1] == s + t[..|t| - 1];
      if White(t[|t| - 1]) {
        TrimEndStops(s, t[..|t| - 1]);
      }
    }
  }

  // ---- searching and splitting ----

  predicate OccursAt(s: string, pat: string, k: nat) {
    k + |pat| <= |s| && s[k..k + |pat|] == pat
  }

  /** `str::find`: the first position at which `pat` occurs. */
  function Find(s: string, pat: string): (r: Option<nat>)
    ensures r.Some? ==> OccursAt(s, pat, r.value)
    ensures forall k: nat | OccursAt(s, pat, k) :: r.Some? && r.value <= k
  {
    if |pat| > |s| then None
    else if OccursAt(s, pat, 0) then Some(0)
    else
      assert forall k: nat | k > 0 && OccursAt(s, pat, k) :: OccursAt(s[1..], pat, k - 1);
      var rest := Find(s[1..], pat);
      if rest.None? then None else Some(rest.value + 1)
  }

  lemma OccurrenceChar(s: string, pat: string, k: nat, j: nat)
    requires OccursAt(s, pat, k) && j < |pat|
    ensures s[k + j] == pat[j] && pat[j] in s
  {
    assert s[k..k + |pat|][j] == s[k + j];
  }

  /** `str::split_once` on a character. */
  function SplitOnce(s: string, sep: char): (r: Option<(string, string)>)
    ensures r.Some? ==> s == r.value.0 + [sep] + r.value.1 && sep !in r.value.0
    ensures r.None? <==> sep !in s
  {
    if s == "" then None
    else if s[0] == sep then Some(("", s[1..]))
    else
      match SplitOnce(s[1..], sep)
      case None => None
      case Some((a, b)) => Some(([s[0]] + a, b))
  }

  /** A field free of the separator is determined by a string that starts with it. */
  lemma {:induction false} SameHead(sep: char, a: string, x: string, b: string, y: string)
    requires sep !in a && sep !in b
    requires a + [sep] + x == b + [sep] + y
    ensures a == b && x == y
  {
    var s, t := a + [sep] + x, b + [sep] + y;
    assert s[|a|] == sep && t[|b|] == sep;
    assert a == s[..|a|] && b == t[..|b|];
    assert x == s[|a| + 1..] && y == t[|b| + 1..];
  }

  /** Likewise for a field at the end. */
  lemma {:induction false} SameLast(sep: char, x: string, a: string, y: string, b: string)
    requires sep !in a && sep !in b
    requires x + [sep] + a == y + [sep] + b
    ensures a == b && x == y
  {
    var s, t := x + [sep] + a, y + [sep] + b;
    assert s[|x|] == sep && t[|y|] == sep;
    assert x == s[..|x|] && y == t[..|y|];
    assert a == s[|x| + 1..] && b == t[|y| + 1..];
  }

  // ---- numbers ----

  function DigitChar(d: nat): (c: char)
    requires d < 10
    ensures '0' <= c <= '9'
  {
    ('0' as int + d) as char
  }

  predicate IsDigit(c: char) {
    '0' <= c <= '9'
  }

  /** `Display` of an unsigned integer. */
  function Decimal(n: nat): (s: string)
    ensures s != "" && IsDigit(s[0]) && forall c | c in s :: IsDigit(c)
  {
    if n < 10 then [DigitChar(n)] else Decimal(n / 10) + [DigitChar(n % 10)]
  }

  /** `Display` of a signed integer. */
  function DecimalInt(n: int): (s: string)
    ensures s != "" && (s[0] == '-' <==> n < 0) && forall c | c in s :: IsDigit(c) || c == '-'
  {
    if n < 0 then "-" + Decimal(-n) else Decimal(n)
  }

  function Digits(s: string): Option<nat> {
    if s == "" then Some(0)
    else
      match Digits(s[..|s| - 1])
      case None => None
      case Some(n) =>
        var c := s[|s| - 1];
        if IsDigit(c) then Some(n * 10 + (c as int - '0' as int)) else None
  }

  /** Rust's `str::parse::<u64>`: an optional '+', at least one digit, leading zeros allowed,
      no overflow. */
  function ParseU64(s: string): Option<u64> {
    var d := if s != "" && s[0] == '+' then s[1..] else s;
    if d == "" then None
    else
      match Digits(d)
      case None => None
      case Some(n) => if n < 0x1_0000_0000_0000_0000 then Some(n) else None
  }

  lemma {:induction false} DecimalReadsBack(n: nat)
    ensures Digits(Decimal(n)) == Some(n)
  {
    if n < 10 {
      assert [DigitChar(n)][..0] == "";
    } else {
      DecimalReadsBack(n / 10);
      assert Decimal(n)[..|Decimal(n)| - 1] == Decimal(n / 10);
    }
  }

  lemma {:induction false} LeadingZero(s: string)
    ensures Digits("0" + s) == Digits(s)
  {
    if s != "" {
      assert ("0" + s)[..|s|] == "0" + s[..|s| - 1];
      LeadingZero(s[..|s| - 1]);
    } else {
      assert ("0" + s)[..0] == "";
    }
  }

  /** What a `u64` parses from: its decimal digits, with a '+' or further zeros in front; and the digits of
      no larger number. */
  lemma ParsesU64(n: nat)
    ensures ParseU64(Decimal(n)) == if n < 0x1_0000_0000_0000_0000 then Some(n) else None
    ensures ParseU64("+" + Decimal(n)) == ParseU64(Decimal(n)) == ParseU64("0" + Decimal(n))
  {
    DecimalReadsBack(n);
    LeadingZero(Decimal(n));
    assert Decimal(n)[0] != '+';
    assert ("+" + Decimal(n))[1..] == Decimal(n);
  }

  lemma DecimalIntIsInjective(a: int, b: int)
    requires DecimalInt(a) == DecimalInt(b)
    ensures a == b
  {
    DecimalReadsBack(if a < 0 then -a else a);
    DecimalReadsBack(if b < 0 then -b else b);
    assert a < 0 ==> DecimalInt(a)[1..] == Decimal(-a);
    assert b < 0 ==> DecimalInt(b)[1..] == Decimal(-b);
  }

  // ---- order ----

  /** Rust's `str` order: byte-wise on UTF-8, which is code-point order. */
  predicate Less(a: string, b: string) {
    if b == "" then false
    else if a == "" then true
    else a[0] < b[0] || (a[0] == b[0] && Less(a[1..], b[1..]))
  }

  /** That is: after what two strings have in common, the shorter or the one with the smaller character is
      less. */
  lemma {:induction false} LessAtDifference(common: string, a: string, b: string)
    requires a == "" || b == "" || a[0] != b[0]
    ensures Less(common + a, common + b) <==> b != "" && (a == "" || a[0] < b[0])
  {
    if common == "" {
      assert common + a == a && common + b == b;
    } else {
      assert (common + a)[1..] == common[1..] + a && (common + b)[1..] == common[1..] + b;
      LessAtDifference(common[1..], a, b);
    }
  }
}
