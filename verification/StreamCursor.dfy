/** Stream cursors (Redis stream ids `<millis>-<seq>`) and the rule by which a stored one advances. */
module StreamCursor {
  import opened Wrappers
  import opened Bytes
  import opened Text

  function ParseCursor(s: string): Option<(u64, u64)> {
    match SplitOnce(s, '-')
    case None => None
    case Some((ms, seqNo)) =>
      match (ParseU64(ms), ParseU64(seqNo))
      case (Some(a), Some(b)) => Some((a, b))
      case _ => None
  }

  /** `cursor_after`: by (millis, seq) when both parse, else by string order. */
  predicate After(new_: string, old_: string) {
    match (ParseCursor(new_), ParseCursor(old_))
    case (Some(a), Some(b)) => a.0 > b.0 || (a.0 == b.0 && a.1 > b.1)
    case _ => Less(old_, new_)
  }

  /** The millisecond part, which is all the replay guard looks at. */
  function CursorMillis(c: Option<string>): Option<u64> {
    if c.None? then None else
    match SplitOnce(c.value, '-')
    case None => None
    case Some((ms, _)) => ParseU64(ms)
  }

  ghost predicate WellFormed(c: string) {
    ParseCursor(c).Some?
  }

  /** The place of a well-formed cursor in the stream. */
  ghost function Rank(c: string): nat
    requires WellFormed(c)
  {
    ParseCursor(c).value.0 * 0x1_0000_0000_0000_0000 + ParseCursor(c).value.1
  }

  /** On well-formed cursors `After` is the numeric order of ranks, hence a strict weak order. */
  lemma AfterIsRankOrder(a: string, b: string)
    requires WellFormed(a) && WellFormed(b)
    ensures After(a, b) <==> Rank(a) > Rank(b)
  {
  }

  // ---- on texts ----

  /** What the server sends: milliseconds, a hyphen, a sequence number. */
  function CursorText(millis: u64, seqNo: u64): string {
    Decimal(millis) + "-" + Decimal(seqNo)
  }

  lemma {:induction false} SplitAtFirst(a: string, b: string)
    requires '-' !in a
    ensures SplitOnce(a + "-" + b, '-') == Some((a, b))
  {
    var s := a + "-" + b;
    assert s[|a|] == '-';
    SameHead('-', a, b, SplitOnce(s, '-').value.0, SplitOnce(s, '-').value.1);
  }

  /** A cursor's text parses to its milliseconds and its sequence number, in this order. */
  lemma CursorParses(millis: u64, seqNo: u64)
    ensures ParseCursor(CursorText(millis, seqNo)) == Some((millis, seqNo))
    ensures CursorMillis(Some(CursorText(millis, seqNo))) == Some(millis)
    ensures WellFormed(CursorText(millis, seqNo))
  {
    ParsesU64(millis);
    ParsesU64(seqNo);
    SplitAtFirst(Decimal(millis), Decimal(seqNo));
  }

  /** On texts, `cursor_after` compares the milliseconds, and only at equal milliseconds the sequence
      numbers. */
  lemma AfterOnTexts(a: u64, b: u64, c: u64, d: u64)
    ensures After(CursorText(a, b), CursorText(c, d)) <==> a > c || (a == c && b > d)
  {
    CursorParses(a, b);
    CursorParses(c, d);
  }

  /** When either text is no cursor, the order is that of the strings. */
  lemma AfterFallsBack(new_: string, old_: string)
    requires ParseCursor(new_).None? || ParseCursor(old_).None?
    ensures After(new_, old_) <==> Less(old_, new_)
  {
  }

  /** So a rank is the milliseconds and the sequence number read as one number. */
  lemma RankOnTexts(millis: u64, seqNo: u64)
    ensures WellFormed(CursorText(millis, seqNo))
    ensures Rank(CursorText(millis, seqNo)) == millis * 0x1_0000_0000_0000_0000 + seqNo
  {
    CursorParses(millis, seqNo);
  }

  // ---- advancing ----

  /** Whether saving `c` over `stored` moves the watermark (`save_stream_cursor`). */
  predicate Moves(stored: Option<string>, c: string) {
    c != "" && (stored.None? || After(c, stored.value))
  }

  function Advance(stored: Option<string>, c: string): Option<string> {
    if Moves(stored, c) then Some(c) else stored
  }

  function AdvanceAll(stored: Option<string>, cs: seq<string>): Option<string>
    decreases cs
  {
    if cs == [] then stored else AdvanceAll(Advance(stored, cs[0]), cs[1..])
  }

  ghost predicate Sound(stored: Option<string>) {
    stored.Some? ==> WellFormed(stored.value)
  }

  /** The place of a watermark; no watermark is before every cursor. */
  ghost function Place(stored: Option<string>): int
    requires Sound(stored)
  {
    if stored.Some? then Rank(stored.value) else -1
  }

  /** One save: the watermark takes the later place, and reports a move exactly when it grew. */
  lemma AdvanceTakesTheLater(stored: Option<string>, c: string)
    requires Sound(stored) && WellFormed(c)
    ensures Sound(Advance(stored, c))
    ensures Place(Advance(stored, c)) == if Rank(c) > Place(stored) then Rank(c) else Place(stored)
    ensures Moves(stored, c) <==> Place(Advance(stored, c)) > Place(stored)
  {
    if stored.Some? {
      AfterIsRankOrder(c, stored.value);
    }
    assert ParseCursor("").None?;
  }

  /** Any sequence of saves ends at the numeric maximum of where it started and what it saved. */
  lemma {:induction false} AdvanceAllIsMaximum(stored: Option<string>, cs: seq<string>)
    requires Sound(stored) && forall c | c in cs :: WellFormed(c)
    ensures Sound(AdvanceAll(stored, cs))
    ensures Place(AdvanceAll(stored, cs)) >= Place(stored)
    ensures forall c | c in cs :: Place(AdvanceAll(stored, cs)) >= Rank(c)
    ensures AdvanceAll(stored, cs) == stored || (AdvanceAll(stored, cs).Some? && AdvanceAll(stored, cs).value in cs)
    decreases cs
  {
    if cs != [] {
      AdvanceTakesTheLater(stored, cs[0]);
      AdvanceAllIsMaximum(Advance(stored, cs[0]), cs[1..]);
      assert cs == [cs[0]] + cs[1..];
    }
  }

  /** So the order of the saves, and how often each is repeated, does not matter. */
  lemma OrderIsIrrelevant(stored: Option<string>, cs: seq<string>, ds: seq<string>)
    requires Sound(stored) && forall c | c in cs :: WellFormed(c)
    requires forall c :: c in cs <==> c in ds
    ensures Sound(AdvanceAll(stored, cs)) && Sound(AdvanceAll(stored, ds))
    ensures Place(AdvanceAll(stored, cs)) == Place(AdvanceAll(stored, ds))
  {
    AdvanceAllIsMaximum(stored, cs);
    AdvanceAllIsMaximum(stored, ds);
  }
}
