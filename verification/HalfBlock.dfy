/** The QR print: a padded grid in a flat array, two grid rows to a line of half-block glyphs. */
module HalfBlock {
  import opened Wrappers

  const QUIET := 2

  const FULL: char := '\U{2588}'
  const UPPER: char := '\U{2580}'
  const LOWER: char := '\U{2584}'
  const BLANK: char := ' '

  function Padded(modules: nat): nat {
    modules + QUIET * 2
  }

  /** Row-major position in a flat array. */
  function Index(r: nat, c: nat, width: nat): nat {
    r * width + c
  }

  /** Positions stay inside the array, and different cells have different positions. */
  lemma IndexInRange(r: nat, c: nat, rows: nat, width: nat)
    requires r < rows && c < width
    ensures Index(r, c, width) < rows * width
  {
    assert (r + 1) * width <= rows * width;
  }

  lemma IndexIsInjective(r: nat, c: nat, r': nat, c': nat, width: nat)
    requires c < width && c' < width
    ensures Index(r, c, width) == Index(r', c', width) <==> r == r' && c == c'
  {
    if r < r' {
      IndexInRange(r, c, r', width);
    } else if r' < r {
      IndexInRange(r', c', r, width);
    }
  }

  lemma AllIndices(rows: nat, width: nat)
    ensures forall r: nat, c: nat | r < rows && c < width :: Index(r, c, width) < rows * width
  {
    forall r: nat, c: nat | r < rows && c < width
      ensures Index(r, c, width) < rows * width
    {
      IndexInRange(r, c, rows, width);
    }
  }

  lemma AllIndicesDiffer(r: nat, c: nat, width: nat)
    requires c < width
    ensures forall r': nat, c': nat | c' < width :: Index(r, c, width) == Index(r', c', width) <==> r == r' && c == c'
  {
    forall r': nat, c': nat | c' < width
      ensures Index(r, c, width) == Index(r', c', width) <==> r == r' && c == c'
    {
      IndexIsInjective(r, c, r', c', width);
    }
  }

  predicate Interior(modules: nat, r: nat, c: nat) {
    QUIET <= r < modules + QUIET && QUIET <= c < modules + QUIET
  }

  /** What the print shows at row `r`, column `c`: the code inside, light in the quiet zone and beyond. */
  predicate Dark(raw: seq<bool>, modules: nat, r: nat, c: nat)
    requires |raw| == modules * modules
  {
    && Interior(modules, r, c)
    && (IndexInRange(r - QUIET, c - QUIET, modules, modules); raw[Index(r - QUIET, c - QUIET, modules)])
  }

  /** The flat matrix with its quiet zone. */
  method PadGrid(raw: seq<bool>, modules: nat) returns (grid: array<bool>)
    requires |raw| == modules * modules
    ensures fresh(grid) && grid.Length == Padded(modules) * Padded(modules)
    ensures forall r: nat, c: nat | r < Padded(modules) && c < Padded(modules) ::
              Index(r, c, Padded(modules)) < grid.Length
                  && grid[Index(r, c, Padded(modules))] == Dark(raw, modules, r, c)
  {
    var padded := Padded(modules);
    AllIndices(modules, modules);
    AllIndices(padded, padded);
    DarkOnlyInside(raw, modules);
    hide Index, Dark;
    grid := new bool[padded * padded](_ => false);
    for row := 0 to modules
      invariant forall r: nat, c: nat | r < padded && c < padded ::
                  grid[Index(r, c, padded)] == (r < row + QUIET && Dark(raw, modules, r, c))
    {
      for col := 0 to modules
        invariant forall r: nat, c: nat | r < padded && c < padded ::
                    grid[Index(r, c, padded)] ==
                    ((r < row + QUIET || (r == row + QUIET && c < col + QUIET)) && Dark(raw, modules, r, c))
      {
        AllIndicesDiffer(row + QUIET, col + QUIET, padded);
        DarkInside(raw, modules, row, col);
        grid[Index(row + QUIET, col + QUIET, padded)] := raw[Index(row, col, modules)];
      }
    }
  }

  lemma DarkInside(raw: seq<bool>, modules: nat, row: nat, col: nat)
    requires |raw| == modules * modules && row < modules && col < modules
    ensures Index(row, col, modules) < |raw|
    ensures Dark(raw, modules, row + QUIET, col + QUIET) == raw[Index(row, col, modules)]
  {
    IndexInRange(row, col, modules, modules);
  }

  lemma DarkOnlyInside(raw: seq<bool>, modules: nat)
    requires |raw| == modules * modules
    ensures forall r: nat, c: nat :: Dark(raw, modules, r, c) ==> Interior(modules, r, c)
  {
  }

  // ---- glyphs ----

  function Glyph(top: bool, bottom: bool): char {
    if top && bottom then FULL else if top then UPPER else if bottom then LOWER else BLANK
  }

  /** The four glyphs of the Unicode block "Block Elements": full, upper half, lower half, and none. */
  lemma GlyphTable()
    ensures Glyph(true, true) == '\U{2588}' && Glyph(true, false) == '\U{2580}'
    ensures Glyph(false, true) == '\U{2584}' && Glyph(false, false) == ' '
  {
  }

  predicate TopOf(glyph: char) { glyph == FULL || glyph == UPPER }
  predicate BottomOf(glyph: char) { glyph == FULL || glyph == LOWER }

  function HalfRows(padded: nat): nat {
    (padded + 1) / 2
  }

  /** Two grid rows to a line; past the last row everything is light. */
  method RenderLines(grid: array<bool>, padded: nat) returns (lines: seq<string>)
    requires grid.Length == padded * padded
    ensures |lines| == HalfRows(padded)
    ensures forall h | 0 <= h < |lines| :: |lines[h]| == padded
    ensures forall r: nat, c: nat | r < padded && c < padded :: Index(r, c, padded) < grid.Length
    ensures forall h: nat, c: nat | h < |lines| && c < padded ::
              lines[h][c] == Glyph(grid[Index(2 * h, c, padded)],
                        2 * h + 1 < padded && grid[Index(2 * h + 1, c, padded)])
  {
    AllIndices(padded, padded);
    hide Index;
    lines := [];
    for halfRow := 0 to HalfRows(padded)
      invariant |lines| == halfRow
      invariant forall h | 0 <= h < |lines| :: |lines[h]| == padded
      invariant forall h: nat, c: nat | h < |lines| && c < padded ::
                  lines[h][c] == Glyph(grid[Index(2 * h, c, padded)],
                        2 * h + 1 < padded && grid[Index(2 * h + 1, c, padded)])
    {
      var topRow := halfRow * 2;
      var botRow := halfRow * 2 + 1;
      var spans := "";
      for col := 0 to padded
        invariant |spans| == col
        invariant forall c: nat | c < col ::
                    spans[c] == Glyph(grid[Index(topRow, c, padded)], botRow < padded && grid[Index(botRow, c, padded)])
      {
        var top := topRow < padded && grid[Index(topRow, col, padded)];
        var bot := botRow < padded && grid[Index(botRow, col, padded)];
        spans := spans + [Glyph(top, bot)];
      }
      lines := lines + [spans];
    }
  }

  /** What a scanner sees at row `r`, column `c` of the printed lines. */
  predicate Printed(lines: seq<string>, r: nat, c: nat)
    requires r / 2 < |lines| && c < |lines[r / 2]|
  {
    if r % 2 == 0 then TopOf(lines[r / 2][c]) else BottomOf(lines[r / 2][c])
  }

  /** What the scanner must see: the code, two cells in from every side, and light around it. */
  lemma DarkIs(raw: seq<bool>, modules: nat, r: nat, c: nat)
    requires |raw| == modules * modules
    ensures Padded(modules) == modules + 4
    ensures r < modules && c < modules ==>
              r * modules + c < |raw| && Dark(raw, modules, r + 2, c + 2) == raw[r * modules + c]
    ensures r < 2 || c < 2 || r >= modules + 2 || c >= modules + 2 ==> !Dark(raw, modules, r, c)
  {
    if r < modules && c < modules {
      DarkInside(raw, modules, r, c);
    }
  }

  /** The print of a code: reading the glyphs back gives the code with its quiet zone, and a last odd row
      is completed with light. */
  method Print(raw: seq<bool>, modules: nat) returns (lines: seq<string>)
    requires |raw| == modules * modules
    ensures |lines| == HalfRows(Padded(modules))
    ensures forall h | 0 <= h < |lines| :: |lines[h]| == Padded(modules)
    ensures forall r: nat, c: nat | r < 2 * |lines| && c < Padded(modules) ::
              Printed(lines, r, c) == Dark(raw, modules, r, c)
  {
    var grid := PadGrid(raw, modules);
    lines := RenderLines(grid, Padded(modules));
    hide Dark;
    DarkOnlyInside(raw, modules);
    forall r: nat, c: nat | r < 2 * |lines| && c < Padded(modules)
      ensures Printed(lines, r, c) == Dark(raw, modules, r, c)
    {
      assert r == 2 * (r / 2) || r == 2 * (r / 2) + 1;
      hide Index;
    }
  }

  // ---- size ----

  /** `size_hint`: the sides are cut to 16 bits. */
  function SizeHint(modules: nat): (nat, nat) {
    var side := Padded(modules) % 0x1_0000;
    (side, (side + 1) / 2)
  }

  /** The hint is the printed size exactly as long as the side fits 16 bits (QR codes have at most 177
      modules). */
  lemma HintIsExact(modules: nat)
    ensures SizeHint(modules) == (Padded(modules), HalfRows(Padded(modules))) <==> Padded(modules) < 0x1_0000
  {
  }
}
