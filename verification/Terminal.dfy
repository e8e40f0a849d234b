/** The console as a grid of character cells: cursor, wrapping, scrolling and colours. */
module Terminal {
  import opened Prelude
  import opened Ansi

  datatype Color = Color(r: nat, g: nat, b: nat, a: nat)
  {
    /** The 32-bit pixel, alpha in the top byte. */
    function ToU32(): nat
    {
      a * 0x100_0000 + r * 0x1_0000 + g * 0x100 + b
    }
  }

  const BLACK := Color(0, 0, 0, 255)
  const WHITE := Color(255, 255, 255, 255)
  const RED := Color(255, 0, 0, 255)
  const GREEN := Color(0, 255, 0, 255)
  const BLUE := Color(0, 0, 255, 255)
  const YELLOW := Color(255, 255, 0, 255)
  const CYAN := Color(0, 255, 255, 255)
  const MAGENTA := Color(255, 0, 255, 255)

  predicate IsColor(c: Color)
  {
    c.r < 256 && c.g < 256 && c.b < 256 && c.a < 256
  }

  /** Different colours have different pixels, which fit 32 bits. */
  lemma ColorsAreDistinguished(c: Color, d: Color)
    requires IsColor(c) && IsColor(d)
    ensures c.ToU32() < 0x1_0000_0000 && (c.ToU32() == d.ToU32() <==> c == d)
  {
    if c.ToU32() == d.ToU32() {
      assert c.a == d.a;
      assert c.r == d.r;
    }
  }

  // ----- Select graphic rendition (section 8.3.117 of ECMA-48) -----

  datatype Colors = Colors(fg: Color, bg: Color)

  /** The eight colours in the order of their codes. */
  function Palette(i: nat): Color
    requires i < 8
  {
    [BLACK, RED, GREEN, YELLOW, BLUE, MAGENTA, CYAN, WHITE][i]
  }

  /** The code of a colour has one bit for each of red, green and blue. */
  lemma PaletteIsThreeBits(i: nat)
    requires i < 8
    ensures Palette(i) == Color(255 * (i % 2), 255 * (i / 2 % 2), 255 * (i / 4), 255)
  {
  }

  function ApplyParam(c: Colors, p: nat): Colors
  {
    match p
    case 0 => Colors(WHITE, BLACK)
    case 30 => c.(fg := BLACK)
    case 31 => c.(fg := RED)
    case 32 => c.(fg := GREEN)
    case 33 => c.(fg := YELLOW)
    case 34 => c.(fg := BLUE)
    case 35 => c.(fg := MAGENTA)
    case 36 => c.(fg := CYAN)
    case 37 => c.(fg := WHITE)
    case 40 => c.(bg := BLACK)
    case 41 => c.(bg := RED)
    case 42 => c.(bg := GREEN)
    case 43 => c.(bg := YELLOW)
    case 44 => c.(bg := BLUE)
    case 45 => c.(bg := MAGENTA)
    case 46 => c.(bg := CYAN)
    case 47 => c.(bg := WHITE)
    case _ => c
  }

  function ApplySgr(c: Colors, ps: seq<nat>): Colors
  {
    if ps == [] then c else ApplyParam(ApplySgr(c, ps[..|ps| - 1]), ps[|ps| - 1])
  }

  /** Parameters that decide the colour of the plane whose codes start at `base`. */
  predicate Decides(p: nat, base: nat)
  {
    p == 0 || base <= p < base + 8
  }

  /** `r` is what the last deciding parameter says, or `before` when there is none. */
  ghost predicate LastWins(ps: seq<nat>, base: nat, reset: Color, before: Color, r: Color)
  {
    || (r == before && forall i :: 0 <= i < |ps| ==> !Decides(ps[i], base))
    || (exists i :: 0 <= i < |ps| && IsLastDecision(ps, base, i) && r == ColorFor(ps[i], base, reset))
  }

  ghost predicate IsLastDecision(ps: seq<nat>, base: nat, i: nat)
    requires i < |ps|
  {
    Decides(ps[i], base) && forall j :: i < j < |ps| ==> !Decides(ps[j], base)
  }

  /** The colour a deciding parameter selects. */
  function ColorFor(p: nat, base: nat, reset: Color): Color
    requires Decides(p, base)
  {
    if p == 0 then reset else Palette(p - base)
  }

  /** Each plane is set by the last parameter that concerns it. */
  lemma {:induction false} LastParameterWins(c: Colors, ps: seq<nat>)
    ensures LastWins(ps, 30, WHITE, c.fg, ApplySgr(c, ps).fg)
    ensures LastWins(ps, 40, BLACK, c.bg, ApplySgr(c, ps).bg)
  {
    if ps != [] {
      var front, p := ps[..|ps| - 1], ps[|ps| - 1];
      LastParameterWins(c, front);
      assert forall i :: 0 <= i < |front| ==> front[i] == ps[i];
    }
  }

  // ----- The grid -----

  /** A cell holds a drawn character, what was on the screen before, or cleared memory. */
  datatype Cell =
    | Glyph(c: nat, fg: Color, bg: Color)
    | Cleared
    | Found(pixel: (nat, nat) -> nat)

  const NEWLINE: nat := 0x0a

  datatype Term = Term(grid: seq<seq<Cell>>, col: nat, row: nat, colors: Colors)

  ghost predicate Well(t: Term, rows: nat, cols: nat)
  {
    && 0 < rows && 0 < cols
    && |t.grid| == rows && (forall r :: 0 <= r < rows ==> |t.grid[r]| == cols)
    && t.col <= cols && t.row <= rows
  }

  function Scrolled(grid: seq<seq<Cell>>, cols: nat): seq<seq<Cell>>
    requires grid != []
  {
    grid[1..] + [BlankRow(cols)]
  }

  function SetCell(grid: seq<seq<Cell>>, r: nat, c: nat, x: Cell): seq<seq<Cell>>
    requires r < |grid| && c < |grid[r]|
  {
    grid[r := grid[r][c := x]]
  }

  /** A cell drawn where the grid has one; elsewhere the grid stays as it is. */
  function Redrawn(grid: seq<seq<Cell>>, r: nat, c: nat, x: Cell): seq<seq<Cell>>
  {
    if r < |grid| && c < |grid[r]| then SetCell(grid, r, c, x) else grid
  }

  /** Make room: a cursor below the last row scrolls the screen by one row. */
  function MakeRoom(t: Term, rows: nat, cols: nat): Term
    requires t.grid != [] && 0 < rows
  {
    if t.row == rows then t.(grid := Scrolled(t.grid, cols), row := rows - 1) else t
  }

  /** Print one character. A wrap on the last row moves the cursor below the screen before the
      character is drawn, so that character is clipped. */
  function Put(t: Term, c: nat, rows: nat, cols: nat): Term
    requires 0 < rows && t.grid != []
  {
    var t1 := MakeRoom(t, rows, cols);
    if c == NEWLINE then t1.(col := 0, row := t1.row + 1)
    else
      var t2 := if t1.col >= cols then t1.(col := 0, row := t1.row + 1) else t1;
      t2.(grid := Redrawn(t2.grid, t2.row, t2.col, Glyph(c, t.colors.fg, t.colors.bg)), col := t2.col + 1)
  }

  /** Printing in terms of the screen after room has been made. */
  lemma PutAfterRoom(t: Term, m: Term, c: nat, rows: nat, cols: nat)
    requires Well(t, rows, cols) && m == MakeRoom(t, rows, cols)
    ensures |m.grid| == rows && (forall r :: 0 <= r < rows ==> |m.grid[r]| == cols) && m.row < rows && m.col <= cols
    ensures Put(t, c, rows, cols) ==
      if c == NEWLINE then m.(col := 0, row := m.row + 1)
      else
        var r, j := if m.col == cols then m.row + 1 else m.row, if m.col == cols then 0 else m.col;
        m.(grid := Redrawn(m.grid, r, j, Glyph(c, t.colors.fg, t.colors.bg)), row := r, col := j + 1)
  {
  }

  lemma PutKeepsWell(t: Term, c: nat, rows: nat, cols: nat)
    requires Well(t, rows, cols)
    ensures Well(Put(t, c, rows, cols), rows, cols) && Put(t, c, rows, cols).colors == t.colors
  {
  }

  /** The cell just behind the cursor shows `c` in the current colours. */
  predicate JustShown(t: Term, c: nat)
  {
    && t.row < |t.grid| && 0 < t.col <= |t.grid[t.row]|
    && t.grid[t.row][t.col - 1] == Glyph(c, t.colors.fg, t.colors.bg)
  }

  /** A printed character appears on the screen unless it has to wrap while the cursor is on
      the last row or below it. */
  lemma CharacterAppearsIff(t: Term, c: nat, rows: nat, cols: nat)
    requires Well(t, rows, cols) && c != NEWLINE
    ensures JustShown(Put(t, c, rows, cols), c) <==> !(t.col == cols && t.row >= rows - 1)
  {
  }

  // ----- Typing a text -----

  function Type(t: Term, s: seq<nat>, rows: nat, cols: nat): (r: Term)
    requires Well(t, rows, cols)
    ensures Well(r, rows, cols) && r.colors == t.colors
  {
    if s == [] then t
    else
      PutKeepsWell(Type(t, s[..|s| - 1], rows, cols), s[|s| - 1], rows, cols);
      Put(Type(t, s[..|s| - 1], rows, cols), s[|s| - 1], rows, cols)
  }

  /** Text that fits, typed from the top left corner, fills the rows in reading order: the
      character at place `r * cols + j` is in column `j` of row `r`. */
  lemma {:induction false} TypedTextFillsTheGrid(t: Term, s: seq<nat>, rows: nat, cols: nat)
    requires Well(t, rows, cols) && t.col == 0 && t.row == 0 && NEWLINE !in s && |s| <= rows * cols
    ensures var e := Type(t, s, rows, cols);
      && e.row < rows && e.row * cols + e.col == |s|
      && (forall r, j :: 0 <= r < rows && 0 <= j < cols ==>
            e.grid[r][j] ==
              if Place(r, j, cols) < |s| then Glyph(s[Place(r, j, cols)], t.colors.fg, t.colors.bg)
              else t.grid[r][j])
  {
    if s != [] {
      var front, c := s[..|s| - 1], s[|s| - 1];
      TypedTextFillsTheGrid(t, front, rows, cols);
      var m := Type(t, front, rows, cols);
      NextPlace(m.row, m.col, rows, cols, |front|);
      var e := Type(t, s, rows, cols);
      var at := (e.row, e.col - 1);
      forall r, j | 0 <= r < rows && 0 <= j < cols
        ensures e.grid[r][j] ==
          if Place(r, j, cols) < |s| then Glyph(s[Place(r, j, cols)], t.colors.fg, t.colors.bg)
          else t.grid[r][j]
      {
        PlaceIsInjective(r, j, at.0, at.1, cols);
      }
    }
  }

  /** Reading order. */
  function Place(r: nat, j: nat, cols: nat): nat
  {
    r * cols + j
  }

  lemma PlaceIsInjective(r: nat, j: nat, r': nat, j': nat, cols: nat)
    requires j < cols && j' < cols
    ensures Place(r, j, cols) == Place(r', j', cols) <==> r == r' && j == j'
  {
    if r < r' {
      LineStarts(r, r', cols);
    } else if r' < r {
      LineStarts(r', r, cols);
    }
  }

  /** While the screen is not full there is room for one more character. */
  lemma NextPlace(row: nat, col: nat, rows: nat, cols: nat, n: nat)
    requires row * cols + col == n && n < rows * cols && col <= cols && row < rows
    ensures col == cols ==> row + 1 < rows && (row + 1) * cols == n
  {
    if col == cols {
      assert (row + 1) * cols == row * cols + cols;
    }
  }

  /** The first character after a full screen of text is the one that is lost. */
  lemma FullScreenLosesNextCharacter(t: Term, s: seq<nat>, c: nat, rows: nat, cols: nat)
    requires Well(t, rows, cols) && t.col == 0 && t.row == 0 && NEWLINE !in s && |s| == rows * cols && c != NEWLINE
    ensures !JustShown(Put(Type(t, s, rows, cols), c, rows, cols), c)
    ensures Put(Type(t, s, rows, cols), c, rows, cols).grid == Type(t, s, rows, cols).grid
  {
    TypedTextFillsTheGrid(t, s, rows, cols);
    var e := Type(t, s, rows, cols);
    assert e.row == rows - 1 && e.col == cols by {
      FullPosition(e.row, e.col, rows, cols);
    }
    CharacterAppearsIff(e, c, rows, cols);
  }

  lemma FullPosition(row: nat, col: nat, rows: nat, cols: nat)
    requires row < rows && col <= cols && 0 < cols && row * cols + col == rows * cols
    ensures row == rows - 1 && col == cols
  {
    LineStarts(row, row + 1, cols);
    LineStarts(row, rows, cols);
    if row + 1 < rows {
      LineStarts(row + 1, rows, cols);
    }
  }

  // ----- Texts of many lines -----

  function BlankRow(cols: nat): seq<Cell>
  {
    seq(cols, _ => Cleared)
  }

  /** A row that shows a line of text. */
  function LineRow(line: seq<nat>, cols: nat, k: Colors): seq<Cell>
  {
    seq(cols, j requires 0 <= j => if j < |line| then Glyph(line[j], k.fg, k.bg) else Cleared)
  }

  /** Row `i` of an unbounded page that holds the lines and nothing else. */
  function PageRow(lines: seq<seq<nat>>, i: nat, cols: nat, k: Colors): seq<Cell>
  {
    if i < |lines| then LineRow(lines[i], cols, k) else BlankRow(cols)
  }

  /** The screen shows the unbounded page from row `|lines| - 1 - t.row` on, the cursor behind
      the last line; as soon as something has scrolled, the cursor is on the last row or,
      behind a fresh newline, just below it. */
  ghost predicate ShowsTail(t: Term, lines: seq<seq<nat>>, rows: nat, cols: nat)
  {
    && Well(t, rows, cols) && lines != [] && t.row < |lines|
    && var last := lines[|lines| - 1];
    && t.col == |last|
    && (t.row + 1 < |lines| ==> t.row >= rows - 1)
    && (t.row == rows ==> last == [])
    && (forall r :: 0 <= r < rows ==> t.grid[r] == PageRow(lines, |lines| - 1 - t.row + r, cols, t.colors))
  }

  /** The text of some lines, a newline between each two. */
  function Lines(lines: seq<seq<nat>>): seq<nat>
    requires lines != []
  {
    if |lines| == 1 then lines[0]
    else Lines(lines[..|lines| - 1]) + [NEWLINE] + lines[|lines| - 1]
  }

  /** Making room leaves the cursor on a row of the screen. */
  lemma MakeRoomShowsTail(t: Term, lines: seq<seq<nat>>, rows: nat, cols: nat)
    requires ShowsTail(t, lines, rows, cols)
    ensures ShowsTail(MakeRoom(t, rows, cols), lines, rows, cols) && MakeRoom(t, rows, cols).row < rows
  {
    if t.row == rows {
      assert LineRow([], cols, t.colors) == BlankRow(cols);
    }
  }

  lemma NewlineShowsTail(t: Term, lines: seq<seq<nat>>, rows: nat, cols: nat)
    requires ShowsTail(t, lines, rows, cols)
    ensures ShowsTail(Put(t, NEWLINE, rows, cols), lines + [[]], rows, cols)
  {
    MakeRoomShowsTail(t, lines, rows, cols);
    assert LineRow([], cols, t.colors) == BlankRow(cols);
  }

  /** The lines with one more character at the end of the last one. */
  function Extended(lines: seq<seq<nat>>, c: nat): seq<seq<nat>>
    requires lines != []
  {
    lines[|lines| - 1 := lines[|lines| - 1] + [c]]
  }

  lemma CharacterShowsTail(t: Term, lines: seq<seq<nat>>, c: nat, rows: nat, cols: nat)
    requires ShowsTail(t, lines, rows, cols) && c != NEWLINE && |lines[|lines| - 1]| < cols
    ensures ShowsTail(Put(t, c, rows, cols), Extended(lines, c), rows, cols)
  {
    MakeRoomShowsTail(t, lines, rows, cols);
    var m := MakeRoom(t, rows, cols);
    var e := Put(t, c, rows, cols);
    var last := lines[|lines| - 1];
    assert e.grid == SetCell(m.grid, m.row, m.col, Glyph(c, t.colors.fg, t.colors.bg));
    assert LineRow(last + [c], cols, t.colors) ==
      LineRow(last, cols, t.colors)[|last| := Glyph(c, t.colors.fg, t.colors.bg)];
  }

  lemma {:induction false} TypeConcat(t: Term, a: seq<nat>, b: seq<nat>, rows: nat, cols: nat)
    requires Well(t, rows, cols)
    ensures Type(t, a + b, rows, cols) == Type(Type(t, a, rows, cols), b, rows, cols)
    decreases |b|
  {
    if b == [] {
      assert a + b == a;
    } else {
      assert (a + b)[..|a + b| - 1] == a + b[..|b| - 1];
      TypeConcat(t, a, b[..|b| - 1], rows, cols);
    }
  }

  lemma {:induction false} LineShowsTail(t: Term, lines: seq<seq<nat>>, line: seq<nat>, rows: nat, cols: nat)
    requires ShowsTail(t, lines + [[]], rows, cols) && NEWLINE !in line && |line| <= cols
    ensures ShowsTail(Type(t, line, rows, cols), lines + [line], rows, cols)
  {
    if line != [] {
      var front, c := line[..|line| - 1], line[|line| - 1];
      LineShowsTail(t, lines, front, rows, cols);
      CharacterShowsTail(Type(t, front, rows, cols), lines + [front], c, rows, cols);
      assert Extended(lines + [front], c) == lines + [line] by {
        assert front + [c] == line;
      }
    }
  }

  /** Any number of lines that each fit the width, printed on a cleared screen, leave the
      screen showing the last of them, in order and unbroken. */
  lemma {:induction false} ScreenShowsTheLastLines(t: Term, lines: seq<seq<nat>>, rows: nat, cols: nat)
    requires Well(t, rows, cols) && t.col == 0 && t.row == 0
    requires forall r :: 0 <= r < rows ==> t.grid[r] == BlankRow(cols)
    requires lines != [] && forall i :: 0 <= i < |lines| ==> NEWLINE !in lines[i] && |lines[i]| <= cols
    ensures ShowsTail(Type(t, Lines(lines), rows, cols), lines, rows, cols)
  {
    hide Put, PageRow, BlankRow, Type;
    var front, last := lines[..|lines| - 1], lines[|lines| - 1];
    if front == [] {
      FirstLine(t, rows, cols);
      LineShowsTail(t, [], last, rows, cols);
      assert lines == [] + [last];
    } else {
      ScreenShowsTheLastLines(t, front, rows, cols);
      var m := Type(t, Lines(front), rows, cols);
      NewlineShowsTail(m, front, rows, cols);
      TypeConcat(t, Lines(front), [NEWLINE], rows, cols);
      TypeOne(m, NEWLINE, rows, cols);
      LineShowsTail(Put(m, NEWLINE, rows, cols), front, last, rows, cols);
      TypeConcat(t, Lines(front) + [NEWLINE], last, rows, cols);
      assert lines == front + [last];
    }
  }

  lemma FirstLine(t: Term, rows: nat, cols: nat)
    requires Well(t, rows, cols) && t.col == 0 && t.row == 0
    requires forall r :: 0 <= r < rows ==> t.grid[r] == BlankRow(cols)
    ensures ShowsTail(t, [] + [[]], rows, cols)
  {
    assert LineRow([], cols, t.colors) == BlankRow(cols);
  }

  lemma TypeOne(t: Term, c: nat, rows: nat, cols: nat)
    requires Well(t, rows, cols)
    ensures Type(t, [c], rows, cols) == Put(t, c, rows, cols)
  {
    assert [c][..0] == [];
  }

  // ----- Actions of the parser -----

  function Act(t: Term, a: Action, rows: nat, cols: nat): (r: Term)
    requires Well(t, rows, cols)
    ensures Well(r, rows, cols)
  {
    match a
    case Print(c) =>
      PutKeepsWell(t, c, rows, cols);
      Put(t, c, rows, cols)
    case Command(final, ps) => if final == FINAL_M then t.(colors := ApplySgr(t.colors, ps)) else t
  }

  /** The font has a glyph for every character that is to be printed. */
  ghost predicate Drawable(acts: seq<Action>)
  {
    forall i :: 0 <= i < |acts| && acts[i].Print? ==> acts[i].c < 128
  }

  function Perform(t: Term, acts: seq<Action>, rows: nat, cols: nat): (r: Term)
    requires Well(t, rows, cols)
    ensures Well(r, rows, cols)
    decreases |acts|
  {
    if acts == [] then t else Perform(Act(t, acts[0], rows, cols), acts[1..], rows, cols)
  }

  /** Text without escape characters is typed as it stands. */
  lemma {:induction false} PlainTextIsTyped(t: Term, s: seq<Byte>, rows: nat, cols: nat)
    requires Well(t, rows, cols) && ESC !in s
    ensures Perform(t, Reading(s), rows, cols) == Type(t, s, rows, cols)
    decreases |s|
  {
    if s != [] {
      var t1 := Act(t, Print(s[0]), rows, cols);
      PlainTextIsTyped(t1, s[1..], rows, cols);
      assert ([Print(s[0])] + Reading(s[1..]))[1..] == Reading(s[1..]);
      var first: seq<nat> := [s[0]];
      assert first[..0] == [];
      TypeConcat(t, first, s[1..], rows, cols);
      assert first + s[1..] == s;
    }
  }
}
