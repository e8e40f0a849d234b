/** The console on a screen of any height: every pixel line of every character cell, and the
    character grid it stands for when the height is a whole number of text rows. */
module Canvas {
  import opened Ansi
  import opened Terminal

  const FONT_W: nat := 8
  const FONT_H: nat := 16

  /** One pixel line of a cell. */
  datatype Slice = Slice(cell: Cell, line: nat)

  /** Cursor column in characters, cursor line in pixels. */
  datatype Scan = Scan(lines: seq<seq<Slice>>, col: nat, y: nat, colors: Colors)

  ghost predicate LinesOk(lines: seq<seq<Slice>>, height: nat, cols: nat)
  {
    && |lines| == height && (forall y :: 0 <= y < height ==> |lines[y]| == cols)
    && (forall y, c :: 0 <= y < height && 0 <= c < cols ==> lines[y][c].line < FONT_H)
  }

  /** The cursor is on the screen or just behind it. */
  ghost predicate ScanOk(s: Scan, height: nat, cols: nat)
  {
    FONT_H <= height && 0 < cols && LinesOk(s.lines, height, cols) && s.col <= cols && s.y <= height
  }

  function BlankLine(cols: nat, k: nat): seq<Slice>
  {
    seq(cols, _ => Slice(Cleared, k))
  }

  /** Up by one row of text. */
  function ScrolledLines(lines: seq<seq<Slice>>, cols: nat): seq<seq<Slice>>
    requires FONT_H <= |lines|
  {
    lines[FONT_H..] + seq(FONT_H, k requires 0 <= k => BlankLine(cols, k))
  }

  /** A character at a column, its top at pixel line `y`; lines off the screen are left out. */
  function DrawnLines(lines: seq<seq<Slice>>, y: nat, col: nat, cell: Cell): seq<seq<Slice>>
  {
    seq(|lines|, r requires 0 <= r < |lines| =>
      if y <= r < y + FONT_H && col < |lines[r]| then lines[r][col := Slice(cell, r - y)] else lines[r])
  }

  /** Scroll when there is no full row left at the cursor. */
  function RoomAt(s: Scan, cols: nat): Scan
    requires FONT_H <= |s.lines|
  {
    if s.y + FONT_H > |s.lines| then s.(lines := ScrolledLines(s.lines, cols), y := |s.lines| - FONT_H) else s
  }

  /** Print one character. */
  function PutAt(s: Scan, c: nat, cols: nat): Scan
    requires FONT_H <= |s.lines|
  {
    var m := RoomAt(s, cols);
    if c == NEWLINE then m.(col := 0, y := m.y + FONT_H)
    else
      var w := if m.col >= cols then m.(col := 0, y := m.y + FONT_H) else m;
      w.(lines := DrawnLines(w.lines, w.y, w.col, Glyph(c, s.colors.fg, s.colors.bg)), col := w.col + 1)
  }

  lemma RoomAtKeepsOk(s: Scan, height: nat, cols: nat)
    requires ScanOk(s, height, cols)
    ensures ScanOk(RoomAt(s, cols), height, cols) && RoomAt(s, cols).y + FONT_H <= height
  {
    if s.y + FONT_H > height {
      var lines: seq<seq<Slice>> := ScrolledLines(s.lines, cols);
      forall y | 0 <= y < height
        ensures |lines[y]| == cols && forall c :: 0 <= c < cols ==> lines[y][c].line < FONT_H
      {
        if y + FONT_H < height {
          assert lines[y] == s.lines[y + FONT_H];
        } else {
          assert lines[y] == BlankLine(cols, y + FONT_H - height);
        }
      }
    }
  }

  /** The cursor never leaves the screen by more than one place, whatever the height. */
  lemma PutAtKeepsOk(s: Scan, c: nat, height: nat, cols: nat)
    requires ScanOk(s, height, cols)
    ensures ScanOk(PutAt(s, c, cols), height, cols) && PutAt(s, c, cols).colors == s.colors
  {
    RoomAtKeepsOk(s, height, cols);
    hide RoomAt, ScrolledLines;
  }

  /** All sixteen lines of the character just behind the cursor are on the screen. */
  predicate WhollyShown(s: Scan, c: nat)
  {
    && s.y + FONT_H <= |s.lines| && 0 < s.col
    && forall k :: 0 <= k < FONT_H ==>
         s.col <= |s.lines[s.y + k]| && s.lines[s.y + k][s.col - 1] == Slice(Glyph(c, s.colors.fg, s.colors.bg), k)
  }

  /** A printed character is shown whole unless it has to wrap and there is no whole row left for it
      below the cursor, after scrolling. */
  lemma CharacterIsWholeIff(s: Scan, c: nat, height: nat, cols: nat)
    requires ScanOk(s, height, cols) && c != NEWLINE
    ensures WhollyShown(PutAt(s, c, cols), c) <==>
      !(s.col == cols && s.y + 2 * FONT_H > height)
  {
    RoomAtKeepsOk(s, height, cols);
    var m := RoomAt(s, cols);
    assert m.col == s.col && (m.y + 2 * FONT_H > height <==> s.y + 2 * FONT_H > height);
    hide RoomAt, ScrolledLines;
  }

  // ----- Actions of the parser -----

  function ActOn(s: Scan, a: Action, cols: nat): (r: Scan)
    requires FONT_H <= |s.lines|
    ensures |r.lines| == |s.lines|
  {
    match a
    case Print(c) => PutAt(s, c, cols)
    case Command(final, ps) => if final == FINAL_M then s.(colors := ApplySgr(s.colors, ps)) else s
  }

  function PerformOn(s: Scan, acts: seq<Action>, cols: nat): (r: Scan)
    requires FONT_H <= |s.lines|
    ensures |r.lines| == |s.lines|
    decreases |acts|
  {
    if acts == [] then s else PerformOn(ActOn(s, acts[0], cols), acts[1..], cols)
  }

  lemma PerformOnOne(s: Scan, a: Action, cols: nat)
    requires FONT_H <= |s.lines|
    ensures PerformOn(s, [a], cols) == ActOn(s, a, cols)
  {
    assert [a][1..] == [];
  }

  lemma PerformOnTwo(s: Scan, a: Action, b: Action, cols: nat)
    requires FONT_H <= |s.lines|
    ensures PerformOn(s, [a, b], cols) == ActOn(ActOn(s, a, cols), b, cols)
  {
    assert [a, b][1..] == [b];
    PerformOnOne(ActOn(s, a, cols), b, cols);
  }

  lemma {:induction false} PerformOnConcat(s: Scan, a: seq<Action>, b: seq<Action>, cols: nat)
    requires FONT_H <= |s.lines|
    ensures PerformOn(s, a + b, cols) == PerformOn(PerformOn(s, a, cols), b, cols)
    decreases |a|
  {
    hide ActOn;
    if a == [] {
      assert a + b == b;
    } else {
      assert (a + b)[1..] == a[1..] + b;
      PerformOnConcat(ActOn(s, a[0], cols), a[1..], b, cols);
    }
  }

  /** A control sequence with the given numbers leaves the screen alone. With the final byte `m` the
      last of the first sixteen numbers that concerns a plane sets its colour; with any other it does
      nothing at all. */
  lemma SequenceSetsColors(s: Scan, p: Parser, ns: seq<nat>, final: Byte, cols: nat)
    requires FONT_H <= |s.lines| && p.mode == Text
    requires ns != [] && (forall i :: 0 <= i < |ns| ==> ns[i] < 0x1_0000)
    requires !IsDigit(final) && final != SEMICOLON
    ensures var r := PerformOn(s, Feed(p, [ESC, BRACKET] + Join(ns) + [final]).1, cols);
      && r == s.(colors := r.colors)
      && (final != 0x6d ==> r == s)
      && (final == 0x6d ==>
            && LastWins(Kept(ns), 30, WHITE, s.colors.fg, r.colors.fg)
            && LastWins(Kept(ns), 40, BLACK, s.colors.bg, r.colors.bg))
  {
    ParametersRoundTrip(ns, final, p);
    hide Feed, Join, LastWins, PutAt;
    PerformOnOne(s, Command(final, Kept(ns)), cols);
    LastParameterWins(s.colors, Kept(ns));
  }

  // ----- The grid the lines stand for -----

  ghost predicate LinesStand(lines: seq<seq<Slice>>, grid: seq<seq<Cell>>, cols: nat)
  {
    && |lines| == FONT_H * |grid| && (forall r :: 0 <= r < |grid| ==> |grid[r]| == cols)
    && (forall y :: 0 <= y < |lines| ==> |lines[y]| == cols)
    && (forall y, c :: 0 <= y < |lines| && 0 <= c < cols ==> lines[y][c] == Slice(grid[y / FONT_H][c], y % FONT_H))
  }

  /** Every text row is sixteen pixel lines of its cells. */
  ghost predicate Stands(s: Scan, t: Term, cols: nat)
  {
    LinesStand(s.lines, t.grid, cols) && s.col == t.col && s.y == FONT_H * t.row && s.colors == t.colors
  }

  lemma ScrollStands(lines: seq<seq<Slice>>, grid: seq<seq<Cell>>, cols: nat)
    requires LinesStand(lines, grid, cols) && grid != []
    ensures LinesStand(ScrolledLines(lines, cols), Scrolled(grid, cols), cols)
  {
    var lines', grid' := ScrolledLines(lines, cols), Scrolled(grid, cols);
    forall y | 0 <= y < |lines'|
      ensures |lines'[y]| == cols
      ensures forall c :: 0 <= c < cols ==> lines'[y][c] == Slice(grid'[y / FONT_H][c], y % FONT_H)
    {
      RowOf(y, |grid|);
      if y + FONT_H < |lines| {
        assert lines'[y] == lines[y + FONT_H] && grid'[y / FONT_H] == grid[y / FONT_H + 1];
      } else {
        assert lines'[y] == BlankLine(cols, y % FONT_H) && grid'[y / FONT_H] == BlankRow(cols);
      }
    }
  }

  lemma RowOf(y: nat, rows: nat)
    requires y < FONT_H * rows
    ensures y / FONT_H < rows && (y + FONT_H) / FONT_H == y / FONT_H + 1 && (y + FONT_H) % FONT_H == y % FONT_H
    ensures y + FONT_H < FONT_H * rows <==> y / FONT_H + 1 < rows
    ensures y + FONT_H >= FONT_H * rows ==> y + FONT_H - FONT_H * rows == y % FONT_H
  {
  }

  lemma DrawStands(lines: seq<seq<Slice>>, grid: seq<seq<Cell>>, cols: nat, row: nat, col: nat, cell: Cell)
    requires LinesStand(lines, grid, cols) && col < cols
    ensures LinesStand(DrawnLines(lines, FONT_H * row, col, cell), Redrawn(grid, row, col, cell), cols)
  {
    var lines', grid' := DrawnLines(lines, FONT_H * row, col, cell), Redrawn(grid, row, col, cell);
    forall y | 0 <= y < |lines'|
      ensures |lines'[y]| == cols
      ensures forall c :: 0 <= c < cols ==> lines'[y][c] == Slice(grid'[y / FONT_H][c], y % FONT_H)
    {
      InRow(y, row, |grid|);
      hide DrawnLines;
      assert lines'[y] == if y / FONT_H == row then lines[y][col := Slice(cell, y % FONT_H)] else lines[y] by {
        DrawnLine(lines, FONT_H * row, col, cell, y);
      }
    }
  }

  lemma DrawnLine(lines: seq<seq<Slice>>, top: nat, col: nat, cell: Cell, y: nat)
    requires y < |lines|
    ensures DrawnLines(lines, top, col, cell)[y] ==
      if top <= y < top + FONT_H && col < |lines[y]| then lines[y][col := Slice(cell, y - top)] else lines[y]
  {
  }

  lemma InRow(y: nat, row: nat, rows: nat)
    requires y < FONT_H * rows
    ensures y / FONT_H < rows && (FONT_H * row <= y < FONT_H * row + FONT_H <==> y / FONT_H == row)
    ensures y / FONT_H == row ==> y - FONT_H * row == y % FONT_H
  {
  }

  /** Printing on the pixel lines is printing on the grid. */
  lemma PutAtStands(s: Scan, t: Term, c: nat, rows: nat, cols: nat)
    requires Well(t, rows, cols) && Stands(s, t, cols)
    ensures Stands(PutAt(s, c, cols), Put(t, c, rows, cols), cols)
  {
    RoomStands(s, t, rows, cols);
    var m, k := RoomAt(s, cols), MakeRoom(t, rows, cols);
    PutAfterRoom(t, k, c, rows, cols);
    hide RoomAt, MakeRoom, LinesStand, Well, DrawnLines, Put;
    if c != NEWLINE {
      var wrap := m.col >= cols;
      DrawStands(m.lines, k.grid, cols, if wrap then k.row + 1 else k.row, if wrap then 0 else k.col,
        Glyph(c, s.colors.fg, s.colors.bg));
    }
  }

  lemma RoomStands(s: Scan, t: Term, rows: nat, cols: nat)
    requires Well(t, rows, cols) && Stands(s, t, cols)
    ensures Stands(RoomAt(s, cols), MakeRoom(t, rows, cols), cols)
    ensures RoomAt(s, cols).colors == s.colors
  {
    if t.row == rows {
      ScrollStands(s.lines, t.grid, cols);
    }
    hide LinesStand, ScrolledLines, Scrolled;
  }

  /** A whole action string on the pixel lines is the action string on the grid. */
  lemma {:induction false} PerformOnStands(s: Scan, t: Term, acts: seq<Action>, rows: nat, cols: nat)
    requires Well(t, rows, cols) && Stands(s, t, cols) && FONT_H <= |s.lines|
    ensures Stands(PerformOn(s, acts, cols), Perform(t, acts, rows, cols), cols)
    decreases |acts|
  {
    hide Stands, Well, PutAt, Put, ApplySgr;
    if acts != [] {
      if acts[0].Print? {
        PutAtStands(s, t, acts[0].c, rows, cols);
      } else {
        SgrStands(s, t, acts[0].params, cols);
      }
      PerformOnStands(ActOn(s, acts[0], cols), Act(t, acts[0], rows, cols), acts[1..], rows, cols);
    }
  }

  lemma SgrStands(s: Scan, t: Term, ps: seq<nat>, cols: nat)
    requires Stands(s, t, cols)
    ensures Stands(s.(colors := ApplySgr(s.colors, ps)), t.(colors := ApplySgr(t.colors, ps)), cols)
  {
  }
}
