/** The framebuffer as a line of pixels, and the cells it renders. */
module Pixels {
  import opened Canvas
  import opened GlyphBits
  import opened Prelude
  import opened Terminal

  /** One bitmap per ASCII character, sixteen lines of eight pixels. */
  type Font = seq<seq<bv8>>

  predicate FontOk(font: Font)
  {
    |font| == 128 && forall c :: 0 <= c < 128 ==> |font[c]| == 16
  }

  /** Pixel `i` of a glyph line, from the left. */
  predicate Lit(font: Font, c: nat, line: nat, i: nat)
    requires FontOk(font) && c < 128 && line < FONT_H && i < FONT_W
  {
    MaskHits(font[c][line], i)
  }

  /** Screen size in pixels; `pitch` is the length of a line of memory in pixels. */
  datatype Geometry = Geometry(width: nat, height: nat, pitch: nat)
  {
    /** At least one character fits, and a line of memory holds a line of the screen. */
    predicate Fits()
    {
      FONT_W <= width <= pitch && FONT_H <= height
    }

    /** The height is a whole number of text rows. */
    predicate Aligned()
    {
      height % FONT_H == 0
    }

    function Rows(): nat
    {
      height / FONT_H
    }

    function Cols(): nat
    {
      width / FONT_W
    }
  }

  function Offset(pitch: nat, y: nat, x: nat): nat
  {
    y * pitch + x
  }

  lemma OffsetInBounds(pitch: nat, height: nat, y: nat, x: nat)
    requires x < pitch && y < height
    ensures Offset(pitch, y, x) < height * pitch
  {
    LineStarts(y, height, pitch);
  }

  lemma OffsetIsInjective(pitch: nat, y: nat, x: nat, y': nat, x': nat)
    requires x < pitch && x' < pitch
    ensures Offset(pitch, y, x) == Offset(pitch, y', x') <==> y == y' && x == x'
  {
    PlaceIsInjective(y, x, y', x', pitch);
  }

  /** The pixel at a position; outside the memory it counts as black. */
  function At(px: seq<nat>, pitch: nat, y: nat, x: nat): nat
  {
    var k := Offset(pitch, y, x);
    if k < |px| then px[k] else 0
  }

  function GlyphPixel(font: Font, c: nat, line: nat, i: nat, fg: Color, bg: Color): nat
    requires FontOk(font) && c < 128 && line < FONT_H && i < FONT_W
  {
    if Lit(font, c, line, i) then fg.ToU32() else bg.ToU32()
  }

  function CellPixel(font: Font, cell: Cell, line: nat, i: nat): nat
    requires FontOk(font) && line < FONT_H && i < FONT_W
  {
    match cell
    case Glyph(c, fg, bg) => if c < 128 then GlyphPixel(font, c, line, i, fg, bg) else 0
    case Cleared => 0
    case Found(pixel) => pixel(line, i)
  }

  function SlicePixel(font: Font, s: Slice, i: nat): nat
    requires FontOk(font) && i < FONT_W
  {
    if s.line < FONT_H then CellPixel(font, s.cell, s.line, i) else 0
  }

  /** Every pixel of the character area shows its cell. */
  ghost predicate Shows(px: seq<nat>, geo: Geometry, font: Font, lines: seq<seq<Slice>>)
    requires FontOk(font)
  {
    && LinesOk(lines, geo.height, geo.Cols())
    && (forall y: nat, x: nat :: y < geo.height && x < geo.Cols() * FONT_W ==>
          At(px, geo.pitch, y, x) == SlicePixel(font, lines[y][x / FONT_W], x % FONT_W))
  }

  /** The cells read off an arbitrary screen. */
  function FoundLines(px: seq<nat>, geo: Geometry): seq<seq<Slice>>
  {
    seq(geo.height, y requires 0 <= y =>
      seq(geo.Cols(), c requires 0 <= c => Slice(FoundCell(px, geo.pitch, y / FONT_H, c), y % FONT_H)))
  }

  function FoundCell(px: seq<nat>, pitch: nat, r: nat, c: nat): Cell
  {
    Found((line: nat, i: nat) => At(px, pitch, r * FONT_H + line, c * FONT_W + i))
  }

  function FoundGrid(px: seq<nat>, geo: Geometry): seq<seq<Cell>>
  {
    seq(geo.Rows(), r requires 0 <= r => seq(geo.Cols(), c requires 0 <= c => FoundCell(px, geo.pitch, r, c)))
  }

  lemma FoundLinesShow(px: seq<nat>, geo: Geometry, font: Font)
    requires geo.Fits() && FontOk(font)
    ensures Shows(px, geo, font, FoundLines(px, geo))
    ensures geo.Aligned() ==> LinesStand(FoundLines(px, geo), FoundGrid(px, geo), geo.Cols())
  {
    hide At;
    forall y: nat, x: nat | y < geo.height && x < geo.Cols() * FONT_W
      ensures At(px, geo.pitch, y, x) == SlicePixel(font, FoundLines(px, geo)[y][x / FONT_W], x % FONT_W)
    {
      assert FoundLines(px, geo)[y][x / FONT_W] == Slice(FoundCell(px, geo.pitch, y / FONT_H, x / FONT_W), y % FONT_H);
      assert y / FONT_H * FONT_H + y % FONT_H == y && x / FONT_W * FONT_W + x % FONT_W == x;
    }
  }

  // ----- Scrolling -----

  function ScrolledPixels(px: seq<nat>, n: nat): seq<nat>
    requires n <= |px|
  {
    px[n..] + seq(n, _ => 0)
  }

  lemma ScrolledAt(px: seq<nat>, geo: Geometry, y: nat, x: nat)
    requires geo.Fits() && |px| == geo.height * geo.pitch && y < geo.height && x < geo.pitch
    ensures FONT_H * geo.pitch <= |px|
    ensures At(ScrolledPixels(px, FONT_H * geo.pitch), geo.pitch, y, x)
         == if y + FONT_H < geo.height then At(px, geo.pitch, y + FONT_H, x) else 0
  {
    var n := FONT_H * geo.pitch;
    OffsetInBounds(geo.pitch, geo.height, y, x);
    OffsetShift(geo.pitch, y, x);
    MulMonotone(FONT_H, geo.height, geo.pitch);
    if y + FONT_H < geo.height {
      OffsetInBounds(geo.pitch, geo.height, y + FONT_H, x);
    } else {
      MulMonotone(geo.height, y + FONT_H, geo.pitch);
    }
    hide Geometry.Fits;
  }

  lemma OffsetShift(pitch: nat, y: nat, x: nat)
    ensures Offset(pitch, y + FONT_H, x) == Offset(pitch, y, x) + FONT_H * pitch
    ensures Offset(pitch, y, x) >= y * pitch
  {
  }

  lemma MulMonotone(a: nat, b: nat, c: nat)
    requires a <= b
    ensures a * c <= b * c
  {
    if a < b {
      LineStarts(a, b, c);
    }
  }

  /** Moving the memory up by one row of text scrolls the lines. */
  lemma ScrollShows(px: seq<nat>, geo: Geometry, font: Font, lines: seq<seq<Slice>>)
    requires geo.Fits() && FontOk(font) && |px| == geo.height * geo.pitch && Shows(px, geo, font, lines)
    ensures FONT_H * geo.pitch <= |px|
    ensures Shows(ScrolledPixels(px, FONT_H * geo.pitch), geo, font, ScrolledLines(lines, geo.Cols()))
  {
    hide At, ScrolledPixels, CellPixel;
    ScrolledAt(px, geo, 0, 0);
    ScrolledOk(lines, geo.height, geo.Cols());
    forall y: nat, x: nat | y < geo.height && x < geo.Cols() * FONT_W
      ensures At(ScrolledPixels(px, FONT_H * geo.pitch), geo.pitch, y, x)
           == SlicePixel(font, ScrolledLines(lines, geo.Cols())[y][x / FONT_W], x % FONT_W)
    {
      ScrolledAt(px, geo, y, x);
      if y + FONT_H >= geo.height {
        ClearedIsBlack(font, y + FONT_H - geo.height, x % FONT_W);
      }
    }
  }

  lemma ScrolledOk(lines: seq<seq<Slice>>, height: nat, cols: nat)
    requires LinesOk(lines, height, cols) && FONT_H <= height
    ensures LinesOk(ScrolledLines(lines, cols), height, cols)
    ensures forall y :: 0 <= y < height ==>
      ScrolledLines(lines, cols)[y] ==
        if y + FONT_H < height then lines[y + FONT_H] else BlankLine(cols, y + FONT_H - height)
  {
  }

  lemma ClearedIsBlack(font: Font, line: nat, i: nat)
    requires FontOk(font) && line < FONT_H && i < FONT_W
    ensures SlicePixel(font, Slice(Cleared, line), i) == 0
  {
  }

  // ----- Drawing -----

  /** The eight by sixteen pixels right and below of a corner. */
  predicate InBox(y: nat, x: nat, sy: nat, sx: nat)
  {
    sy <= y < sy + FONT_H && sx <= x < sx + FONT_W
  }

  /** `px'` is `px` with the glyph of `c` drawn at a corner, clipped to the screen. */
  ghost predicate Drawn(
    px: seq<nat>, px': seq<nat>, geo: Geometry, font: Font, c: nat, sy: nat, sx: nat, k: Colors)
    requires FontOk(font) && c < 128
  {
    forall y: nat, x: nat :: y < geo.height && x < geo.pitch ==>
      At(px', geo.pitch, y, x) ==
        if InBox(y, x, sy, sx) && x < geo.width then GlyphPixel(font, c, y - sy, x - sx, k.fg, k.bg)
        else At(px, geo.pitch, y, x)
  }

  /** Drawing at a cell's column, from any pixel line on, changes that part of that column. */
  lemma DrawnShows(
    px: seq<nat>, px': seq<nat>, geo: Geometry, font: Font, lines: seq<seq<Slice>>, c: nat, sy: nat, j: nat,
    k: Colors)
    requires geo.Fits() && FontOk(font) && c < 128 && Shows(px, geo, font, lines) && j < geo.Cols()
    requires Drawn(px, px', geo, font, c, sy, j * FONT_W, k)
    ensures Shows(px', geo, font, DrawnLines(lines, sy, j, Glyph(c, k.fg, k.bg)))
  {
    hide At, GlyphPixel;
    var lines' := DrawnLines(lines, sy, j, Glyph(c, k.fg, k.bg));
    forall y: nat, x: nat | y < geo.height && x < geo.Cols() * FONT_W
      ensures At(px', geo.pitch, y, x) == SlicePixel(font, lines'[y][x / FONT_W], x % FONT_W)
    {
      DrawnLine(lines, sy, j, Glyph(c, k.fg, k.bg), y);
      assert InBox(y, x, sy, j * FONT_W) <==> sy <= y < sy + FONT_H && x / FONT_W == j;
      assert At(px, geo.pitch, y, x) == SlicePixel(font, lines[y][x / FONT_W], x % FONT_W);
    }
  }

  // ----- What is on the screen -----

  /** The 32-bit value of a colour: alpha, red, green and blue from the top byte down. */
  predicate IsPixelOf(pixel: nat, c: Color)
  {
    pixel == c.a * 0x100_0000 + c.r * 0x1_0000 + c.g * 0x100 + c.b
  }

  /** The pixel of line `line` and column `i` from a corner has the foreground colour when that digit of
      the glyph's line is one, the background colour otherwise. */
  predicate PaintedAt(
    px: seq<nat>, pitch: nat, top: nat, left: nat, glyph: seq<bv8>, line: nat, i: nat, fg: Color, bg: Color)
    requires line < |glyph|
  {
    var k := (top + line) * pitch + left + i;
    k < |px| && IsPixelOf(px[k], if Digit(glyph[line] as nat, i) then fg else bg)
  }

  /** Sixteen lines of eight pixels show a glyph. */
  ghost predicate Painted(px: seq<nat>, pitch: nat, top: nat, left: nat, glyph: seq<bv8>, fg: Color, bg: Color)
    requires |glyph| == 16
  {
    forall line: nat, i: nat :: line < 16 && i < 8 ==> PaintedAt(px, pitch, top, left, glyph, line, i, fg, bg)
  }

  /** A character that is shown whole is painted by its glyph. */
  lemma WholeIsPainted(px: seq<nat>, geo: Geometry, font: Font, s: Scan, c: nat)
    requires geo.Fits() && FontOk(font) && c < 128 && |px| == geo.height * geo.pitch
    requires Shows(px, geo, font, s.lines) && WhollyShown(s, c) && s.col <= geo.Cols()
    ensures Painted(px, geo.pitch, s.y, (s.col - 1) * FONT_W, font[c], s.colors.fg, s.colors.bg)
  {
    hide PaintedAt, At, MaskHits, GlyphPixel, Offset;
    var left, glyph, fg, bg := (s.col - 1) * FONT_W, font[c], s.colors.fg, s.colors.bg;
    forall line: nat, i: nat | line < 16 && i < 8
      ensures PaintedAt(px, geo.pitch, s.y, left, glyph, line, i, fg, bg)
    {
      var y, x := s.y + line, left + i;
      assert x / FONT_W == s.col - 1 && x % FONT_W == i;
      assert s.lines[y][s.col - 1] == Slice(Glyph(c, fg, bg), line);
      assert At(px, geo.pitch, y, x) == SlicePixel(font, s.lines[y][x / FONT_W], x % FONT_W);
      OffsetInBounds(geo.pitch, geo.height, y, x);
      PixelIsPainted(px, geo, font, c, s.y, left, line, i, s.colors);
    }
  }

  lemma PixelIsPainted(
    px: seq<nat>, geo: Geometry, font: Font, c: nat, top: nat, left: nat, line: nat, i: nat, k: Colors)
    requires FontOk(font) && c < 128 && line < 16 && i < 8 && Offset(geo.pitch, top + line, left + i) < |px|
    requires At(px, geo.pitch, top + line, left + i) == GlyphPixel(font, c, line, i, k.fg, k.bg)
    ensures PaintedAt(px, geo.pitch, top, left, font[c], line, i, k.fg, k.bg)
  {
    MaskReadsDigit(font[c][line], i);
    hide MaskHits, Digit;
  }

  // ----- The cursor -----

  lemma CursorColumn(geo: Geometry, x: nat)
    requires geo.Fits() && x % FONT_W == 0 && x / FONT_W <= geo.Cols()
    ensures x + FONT_W > geo.width <==> x / FONT_W == geo.Cols()
    ensures (x + FONT_W) % FONT_W == 0 && (x + FONT_W) / FONT_W == x / FONT_W + 1
    ensures 0 < geo.Cols()
    ensures x <= geo.width
  {
  }
}
