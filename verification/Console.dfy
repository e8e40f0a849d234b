/** The framebuffer console: parser state, cursor and pixels updated in place. */
module Console {
  import opened Ansi
  import opened Canvas
  import opened Pixels
  import opened Terminal

  /** What one byte of a string does is part of what the string does. */
  lemma FeedAround(p: Parser, s: seq<Byte>, i: nat)
    requires i < |s| && Drawable(Feed(p, s).1)
    ensures Drawable(Step(Feed(p, s[..i]).0, s[i]).1)
  {
    hide Step, Drawable;
    var (q, before) := Feed(p, s[..i]);
    assert s == s[..i] + s[i..];
    FeedConcat(p, s[..i], s[i..]);
    var (r, acts) := Step(q, s[i]);
    assert Feed(q, s[i..]).1 == acts + Feed(r, s[i..][1..]).1;
    hide Feed;
    DrawablePart(before, acts, Feed(r, s[i..][1..]).1);
  }

  lemma DrawablePart(a: seq<Action>, b: seq<Action>, c: seq<Action>)
    requires Drawable(a + (b + c))
    ensures Drawable(b)
  {
    assert forall j :: 0 <= j < |b| ==> (a + (b + c))[|a| + j] == b[j];
  }

  /** One byte further in a string. */
  lemma FeedNext(p: Parser, s: seq<Byte>, i: nat, start: Scan, cols: nat)
    requires i < |s| && FONT_H <= |start.lines|
    ensures var (q, acts) := Feed(p, s[..i]);
      var (r, more) := Step(q, s[i]);
      Feed(p, s[..i + 1]) == (r, acts + more)
      && PerformOn(start, acts + more, cols) == PerformOn(PerformOn(start, acts, cols), more, cols)
  {
    hide Step, PerformOn;
    var (q, acts) := Feed(p, s[..i]);
    FeedConcat(p, s[..i], [s[i]]);
    FeedOne(q, s[i]);
    assert s[..i + 1] == s[..i] + [s[i]];
    PerformOnConcat(start, acts, Step(q, s[i]).1, cols);
  }

  /** What feeding a string amounts to, from text mode and on a grid of whole text rows. */
  lemma StringMeans(p: Parser, s: seq<Byte>, start: Scan, t: Term, rows: nat, cols: nat)
    requires FONT_H <= |start.lines|
    ensures p.mode == Text ==> Feed(p, s).1 == Reading(s) && StoppedAt(Feed(p, s).0, Ends(s))
    ensures Well(t, rows, cols) && Stands(start, t, cols) ==>
      Stands(PerformOn(start, Feed(p, s).1, cols), Perform(t, Feed(p, s).1, rows, cols), cols)
  {
    hide Reading, Ends, StoppedAt, Stands, Well, PerformOn, Perform, Feed;
    if p.mode == Text {
      FeedAgreesWithReading(p, s);
      FeedStopsWithReading(p, s);
    }
    if Well(t, rows, cols) && Stands(start, t, cols) {
      PerformOnStands(start, t, Feed(p, s).1, rows, cols);
    }
  }

  /** A byte that is drawn must have a glyph. */
  lemma DrawableByte(p: Parser, c: Byte)
    requires Drawable(Step(p, c).1)
    ensures (p.mode == Text && c != ESC) || (p.mode == Escape && c != BRACKET) ==> c < 128
  {
    var acts := Step(p, c).1;
    assert |acts| > 0 ==> acts[|acts| - 1] in acts;
  }

  /** The actions of one byte, spelled out. */
  lemma PerformStep(s: Scan, p: Parser, c: Byte, cols: nat)
    requires FONT_H <= |s.lines|
    ensures var acts := Step(p, c).1;
      && |acts| <= 2
      && (|acts| == 0 ==> PerformOn(s, acts, cols) == s)
      && (|acts| == 1 ==> PerformOn(s, acts, cols) == ActOn(s, acts[0], cols))
      && (|acts| == 2 ==> PerformOn(s, acts, cols) == ActOn(ActOn(s, acts[0], cols), acts[1], cols))
  {
    var acts := Step(p, c).1;
    if |acts| == 1 {
      PerformOnOne(s, acts[0], cols);
      assert acts == [acts[0]];
    } else if |acts| == 2 {
      PerformOnTwo(s, acts[0], acts[1], cols);
      assert acts == [acts[0], acts[1]];
    }
  }

  class Console {
    const geo: Geometry
    const font: Font
    /** The framebuffer, four bytes per pixel. */
    const fb: array<nat>

    var x: nat
    var y: nat
    var fg: Color
    var bg: Color

    var mode: Mode
    const params: array<nat>
    var paramCount: nat
    var current: nat

    /** The pixel lines of character cells the framebuffer stands for. */
    ghost var lines: seq<seq<Slice>>

    /** The cursor is on the screen or just behind it, and the framebuffer renders the lines, for
        every screen that can show a character. */
    ghost predicate Valid()
      reads this, fb, params
    {
      && geo.Fits() && FontOk(font)
      && fb.Length == geo.height * geo.pitch
      && fb != params && params.Length == MAX_PARAMS && paramCount <= MAX_PARAMS
      && x % FONT_W == 0 && x / FONT_W <= geo.Cols() && y <= geo.height
      && Shows(fb[..], geo, font, lines)
    }

    ghost function Screen(): Scan
      reads this
    {
      Scan(lines, x / FONT_W, y, Colors(fg, bg))
    }

    ghost function ParserState(): Parser
      requires paramCount <= params.Length
      reads this, params
    {
      Parser(mode, params[..paramCount], current)
    }

    constructor (geo: Geometry, fb: array<nat>, font: Font)
      requires geo.Fits() && FontOk(font) && fb.Length == geo.height * geo.pitch
      ensures Valid() && this.fb == fb && this.geo == geo && this.font == font && fresh(params)
      ensures ParserState() == START
      ensures Screen() == Scan(FoundLines(fb[..], geo), 0, 0, Colors(WHITE, BLACK))
      ensures geo.Aligned() ==>
        Stands(Screen(), Term(FoundGrid(fb[..], geo), 0, 0, Colors(WHITE, BLACK)), geo.Cols())
    {
      this.geo, this.fb, this.font := geo, fb, font;
      x, y, fg, bg := 0, 0, WHITE, BLACK;
      mode, paramCount, current := Text, 0, 0;
      params := new nat[MAX_PARAMS](_ => 0);
      lines := FoundLines(fb[..], geo);
      new;
      FoundLinesShow(fb[..], geo, font);
      assert params[..0] == [];
    }

    /** The screen has the height and width of the framebuffer. */
    lemma ScreenIsOk()
      requires Valid()
      ensures ScanOk(Screen(), geo.height, geo.Cols())
    {
    }

    /** Move the memory up by one row of text and clear the end of it. */
    method ScrollUp()
      requires geo.Fits() && fb.Length == geo.height * geo.pitch
      modifies fb
      ensures FONT_H * geo.pitch <= fb.Length
      ensures fb[..] == ScrolledPixels(old(fb[..]), FONT_H * geo.pitch)
    {
      var scroll, total := FONT_H * geo.pitch, geo.height * geo.pitch;
      MulMonotone(FONT_H, geo.height, geo.pitch);
      forall k | 0 <= k < total - scroll {
        fb[k] := fb[k + scroll];
      }
      forall k | total - scroll <= k < total {
        fb[k] := 0;
      }
    }

    /** Store one pixel; the store is inside the framebuffer and touches no other position. */
    method StorePixel(py: nat, px: nat, value: nat)
      requires geo.Fits() && fb.Length == geo.height * geo.pitch && py < geo.height && px < geo.width
      modifies fb
      ensures forall y': nat, x': nat :: y' < geo.height && x' < geo.pitch ==>
        At(fb[..], geo.pitch, y', x') == if y' == py && x' == px then value else At(old(fb[..]), geo.pitch, y', x')
    {
      OffsetInBounds(geo.pitch, geo.height, py, px);
      fb[Offset(geo.pitch, py, px)] := value;
      forall y': nat, x': nat | y' < geo.height && x' < geo.pitch
        ensures At(fb[..], geo.pitch, y', x') ==
          if y' == py && x' == px then value else At(old(fb[..]), geo.pitch, y', x')
      {
        OffsetIsInjective(geo.pitch, y', x', py, px);
        OffsetInBounds(geo.pitch, geo.height, y', x');
        hide Offset;
      }
    }

    /** Draw a glyph, pixel by pixel, leaving out what is off the screen. */
    method DrawGlyph(c: nat, startY: nat, startX: nat)
      requires geo.Fits() && FontOk(font) && fb.Length == geo.height * geo.pitch && c < 128
      modifies fb
      ensures Drawn(old(fb[..]), fb[..], geo, font, c, startY, startX, Colors(fg, bg))
    {
      hide At, GlyphPixel, Offset;
      for line := 0 to FONT_H
        invariant forall y': nat, x': nat :: y' < geo.height && x' < geo.pitch ==>
          At(fb[..], geo.pitch, y', x') ==
            if InBox(y', x', startY, startX) && y' < startY + line && x' < geo.width
            then GlyphPixel(font, c, y' - startY, x' - startX, fg, bg)
            else At(old(fb[..]), geo.pitch, y', x')
      {
        for i := 0 to FONT_W
          invariant forall y': nat, x': nat :: y' < geo.height && x' < geo.pitch ==>
            At(fb[..], geo.pitch, y', x') ==
              if && InBox(y', x', startY, startX) && x' < geo.width
                 && (y' < startY + line || (y' == startY + line && x' < startX + i))
              then GlyphPixel(font, c, y' - startY, x' - startX, fg, bg)
              else At(old(fb[..]), geo.pitch, y', x')
        {
          var px, py := startX + i, startY + line;
          if px < geo.width && py < geo.height {
            StorePixel(py, px, GlyphPixel(font, c, line, i, fg, bg));
          }
        }
      }
    }

    /** Scroll when there is no full row left at the cursor. */
    method ScrollIfNeeded()
      requires Valid()
      modifies this`y, this`lines, fb
      ensures Valid() && y + FONT_H <= geo.height
      ensures |old(lines)| == geo.height && Screen() == RoomAt(old(Screen()), geo.Cols())
    {
      ScreenIsOk();
      hide Shows, At, Offset, FontOk, ScrolledPixels, ScrolledLines;
      if geo.height - y < FONT_H {
        ScrollShows(fb[..], geo, font, lines);
        lines := ScrolledLines(lines, geo.Cols());
        ScrollUp();
        y := geo.height - FONT_H;
      }
    }

    /** Draw at the cursor and move it on by one column. */
    method DrawAtCursor(c: nat)
      requires Valid() && c < 128 && x / FONT_W < geo.Cols()
      modifies this`x, this`lines, fb
      ensures Valid() && x == old(x) + FONT_W
      ensures lines == DrawnLines(old(lines), y, old(x) / FONT_W, Glyph(c, fg, bg))
    {
      hide Shows, At, GlyphPixel, Offset, Drawn, FontOk, DrawnLines;
      ghost var before := fb[..];
      DrawGlyph(c, y, x);
      DrawnShows(before, fb[..], geo, font, lines, c, y, x / FONT_W, Colors(fg, bg));
      lines := DrawnLines(lines, y, x / FONT_W, Glyph(c, fg, bg));
      x := x + FONT_W;
    }

    /** Print one character at the cursor, scrolling and wrapping first where needed. */
    method PrintNormalChar(c: nat)
      requires Valid() && c < 128
      modifies this`x, this`y, this`lines, fb
      ensures Valid()
      ensures |old(lines)| == geo.height && Screen() == PutAt(old(Screen()), c, geo.Cols())
      ensures c != NEWLINE && !(old(x) + FONT_W > geo.width && old(y) + 2 * FONT_H > geo.height) ==>
        FONT_W <= x && Painted(fb[..], geo.pitch, y, x - FONT_W, font[c], fg, bg)
    {
      hide Shows, RoomAt, DrawnLines, Painted, WhollyShown, LinesOk;
      ghost var s := Screen();
      ScreenIsOk();
      CursorColumn(geo, x);
      if c != NEWLINE {
        CharacterIsWholeIff(s, c, geo.height, geo.Cols());
      }
      ScrollIfNeeded();
      CursorColumn(geo, x);
      if c == NEWLINE {
        x := 0;
        y := y + FONT_H;
        return;
      }
      if x + FONT_W > geo.width {
        x := 0;
        y := y + FONT_H;
      }
      DrawAtCursor(c);
      if WhollyShown(Screen(), c) {
        WholeIsPainted(fb[..], geo, font, Screen(), c);
      }
    }

    /** Store the collected parameter; a full buffer drops it. */
    method StoreParam()
      requires params.Length == MAX_PARAMS && paramCount <= MAX_PARAMS
      modifies this`paramCount, this`current, params
      ensures paramCount <= MAX_PARAMS && current == 0
      ensures params[..paramCount] == PushParam(old(params[..paramCount]), old(current))
    {
      if paramCount < MAX_PARAMS {
        params[paramCount] := current;
        paramCount := paramCount + 1;
      }
      current := 0;
    }

    /** Select graphic rendition with the stored parameters; none at all count as one zero. */
    method HandleSgr()
      requires params.Length == MAX_PARAMS && paramCount <= MAX_PARAMS
      modifies this`fg, this`bg, this`paramCount, this`current, params
      ensures paramCount == 0 && current == 0
      ensures Colors(fg, bg) ==
        ApplySgr(old(Colors(fg, bg)), if old(paramCount) == 0 then [0] else old(params[..paramCount]))
    {
      var count := paramCount;
      if paramCount == 0 {
        params[0] := 0;
        count := 1;
      }
      ghost var ps := params[..count];
      for k := 0 to count
        invariant params[..count] == ps
        invariant Colors(fg, bg) == ApplySgr(old(Colors(fg, bg)), ps[..k])
      {
        assert ps[..k + 1][..k] == ps[..k] && params[k] == ps[k];
        var next := ApplyParam(Colors(fg, bg), params[k]);
        fg, bg := next.fg, next.bg;
      }
      assert ps[..count] == ps;
      paramCount, current := 0, 0;
    }

    /** The commands the console knows; cursor movement is accepted and does nothing. */
    method ParseAnsiCommand(cmd: Byte)
      requires params.Length == MAX_PARAMS && 0 < paramCount <= MAX_PARAMS
      modifies this`fg, this`bg, this`paramCount, this`current, params
      ensures paramCount <= MAX_PARAMS
      ensures cmd == FINAL_M ==>
        && paramCount == 0 && current == 0
        && Colors(fg, bg) == ApplySgr(old(Colors(fg, bg)), old(params[..paramCount]))
      ensures cmd != FINAL_M ==>
        && paramCount == old(paramCount) && current == old(current)
        && fg == old(fg) && bg == old(bg) && params[..] == old(params[..])
    {
      if cmd == FINAL_M {
        HandleSgr();
      }
    }

    /** The last byte of a control sequence stores the last parameter and runs the command. */
    method FinishSequence(c: Byte)
      requires Valid() && mode in {EscapeBracket, CollectingParams} && !IsDigit(c) && c != SEMICOLON
      modifies this`fg, this`bg, this`mode, this`paramCount, this`current, params
      ensures Valid() && ParserState() == Step(old(ParserState()), c).0
      ensures var ps := PushParam(old(params[..paramCount]), old(current));
        Colors(fg, bg) == if c == FINAL_M then ApplySgr(old(Colors(fg, bg)), ps) else old(Colors(fg, bg))
    {
      hide Shows, FontOk, ApplySgr;
      StoreParam();
      ParseAnsiCommand(c);
      mode := Text;
    }

    /** Feed one byte to the console; a byte that is to be drawn must have a glyph. */
    method PrintChar(c: Byte)
      requires Valid() && Drawable(Step(ParserState(), c).1)
      modifies this, fb, params
      ensures Valid()
      ensures ParserState() == Step(old(ParserState()), c).0
      ensures |old(lines)| == geo.height
      ensures Screen() == PerformOn(old(Screen()), Step(old(ParserState()), c).1, geo.Cols())
    {
      ScreenIsOk();
      PerformStep(Screen(), ParserState(), c, geo.Cols());
      DrawableByte(ParserState(), c);
      hide Shows, FontOk, PutAt, ApplySgr;
      match mode
      case Text =>
        if c == ESC {
          mode := Escape;
        } else {
          PrintNormalChar(c);
        }
      case Escape =>
        if c == BRACKET {
          mode := EscapeBracket;
          paramCount, current := 0, 0;
        } else {
          mode := Text;
          PrintNormalChar(ESC);
          PrintNormalChar(c);
        }
      case EscapeBracket =>
        if IsDigit(c) {
          current := (current * 10 + (c - 0x30)) % 0x1_0000;
          mode := CollectingParams;
        } else if c == SEMICOLON {
          StoreParam();
          current := 0;
        } else {
          FinishSequence(c);
        }
      case CollectingParams =>
        if IsDigit(c) {
          current := (current * 10 + (c - 0x30)) % 0x1_0000;
        } else if c == SEMICOLON {
          StoreParam();
          current := 0;
          mode := EscapeBracket;
        } else {
          FinishSequence(c);
        }
    }

    /** Print a byte string: the screen is what the parser's actions make of it, and the framebuffer
        renders that screen. From text mode the actions and the final mode are those of the
        reference reading; on a height of whole text rows the screen is the character grid. */
    method PrintString(s: seq<Byte>, ghost t: Term)
      requires Valid() && Drawable(Feed(ParserState(), s).1)
      modifies this, fb, params
      ensures Valid() && |old(lines)| == geo.height
      ensures ParserState() == Feed(old(ParserState()), s).0
      ensures Screen() == PerformOn(old(Screen()), Feed(old(ParserState()), s).1, geo.Cols())
      ensures old(mode) == Text ==>
        Screen() == PerformOn(old(Screen()), Reading(s), geo.Cols()) && StoppedAt(ParserState(), Ends(s))
      ensures Well(t, geo.Rows(), geo.Cols()) && Stands(old(Screen()), t, geo.Cols()) ==>
        Stands(Screen(), Perform(t, Feed(old(ParserState()), s).1, geo.Rows(), geo.Cols()), geo.Cols())
    {
      ScreenIsOk();
      hide Shows, FontOk, Step, Reading, Ends, StoppedAt, Stands, Well, LinesOk, ActOn, Act, Drawable;
      ghost var cols, start, p := geo.Cols(), Screen(), ParserState();
      StringMeans(p, s, start, t, geo.Rows(), cols);
      hide Perform;
      for i := 0 to |s|
        invariant Valid()
        invariant ParserState() == Feed(p, s[..i]).0
        invariant Screen() == PerformOn(start, Feed(p, s[..i]).1, cols)
      {
        FeedAround(p, s, i);
        FeedNext(p, s, i, start, cols);
        PrintChar(s[i]);
      }
      assert s[..|s|] == s;
    }
  }
}
