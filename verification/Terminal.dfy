/**
 * The text terminal (kernel/terminal/terminal.c) as one that forgets nothing: the reference for the
 * ring of lines, and where combining marks go.
 */
module Terminal {
  import opened Status
  import opened Unicode

  const COMBINING_CAPACITY := 2
  const REPLACEMENT: scalar := 0xfffd
  const SPACE: scalar := 0x20

  predicate IsCombining(c: nat) {
    || 0x0300 <= c <= 0x036f || 0x1ab0 <= c <= 0x1aff || 0x1dc0 <= c <= 0x1dff
    || 0x20d0 <= c <= 0x20ff || 0xfe20 <= c <= 0xfe2f
  }

  predicate IsWide(c: nat) {
    c >= 0x1100 &&
      (|| c <= 0x115f || c == 0x2329 || c == 0x232a || (0x2e80 <= c <= 0xa4cf && c != 0x303f)
       || 0xac00 <= c <= 0xd7a3 || 0xf900 <= c <= 0xfaff || 0xfe10 <= c <= 0xfe19 || 0xfe30 <= c <= 0xfe6f
       || 0xff00 <= c <= 0xff60 || 0xffe0 <= c <= 0xffe6 || 0x1f300 <= c <= 0x1faff || 0x20000 <= c <= 0x3fffd)
  }

  function CellWidth(c: nat): (w: nat)
    ensures w <= 2
  {
    if !IsScalar(c) || c == 0 || IsCombining(c) then 0 else if IsWide(c) then 2 else 1
  }

  datatype Cell = Cell(value: nat, marks: seq<nat>, foreground: nat, background: nat, width: nat, continuation: bool)

  datatype Line = Line(cells: seq<Cell>, used: nat)

  datatype Style = Style(columns: nat, foreground: nat, background: nat)

  /** A terminal with all the lines ever started; output goes to the last one. */
  datatype Screen = Screen(lines: seq<Line>, cursor: nat)

  ghost predicate ScreenOk(st: Style, s: Screen) {
    && st.columns > 0 && s.lines != [] && s.cursor < st.columns
    && forall i :: 0 <= i < |s.lines| ==> |s.lines[i].cells| == st.columns && s.lines[i].used <= st.columns
  }

  function Blank(st: Style): Cell {
    Cell(SPACE, [], st.foreground, st.background, 1, false)
  }

  function BlankLine(st: Style): (l: Line)
    ensures |l.cells| == st.columns && l.used == 0
  {
    Line(seq(st.columns, _ => Blank(st)), 0)
  }

  function NewLine(st: Style, s: Screen): Screen {
    Screen(s.lines + [BlankLine(st)], 0)
  }

  function Last(s: Screen): Line
    requires s.lines != []
  {
    s.lines[|s.lines| - 1]
  }

  function SetLast(s: Screen, l: Line): Screen
    requires s.lines != []
  {
    s.(lines := s.lines[|s.lines| - 1 := l])
  }

  function Glyph(st: Style, c: nat, width: nat): Cell {
    Cell(c, [], st.foreground, st.background, width, false)
  }

  /** A line with a glyph at a column, over two cells if it is wide. */
  function PutGlyph(st: Style, l: Line, at: nat, c: nat, width: nat): (r: Line)
    requires 1 <= width <= 2 && at + width <= |l.cells|
    ensures |r.cells| == |l.cells|
  {
    var first := l.cells[at := Glyph(st, c, width)];
    var cells := if width == 2 then first[at + 1 := Glyph(st, 0, 0).(continuation := true)] else first;
    Line(cells, if l.used < at + width then at + width else l.used)
  }

  /** Writing at the cursor, which then moves on, to the next line when this one is full. */
  function Emit(st: Style, s: Screen, c: nat, width: nat): Screen
    requires ScreenOk(st, s) && 1 <= width <= 2 && s.cursor + width <= st.columns
  {
    var t := SetLast(s, PutGlyph(st, Last(s), s.cursor, c, width)).(cursor := s.cursor + width);
    if t.cursor == st.columns then NewLine(st, t) else t
  }

  lemma NewLineOk(st: Style, s: Screen)
    requires st.columns > 0 && forall i :: 0 <= i < |s.lines| ==> |s.lines[i].cells| == st.columns && s.lines[i].used <= st.columns
    ensures ScreenOk(st, NewLine(st, s))
  {
  }

  lemma EmitOk(st: Style, s: Screen, c: nat, width: nat)
    requires ScreenOk(st, s) && 1 <= width <= 2 && s.cursor + width <= st.columns
    ensures ScreenOk(st, Emit(st, s, c, width))
  {
    hide PutGlyph, BlankLine;
    PutUsed(st, Last(s), s.cursor, c, width);
  }

  lemma PutUsed(st: Style, l: Line, at: nat, c: nat, width: nat)
    requires 1 <= width <= 2 && at + width <= |l.cells| && l.used <= |l.cells|
    ensures PutGlyph(st, l, at, c, width).used <= |l.cells|
  {
  }

  /** The glyph a scalar prints as: one that is too wide becomes the replacement character. */
  function Fitted(st: Style, c: scalar): (scalar, nat) {
    if CellWidth(c) > st.columns then (REPLACEMENT, 1) else (c, CellWidth(c))
  }

  function Print(st: Style, s: Screen, c: scalar): Screen
    requires ScreenOk(st, s)
  {
    if CellWidth(c) == 0 then s
    else
      var (glyph, width) := Fitted(st, c);
      if s.cursor + width > st.columns then
        NewLineOk(st, s);
        Emit(st, NewLine(st, s), glyph, width)
      else Emit(st, s, glyph, width)
  }

  lemma PrintOk(st: Style, s: Screen, c: scalar)
    requires ScreenOk(st, s)
    ensures ScreenOk(st, Print(st, s, c))
  {
    hide ScreenOk, Emit, NewLine;
    if CellWidth(c) != 0 {
      var (glyph, width) := Fitted(st, c);
      CursorInside(st, s);
      if s.cursor + width > st.columns {
        NewLineKeeps(st, s);
        EmitOk(st, NewLine(st, s), glyph, width);
      } else {
        EmitOk(st, s, glyph, width);
      }
    }
  }

  lemma CursorInside(st: Style, s: Screen)
    requires ScreenOk(st, s)
    ensures s.cursor < st.columns
  {
  }

  lemma NewLineKeeps(st: Style, s: Screen)
    requires ScreenOk(st, s)
    ensures ScreenOk(st, NewLine(st, s)) && NewLine(st, s).cursor == 0
  {
  }

  function Spaces(st: Style, s: Screen, n: nat): Screen
    requires ScreenOk(st, s)
    decreases n
  {
    if n == 0 then s
    else
      PrintOk(st, s, SPACE);
      Spaces(st, Print(st, s, SPACE), n - 1)
  }

  /** The column of the cell before the cursor, or of the wide cell it continues. */
  function BaseColumn(st: Style, s: Screen): Option<nat>
    requires ScreenOk(st, s)
  {
    if s.cursor == 0 then None
    else
      var column := s.cursor - 1;
      if Last(s).cells[column].continuation && column > 0 then Some(column - 1) else Some(column)
  }

  function AddMark(l: Line, at: nat, mark: nat): Line
    requires at < |l.cells|
  {
    l.(cells := l.cells[at := l.cells[at].(marks := l.cells[at].marks + [mark])])
  }

  predicate Attaches(st: Style, s: Screen, c: scalar)
    requires ScreenOk(st, s)
  {
    && IsCombining(c) && BaseColumn(st, s).Some?
    && |Last(s).cells[BaseColumn(st, s).value].marks| < COMBINING_CAPACITY
  }

  function Write(st: Style, s: Screen, c: scalar): Screen
    requires ScreenOk(st, s)
  {
    if c == 0x0d then s.(cursor := 0)
    else if c == 0x0a then NewLine(st, s)
    else if c == 0x09 then Spaces(st, s, 4 - s.cursor % 4)
    else if Attaches(st, s, c) then SetLast(s, AddMark(Last(s), BaseColumn(st, s).value, c))
    else if IsCombining(c) then Print(st, s, REPLACEMENT)
    else Print(st, s, c)
  }

  lemma {:induction false} SpacesOk(st: Style, s: Screen, n: nat)
    requires ScreenOk(st, s)
    ensures ScreenOk(st, Spaces(st, s, n))
    decreases n
  {
    hide Print, ScreenOk;
    if n > 0 {
      PrintOk(st, s, SPACE);
      SpacesOk(st, Print(st, s, SPACE), n - 1);
    }
  }

  /** Every write keeps the cursor inside the line and the lines whole. */
  lemma WriteOk(st: Style, s: Screen, c: scalar)
    requires ScreenOk(st, s)
    ensures ScreenOk(st, Write(st, s, c))
  {
    hide Print, Spaces;
    NewLineKeeps(st, s);
    SpacesOk(st, s, 4 - s.cursor % 4);
    PrintOk(st, s, REPLACEMENT);
    PrintOk(st, s, c);
  }

  function WriteAll(st: Style, s: Screen, cs: seq<scalar>): Screen
    requires ScreenOk(st, s)
    decreases |cs|
  {
    if cs == [] then s
    else
      WriteOk(st, s, cs[0]);
      WriteAll(st, Write(st, s, cs[0]), cs[1..])
  }

  // Combining marks.

  /** The glyph written last in this line since the cursor was last at its start. */
  datatype Written = Written(column: nat, value: nat)

  datatype Tracked = Tracked(screen: Screen, recent: Option<Written>)

  function TrackPrint(st: Style, t: Tracked, c: scalar): Tracked
    requires ScreenOk(st, t.screen)
  {
    if CellWidth(c) == 0 then t
    else
      var (glyph, width) := Fitted(st, c);
      var start := if t.screen.cursor + width > st.columns then 0 else t.screen.cursor;
      var after := Print(st, t.screen, c);
      Tracked(after, if after.cursor == 0 then None else Some(Written(start, glyph)))
  }

  function TrackSpaces(st: Style, t: Tracked, n: nat): Tracked
    requires ScreenOk(st, t.screen)
    decreases n
  {
    if n == 0 then t
    else
      PrintOk(st, t.screen, SPACE);
      TrackSpaces(st, TrackPrint(st, t, SPACE), n - 1)
  }

  function TrackWrite(st: Style, t: Tracked, c: scalar): Tracked
    requires ScreenOk(st, t.screen)
  {
    if c == 0x0d || c == 0x0a then Tracked(Write(st, t.screen, c), None)
    else if c == 0x09 then TrackSpaces(st, t, 4 - t.screen.cursor % 4)
    else if Attaches(st, t.screen, c) then t.(screen := Write(st, t.screen, c))
    else if IsCombining(c) then TrackPrint(st, t, REPLACEMENT)
    else TrackPrint(st, t, c)
  }

  /** The glyph written last sits right before the cursor, and is where a mark would go. */
  ghost predicate Aware(st: Style, t: Tracked) {
    && ScreenOk(st, t.screen)
    && (t.recent.None? <==> t.screen.cursor == 0)
    && (t.recent.Some? ==>
          var w := t.recent.value;
          && BaseColumn(st, t.screen) == Some(w.column)
          && w.column < st.columns
          && var cell := Last(t.screen).cells[w.column];
             !cell.continuation && cell.value == w.value && w.column + cell.width == t.screen.cursor)
  }

  lemma EmitAware(st: Style, s: Screen, c: nat, width: nat)
    requires ScreenOk(st, s) && 1 <= width <= 2 && s.cursor + width <= st.columns
    ensures var after := Emit(st, s, c, width);
            Aware(st, Tracked(after, if after.cursor == 0 then None else Some(Written(s.cursor, c))))
  {
    EmitOk(st, s, c, width);
    var after := Emit(st, s, c, width);
    if after.cursor != 0 {
      assert Last(after) == PutGlyph(st, Last(s), s.cursor, c, width);
    }
  }

  lemma PrintAware(st: Style, t: Tracked, c: scalar)
    requires Aware(st, t)
    ensures Aware(st, TrackPrint(st, t, c))
    ensures TrackPrint(st, t, c).screen == Print(st, t.screen, c)
  {
    hide Aware, Emit, NewLine;
    if CellWidth(c) != 0 {
      var (glyph, width) := Fitted(st, c);
      AwareOk(st, t);
      CursorInside(st, t.screen);
      if t.screen.cursor + width > st.columns {
        NewLineKeeps(st, t.screen);
        EmitAware(st, NewLine(st, t.screen), glyph, width);
      } else {
        EmitAware(st, t.screen, glyph, width);
      }
    }
  }

  lemma AwareOk(st: Style, t: Tracked)
    requires Aware(st, t)
    ensures ScreenOk(st, t.screen)
  {
  }

  lemma {:induction false} SpacesAware(st: Style, t: Tracked, n: nat)
    requires Aware(st, t)
    ensures Aware(st, TrackSpaces(st, t, n))
    ensures TrackSpaces(st, t, n).screen == Spaces(st, t.screen, n)
    decreases n
  {
    hide Aware, Print, TrackPrint;
    AwareOk(st, t);
    if n > 0 {
      PrintAware(st, t, SPACE);
      PrintOk(st, t.screen, SPACE);
      SpacesAware(st, TrackPrint(st, t, SPACE), n - 1);
    }
  }

  lemma MarkAware(st: Style, t: Tracked, c: scalar)
    requires Aware(st, t) && Attaches(st, t.screen, c)
    ensures Aware(st, t.(screen := SetLast(t.screen, AddMark(Last(t.screen), BaseColumn(st, t.screen).value, c))))
  {
    var column := BaseColumn(st, t.screen).value;
    var after := SetLast(t.screen, AddMark(Last(t.screen), column, c));
    assert Last(after) == AddMark(Last(t.screen), column, c);
  }

  /** Tracking follows the terminal, and the glyph written last is always right before the cursor. */
  lemma WriteAware(st: Style, t: Tracked, c: scalar)
    requires Aware(st, t)
    ensures Aware(st, TrackWrite(st, t, c))
    ensures TrackWrite(st, t, c).screen == Write(st, t.screen, c)
  {
    AwareOk(st, t);
    if c == 0x0d || c == 0x0a {
      NewLineKeeps(st, t.screen);
    } else if c == 0x09 {
      hide Aware, TrackSpaces, Spaces;
      SpacesAware(st, t, 4 - t.screen.cursor % 4);
    } else if Attaches(st, t.screen, c) {
      hide Aware;
      MarkAware(st, t, c);
    } else {
      hide Aware, TrackPrint, Print;
      PrintAware(st, t, REPLACEMENT);
      PrintAware(st, t, c);
    }
  }

  function TrackAll(st: Style, t: Tracked, cs: seq<scalar>): Tracked
    requires ScreenOk(st, t.screen)
    decreases |cs|
  {
    if cs == [] then t
    else
      TrackFollows(st, t, cs[0]);
      WriteOk(st, t.screen, cs[0]);
      TrackAll(st, TrackWrite(st, t, cs[0]), cs[1..])
  }

  lemma {:induction false} TrackSpacesFollow(st: Style, t: Tracked, n: nat)
    requires ScreenOk(st, t.screen)
    ensures TrackSpaces(st, t, n).screen == Spaces(st, t.screen, n)
    decreases n
  {
    hide ScreenOk, Print;
    if n > 0 {
      PrintOk(st, t.screen, SPACE);
      TrackSpacesFollow(st, TrackPrint(st, t, SPACE), n - 1);
    }
  }

  lemma TrackFollows(st: Style, t: Tracked, c: scalar)
    requires ScreenOk(st, t.screen)
    ensures TrackWrite(st, t, c).screen == Write(st, t.screen, c)
  {
    hide Spaces, TrackSpaces;
    TrackSpacesFollow(st, t, 4 - t.screen.cursor % 4);
  }

  lemma {:induction false} RunAware(st: Style, t: Tracked, cs: seq<scalar>)
    requires Aware(st, t)
    ensures ScreenOk(st, t.screen)
    ensures Aware(st, TrackAll(st, t, cs))
    ensures TrackAll(st, t, cs).screen == WriteAll(st, t.screen, cs)
    decreases |cs|
  {
    hide Aware, TrackWrite, Write;
    AwareOk(st, t);
    if cs != [] {
      WriteAware(st, t, cs[0]);
      AwareOk(st, TrackWrite(st, t, cs[0]));
      RunAware(st, TrackWrite(st, t, cs[0]), cs[1..]);
    }
  }

  function Fresh(st: Style): Screen { Screen([BlankLine(st)], 0) }

  /**
   * After any run of writes, a combining mark that attaches goes to the glyph written last, which is
   * not a continuation cell, and changes nothing else.
   */
  lemma MarkLandsOnLastGlyph(st: Style, cs: seq<scalar>, mark: scalar)
    requires st.columns > 0
    ensures ScreenOk(st, Fresh(st)) && ScreenOk(st, WriteAll(st, Fresh(st), cs))
    ensures var t := TrackAll(st, Tracked(Fresh(st), None), cs);
            t.screen == WriteAll(st, Fresh(st), cs) && (Attaches(st, t.screen, mark) ==>
              && t.recent.Some? && t.recent.value.column < st.columns
              && var w := t.recent.value;
                 && !Last(t.screen).cells[w.column].continuation && Last(t.screen).cells[w.column].value == w.value
                 && Write(st, t.screen, mark) == SetLast(t.screen, AddMark(Last(t.screen), w.column, mark)))
  {
    hide TrackAll, WriteAll, Spaces;
    assert ScreenOk(st, Fresh(st)) && Aware(st, Tracked(Fresh(st), None));
    RunAware(st, Tracked(Fresh(st), None), cs);
  }
}
