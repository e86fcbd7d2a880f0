/** What the terminal (kernel/terminal/terminal.c) shows of what is written to it, cell by cell. */
module TerminalText {
  import opened Unicode
  import opened Terminal

  const RETURN: scalar := 0x0d
  const FEED: scalar := 0x0a
  const TAB: scalar := 0x09

  /** A scalar that takes cells of its own. */
  predicate Printable(c: scalar) { c != RETURN && c != FEED && c != TAB && CellWidth(c) != 0 }

  ghost predicate IsBlank(st: Style, l: Line) {
    && |l.cells| == st.columns && l.used == 0
    && forall j :: 0 <= j < |l.cells| ==> l.cells[j] == Cell(SPACE, [], st.foreground, st.background, 1, false)
  }

  /** A line feed leaves every line as it is, starts one that is blank, and goes to its start. */
  lemma FeedStarts(st: Style, s: Screen)
    requires ScreenOk(st, s)
    ensures var after := Write(st, s, FEED);
            && |after.lines| == |s.lines| + 1 && after.lines[..|s.lines|] == s.lines
            && IsBlank(st, after.lines[|s.lines|]) && after.cursor == 0
  {
  }

  /** A carriage return changes no line. */
  lemma ReturnKeepsLines(st: Style, s: Screen)
    requires ScreenOk(st, s)
    ensures Write(st, s, RETURN).lines == s.lines && Write(st, s, RETURN).cursor == 0
  {
  }

  // One glyph.

  /** The line and the column that a glyph of some width goes to. */
  ghost function LineFor(st: Style, s: Screen, width: nat): nat
    requires s.lines != []
  {
    if s.cursor + width <= st.columns then |s.lines| - 1 else |s.lines|
  }

  ghost function ColumnFor(st: Style, s: Screen, width: nat): nat {
    if s.cursor + width <= st.columns then s.cursor else 0
  }

  /** The lines are as before but for a glyph of some width at a column of line n, which may be a new one. */
  ghost predicate Shows(st: Style, was: seq<Line>, now: seq<Line>, n: nat, at: nat, c: scalar, width: nat) {
    && 1 <= width <= 2 && at + width <= st.columns && |was| <= n + 1 && n <= |was| && n < |now|
    && (forall i :: 0 <= i < |was| && i != n ==> now[i] == was[i])
    && |now[n].cells| == st.columns
    && now[n].cells[at] == Cell(c, [], st.foreground, st.background, width, false)
    && (width == 2 ==> now[n].cells[at + 1] == Cell(0, [], st.foreground, st.background, 0, true))
    && (n < |was| ==>
          && |was[n].cells| == st.columns
          && now[n].used == (if was[n].used < at + width then at + width else was[n].used)
          && forall j :: 0 <= j < st.columns && !(at <= j < at + width) ==> now[n].cells[j] == was[n].cells[j])
    && (n == |was| ==>
          && now[n].used == at + width
          && forall j :: 0 <= j < st.columns && !(at <= j < at + width) ==>
               now[n].cells[j] == Cell(SPACE, [], st.foreground, st.background, 1, false))
  }

  /** Where the cursor is once a line has been written up to some column: past its end a blank line starts. */
  ghost predicate MovesOn(st: Style, after: Screen, n: nat, column: nat) {
    if column < st.columns then |after.lines| == n + 1 && after.cursor == column
    else |after.lines| == n + 2 && IsBlank(st, after.lines[n + 1]) && after.cursor == 0
  }

  lemma EmitShows(st: Style, s: Screen, c: scalar, width: nat)
    requires ScreenOk(st, s) && 1 <= width <= 2 && s.cursor + width <= st.columns
    ensures var after, n := Emit(st, s, c, width), |s.lines| - 1;
            Shows(st, s.lines, after.lines, n, s.cursor, c, width) && MovesOn(st, after, n, s.cursor + width)
  {
    var line := PutGlyph(st, Last(s), s.cursor, c, width);
    assert line.cells[s.cursor] == Glyph(st, c, width);
  }

  lemma ShowsInNew(st: Style, was: seq<Line>, now: seq<Line>, c: scalar, width: nat)
    requires Shows(st, was + [BlankLine(st)], now, |was|, 0, c, width)
    ensures Shows(st, was, now, |was|, 0, c, width)
  {
    var more := was + [BlankLine(st)];
    assert forall i :: 0 <= i < |was| ==> more[i] == was[i];
    assert more[|was|] == BlankLine(st);
  }

  lemma PrintShows(st: Style, s: Screen, c: scalar)
    requires ScreenOk(st, s) && 1 <= CellWidth(c) <= st.columns
    ensures var w := CellWidth(c);
            var n, at, after := LineFor(st, s, w), ColumnFor(st, s, w), Print(st, s, c);
            Shows(st, s.lines, after.lines, n, at, c, w) && MovesOn(st, after, n, at + w)
  {
    hide Emit, ScreenOk, Shows, MovesOn, BlankLine;
    var w := CellWidth(c);
    CursorInside(st, s);
    if s.cursor + w <= st.columns {
      EmitShows(st, s, c, w);
    } else {
      NewLineKeeps(st, s);
      var next := NewLine(st, s);
      EmitShows(st, next, c, w);
      ShowsInNew(st, s.lines, Emit(st, next, c, w).lines, c, w);
    }
  }

  /**
   * A printable scalar that fits the terminal goes to the cursor, or to the start of a new line when
   * it does not fit this one; its cell holds it alone, in the terminal's colours and with its width,
   * a wide one is followed by a continuation, and every other cell is as before.
   */
  lemma GlyphWritten(st: Style, s: Screen, c: scalar)
    requires ScreenOk(st, s) && Printable(c) && CellWidth(c) <= st.columns
    ensures var w := CellWidth(c);
            var n, at, after := LineFor(st, s, w), ColumnFor(st, s, w), Write(st, s, c);
            Shows(st, s.lines, after.lines, n, at, c, w) && MovesOn(st, after, n, at + w)
  {
    hide Print, Shows, MovesOn, LineFor, ColumnFor;
    PrintShows(st, s, c);
  }

  /** One that is too wide, or a mark that attaches to nothing, is written as the replacement character. */
  lemma ReplacementWritten(st: Style, s: Screen, c: scalar)
    requires ScreenOk(st, s)
    requires (Printable(c) && CellWidth(c) > st.columns) || (IsCombining(c) && !Attaches(st, s, c))
    ensures var n, at, after := LineFor(st, s, 1), ColumnFor(st, s, 1), Write(st, s, c);
            Shows(st, s.lines, after.lines, n, at, REPLACEMENT, 1) && MovesOn(st, after, n, at + 1)
  {
    hide Shows, MovesOn, LineFor, ColumnFor, Emit, NewLine;
    CursorInside(st, s);
    PrintShows(st, s, REPLACEMENT);
  }

  /** A mark that attaches is added to one cell, the one before the cursor or the wide one it continues. */
  lemma MarkWritten(st: Style, s: Screen, c: scalar)
    requires ScreenOk(st, s) && Attaches(st, s, c)
    ensures var after, n := Write(st, s, c), |s.lines| - 1;
            && s.cursor > 0 && after.cursor == s.cursor && |after.lines| == |s.lines|
            && (forall i :: 0 <= i < n ==> after.lines[i] == s.lines[i])
            && |after.lines[n].cells| == st.columns && after.lines[n].used == s.lines[n].used
            && var at := if s.lines[n].cells[s.cursor - 1].continuation && s.cursor >= 2 then s.cursor - 2 else s.cursor - 1;
               && |s.lines[n].cells[at].marks| < COMBINING_CAPACITY
               && after.lines[n].cells[at] == s.lines[n].cells[at].(marks := s.lines[n].cells[at].marks + [c])
               && forall j :: 0 <= j < st.columns && j != at ==> after.lines[n].cells[j] == s.lines[n].cells[j]
  {
  }

  /** What has no width and is no mark is not shown. */
  lemma InvisibleWritten(st: Style, s: Screen, c: scalar)
    requires ScreenOk(st, s) && CellWidth(c) == 0 && !IsCombining(c)
    ensures Write(st, s, c) == s
  {
  }

  // Running text.

  /** The first line feed of a text, or its end. */
  function FirstFeed(text: seq<scalar>): (n: nat)
    ensures n <= |text| && (n < |text| ==> text[n] == FEED) && forall i :: 0 <= i < n ==> text[i] != FEED
  {
    if text == [] || text[0] == FEED then 0 else 1 + FirstFeed(text[1..])
  }

  /** A text split at its line feeds and wrapped at a number of columns; a full row is followed by another. */
  function Wrapped(columns: nat, text: seq<scalar>): (rows: seq<seq<scalar>>)
    requires columns > 0
    decreases |text|
  {
    var n := FirstFeed(text);
    if n >= columns then [text[..columns]] + Wrapped(columns, text[columns..])
    else if n == |text| then [text]
    else [text[..n]] + Wrapped(columns, text[n + 1..])
  }

  predicate Narrow(c: scalar) { Printable(c) && CellWidth(c) == 1 }

  ghost predicate Plain(text: seq<scalar>) {
    forall i :: 0 <= i < |text| ==> text[i] == FEED || Narrow(text[i])
  }

  /** A line that shows a row of text from its start, and is blank after it. */
  ghost predicate ShowsRow(st: Style, l: Line, row: seq<scalar>) {
    && |l.cells| == st.columns && l.used == |row| <= st.columns
    && forall j :: 0 <= j < st.columns ==>
         l.cells[j] == Cell(if j < |row| then row[j] else SPACE, [], st.foreground, st.background, 1, false)
  }

  /** The terminal shows some rows of text, the last of which has room at the cursor. */
  ghost predicate ShowsRows(st: Style, s: Screen, rows: seq<seq<scalar>>) {
    && rows != [] && |s.lines| == |rows| && s.cursor == |rows[|rows| - 1]| < st.columns
    && forall i :: 0 <= i < |rows| ==> ShowsRow(st, s.lines[i], rows[i])
  }

  /** The rows after one more scalar. */
  function Extended(columns: nat, rows: seq<seq<scalar>>, c: scalar): (more: seq<seq<scalar>>)
    requires rows != []
    ensures more != []
  {
    var front, last := rows[..|rows| - 1], rows[|rows| - 1];
    if c == FEED then rows + [[]]
    else if |last| + 1 < columns then front + [last + [c]]
    else front + [last + [c], []]
  }

  lemma BlankShows(st: Style, l: Line)
    requires IsBlank(st, l)
    ensures ShowsRow(st, l, [])
  {
  }

  lemma RowMore(st: Style, was: seq<Line>, now: seq<Line>, n: nat, row: seq<scalar>, c: scalar)
    requires n == |was| - 1 && ShowsRow(st, was[n], row) && Shows(st, was, now, n, |row|, c, 1)
    ensures ShowsRow(st, now[n], row + [c])
  {
  }

  /** One more scalar of plain text extends the rows. */
  lemma PlainStep(st: Style, s: Screen, rows: seq<seq<scalar>>, c: scalar)
    requires ScreenOk(st, s) && ShowsRows(st, s, rows) && (c == FEED || Narrow(c))
    ensures ShowsRows(st, Write(st, s, c), Extended(st.columns, rows, c))
  {
    hide Write, ShowsRow, ScreenOk, CellWidth, Shows, IsBlank;
    var after, n := Write(st, s, c), |rows| - 1;
    if c == FEED {
      FeedStarts(st, s);
      BlankShows(st, after.lines[|s.lines|]);
      assert forall i :: 0 <= i < |s.lines| ==> after.lines[i] == after.lines[..|s.lines|][i];
    } else {
      GlyphWritten(st, s, c);
      ShowsOthers(st, s.lines, after.lines, n, s.cursor, c);
      RowMore(st, s.lines, after.lines, n, rows[n], c);
      if s.cursor + 1 == st.columns {
        BlankShows(st, after.lines[n + 1]);
      }
    }
  }

  lemma ShowsOthers(st: Style, was: seq<Line>, now: seq<Line>, n: nat, at: nat, c: scalar)
    requires Shows(st, was, now, n, at, c, 1) && n < |was|
    ensures n < |now| && forall i :: 0 <= i < |was| && i != n && i < |now| ==> now[i] == was[i]
  {
  }

  function ExtendedAll(columns: nat, rows: seq<seq<scalar>>, text: seq<scalar>): seq<seq<scalar>>
    requires rows != []
    decreases |text|
  {
    if text == [] then rows else ExtendedAll(columns, Extended(columns, rows, text[0]), text[1..])
  }

  lemma {:induction false} PlainRun(st: Style, s: Screen, rows: seq<seq<scalar>>, text: seq<scalar>)
    requires ScreenOk(st, s) && rows != [] && ShowsRows(st, s, rows) && Plain(text)
    ensures ShowsRows(st, WriteAll(st, s, text), ExtendedAll(st.columns, rows, text))
    decreases |text|
  {
    hide Write, ScreenOk, ShowsRows, Extended;
    if text != [] {
      assert text[0] == FEED || Narrow(text[0]);
      PlainStep(st, s, rows, text[0]);
      WriteOk(st, s, text[0]);
      PlainRun(st, Write(st, s, text[0]), Extended(st.columns, rows, text[0]), text[1..]);
    }
  }

  lemma FeedAfter(last: seq<scalar>, text: seq<scalar>)
    requires forall i :: 0 <= i < |last| ==> last[i] != FEED
    ensures FirstFeed(last + text) == |last| + FirstFeed(text)
  {
    var all := last + text;
    assert forall i :: 0 <= i < |last| ==> all[i] == last[i];
    assert forall i :: 0 <= i < |text| ==> all[|last| + i] == text[i];
  }

  lemma WrappedShort(columns: nat, row: seq<scalar>)
    requires |row| < columns && forall i :: 0 <= i < |row| ==> row[i] != FEED
    ensures Wrapped(columns, row) == [row]
  {
  }

  lemma WrappedFeed(columns: nat, row: seq<scalar>, text: seq<scalar>)
    requires |row| < columns && (forall i :: 0 <= i < |row| ==> row[i] != FEED) && text != [] && text[0] == FEED
    ensures Wrapped(columns, row + text) == [row] + Wrapped(columns, text[1..])
  {
    FeedAfter(row, text);
    assert (row + text)[..|row|] == row && (row + text)[|row| + 1..] == text[1..];
  }

  lemma WrappedFull(columns: nat, row: seq<scalar>, text: seq<scalar>)
    requires 0 < |row| == columns && forall i :: 0 <= i < |row| ==> row[i] != FEED
    ensures Wrapped(columns, row + text) == [row] + Wrapped(columns, text)
  {
    FeedAfter(row, text);
    assert (row + text)[..columns] == row && (row + text)[columns..] == text;
  }

  lemma ExtendedLast(columns: nat, front: seq<seq<scalar>>, last: seq<scalar>, c: scalar)
    ensures Extended(columns, front + [last], c)
         == if c == FEED then (front + [last]) + [[]]
            else if |last| + 1 < columns then front + [last + [c]]
            else (front + [last + [c]]) + [[]]
  {
    var rows := front + [last];
    assert rows[..|rows| - 1] == front;
    assert front + [last + [c], []] == (front + [last + [c]]) + [[]];
  }

  lemma Joined(front: seq<seq<scalar>>, row: seq<scalar>, rest: seq<seq<scalar>>)
    ensures (front + [row]) + rest == front + ([row] + rest)
  {
  }

  lemma ExtendedNext(columns: nat, rows: seq<seq<scalar>>, text: seq<scalar>)
    requires rows != [] && text != []
    ensures ExtendedAll(columns, rows, text) == ExtendedAll(columns, Extended(columns, rows, text[0]), text[1..])
  {
  }

  /** Extending rows scalar by scalar wraps the text. */
  lemma {:induction false} ExtendedIsWrapped(columns: nat, front: seq<seq<scalar>>, last: seq<scalar>, text: seq<scalar>)
    requires |last| < columns && forall i :: 0 <= i < |last| ==> last[i] != FEED
    ensures ExtendedAll(columns, front + [last], text) == front + Wrapped(columns, last + text)
    decreases |text|
  {
    hide Wrapped, FirstFeed, Extended;
    if text == [] {
      assert last + text == last;
      WrappedShort(columns, last);
    } else {
      hide ExtendedAll;
      var c, rest := text[0], text[1..];
      ExtendedNext(columns, front + [last], text);
      ExtendedLast(columns, front, last, c);
      assert [] + rest == rest;
      if c == FEED {
        WrappedFeed(columns, last, text);
        ExtendedIsWrapped(columns, front + [last], [], rest);
        Joined(front, last, Wrapped(columns, rest));
      } else {
        var full := last + [c];
        assert last + text == full + rest;
        if |full| < columns {
          ExtendedIsWrapped(columns, front, full, rest);
        } else {
          WrappedFull(columns, full, rest);
          ExtendedIsWrapped(columns, front + [full], [], rest);
          Joined(front, full, Wrapped(columns, rest));
        }
      }
    }
  }

  /**
   * Narrow text with line feeds, written to a fresh terminal, shows exactly the text split at its line
   * feeds and wrapped at the number of columns, with the cursor at its end.
   */
  lemma PlainTextShown(st: Style, text: seq<scalar>)
    requires st.columns > 0 && Plain(text)
    ensures ScreenOk(st, Fresh(st)) && ShowsRows(st, WriteAll(st, Fresh(st), text), Wrapped(st.columns, text))
  {
    hide ShowsRows, WriteAll, ExtendedAll, Wrapped;
    FreshShows(st);
    var rows: seq<seq<scalar>> := [[]];
    PlainRun(st, Fresh(st), rows, text);
    ExtendedIsWrapped(st.columns, [], [], text);
    assert [] + [[]] == rows;
    assert [] + text == text && [] + Wrapped(st.columns, text) == Wrapped(st.columns, text);
  }

  lemma FreshShows(st: Style)
    requires st.columns > 0
    ensures ScreenOk(st, Fresh(st)) && ShowsRows(st, Fresh(st), [[]])
  {
  }

  // Tabs.

  function Repeated(c: scalar, n: nat): (text: seq<scalar>)
    ensures |text| == n && forall i :: 0 <= i < n ==> text[i] == c
  {
    seq(n, _ => c)
  }

  lemma {:induction false} SpacesAreText(st: Style, s: Screen, n: nat)
    requires ScreenOk(st, s)
    ensures Spaces(st, s, n) == WriteAll(st, s, Repeated(SPACE, n))
    decreases n
  {
    hide Print, ScreenOk;
    if n > 0 {
      PrintOk(st, s, SPACE);
      SpacesAreText(st, Print(st, s, SPACE), n - 1);
      assert Repeated(SPACE, n)[1..] == Repeated(SPACE, n - 1);
    }
  }

  /** The lines are as before but for spaces from a column on in the last of them. */
  ghost predicate ShowsSpaces(st: Style, was: seq<Line>, now: seq<Line>, at: nat, n: nat) {
    && was != [] && |was| <= |now| && at + n <= st.columns
    && (forall i :: 0 <= i < |was| - 1 ==> now[i] == was[i])
    && var l, m := was[|was| - 1], now[|was| - 1];
       && |l.cells| == |m.cells| == st.columns
       && (n > 0 ==> m.used == if l.used < at + n then at + n else l.used)
       && forall j :: 0 <= j < st.columns ==>
            m.cells[j] == if at <= j < at + n then Cell(SPACE, [], st.foreground, st.background, 1, false) else l.cells[j]
  }

  lemma {:induction false} SpacesShown(st: Style, s: Screen, n: nat)
    requires ScreenOk(st, s) && n > 0 && s.cursor + n <= st.columns
    ensures var after := Spaces(st, s, n);
            ShowsSpaces(st, s.lines, after.lines, s.cursor, n) && MovesOn(st, after, |s.lines| - 1, s.cursor + n)
    decreases n
  {
    hide Print, IsBlank;
    PrintOk(st, s, SPACE);
    PrintShows(st, s, SPACE);
    var next := Print(st, s, SPACE);
    assert ShowsSpaces(st, s.lines, next.lines, s.cursor, 1);
    if n > 1 {
      SpacesShown(st, next, n - 1);
      SpacesJoin(st, s.lines, next.lines, Spaces(st, next, n - 1).lines, s.cursor, n);
    }
  }

  lemma SpacesJoin(st: Style, was: seq<Line>, mid: seq<Line>, now: seq<Line>, at: nat, n: nat)
    requires n > 1 && |mid| == |was| && ShowsSpaces(st, was, mid, at, 1) && ShowsSpaces(st, mid, now, at + 1, n - 1)
    ensures ShowsSpaces(st, was, now, at, n)
  {
  }

  lemma {:induction false} SpacesCursor(st: Style, s: Screen, n: nat)
    requires ScreenOk(st, s)
    ensures Spaces(st, s, n).cursor == (s.cursor + n) % st.columns
    decreases n
  {
    hide Print, ScreenOk;
    CursorInside(st, s);
    if n == 0 {
      SmallRemainder(s.cursor, st.columns);
    } else {
      PrintOk(st, s, SPACE);
      SpaceCursor(st, s);
      SpacesCursor(st, Print(st, s, SPACE), n - 1);
      RemainderWraps(s.cursor, n, st.columns);
    }
  }

  lemma SpaceCursor(st: Style, s: Screen)
    requires ScreenOk(st, s)
    ensures Print(st, s, SPACE).cursor == if s.cursor + 1 == st.columns then 0 else s.cursor + 1
  {
    hide Print, Shows;
    PrintShows(st, s, SPACE);
  }

  lemma SmallRemainder(c: nat, columns: nat)
    requires c < columns
    ensures c % columns == c
  {
  }

  lemma RemainderWraps(c: nat, n: nat, columns: nat)
    requires c < columns && n > 0
    ensures ((if c + 1 == columns then 0 else c + 1) + (n - 1)) % columns == (c + n) % columns
  {
    if c + 1 == columns {
      var m := n - 1;
      var q := m / columns;
      assert m == q * columns + m % columns;
      assert (q + 1) * columns == q * columns + columns;
      QuotientIs(m + columns, q + 1, m % columns, columns);
    }
  }

  lemma QuotientIs(x: nat, q: nat, r: nat, n: nat)
    requires n > 0 && r < n && x == q * n + r
    ensures x % n == r
  {
    var p := x / n;
    assert x == p * n + x % n;
    assert (q - p) * n == x % n - r;
    assert q - p >= 1 ==> (q - p) * n >= n;
    assert q - p <= -1 ==> (q - p) * n <= 0 - n;
  }

  /**
   * A tab writes as many spaces as there are to the next multiple of four. If they fit the line, that
   * is all it changes; if not, the rest of them goes to the next line.
   */
  lemma TabWritten(st: Style, s: Screen)
    requires ScreenOk(st, s)
    ensures var n, after := 4 - s.cursor % 4, Write(st, s, TAB);
            && (s.cursor + n) % 4 == 0 && after == WriteAll(st, s, Repeated(SPACE, n))
            && after.cursor == (s.cursor + n) % st.columns
            && (s.cursor + n <= st.columns ==>
                  ShowsSpaces(st, s.lines, after.lines, s.cursor, n) && MovesOn(st, after, |s.lines| - 1, s.cursor + n))
  {
    hide Spaces, ShowsSpaces, MovesOn, ScreenOk, WriteAll;
    var n := 4 - s.cursor % 4;
    SpacesAreText(st, s, n);
    SpacesCursor(st, s, n);
    if s.cursor + n <= st.columns {
      SpacesShown(st, s, n);
    }
  }

  /**
   * A tab does not always end at a multiple of four: it does if and only if the columns of the lines
   * that it fills on the way are one.
   */
  lemma TabStops(st: Style, s: Screen)
    requires ScreenOk(st, s)
    ensures var n := 4 - s.cursor % 4;
            Write(st, s, TAB).cursor % 4 == 0 <==> ((s.cursor + n) / st.columns * st.columns) % 4 == 0
  {
    hide Write, WriteAll, ShowsSpaces, MovesOn;
    TabWritten(st, s);
    StopsAt(s.cursor + (4 - s.cursor % 4), st.columns);
  }

  lemma StopsAt(end: nat, columns: nat)
    requires columns > 0 && end % 4 == 0
    ensures end % columns % 4 == 0 <==> (end / columns * columns) % 4 == 0
  {
    FourDivides(end, end / columns * columns, end % columns);
  }

  lemma FourDivides(end: nat, a: nat, b: nat)
    requires end == a + b && end % 4 == 0
    ensures a % 4 == 0 <==> b % 4 == 0
  {
  }

  lemma TabSpills()
    ensures var st := Style(6, 7, 0);
            && ScreenOk(st, Screen([BlankLine(st)], 4))
            && Write(st, Screen([BlankLine(st)], 4), TAB).cursor == 2
  {
    hide Write, WriteAll, ShowsSpaces, MovesOn;
    var st := Style(6, 7, 0);
    TabWritten(st, Screen([BlankLine(st)], 4));
  }

  // Wide cells.

  /** Every wide cell is followed by its continuation, and every continuation follows a wide cell. */
  ghost predicate Paired(l: Line) {
    && (forall j :: 0 <= j < |l.cells| && l.cells[j].width == 2 ==> j + 1 < |l.cells| && l.cells[j + 1].continuation)
    && (forall j :: 0 <= j < |l.cells| && l.cells[j].continuation ==>
          j > 0 && l.cells[j - 1].width == 2 && l.cells[j].width == 0)
  }

  ghost predicate AllPaired(lines: seq<Line>) { forall i :: 0 <= i < |lines| ==> Paired(lines[i]) }

  /** A glyph put at some cells would cover half of a wide one. */
  ghost predicate Halves(l: Line, at: nat, width: nat)
    requires at + width <= |l.cells|
  {
    || (width > 0 && l.cells[at].continuation)
    || (at + width < |l.cells| && l.cells[at + width].continuation)
  }

  lemma PutPaired(st: Style, was: Line, now: Line, at: nat, c: scalar, width: nat)
    requires Paired(was) && Shows(st, [was], [now], 0, at, c, width)
    ensures Paired(now) <==> !Halves(was, at, width)
  {
    if !Halves(was, at, width) {
      forall j | 0 <= j < |now.cells| && now.cells[j].width == 2
        ensures j + 1 < |now.cells| && now.cells[j + 1].continuation
      {
        if j < at || at + width <= j {
          assert was.cells[j].width == 2;
        }
      }
      forall j | 0 <= j < |now.cells| && now.cells[j].continuation
        ensures j > 0 && now.cells[j - 1].width == 2 && now.cells[j].width == 0
      {
        if j < at || at + width <= j {
          assert was.cells[j].continuation;
        }
      }
    } else if was.cells[at].continuation {
      assert now.cells[at - 1].width == 2 && !now.cells[at].continuation;
    } else {
      assert now.cells[at + width].continuation && now.cells[at + width - 1].width != 2;
    }
  }

  lemma ShowsOne(st: Style, was: seq<Line>, now: seq<Line>, n: nat, at: nat, c: scalar, width: nat)
    requires Shows(st, was, now, n, at, c, width)
    ensures n < |now| && (if n < |was| then Shows(st, [was[n]], [now[n]], 0, at, c, width)
                          else Shows(st, [BlankLine(st)], [now[n]], 0, at, c, width))
  {
  }

  /**
   * Writing a printable scalar keeps wide cells and continuations together if and only if it does not
   * cover half of a wide cell, which only a line that is written again can show.
   */
  lemma WidePairs(st: Style, s: Screen, c: scalar)
    requires ScreenOk(st, s) && Printable(c) && CellWidth(c) <= st.columns && AllPaired(s.lines)
    ensures var w := CellWidth(c);
            AllPaired(Write(st, s, c).lines) <==> (s.cursor + w <= st.columns ==> !Halves(Last(s), s.cursor, w))
  {
    hide Write, Shows, Paired, BlankLine, CellWidth;
    var w := CellWidth(c);
    var n, at, after := LineFor(st, s, w), ColumnFor(st, s, w), Write(st, s, c);
    GlyphWritten(st, s, c);
    ShowsOne(st, s.lines, after.lines, n, at, c, w);
    BlankPaired(st);
    ShowsRest(st, s.lines, after.lines, n, at, c, w);
    if n < |s.lines| {
      PutPaired(st, s.lines[n], after.lines[n], at, c, w);
    } else {
      PutPaired(st, BlankLine(st), after.lines[n], at, c, w);
    }
    if at + w == st.columns {
      BlankIs(st, after.lines[n + 1]);
    }
  }

  lemma ShowsRest(st: Style, was: seq<Line>, now: seq<Line>, n: nat, at: nat, c: scalar, width: nat)
    requires Shows(st, was, now, n, at, c, width)
    ensures at + width <= st.columns && n <= |was| <= n + 1 && n < |now|
    ensures forall i :: 0 <= i < |was| && i != n && i < |now| ==> now[i] == was[i]
  {
  }

  lemma BlankIs(st: Style, l: Line)
    requires IsBlank(st, l)
    ensures l == BlankLine(st)
  {
    assert l.cells == BlankLine(st).cells;
  }

  lemma BlankPaired(st: Style)
    ensures Paired(BlankLine(st)) && |BlankLine(st).cells| == st.columns
    ensures forall at: nat, w: nat :: at + w <= st.columns ==> !Halves(BlankLine(st), at, w)
  {
  }

  /** A wide character at the start of a fresh terminal. */
  lemma WideStart(st: Style, c: scalar)
    requires st.columns > 2 && Printable(c) && CellWidth(c) == 2
    ensures ScreenOk(st, Fresh(st)) && ScreenOk(st, Write(st, Fresh(st), c))
    ensures var one := Write(st, Fresh(st), c);
            |one.lines| == 1 && AllPaired(one.lines) && one.lines[0].cells[1].continuation
  {
    hide Write;
    FreshShows(st);
    BlankPaired(st);
    GlyphWritten(st, Fresh(st), c);
    WriteOk(st, Fresh(st), c);
    WidePairs(st, Fresh(st), c);
  }

  /** After a wide character and a carriage return, a narrow one leaves half of the wide one behind. */
  lemma WideHalved(st: Style, wide: scalar, narrow: scalar)
    requires st.columns > 2 && Printable(wide) && CellWidth(wide) == 2 && Narrow(narrow)
    ensures ScreenOk(st, Fresh(st)) && !AllPaired(WriteAll(st, Fresh(st), [wide, RETURN, narrow]).lines)
  {
    hide Write, AllPaired, CellWidth, ScreenOk;
    WideStart(st, wide);
    var one := Write(st, Fresh(st), wide);
    var two := Write(st, one, RETURN);
    WriteOk(st, one, RETURN);
    ReturnKeepsLines(st, one);
    RowsWhole(st, two);
    assert Halves(Last(two), 0, 1);
    WidePairs(st, two, narrow);
    var text: seq<scalar> := [wide, RETURN, narrow];
    assert text[1..] == [RETURN, narrow] && text[1..][1..] == [narrow] && text[1..][1..][1..] == [];
    WriteOk(st, two, narrow);
    assert WriteAll(st, Write(st, two, narrow), []) == Write(st, two, narrow);
    assert WriteAll(st, two, [narrow]) == Write(st, two, narrow);
    assert WriteAll(st, one, [RETURN, narrow]) == WriteAll(st, two, [narrow]);
    assert WriteAll(st, Fresh(st), text) == WriteAll(st, one, [RETURN, narrow]);
  }

  lemma RowsWhole(st: Style, s: Screen)
    requires ScreenOk(st, s)
    ensures s.lines != [] && |Last(s).cells| == st.columns
  {
  }
}
