/** The terminal's ring of lines, proved to show the end of the terminal that forgets nothing. */
module TerminalRing {
  import opened Status
  import opened Unicode
  import opened Terminal
  import RingQueue

  function Min(a: nat, b: nat): nat { if a <= b then a else b }

  /** A ring of rows, from a first one on, shows the last so many of a list of lines. */
  ghost predicate Shows(rows: seq<Line>, first: nat, count: nat, lines: seq<Line>) {
    && first < |rows| && 0 < count == Min(|lines|, |rows|)
    && forall k :: 0 <= k < count ==> Shown(rows, first, k) == lines[|lines| - count + k]
  }

  /** The k-th row that a ring shows. */
  function Shown(rows: seq<Line>, first: nat, k: nat): Line
    requires first < |rows| && k < |rows|
  {
    rows[RingQueue.Slot(first, k, |rows|)]
  }

  lemma SlotsDistinct(first: nat, i: nat, j: nat, capacity: nat)
    requires first < capacity && i < capacity && j < capacity && i != j
    ensures RingQueue.Slot(first, i, capacity) != RingQueue.Slot(first, j, capacity)
    ensures RingQueue.Slot(first, i, capacity) < capacity
  {
  }

  /** Changing the row shown last changes the last line, and no other. */
  lemma ShowsLast(rows: seq<Line>, first: nat, count: nat, lines: seq<Line>, l: Line)
    requires Shows(rows, first, count, lines)
    ensures RingQueue.Slot(first, count - 1, |rows|) < |rows|
    ensures Shows(rows[RingQueue.Slot(first, count - 1, |rows|) := l], first, count, lines[|lines| - 1 := l])
  {
    var p := RingQueue.Slot(first, count - 1, |rows|);
    var rows' := rows[p := l];
    forall k | 0 <= k < count
      ensures Shown(rows', first, k) == lines[|lines| - 1 := l][|lines| - count + k]
    {
      if k < count - 1 {
        SlotsDistinct(first, k, count - 1, |rows|);
        assert Shown(rows, first, k) == lines[|lines| - count + k];
      }
    }
  }

  /** A new line in a ring that has room. */
  lemma ShowsMore(rows: seq<Line>, first: nat, count: nat, lines: seq<Line>, l: Line)
    requires Shows(rows, first, count, lines) && count < |rows|
    ensures RingQueue.Slot(first, count, |rows|) < |rows|
    ensures Shows(rows[RingQueue.Slot(first, count, |rows|) := l], first, count + 1, lines + [l])
  {
    var p := RingQueue.Slot(first, count, |rows|);
    var rows' := rows[p := l];
    forall k | 0 <= k < count + 1
      ensures Shown(rows', first, k) == (lines + [l])[|lines + [l]| - (count + 1) + k]
    {
      if k < count {
        SlotsDistinct(first, k, count, |rows|);
        assert Shown(rows, first, k) == lines[|lines| - count + k];
      }
    }
  }

  /** A new line in a full ring: it takes the place of the oldest. */
  lemma ShowsNext(rows: seq<Line>, first: nat, lines: seq<Line>, l: Line)
    requires Shows(rows, first, |rows|, lines)
    ensures var next := RingQueue.Slot(first, 1, |rows|);
            && next < |rows| && RingQueue.Slot(next, |rows| - 1, |rows|) == first
            && Shows(rows[first := l], next, |rows|, lines + [l])
  {
    var n := |rows|;
    var next := RingQueue.Slot(first, 1, n);
    var rows' := rows[first := l];
    forall k | 0 <= k < n
      ensures Shown(rows', next, k) == (lines + [l])[|lines + [l]| - n + k]
    {
      if k < n - 1 {
        assert RingQueue.Slot(next, k, n) == RingQueue.Slot(first, k + 1, n);
        SlotsDistinct(first, 0, k + 1, n);
        assert Shown(rows, first, k + 1) == lines[|lines| - n + (k + 1)];
      }
    }
  }

  class TerminalBuffer {
    const style: Style
    const capacity: nat
    const cells: array2<Cell>
    const usedColumns: array<nat>
    var lineCount: nat
    var firstLine: nat
    var cursor: nat
    var viewport: nat
    /** The terminal without a limit on its lines that this one follows. */
    ghost var screen: Screen

    function Slot(k: nat): nat
      reads this
    {
      RingQueue.Slot(firstLine, k, capacity)
    }

    ghost predicate Shape()
    {
      && capacity > 0 && style.columns > 0
      && cells.Length0 == capacity && cells.Length1 == style.columns && usedColumns.Length == capacity
    }

    /** The line kept in a slot. */
    ghost function Row(p: nat): Line
      requires Shape() && p < capacity
      reads cells, usedColumns
    {
      Line(seq(style.columns, c requires 0 <= c < style.columns && Shape() reads cells => cells[p, c]), usedColumns[p])
    }

    ghost function Rows(): (r: seq<Line>)
      requires Shape()
      reads cells, usedColumns
      ensures |r| == capacity
    {
      seq(capacity, p requires 0 <= p < capacity && Shape() reads cells, usedColumns => Row(p))
    }

    /** The ring shows the last lines of the screen, as many as it has room for. */
    ghost predicate RingOk()
      reads this, cells, usedColumns
    {
      && Shape()
      && LinesOk(style, screen)
      && Shows(Rows(), firstLine, lineCount, screen.lines)
      && viewport < lineCount
    }

    ghost predicate Valid()
      reads this, cells, usedColumns
    {
      RingOk() && ScreenOk(style, screen) && cursor == screen.cursor
    }

    /** Blanks the line in a slot. */
    method ClearRow(p: nat)
      requires Shape() && p < capacity
      modifies cells, usedColumns
      ensures Rows() == old(Rows())[p := BlankLine(style)]
    {
      var column := 0;
      while column < style.columns
        modifies cells
        invariant column <= style.columns
        invariant forall c :: 0 <= c < column ==> cells[p, c] == Blank(style)
        invariant forall q, c :: 0 <= q < capacity && q != p && 0 <= c < style.columns ==> cells[q, c] == old(cells[q, c])
      {
        cells[p, column] := Blank(style);
        column := column + 1;
      }
      usedColumns[p] := 0;
      assert Row(p) == BlankLine(style);
      forall q | 0 <= q < capacity && q != p
        ensures Row(q) == old(Row(q))
      {
      }
    }

    constructor (style: Style, capacity: nat)
      requires style.columns > 0 && capacity > 0
      ensures Valid() && this.style == style && this.capacity == capacity
      ensures screen == Fresh(style) && viewport == 0
      ensures fresh(cells) && fresh(usedColumns)
    {
      this.style, this.capacity := style, capacity;
      cells := new Cell[capacity, style.columns]((_, _) => Blank(style));
      usedColumns := new nat[capacity](_ => 0);
      lineCount, firstLine, cursor, viewport := 1, 0, 0, 0;
      screen := Fresh(style);
      new;
      assert Row(0) == BlankLine(style);
      assert Shown(Rows(), 0, 0) == BlankLine(style);
    }

    /** Forgets everything written so far. */
    method Clear()
      requires Shape()
      modifies this, cells, usedColumns
      ensures Valid() && screen == Fresh(style) && viewport == 0
    {
      lineCount, firstLine, cursor, viewport := 1, 0, 0, 0;
      var line := 0;
      while line < capacity
        modifies cells, usedColumns
        invariant line <= capacity
        invariant forall p :: 0 <= p < line ==> Rows()[p] == BlankLine(style)
      {
        ghost var rows := Rows();
        ClearRow(Slot(line));
        assert Slot(line) == line && Rows() == rows[line := BlankLine(style)];
        line := line + 1;
      }
      screen := Fresh(style);
      assert Shown(Rows(), 0, 0) == BlankLine(style);
    }

    /** Starts a line, dropping the oldest one when the ring is full. */
    method AppendLine()
      requires RingOk()
      modifies this, cells, usedColumns
      ensures Valid() && screen == NewLine(style, old(screen)) && viewport == 0
    {
      hide Shows, Shown, ScreenOk, BlankLine, LinesOk;
      ghost var rows, lines := Rows(), screen.lines;
      ShowsFacts(rows, firstLine, lineCount, lines);
      LinesNewLine(style, screen);
      if lineCount < capacity {
        ShowsMore(rows, firstLine, lineCount, lines, BlankLine(style));
        lineCount := lineCount + 1;
      } else {
        ShowsNext(rows, firstLine, lines, BlankLine(style));
        RingQueue.SlotIsRemainder(firstLine, 1, capacity);
        firstLine := (firstLine + 1) % capacity;
      }
      cursor, viewport := 0, 0;
      ClearRow(Slot(lineCount - 1));
      screen := NewLine(style, screen);
    }

    /** Stores a glyph in a row. */
    method StoreGlyph(p: nat, at: nat, c: nat, width: nat)
      requires Shape() && p < capacity && 1 <= width <= 2 && at + width <= style.columns
      modifies cells, usedColumns
      ensures Rows() == old(Rows())[p := PutGlyph(style, old(Row(p)), at, c, width)]
    {
      ghost var was := Row(p);
      cells[p, at] := Glyph(style, c, width);
      if width == 2 {
        cells[p, at + 1] := Glyph(style, 0, 0).(continuation := true);
      }
      if usedColumns[p] < at + width {
        usedColumns[p] := at + width;
      }
      assert Row(p) == PutGlyph(style, was, at, c, width);
      forall q | 0 <= q < capacity && q != p
        ensures Row(q) == old(Row(q))
      {
      }
    }

    /** Writes a glyph at the cursor, and moves on. */
    method EmitGlyph(c: nat, width: nat)
      requires Valid() && 1 <= width <= 2 && cursor + width <= style.columns
      modifies this, cells, usedColumns
      ensures Valid() && screen == Emit(style, old(screen), c, width)
      ensures viewport == old(viewport) || viewport == 0
    {
      hide Shows, Shown, BlankLine, LinesOk, PutGlyph, ScreenOk;
      ghost var before := screen;
      ScreenLines(style, screen);
      EmitOk(style, screen, c, width);
      ShowsEnd(Rows(), firstLine, lineCount, screen.lines);
      ghost var line := PutGlyph(style, Last(screen), cursor, c, width);
      ShowsLast(Rows(), firstLine, lineCount, screen.lines, line);
      RowShown();
      StoreGlyph(Slot(lineCount - 1), cursor, c, width);
      LinesSetLast(style, screen, line, cursor, c, width);
      cursor := cursor + width;
      screen := SetLast(screen, line).(cursor := cursor);
      if cursor == style.columns {
        AppendLine();
      } else {
        assert screen == Emit(style, before, c, width);
      }
    }

    lemma RowShown()
      requires Shape() && firstLine < capacity && 0 < lineCount <= capacity
      ensures Slot(lineCount - 1) < capacity
      ensures Row(Slot(lineCount - 1)) == Shown(Rows(), firstLine, lineCount - 1)
    {
    }

    method PrintScalar(c: scalar)
      requires Valid()
      modifies this, cells, usedColumns
      ensures Valid() && screen == Print(style, old(screen), c)
      ensures viewport == old(viewport) || viewport == 0
    {
      hide ScreenOk, Emit, NewLine, RingOk;
      var glyph, width := c, CellWidth(c);
      if width == 0 {
        return;
      }
      if width > style.columns {
        glyph, width := REPLACEMENT, 1;
      }
      ScreenLines(style, screen);
      if cursor + width > style.columns {
        NewLineKeeps(style, screen);
        AppendLine();
      }
      EmitGlyph(glyph, width);
    }

    /** Adds a mark to a cell of a row. */
    method StoreMark(p: nat, at: nat, mark: nat)
      requires Shape() && p < capacity && at < style.columns
      modifies cells
      ensures Rows() == old(Rows())[p := AddMark(old(Row(p)), at, mark)]
    {
      ghost var was := Row(p);
      cells[p, at] := cells[p, at].(marks := cells[p, at].marks + [mark]);
      assert Row(p) == AddMark(was, at, mark);
      forall q | 0 <= q < capacity && q != p
        ensures Row(q) == old(Row(q))
      {
      }
    }

    /** The cell before the cursor that a mark would go to, if there is one with room. */
    method FindBase(c: scalar) returns (column: Option<nat>)
      requires Valid() && IsCombining(c)
      ensures column.Some? <==> Attaches(style, screen, c)
      ensures column.Some? ==> column == BaseColumn(style, screen)
    {
      hide Shows, Shown, LinesOk;
      ShowsEnd(Rows(), firstLine, lineCount, screen.lines);
      RowShown();
      if cursor == 0 {
        return None;
      }
      var p := Slot(lineCount - 1);
      var at := cursor - 1;
      assert Row(p).cells[at] == cells[p, at];
      if cells[p, at].continuation && at > 0 {
        at := at - 1;
      }
      assert Row(p).cells[at] == cells[p, at];
      column := if |cells[p, at].marks| < COMBINING_CAPACITY then Some(at) else None;
    }

    /** Attaches a mark to the cell it belongs to. */
    method AttachMark(c: scalar)
      requires Valid() && Attaches(style, screen, c)
      modifies this, cells
      ensures Valid() && screen == SetLast(old(screen), AddMark(Last(old(screen)), BaseColumn(style, old(screen)).value, c))
      ensures viewport == old(viewport)
    {
      hide Shows, Shown, LinesOk;
      var column := FindBase(c);
      ghost var line := AddMark(Last(screen), column.value, c);
      ShowsEnd(Rows(), firstLine, lineCount, screen.lines);
      ShowsLast(Rows(), firstLine, lineCount, screen.lines, line);
      RowShown();
      StoreMark(Slot(lineCount - 1), column.value, c);
      MarkKeeps(style, screen, column.value, c);
      screen := SetLast(screen, line);
    }

    /** Writes one scalar value, exactly as the terminal that forgets nothing would. */
    method WriteScalar(c: nat) returns (status: Status)
      requires Valid()
      modifies this, cells, usedColumns
      ensures Valid()
      ensures !IsScalar(c) ==> status == InvalidArgument && screen == old(screen) && viewport == old(viewport)
      ensures IsScalar(c) ==> status == Success && screen == Write(style, old(screen), c)
      ensures viewport == old(viewport) || viewport == 0
    {
      hide RingOk, Print, Spaces, NewLine, SetLast;
      if !IsScalar(c) {
        return InvalidArgument;
      }
      status := Success;
      if c == 0x0d {
        CarriageReturn();
      } else if c == 0x0a {
        LineFeed();
      } else if c == 0x09 {
        WriteSpaces(4 - cursor % 4);
      } else if IsCombining(c) {
        var column := FindBase(c);
        if column.Some? {
          AttachMark(c);
        } else {
          PrintScalar(REPLACEMENT);
        }
      } else {
        PrintScalar(c);
      }
    }

    method CarriageReturn()
      requires Valid()
      modifies this
      ensures Valid() && screen == old(screen).(cursor := 0) && viewport == old(viewport)
    {
      hide Shows;
      ReturnKeeps(style, screen);
      cursor := 0;
      screen := screen.(cursor := 0);
    }

    method LineFeed()
      requires Valid()
      modifies this, cells, usedColumns
      ensures Valid() && screen == NewLine(style, old(screen)) && viewport == 0
    {
      hide Shows;
      AppendLine();
    }

    method WriteSpaces(n: nat)
      requires Valid()
      modifies this, cells, usedColumns
      ensures Valid() && screen == Spaces(style, old(screen), n)
      ensures viewport == old(viewport) || viewport == 0
    {
      hide RingOk, Print, ScreenOk;
      ghost var whole := Spaces(style, screen, n);
      var index := 0;
      while index < n
        invariant index <= n && Valid() && Spaces(style, screen, n - index) == whole
        invariant viewport == old(viewport) || viewport == 0
      {
        PrintScalar(SPACE);
        index := index + 1;
      }
    }

    /** Writes text up to the first byte that does not decode. */
    method WriteUtf8(text: seq<byte>) returns (status: Status)
      requires Valid()
      modifies this, cells, usedColumns
      ensures Valid()
      ensures screen == WriteAll(style, old(screen), Prefix(text))
      ensures status == if Unicode.Valid(text) then Success else InvalidEncoding
    {
      hide RingOk, Write, ScreenOk, Decode;
      ghost var whole := WriteAll(style, screen, Prefix(text));
      var offset := 0;
      assert text[0..] == text;
      while offset < |text|
        invariant offset <= |text| && Valid()
        invariant WriteAll(style, screen, Prefix(text[offset..])) == whole
        invariant Unicode.Valid(text) <==> Unicode.Valid(text[offset..])
      {
        var decoded := Decode(text[offset..]);
        if decoded.None? {
          return InvalidEncoding;
        }
        PrefixStep(text[offset..]);
        WriteOk(style, screen, decoded.value.value);
        assert text[offset..][decoded.value.consumed..] == text[offset + decoded.value.consumed..];
        status := WriteScalar(decoded.value.value);
        offset := offset + decoded.value.consumed;
      }
      status := Success;
    }

    /** Moves the viewport towards older lines, no further than the oldest. */
    method PageUp(visible: nat)
      requires Valid()
      modifies this`viewport
      ensures Valid()
      ensures viewport == Min(old(viewport) + visible, lineCount - 1)
    {
      if lineCount <= 1 {
        return;
      }
      var most := lineCount - 1;
      if visible > most - viewport {
        viewport := most;
      } else {
        viewport := viewport + visible;
      }
    }

    /** Moves the viewport towards newer lines, no further than the newest. */
    method PageDown(visible: nat)
      requires Valid()
      modifies this`viewport
      ensures Valid()
      ensures viewport == if visible >= old(viewport) then 0 else old(viewport) - visible
    {
      if visible >= viewport {
        viewport := 0;
      } else {
        viewport := viewport - visible;
      }
    }

    /** A line by its number among those shown, oldest first. */
    method GetLine(k: nat) returns (line: Option<Line>)
      requires Valid()
      ensures line == if k < lineCount then Some(screen.lines[|screen.lines| - lineCount + k]) else None
    {
      if k >= lineCount {
        return None;
      }
      var p := Slot(k);
      assert Shown(Rows(), firstLine, k) == Row(p) == screen.lines[|screen.lines| - lineCount + k];
      var row: seq<Cell> := [];
      var column := 0;
      while column < style.columns
        invariant column <= style.columns && row == Row(p).cells[..column]
      {
        row := row + [cells[p, column]];
        column := column + 1;
      }
      assert row == Row(p).cells;
      return Some(Line(row, usedColumns[p]));
    }
  }

  /** The scalars of the part of a text that decodes. */
  function Prefix(text: seq<byte>): seq<scalar>
    decreases |text|
  {
    if text == [] then []
    else match Decode(text)
      case None => []
      case Some(d) => [d.value] + Prefix(text[d.consumed..])
  }

  lemma PrefixStep(text: seq<byte>)
    requires text != [] && Decode(text).Some?
    ensures var d := Decode(text).value;
            Prefix(text) == [d.value] + Prefix(text[d.consumed..]) && Prefix(text)[1..] == Prefix(text[d.consumed..])
  {
    hide Decode;
  }

  lemma {:induction false} PrefixOfValid(text: seq<byte>)
    requires Unicode.Valid(text)
    ensures Prefix(text) == Scalars(text).value
    decreases |text|
  {
    hide Decode;
    if text != [] {
      PrefixOfValid(text[Decode(text).value.consumed..]);
    }
  }

  ghost predicate LinesOk(st: Style, s: Screen) {
    && st.columns > 0 && s.lines != []
    && forall i :: 0 <= i < |s.lines| ==> |s.lines[i].cells| == st.columns && s.lines[i].used <= st.columns
  }

  lemma ScreenLines(st: Style, s: Screen)
    requires ScreenOk(st, s)
    ensures LinesOk(st, s) && s.cursor < st.columns && s.lines != [] && |Last(s).cells| == st.columns
  {
  }

  lemma LinesNewLine(st: Style, s: Screen)
    requires LinesOk(st, s)
    ensures ScreenOk(st, NewLine(st, s)) && LinesOk(st, NewLine(st, s)) && NewLine(st, s).cursor == 0
    ensures NewLine(st, s).lines == s.lines + [BlankLine(st)]
  {
  }

  lemma LinesSetLast(st: Style, s: Screen, line: Line, at: nat, c: nat, width: nat)
    requires ScreenOk(st, s) && 1 <= width <= 2 && at + width <= st.columns && at == s.cursor
    requires line == PutGlyph(st, Last(s), at, c, width)
    ensures var t := SetLast(s, line).(cursor := at + width);
            && LinesOk(st, t) && t.lines == s.lines[|s.lines| - 1 := line]
            && (at + width < st.columns ==> ScreenOk(st, t) && t == Emit(st, s, c, width))
            && (at + width == st.columns ==> NewLine(st, t) == Emit(st, s, c, width))
  {
    PutUsed(st, Last(s), at, c, width);
    hide PutGlyph, BlankLine;
  }

  lemma MarkKeeps(st: Style, s: Screen, at: nat, mark: nat)
    requires ScreenOk(st, s) && at < st.columns
    ensures |Last(s).cells| == st.columns
    ensures var t := SetLast(s, AddMark(Last(s), at, mark));
            ScreenOk(st, t) && LinesOk(st, t) && t.lines == s.lines[|s.lines| - 1 := AddMark(Last(s), at, mark)]
  {
  }

  lemma ReturnKeeps(st: Style, s: Screen)
    requires ScreenOk(st, s)
    ensures ScreenOk(st, s.(cursor := 0)) && LinesOk(st, s.(cursor := 0))
  {
  }

  lemma ShowsFacts(rows: seq<Line>, first: nat, count: nat, lines: seq<Line>)
    requires Shows(rows, first, count, lines)
    ensures first < |rows| && 0 < count <= |rows| && lines != []
  {
  }

  lemma ShowsEnd(rows: seq<Line>, first: nat, count: nat, lines: seq<Line>)
    requires Shows(rows, first, count, lines)
    ensures first < |rows| && 0 < count <= |rows| && lines != []
    ensures Shown(rows, first, count - 1) == lines[|lines| - 1]
  {
  }
}
