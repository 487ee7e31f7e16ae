/** The terminal object of internal/sshclient/terminal.go: the methods and their loops, each doing to the
    fields what the operation on values of the same name says. */
module TerminalEmulator {
  import opened Geometry
  import opened Operations
  import opened TerminalGrid
  import opened Utf8
  import opened TerminalParser

  /** Blank cells depend on the colours only. */
  lemma SameBlank(a: Terminal, b: Terminal, n: nat)
    requires a.fg == b.fg && a.bg == b.bg
    ensures BlankCells(a, n) == BlankCells(b, n)
  {
  }

  /** Erasing in the line marks the cursor's row. */
  lemma EraseLineMarks(t: Terminal, mode: int)
    requires InBounds(t)
    ensures var r := TerminalGrid.EraseLine(t, mode); r.dirty[t.cursorY] && r.cursorY == t.cursorY && r.rows == t.rows
  {
  }

  /** Erasing in the line does the same whatever was dirty. */
  lemma EraseLineUnmarked(t: Terminal, dirty: seq<bool>, mode: int)
    requires InBounds(t) && |dirty| == t.rows
    ensures TerminalGrid.EraseLine(t, mode)
            == TerminalGrid.EraseLine(t.(dirty := dirty), mode).(dirty := t.dirty[t.cursorY := true])
    ensures TerminalGrid.EraseLine(t.(dirty := dirty), mode).dirty == dirty[t.cursorY := true]
  {
    assert BlankCells(t, t.cols) == BlankCells(t.(dirty := dirty), t.cols);
  }

  lemma MarginsInBounds(t: Terminal, top: int, bottom: int)
    requires InBounds(t) && 0 <= top < bottom < t.rows
    ensures InBounds(t.(scrollTop := top, scrollBottom := bottom))
  {
  }

  lemma MarkedBelow(dirty: seq<bool>, row: int, to: int)
    requires 0 <= row < |dirty| && dirty[row]
    ensures MarkedRange(dirty, row, to) == MarkedRange(dirty, row + 1, to)
  {
  }

  lemma MarkedAbove(dirty: seq<bool>, row: int)
    requires 0 <= row < |dirty|
    ensures MarkedRange(dirty[row := true], 0, row) == MarkedRange(dirty, 0, row - 1)[row := true]
  {
  }

  class Emulator {
    const cols: nat
    const rows: nat
    const marks: set<int>
    var cells: seq<seq<Cell>>
    var cursorX: int
    var cursorY: int
    var savedX: int
    var savedY: int
    var fg: int
    var bg: int
    var bold: bool
    var inverse: bool
    var scrollTop: int
    var scrollBottom: int
    var state: nat
    var csi: seq<Byte>
    var pendingUtf8: seq<Byte>
    var dirty: seq<bool>

    ghost function View(): Terminal
      reads this
    {
      Terminal(cols, rows, cells, cursorX, cursorY, savedX, savedY, fg, bg, bold, inverse,
               scrollTop, scrollBottom, state, csi, pendingUtf8, dirty, marks)
    }

    constructor (cols: nat, rows: nat, marks: set<int>)
      requires cols >= 1 && rows >= 1
      ensures Valid(View()) && View().pending == [] && View().state == 0
      ensures View() == NewTerminal(cols, rows, marks)
    {
      this.cols, this.rows, this.marks := cols, rows, marks;
      cells := seq(rows, _ => seq(cols, _ => Cell(0, 0, 0, false, false, false)));
      cursorX, cursorY, savedX, savedY := 0, 0, 0, 0;
      fg, bg, bold, inverse := 7, 0, false, false;
      scrollTop, scrollBottom := 0, rows - 1;
      state, csi, pendingUtf8 := 0, [], [];
      dirty := seq(rows, _ => false);
      new;
      ClearAll();
    }

    // ---------- marking and clearing ----------

    method MarkRow(row: int)
      requires InBounds(View())
      modifies this`dirty
      ensures View() == TerminalGrid.MarkRow(old(View()), row)
    {
      if 0 <= row < |dirty| {
        dirty := dirty[row := true];
      }
    }

    method MarkRange(from: int, to: int)
      requires InBounds(View())
      modifies this`dirty
      ensures dirty == MarkedRange(old(dirty), from, to)
    {
      var row := Max(0, from);
      while row <= Min(rows - 1, to)
        invariant Max(0, from) <= row && |dirty| == rows
        invariant forall r :: 0 <= r < rows ==> dirty[r] == (old(dirty)[r] || (from <= r < row && r <= to))
        decreases rows - row
      {
        dirty := dirty[row := true];
        row := row + 1;
      }
    }

    method ClearRow(row: nat)
      requires InBounds(View()) && row < rows
      modifies this`cells
      ensures cells == old(cells)[row := BlankCells(old(View()), cols)]
    {
      ghost var blank := BlankCell(View());
      var col := 0;
      while col < cols
        invariant 0 <= col <= cols
        invariant |cells| == rows && |cells[row]| == cols
        invariant forall r :: 0 <= r < rows && r != row ==> cells[r] == old(cells)[r]
        invariant forall c :: 0 <= c < col ==> cells[row][c] == blank
      {
        cells := cells[row := cells[row][col := Cell(' ' as int, fg, bg, false, false, false)]];
        col := col + 1;
      }
      assert cells[row] == BlankCells(old(View()), cols);
    }

    /** clearRow for the rows from..to. */
    method ClearRowRange(from: int, to: int)
      requires InBounds(View()) && 0 <= from && to < rows
      modifies this`cells
      ensures cells == ClearRows(old(View()), from, to).cells
    {
      ghost var blank := BlankCells(View(), cols);
      var row := from;
      while row <= to
        invariant from <= row
        invariant InBounds(View()) && View() == old(View()).(cells := cells)
        invariant forall r :: 0 <= r < rows ==> cells[r] == if from <= r < row && r <= to then blank else old(cells)[r]
        decreases rows - row
      {
        ClearRow(row);
        row := row + 1;
      }
    }

    method ClearAll()
      requires InBounds(View())
      modifies this`cells, this`dirty
      ensures View() == TerminalGrid.ClearAll(old(View()))
    {
      ClearRowRange(0, rows - 1);
      MarkRange(0, rows - 1);
    }

    // ---------- moving rows ----------

    /** The copying loop of scrollUp and deleteLine. */
    method CopyRowsUp(from: int, to: int)
      requires InBounds(View()) && 0 <= from <= to < rows
      modifies this`cells
      ensures InBounds(View())
      ensures forall r :: from <= r < to ==> cells[r] == old(cells)[r + 1]
      ensures forall r :: 0 <= r < rows && !(from <= r < to) ==> cells[r] == old(cells)[r]
    {
      ghost var before := cells;
      var row := from;
      while row < to
        invariant from <= row <= to && |cells| == rows
        invariant forall r :: from <= r < row ==> cells[r] == before[r + 1]
        invariant forall r :: 0 <= r < rows && !(from <= r < row) ==> cells[r] == before[r]
      {
        cells := cells[row := cells[row + 1]];
        row := row + 1;
      }
    }

    /** The loop, with the clearing and marking after it. */
    method ShiftRowsUp(from: int, to: int)
      requires InBounds(View()) && 0 <= from <= to < rows
      modifies this`cells, this`dirty
      ensures View() == ShiftUp(old(View()), from, to)
    {
      CopyRowsUp(from, to);
      SameBlank(View(), old(View()), cols);
      ClearRow(to);
      MarkRange(from, to);
      assert cells == ShiftUp(old(View()), from, to).cells;
    }

    /** The copying loop of scrollDown and insertLine. */
    method CopyRowsDown(from: int, to: int)
      requires InBounds(View()) && 0 <= from <= to < rows
      modifies this`cells
      ensures InBounds(View())
      ensures forall r :: from < r <= to ==> cells[r] == old(cells)[r - 1]
      ensures forall r :: 0 <= r < rows && !(from < r <= to) ==> cells[r] == old(cells)[r]
    {
      ghost var before := cells;
      var row := to;
      while row > from
        invariant from <= row <= to && |cells| == rows
        invariant forall r :: row < r <= to ==> cells[r] == before[r - 1]
        invariant forall r :: 0 <= r < rows && !(row < r <= to) ==> cells[r] == before[r]
      {
        cells := cells[row := cells[row - 1]];
        row := row - 1;
      }
    }

    /** The loop, with the clearing and marking after it. */
    method ShiftRowsDown(from: int, to: int)
      requires InBounds(View()) && 0 <= from <= to < rows
      modifies this`cells, this`dirty
      ensures View() == ShiftDown(old(View()), from, to)
    {
      CopyRowsDown(from, to);
      SameBlank(View(), old(View()), cols);
      ClearRow(from);
      MarkRange(from, to);
      assert cells == ShiftDown(old(View()), from, to).cells;
    }

    method ScrollUp()
      requires InBounds(View())
      modifies this`cells, this`dirty
      ensures View() == TerminalGrid.ScrollUp(old(View()))
    {
      ShiftRowsUp(scrollTop, scrollBottom);
    }

    method ScrollDown()
      requires InBounds(View())
      modifies this`cells, this`dirty
      ensures View() == TerminalGrid.ScrollDown(old(View()))
    {
      ShiftRowsDown(scrollTop, scrollBottom);
    }

    method InsertLine()
      requires InBounds(View())
      modifies this`cells, this`dirty
      ensures View() == TerminalGrid.InsertLine(old(View()))
    {
      if cursorY < scrollTop || cursorY > scrollBottom {
        return;
      }
      ShiftRowsDown(cursorY, scrollBottom);
    }

    method DeleteLine()
      requires InBounds(View())
      modifies this`cells, this`dirty
      ensures View() == TerminalGrid.DeleteLine(old(View()))
    {
      if cursorY < scrollTop || cursorY > scrollBottom {
        return;
      }
      ShiftRowsUp(cursorY, scrollBottom);
    }

    /** The counted loops around the four line operations. */
    method RepeatLines(op: LineOperation, n: int)
      requires InBounds(View())
      modifies this
      ensures View() == Lines(old(View()), op, n)
    {
      hide TerminalGrid.ScrollUp, TerminalGrid.ScrollDown, TerminalGrid.InsertLine, TerminalGrid.DeleteLine;
      var i := 0;
      while i < n
        invariant 0 <= i && (i <= n || i == 0)
        invariant InBounds(View()) && View() == Lines(old(View()), op, i)
        decreases n - i
      {
        match op {
          case ScrollsUp => ScrollUp();
          case ScrollsDown => ScrollDown();
          case InsertsLine => InsertLine();
          case DeletesLine => DeleteLine();
        }
        i := i + 1;
      }
    }

    // ---------- changes inside the cursor's row ----------

    /** Cells start..end of the cursor's row made blank, one by one. */
    method BlankSpan(start: int, end: int)
      requires InBounds(View()) && 0 <= start <= end <= cols
      modifies this`cells
      ensures cells == old(cells)[cursorY := old(cells)[cursorY][..start] + BlankCells(old(View()), end - start)
                                             + old(cells)[cursorY][end..]]
    {
      ghost var before, blank := cells, BlankCell(View());
      var col := start;
      while col < end
        invariant start <= col <= end
        invariant |cells| == rows && |cells[cursorY]| == cols
        invariant forall r :: 0 <= r < rows && r != cursorY ==> cells[r] == before[r]
        invariant forall c :: 0 <= c < cols ==>
                    cells[cursorY][c] == if start <= c < col then blank else before[cursorY][c]
      {
        cells := cells[cursorY := cells[cursorY][col := Cell(' ' as int, fg, bg, false, false, false)]];
        col := col + 1;
      }
      assert cells[cursorY] == before[cursorY][..start] + BlankCells(old(View()), end - start) + before[cursorY][end..];
    }

    method InsertChars(count: int)
      requires InBounds(View())
      modifies this`cells, this`dirty
      ensures View() == TerminalGrid.InsertChars(old(View()), count)
    {
      var n := Min(Max(count, 1), cols - cursorX);
      var row := cells[cursorY];
      ghost var moved := row[..cursorX + n] + row[cursorX..cols - n];
      cells := cells[cursorY := row[..cursorX + n] + row[cursorX..cols - n]];
      SameBlank(View(), old(View()), n);
      BlankSpan(cursorX, cursorX + n);
      MarkRow(cursorY);
      assert moved[..cursorX] == row[..cursorX] && moved[cursorX + n..] == row[cursorX..cols - n];
    }

    method DeleteChars(count: int)
      requires InBounds(View())
      modifies this`cells, this`dirty
      ensures View() == TerminalGrid.DeleteChars(old(View()), count)
    {
      var n := Min(Max(count, 1), cols - cursorX);
      var row := cells[cursorY];
      ghost var kept := row[..cursorX] + row[cursorX + n..];
      ghost var moved := kept + row[cols - n..];
      cells := cells[cursorY := row[..cursorX] + row[cursorX + n..] + row[cols - n..]];
      SameBlank(View(), old(View()), n);
      BlankSpan(cols - n, cols);
      MarkRow(cursorY);
      assert moved[..cols - n] == kept && moved[cols..] == [];
      assert kept + BlankCells(old(View()), n) + [] == kept + BlankCells(old(View()), n);
    }

    method EraseChars(count: int)
      requires InBounds(View())
      modifies this`cells, this`dirty
      ensures View() == TerminalGrid.EraseChars(old(View()), count)
    {
      var n := Min(Max(count, 1), cols - cursorX);
      BlankSpan(cursorX, cursorX + n);
      MarkRow(cursorY);
    }

    method EraseLine(mode: int)
      requires InBounds(View())
      modifies this`cells, this`dirty
      ensures View() == TerminalGrid.EraseLine(old(View()), mode)
    {
      var start, end := 0, cols;
      if mode == 0 {
        start := cursorX;
      } else if mode == 1 {
        end := cursorX + 1;
      }
      BlankSpan(start, end);
      MarkRow(cursorY);
    }

    method EraseDisplay(mode: int)
      requires InBounds(View())
      modifies this`cells, this`dirty
      ensures View() == TerminalGrid.EraseDisplay(old(View()), mode)
    {
      hide TerminalGrid.EraseLine, Tracked, MarkedRange;
      if mode == 0 {
        EraseLineMarks(View(), 0);
        EraseLine(0);
        MarkedBelow(dirty, cursorY, rows - 1);
        ClearRowRange(cursorY + 1, rows - 1);
        MarkRange(cursorY, rows - 1);
      } else if mode == 1 {
        EraseLineUnmarked(ClearRows(View(), 0, cursorY - 1), dirty, 1);
        MarkedAbove(dirty, cursorY);
        ClearRowRange(0, cursorY - 1);
        EraseLine(1);
        MarkRange(0, cursorY);
      } else if mode == 2 || mode == 3 {
        ClearAll();
      }
    }

    // ---------- the cursor ----------

    method MoveCursor(row: int, col: int)
      requires InBounds(View())
      modifies this`cursorX, this`cursorY, this`dirty
      ensures View() == TerminalGrid.MoveCursor(old(View()), row, col)
    {
      MarkRow(cursorY);
      cursorY := Min(Max(row, 0), rows - 1);
      cursorX := Min(Max(col, 0), cols - 1);
      MarkRow(cursorY);
    }

    /** lineFeed after the cursor was put in a column: cursorX is set, its row not yet marked. */
    method LineFeed(ghost before: Terminal)
      requires InBounds(View()) && InBounds(before) && View() == before.(cursorX := cursorX)
      modifies this`cursorY, this`cells, this`dirty
      ensures View() == TerminalGrid.LineFeed(before, old(cursorX))
    {
      MarkRow(cursorY);
      if cursorY == scrollBottom {
        assert View() == PlaceCursor(before, cursorY, cursorX);
        ScrollUp();
        return;
      }
      cursorY := Min(rows - 1, cursorY + 1);
      MarkRow(cursorY);
    }

    method ReverseIndex()
      requires InBounds(View())
      modifies this
      ensures View() == TerminalGrid.ReverseIndex(old(View()))
    {
      if cursorY == scrollTop {
        ScrollDown();
        return;
      }
      MoveCursor(cursorY - 1, cursorX);
    }

    method Reset()
      requires InBounds(View())
      modifies this
      ensures View() == TerminalGrid.Reset(old(View()))
    {
      hide TerminalGrid.ClearAll, Tracked;
      ResetFields();
      ClearAll();
    }

    method ResetFields()
      modifies this
      ensures View() == old(View()).(cursorX := 0, cursorY := 0, savedX := 0, savedY := 0,
                                     fg := 7, bg := 0, bold := false,
                                     inverse := false, scrollTop := 0, scrollBottom := rows - 1)
    {
      ResetCursor();
      ResetStyle();
      scrollTop, scrollBottom := 0, rows - 1;
    }

    method ResetCursor()
      modifies this`cursorX, this`cursorY, this`savedX, this`savedY
      ensures cursorX == 0 && cursorY == 0 && savedX == 0 && savedY == 0
    {
      cursorX, cursorY, savedX, savedY := 0, 0, 0, 0;
    }

    method ResetStyle()
      modifies this`fg, this`bg, this`bold, this`inverse
      ensures fg == 7 && bg == 0 && !bold && !inverse
    {
      fg, bg, bold, inverse := 7, 0, false, false;
    }

    // ---------- printing ----------

    method ClearWideCell(row: int, col: int)
      requires InBounds(View()) && 0 <= row < rows
      modifies this`cells
      ensures cells == old(cells)[row := ClearWide(old(cells)[row], col, BlankCell(old(View())), marks)]
    {
      if col < 0 || col >= cols {
        return;
      }
      var blank := Cell(' ' as int, fg, bg, false, false, false);
      if cells[row][col].continuation && col > 0 {
        cells := cells[row := cells[row][col - 1 := blank]];
      }
      if RuneWidth(cells[row][col].rune, marks) == 2 && col + 1 < cols {
        cells := cells[row := cells[row][col + 1 := blank]];
      }
      cells := cells[row := cells[row][col := blank]];
    }

    /** The part of putRune that writes cells. */
    method DrawRune(r: int, width: int)
      requires InBounds(View()) && 1 <= width <= 2
      modifies this`cells, this`dirty
      ensures View() == SetCursorRow(old(View()), PutCells(old(View()), old(cells)[cursorY], cursorX, r, width))
      ensures |dirty| == rows && dirty[cursorY]
    {
      hide ClearWide;
      MarkRow(cursorY);
      ClearWideCell(cursorY, cursorX);
      if width == 2 {
        ClearWideCell(cursorY, cursorX + 1);
      }
      cells := cells[cursorY := cells[cursorY][cursorX := Cell(r, fg, bg, bold, inverse, false)]];
      if width == 2 && cursorX + 1 < cols {
        cells := cells[cursorY := cells[cursorY][cursorX + 1 := Cell(' ' as int, fg, bg, bold, inverse, true)]];
      }
    }

    method PutRune(r: int)
      requires InBounds(View())
      modifies this
      ensures View() == TerminalGrid.PutRune(old(View()), r)
    {
      hide PutCells, RuneWidth, TerminalGrid.LineFeed, PlaceCursor, SetCursorRow, Tracked;
      if r < 0x20 {
        return;
      }
      var width := RuneWidth(r, marks);
      if width == 0 {
        return;
      }
      if width == 2 && cursorX == cols - 1 {
        cursorX := 0;
        LineFeed(old(View()));
      }
      assert View() == WrapWide(old(View()), width);
      DrawRune(r, width);
      AdvanceCursor(width);
    }

    /** The cursor movement at the end of putRune; the cursor's row is marked already. */
    method AdvanceCursor(width: int)
      requires InBounds(View()) && 1 <= width && dirty[cursorY]
      modifies this
      ensures View() == Advance(old(View()), width)
    {
      cursorX := cursorX + width;
      if cursorX >= cols {
        cursorX := 0;
        LineFeed(old(View()));
      }
    }

    method Control(b: Byte)
      requires InBounds(View())
      modifies this
      ensures View() == TerminalGrid.Control(old(View()), b)
    {
      if b == '\r' as int {
        MarkRow(cursorY);
        cursorX := 0;
      } else if b == '\n' as int || b == 0x0B || b == 0x0C {
        cursorX := 0;
        LineFeed(old(View()));
      } else if b == 0x08 {
        MarkRow(cursorY);
        if cursorX > 0 {
          cursorX := cursorX - 1;
        }
      } else if b == '\t' as int {
        MarkRow(cursorY);
        cursorX := Min(cols - 1, (cursorX / 8 + 1) * 8);
      }
    }

    // ---------- sequences ----------

    /** The cases of sgr that take one parameter. */
    method SelectOne(value: int)
      modifies this`fg, this`bg, this`bold, this`inverse
      ensures View() == SgrOne(old(View()), value)
    {
      if value == 0 {
        fg, bg, bold, inverse := 7, 0, false, false;
      } else if value == 1 {
        bold := true;
      } else if value == 22 {
        bold := false;
      } else if value == 7 {
        inverse := true;
      } else if value == 27 {
        inverse := false;
      } else if 30 <= value <= 37 {
        fg := value - 30;
      } else if value == 39 {
        fg := 7;
      } else if 40 <= value <= 47 {
        bg := value - 40;
      } else if value == 49 {
        bg := 0;
      } else if 90 <= value <= 97 {
        fg := value - 90 + 8;
      } else if 100 <= value <= 107 {
        bg := value - 100 + 8;
      }
    }

    method SelectGraphics(params: seq<int>)
      requires InBounds(View())
      modifies this`fg, this`bg, this`bold, this`inverse
      ensures View() == Sgr(old(View()), params)
    {
      hide ExtendedColour, SgrOne, Tracked;
      var list := if |params| == 0 then [0] else params;
      var index := 0;
      while index < |list|
        invariant 0 <= index
        invariant SgrFrom(View(), list, index) == SgrFrom(old(View()), list, 0)
        decreases |list| - index
      {
        var value := list[index];
        if value == 38 || value == 48 {
          var extended := ExtendedColour(list[index + 1..]);
          if extended.Some? {
            if value == 38 {
              fg := extended.value.0;
            } else {
              bg := extended.value.0;
            }
            index := index + extended.value.1;
          }
        } else {
          SelectOne(value);
        }
        index := index + 1;
      }
    }

    method ExecuteCsiSequence(final: Byte)
      requires InBounds(View())
      modifies this
      ensures View() == ExecuteCsi(old(View()), final)
    {
      hide TerminalGrid.MoveCursor, TerminalGrid.EraseDisplay, TerminalGrid.EraseLine, Sgr, Lines, InBounds, Sound,
           TerminalGrid.InsertChars, TerminalGrid.DeleteChars, TerminalGrid.EraseChars, Tracked, Int64, ParseParams,
           Param;
      var params := ParseParams(csi);
      var p := Param(params, 0, 1);
      match final as char
      case 'A' => MoveCursor(Int64(cursorY - p), cursorX);
      case 'B' => MoveCursor(Int64(cursorY + p), cursorX);
      case 'e' => MoveCursor(Int64(cursorY + p), cursorX);
      case 'C' => MoveCursor(cursorY, Int64(cursorX + p));
      case 'a' => MoveCursor(cursorY, Int64(cursorX + p));
      case 'D' => MoveCursor(cursorY, Int64(cursorX - p));
      case 'E' => MoveCursor(Int64(cursorY + p), 0);
      case 'F' => MoveCursor(Int64(cursorY - p), 0);
      case 'G' => MoveCursor(cursorY, Int64(p - 1));
      case '`' => MoveCursor(cursorY, Int64(p - 1));
      case 'H' => MoveCursor(Int64(p - 1), Int64(Param(params, 1, 1) - 1));
      case 'f' => MoveCursor(Int64(p - 1), Int64(Param(params, 1, 1) - 1));
      case 'd' => MoveCursor(Int64(p - 1), cursorX);
      case 'J' => EraseDisplay(Param(params, 0, 0));
      case 'K' => EraseLine(Param(params, 0, 0));
      case 'm' => SelectGraphics(params);
      case 's' => savedX, savedY := cursorX, cursorY;
      case 'u' => MoveCursor(savedY, savedX);
      case 'r' =>
        var top, bottom := Int64(p - 1), Int64(Param(params, 1, rows) - 1);
        if top >= 0 && bottom < rows && top < bottom {
          MarginsInBounds(View(), top, bottom);
          scrollTop, scrollBottom := top, bottom;
          MoveCursor(0, 0);
        }
      case 'S' => RepeatLines(ScrollsUp, p);
      case 'T' => RepeatLines(ScrollsDown, p);
      case '@' => InsertChars(p);
      case 'P' => DeleteChars(p);
      case 'X' => EraseChars(p);
      case 'L' => RepeatLines(InsertsLine, p);
      case 'M' => RepeatLines(DeletesLine, p);
      case _ =>
    }

    method EscapeByte(b: Byte)
      requires InBounds(View())
      modifies this
      ensures View() == Escape(old(View()), b)
    {
      var c := b as char;
      if c == '[' {
        state, csi := 2, [];
        return;
      }
      if c == ']' {
        state := 3;
        return;
      }
      if c in {'(', ')', '*', '+'} {
        state := 5;
        return;
      }
      match c {
        case '7' => savedX, savedY := cursorX, cursorY;
        case '8' => MoveCursor(savedY, savedX);
        case 'D' => LineFeed(View());
        case 'E' =>
          ghost var before := View();
          cursorX := 0;
          LineFeed(before);
        case 'M' => ReverseIndex();
        case 'c' => Reset();
        case _ =>
      }
      state := 0;
    }

    // ---------- Write ----------

    method WriteBytes(p: seq<Byte>)
      requires Valid(View())
      modifies this
      ensures View() == Write(old(View()), p)
      ensures Valid(View())
    {
      hide ByteInSequence, TextStep, FullRune, DecodeRune, Tracked, Feed, InBounds;
      var data := pendingUtf8 + p;
      pendingUtf8 := [];
      var i := 0;
      assert data[0..] == data;
      while i < |data|
        invariant 0 <= i <= |data| && Valid(View())
        invariant i < |data| ==> pendingUtf8 == []
        invariant if pendingUtf8 == [] then Feed(View(), data[i..]) == Write(old(View()), p)
                  else i == |data| && View() == Write(old(View()), p)
      {
        i := Consume(data, i);
      }
      assert data[i..] == [];
      FeedNothing(View());
    }

    /** One turn of Write's loop: a character, a byte of a sequence, or the bytes to keep for later. */
    method Consume(data: seq<Byte>, i: nat) returns (next: nat)
      requires Valid(View()) && View().pending == [] && i < |data|
      modifies this
      ensures Valid(View()) && i < next <= |data|
      ensures if pendingUtf8 == [] then Feed(View(), data[next..]) == Feed(old(View()), data[i..])
              else next == |data| && View() == Feed(old(View()), data[i..])
    {
      hide ByteInSequence, TextStep, FullRune, DecodeRune, Tracked, Feed, InBounds;
      assert data[i..][0] == data[i];
      if state != 0 {
        FeedSequence(View(), data[i..]);
        SequenceByte(data[i]);
        assert data[i..][1..] == data[i + 1..];
        return i + 1;
      }
      FeedText(View(), data[i..]);
      var n := TextByte(data, i);
      if n == 0 {
        assert [] + data[i..] == data[i..];
        pendingUtf8 := pendingUtf8 + data[i..];
        return |data|;
      }
      assert data[i..][n..] == data[i + n..];
      return i + n;
    }

    /** Write's case for plain text: how many bytes were used, none if a character is incomplete. */
    method TextByte(data: seq<Byte>, i: nat) returns (n: nat)
      requires Valid(View()) && View().pending == [] && View().state == 0 && i < |data|
      modifies this
      ensures (View(), n) == TextStep(old(View()), data[i..])
    {
      var b := data[i];
      assert data[i..][0] == b;
      if b == 0x1B {
        state := 1;
        return 1;
      }
      if b < 0x20 || b == 0x7F {
        Control(b);
        return 1;
      }
      if b < 0x80 {
        PutRune(b);
        return 1;
      }
      if !FullRune(data[i..]) {
        return 0;
      }
      var (r, size) := DecodeRune(data[i..]);
      PutRune(r);
      return size;
    }

    /** Write's cases for the states inside a sequence. */
    method SequenceByte(b: Byte)
      requires Valid(View()) && View().pending == [] && View().state != 0
      modifies this
      ensures View() == ByteInSequence(old(View()), b)
    {
      match state
      case 1 => EscapeByte(b);
      case 2 =>
        if 0x40 <= b <= 0x7E {
          ExecuteCsiSequence(b);
          state := 0;
          csi := [];
        } else if |csi| < MAX_CSI {
          csi := csi + [b];
        }
      case 3 =>
        if b == 0x07 {
          state := 0;
        } else if b == 0x1B {
          state := 4;
        }
      case 4 =>
        if b == '\\' as int {
          state := 0;
        } else {
          state := 3;
        }
      case _ => state := 0;
    }
  }
}
