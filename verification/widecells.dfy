/** Wide characters of internal/sshclient/terminal.go occupy two cells. Which operations keep the halves
    together, and exactly when the others do. */
module WideCells {
  import opened Geometry
  import opened Operations
  import opened TerminalGrid
  import opened TerminalParser
  import opened Utf8

  /** Every continuation follows a wide character, every wide character is followed by one, and
      continuations hold a space. */
  ghost predicate Paired(row: seq<Cell>, marks: set<int>) {
    && (forall c {:trigger row[c]} :: 0 <= c < |row| && row[c].continuation ==>
          row[c].rune == ' ' as int && c > 0 && Wide(row[c - 1], marks))
    && (forall c {:trigger row[c]} :: 0 <= c < |row| && Wide(row[c], marks) ==>
          c + 1 < |row| && row[c + 1].continuation)
  }

  /** Two columns at least, a space of width 1, and every row paired. */
  ghost predicate GridPaired(t: Terminal) {
    InBounds(t) && t.cols >= 2 && ' ' as int !in t.marks
    && forall r :: 0 <= r < t.rows ==> Paired(t.cells[r], t.marks)
  }

  predicate IsBlank(c: Cell) { c.rune == ' ' as int && !c.continuation }

  lemma BlankNotWide(c: Cell, marks: set<int>)
    requires c.rune == ' ' as int
    ensures !Wide(c, marks)
  {
  }

  lemma BlankPaired(t: Terminal, n: nat)
    ensures Paired(BlankCells(t, n), t.marks)
  {
    BlankNotWide(BlankCell(t), t.marks);
  }

  /** clearWideCell removes both halves of whatever character it meets. */
  lemma ClearWidePaired(row: seq<Cell>, col: int, blank: Cell, marks: set<int>)
    requires Paired(row, marks) && IsBlank(blank)
    ensures Paired(ClearWide(row, col, blank, marks), marks)
    ensures 0 <= col < |row| ==> ClearWide(row, col, blank, marks)[col] == blank
    ensures forall c :: 0 <= c < |row| && IsBlank(row[c]) && !row[c].bold && !row[c].inverse ==>
              IsBlank(ClearWide(row, col, blank, marks)[c])
  {
    BlankNotWide(blank, marks);
    if 0 <= col < |row| {
      if row[col].continuation {
        BlankNotWide(row[col], marks);
      }
    }
    hide RuneWidth;
  }

  /** A narrow character over a blank, unpaired-with-neighbours cell. */
  lemma PutNarrow(row: seq<Cell>, col: nat, c: Cell, marks: set<int>)
    requires col < |row| && Paired(row, marks) && IsBlank(row[col]) && !c.continuation && RuneWidth(c.rune, marks) == 1
    ensures Paired(row[col := c], marks)
  {
  }

  lemma PutWide(row: seq<Cell>, col: nat, c: Cell, half: Cell, marks: set<int>)
    requires col + 1 < |row| && Paired(row, marks) && IsBlank(row[col]) && IsBlank(row[col + 1])
    requires Wide(c, marks) && !c.continuation && half.continuation && half.rune == ' ' as int
    ensures Paired(row[col := c][col + 1 := half], marks)
  {
    BlankNotWide(row[col], marks);
    BlankNotWide(row[col + 1], marks);
    BlankNotWide(half, marks);
    hide RuneWidth;
  }

  lemma PutCellsPaired(t: Terminal, row: seq<Cell>, col: int, r: int)
    requires 0 <= col < |row| && Paired(row, t.marks) && ' ' as int !in t.marks
    requires RuneWidth(r, t.marks) == 1 || (RuneWidth(r, t.marks) == 2 && col + 1 < |row|)
    ensures Paired(PutCells(t, row, col, r, RuneWidth(r, t.marks)), t.marks)
  {
    var blank := BlankCell(t);
    ClearWidePaired(row, col, blank, t.marks);
    var cleared := ClearWide(row, col, blank, t.marks);
    var c := Cell(r, t.fg, t.bg, t.bold, t.inverse, false);
    if RuneWidth(r, t.marks) == 1 {
      hide RuneWidth, ClearWide;
      PutNarrow(cleared, col, c, t.marks);
    } else {
      ClearWidePaired(cleared, col + 1, blank, t.marks);
      hide RuneWidth, ClearWide;
      PutWide(ClearWide(cleared, col + 1, blank, t.marks), col, c,
              Cell(' ' as int, t.fg, t.bg, t.bold, t.inverse, true), t.marks);
    }
  }

  lemma ShiftsPaired(t: Terminal, from: int, to: int)
    requires GridPaired(t) && 0 <= from <= to < t.rows
    ensures GridPaired(ShiftUp(t, from, to)) && GridPaired(ShiftDown(t, from, to))
  {
    BlankPaired(t, t.cols);
    hide Paired;
  }

  lemma LinePaired(t: Terminal, op: LineOperation)
    requires GridPaired(t)
    ensures GridPaired(OneLine(t, op))
  {
    ShiftsPaired(t, t.scrollTop, t.scrollBottom);
    if InMargins(t) {
      ShiftsPaired(t, t.cursorY, t.scrollBottom);
    }
    hide ShiftUp, ShiftDown, Paired;
  }

  lemma {:induction false} LinesPaired(t: Terminal, op: LineOperation, n: int)
    requires GridPaired(t)
    ensures GridPaired(Lines(t, op, n))
    decreases n
  {
    hide GridPaired, OneLine;
    if n > 0 {
      LinesPaired(t, op, n - 1);
      LinePaired(Lines(t, op, n - 1), op);
    }
  }

  lemma PlaceCursorPaired(t: Terminal, row: int, col: int)
    requires GridPaired(t) && 0 <= row < t.rows && 0 <= col < t.cols
    ensures GridPaired(PlaceCursor(t, row, col))
  {
  }

  lemma MoveCursorPaired(t: Terminal, row: int, col: int)
    requires GridPaired(t)
    ensures GridPaired(MoveCursor(t, row, col))
  {
  }

  lemma LineFeedPaired(t: Terminal, col: int)
    requires GridPaired(t) && 0 <= col < t.cols
    ensures GridPaired(LineFeed(t, col))
  {
    var placed := PlaceCursor(t, t.cursorY, col);
    PlaceCursorPaired(t, t.cursorY, col);
    ShiftsPaired(placed, placed.scrollTop, placed.scrollBottom);
    PlaceCursorPaired(t, Min(t.rows - 1, t.cursorY + 1), col);
    hide ShiftUp, PlaceCursor, Paired;
  }

  lemma NewPaired(cols: nat, rows: nat, marks: set<int>)
    requires cols >= 2 && rows >= 1 && ' ' as int !in marks
    ensures GridPaired(NewTerminal(cols, rows, marks)) && Valid(NewTerminal(cols, rows, marks))
  {
    BlankPaired(NewTerminal(cols, rows, marks), cols);
    hide Paired;
  }

  lemma ClearRowsPaired(t: Terminal, from: int, to: int)
    requires GridPaired(t)
    ensures GridPaired(ClearRows(t, from, to))
  {
    BlankPaired(t, t.cols);
    hide Paired;
  }

  /** Full clears restore pairing whatever the grid held. */
  lemma ClearAllPaired(t: Terminal)
    requires InBounds(t) && t.cols >= 2 && ' ' as int !in t.marks
    ensures GridPaired(ClearAll(t)) && GridPaired(Reset(t))
  {
    BlankPaired(t, t.cols);
    BlankPaired(t.(fg := 7, bg := 0), t.cols);
    hide Paired;
  }

  lemma SetRowPaired(t: Terminal, row: seq<Cell>)
    requires GridPaired(t) && |row| == t.cols && Paired(row, t.marks)
    ensures GridPaired(SetCursorRow(t, row))
  {
    hide Paired;
  }

  /** Printing any character keeps every wide character whole. */
  lemma PutRunePaired(t: Terminal, r: int)
    requires GridPaired(t)
    ensures GridPaired(PutRune(t, r))
  {
    hide RuneWidth, PutCells, LineFeed, SetCursorRow, PlaceCursor, Paired;
    var width := RuneWidth(r, t.marks);
    if r >= 0x20 && width != 0 {
      LineFeedPaired(t, 0);
      var at := WrapWide(t, width);
      WrapLeavesRoom(t, width);
      PutCellsPaired(at, at.cells[at.cursorY], at.cursorX, r);
      var drawn := SetCursorRow(at, PutCells(at, at.cells[at.cursorY], at.cursorX, r, width));
      SetRowPaired(at, PutCells(at, at.cells[at.cursorY], at.cursorX, r, width));
      LineFeedPaired(drawn, 0);
      if drawn.cursorX + width < drawn.cols {
        PlaceCursorPaired(drawn, drawn.cursorY, drawn.cursorX + width);
      }
    }
  }

  lemma WrapLeavesRoom(t: Terminal, width: int)
    requires InBounds(t) && t.cols >= 2
    ensures width == 2 ==> WrapWide(t, width).cursorX + 1 < t.cols
  {
  }

  // ---------- in-row edits: exactly when ----------

  /** A cut before column k separates the halves of a wide character. */
  predicate SplitsAt(row: seq<Cell>, k: int) {
    0 <= k < |row| && row[k].continuation
  }

  /** Blanking start..end of a paired row keeps it paired exactly when neither end cuts a character in two. */
  lemma BlankSpanExact(t: Terminal, row: seq<Cell>, start: nat, end: nat)
    requires Paired(row, t.marks) && start < end <= |row|
    ensures Paired(row[..start] + BlankCells(t, end - start) + row[end..], t.marks)
            <==> !SplitsAt(row, start) && !SplitsAt(row, end)
  {
    var out := row[..start] + BlankCells(t, end - start) + row[end..];
    BlankNotWide(BlankCell(t), t.marks);
    hide RuneWidth;
    if SplitsAt(row, start) {
      assert Wide(row[start - 1], t.marks) && out[start - 1] == row[start - 1] && out[start] == BlankCell(t);
    } else if SplitsAt(row, end) {
      assert out[end].continuation && out[end - 1] == BlankCell(t);
    } else {
      forall c | 0 <= c < |out|
        ensures out[c].continuation ==> out[c].rune == ' ' as int && c > 0 && Wide(out[c - 1], t.marks)
        ensures Wide(out[c], t.marks) ==> c + 1 < |out| && out[c + 1].continuation
      {
        if start <= c < end {
          assert out[c] == BlankCell(t);
        } else {
          assert out[c] == row[c];
        }
      }
    }
  }

  /** Inserting n blanks at x keeps a paired row paired exactly when neither x nor the column that falls
      off the end cuts a character in two. */
  lemma InsertExact(t: Terminal, row: seq<Cell>, x: nat, n: nat)
    requires Paired(row, t.marks) && 0 < n && x + n <= |row|
    ensures Paired(row[..x] + BlankCells(t, n) + row[x..|row| - n], t.marks)
            <==> !SplitsAt(row, x) && !SplitsAt(row, |row| - n)
  {
    var out := row[..x] + BlankCells(t, n) + row[x..|row| - n];
    BlankNotWide(BlankCell(t), t.marks);
    hide RuneWidth;
    if SplitsAt(row, x) {
      assert Wide(row[x - 1], t.marks) && out[x - 1] == row[x - 1] && out[x] == BlankCell(t);
    } else if SplitsAt(row, |row| - n) {
      assert Wide(row[|row| - n - 1], t.marks) && out[|row| - 1] == row[|row| - n - 1];
    } else {
      forall c | 0 <= c < |out|
        ensures out[c].continuation ==> out[c].rune == ' ' as int && c > 0 && Wide(out[c - 1], t.marks)
        ensures Wide(out[c], t.marks) ==> c + 1 < |out| && out[c + 1].continuation
      {
        if c < x {
          assert out[c] == row[c];
        } else if c < x + n {
          assert out[c] == BlankCell(t);
        } else {
          assert out[c] == row[c - n];
        }
      }
    }
  }

  /** Deleting n cells at x keeps a paired row paired exactly when both cuts are clean, or both split a
      character: then the two halves left over meet. */
  lemma DeleteExact(t: Terminal, row: seq<Cell>, x: nat, n: nat)
    requires Paired(row, t.marks) && 0 < n && x + n <= |row|
    ensures Paired(row[..x] + row[x + n..] + BlankCells(t, n), t.marks)
            <==> (SplitsAt(row, x) <==> SplitsAt(row, x + n))
  {
    var out := row[..x] + row[x + n..] + BlankCells(t, n);
    BlankNotWide(BlankCell(t), t.marks);
    hide RuneWidth;
    var joint := if x + n < |row| then row[x + n] else BlankCell(t);
    assert out[x] == joint;
    if SplitsAt(row, x) && !SplitsAt(row, x + n) {
      assert Wide(row[x - 1], t.marks) && out[x - 1] == row[x - 1];
    } else if !SplitsAt(row, x) && SplitsAt(row, x + n) {
      assert out[x].continuation;
      if x > 0 {
        assert out[x - 1] == row[x - 1] && !Wide(row[x - 1], t.marks);
      }
    } else {
      forall c | 0 <= c < |out|
        ensures out[c].continuation ==> out[c].rune == ' ' as int && c > 0 && Wide(out[c - 1], t.marks)
        ensures Wide(out[c], t.marks) ==> c + 1 < |out| && out[c + 1].continuation
      {
        if c < x {
          assert out[c] == row[c];
        } else if c < |row| - n {
          assert out[c] == row[c + n];
        } else {
          assert out[c] == BlankCell(t);
        }
      }
    }
  }

  lemma SetRowExact(t: Terminal, row: seq<Cell>)
    requires GridPaired(t) && |row| == t.cols
    ensures GridPaired(SetCursorRow(t, row)) <==> Paired(row, t.marks)
  {
    hide Paired;
    assert SetCursorRow(t, row).cells[t.cursorY] == row;
  }

  /** The four in-row edits, exactly. */
  lemma EraseLineExact(t: Terminal, mode: int)
    requires GridPaired(t)
    ensures GridPaired(EraseLine(t, mode)) <==>
            var row := t.cells[t.cursorY];
            !(mode == 0 && SplitsAt(row, t.cursorX)) && !(mode == 1 && SplitsAt(row, t.cursorX + 1))
  {
    var start := if mode == 0 then t.cursorX else 0;
    var end := if mode == 1 then t.cursorX + 1 else t.cols;
    var row := t.cells[t.cursorY];
    assert Paired(row, t.marks);
    BlankSpanExact(t, row, start, end);
    SetRowExact(t, row[..start] + BlankCells(t, end - start) + row[end..]);
  }

  /** Clearing the display below or above the cursor splits a character exactly when its part in the
      cursor's row does; every other mode keeps all characters whole. */
  lemma EraseDisplayExact(t: Terminal, mode: int)
    requires GridPaired(t)
    ensures GridPaired(EraseDisplay(t, mode)) <==>
            var row := t.cells[t.cursorY];
            !(mode == 0 && SplitsAt(row, t.cursorX)) && !(mode == 1 && SplitsAt(row, t.cursorX + 1))
  {
    hide Paired, SplitsAt, EraseLine, ClearAll;
    if mode == 0 {
      EraseLineExact(t, 0);
      EraseLineElsewhere(t, 0);
      ClearBelowExact(t, EraseLine(t, 0));
    } else if mode == 1 {
      ClearRowsPaired(t, 0, t.cursorY - 1);
      EraseLineExact(ClearRows(t, 0, t.cursorY - 1), 1);
    } else {
      ClearAllPaired(t);
    }
  }

  lemma EraseLineElsewhere(t: Terminal, mode: int)
    requires InBounds(t)
    ensures EraseLine(t, mode).cursorY == t.cursorY
    ensures forall r :: 0 <= r < t.rows && r != t.cursorY ==> EraseLine(t, mode).cells[r] == t.cells[r]
  {
  }

  /** Rows below the cursor's hide no split in it. */
  lemma ClearBelowExact(t: Terminal, edited: Terminal)
    requires GridPaired(t) && Sound(t, edited) && edited.cursorY == t.cursorY
    requires forall r :: 0 <= r < t.rows && r != t.cursorY ==> edited.cells[r] == t.cells[r]
    ensures GridPaired(ClearRows(edited, t.cursorY + 1, t.rows - 1)) <==> GridPaired(edited)
  {
    hide Paired;
    if GridPaired(edited) {
      ClearRowsPaired(edited, t.cursorY + 1, t.rows - 1);
    } else {
      assert ClearRows(edited, t.cursorY + 1, t.rows - 1).cells[t.cursorY] == edited.cells[t.cursorY];
    }
  }

  lemma EraseCharsExact(t: Terminal, count: int)
    requires GridPaired(t)
    ensures GridPaired(EraseChars(t, count)) <==>
            var row := t.cells[t.cursorY];
            !SplitsAt(row, t.cursorX) && !SplitsAt(row, t.cursorX + Count(t, count))
  {
    hide Paired, SplitsAt, SetCursorRow;
    var n, row := Count(t, count), t.cells[t.cursorY];
    assert Paired(row, t.marks);
    BlankSpanExact(t, row, t.cursorX, t.cursorX + n);
    SetRowExact(t, row[..t.cursorX] + BlankCells(t, n) + row[t.cursorX + n..]);
  }

  lemma InsertCharsExact(t: Terminal, count: int)
    requires GridPaired(t)
    ensures GridPaired(InsertChars(t, count)) <==>
            var row := t.cells[t.cursorY];
            !SplitsAt(row, t.cursorX) && !SplitsAt(row, t.cols - Count(t, count))
  {
    hide Paired, SplitsAt, SetCursorRow;
    var n, row := Count(t, count), t.cells[t.cursorY];
    assert Paired(row, t.marks);
    InsertExact(t, row, t.cursorX, n);
    SetRowExact(t, row[..t.cursorX] + BlankCells(t, n) + row[t.cursorX..t.cols - n]);
  }

  lemma DeleteCharsExact(t: Terminal, count: int)
    requires GridPaired(t)
    ensures GridPaired(DeleteChars(t, count)) <==>
            var row := t.cells[t.cursorY];
            (SplitsAt(row, t.cursorX) <==> SplitsAt(row, t.cursorX + Count(t, count)))
  {
    hide Paired, SplitsAt, SetCursorRow;
    var n, row := Count(t, count), t.cells[t.cursorY];
    assert Paired(row, t.marks);
    DeleteExact(t, row, t.cursorX, n);
    SetRowExact(t, row[..t.cursorX] + row[t.cursorX + n..] + BlankCells(t, n));
  }

  // ---------- runs ----------

  /** The CSI sequence edits inside the cursor's row and cuts a wide character in two. */
  predicate Cuts(t: Terminal, final: Byte)
    requires InBounds(t)
  {
    var params, f := ParseParams(t.csi), final as char;
    var row, mode, n := t.cells[t.cursorY], Param(params, 0, 0), Count(t, Param(params, 0, 1));
    if f == 'K' || f == 'J' then
      (mode == 0 && SplitsAt(row, t.cursorX)) || (mode == 1 && SplitsAt(row, t.cursorX + 1))
    else if f == 'X' then SplitsAt(row, t.cursorX) || SplitsAt(row, t.cursorX + n)
    else if f == '@' then SplitsAt(row, t.cursorX) || SplitsAt(row, t.cols - n)
    else if f == 'P' then SplitsAt(row, t.cursorX) != SplitsAt(row, t.cursorX + n)
    else false
  }

  /** A sequence with any final byte and any parameters keeps all characters whole exactly when it cuts none. */
  lemma CsiExact(t: Terminal, final: Byte)
    requires GridPaired(t)
    ensures GridPaired(ExecuteCsi(t, final)) <==> !Cuts(t, final)
  {
    if final as char in {'K', 'J', 'X', '@', 'P'} {
      EditExact(t, final);
    } else {
      CsiPaired(t, final);
    }
  }

  lemma EditExact(t: Terminal, final: Byte)
    requires GridPaired(t) && final as char in {'K', 'J', 'X', '@', 'P'}
    ensures GridPaired(ExecuteCsi(t, final)) <==> !Cuts(t, final)
  {
    hide Paired, SplitsAt, EraseLine, EraseDisplay, EraseChars, InsertChars, DeleteChars, ParseParams, Count;
    var params := ParseParams(t.csi);
    EraseLineExact(t, Param(params, 0, 0));
    EraseDisplayExact(t, Param(params, 0, 0));
    EraseCharsExact(t, Param(params, 0, 1));
    InsertCharsExact(t, Param(params, 0, 1));
    DeleteCharsExact(t, Param(params, 0, 1));
  }

  lemma CsiPaired(t: Terminal, final: Byte)
    requires GridPaired(t) && final as char !in {'K', 'J', 'X', '@', 'P'}
    ensures GridPaired(ExecuteCsi(t, final))
  {
    hide MoveCursor, ClearAll, Reset, Lines, Paired, EraseLine, InsertChars, DeleteChars, EraseChars, Int64,
         ParseParams;
    var params := ParseParams(t.csi);
    var p := Param(params, 0, 1);
    forall row, col
      ensures GridPaired(MoveCursor(t, row, col))
    {
      MoveCursorPaired(t, row, col);
    }
    forall op
      ensures GridPaired(Lines(t, op, p))
    {
      LinesPaired(t, op, p);
    }
    var top, bottom := Int64(p - 1), Int64(Param(params, 1, t.rows) - 1);
    if top >= 0 && bottom < t.rows && top < bottom {
      MoveCursorPaired(t.(scrollTop := top, scrollBottom := bottom), 0, 0);
    }
  }

  lemma EscapePaired(t: Terminal, b: Byte)
    requires GridPaired(t)
    ensures GridPaired(Escape(t, b))
  {
    hide MoveCursor, ClearAll, Reset, ShiftDown, LineFeed, Paired;
    MoveCursorPaired(t, t.savedY, t.savedX);
    MoveCursorPaired(t, t.cursorY - 1, t.cursorX);
    LineFeedPaired(t, t.cursorX);
    LineFeedPaired(t, 0);
    ShiftsPaired(t, t.scrollTop, t.scrollBottom);
    ClearAllPaired(t);
  }

  lemma ControlPaired(t: Terminal, b: Byte)
    requires GridPaired(t)
    ensures GridPaired(Control(t, b))
  {
    hide LineFeed, PlaceCursor, Paired;
    LineFeedPaired(t, 0);
    PlaceCursorPaired(t, t.cursorY, 0);
    PlaceCursorPaired(t, t.cursorY, if t.cursorX > 0 then t.cursorX - 1 else t.cursorX);
    PlaceCursorPaired(t, t.cursorY, Min(t.cols - 1, (t.cursorX / 8 + 1) * 8));
  }

  /** No CSI sequence that the data completes cuts a wide character in two. */
  predicate Gentle(t: Terminal, data: seq<Byte>)
    requires Valid(t) && t.pending == []
    decreases |data|
  {
    if data == [] then true
    else if t.state != 0 then
      !(t.state == 2 && 0x40 <= data[0] <= 0x7E && Cuts(t, data[0]))
      && Gentle(ByteInSequence(t, data[0]), data[1..])
    else
      var (s, n) := TextStep(t, data);
      n == 0 || Gentle(s, data[n..])
  }

  lemma SequencePaired(t: Terminal, b: Byte)
    requires Valid(t) && t.pending == [] && t.state != 0 && GridPaired(t)
    requires !(t.state == 2 && 0x40 <= b <= 0x7E && Cuts(t, b))
    ensures GridPaired(ByteInSequence(t, b))
  {
    hide Escape, ExecuteCsi, Paired, Cuts;
    if t.state == 1 {
      EscapePaired(t, b);
    } else if t.state == 2 && 0x40 <= b <= 0x7E {
      CsiExact(t, b);
    }
  }

  lemma TextPaired(t: Terminal, data: seq<Byte>)
    requires Valid(t) && t.pending == [] && t.state == 0 && data != [] && GridPaired(t)
    ensures GridPaired(TextStep(t, data).0)
  {
    hide Control, PutRune, FullRune, DecodeRune, Paired;
    ControlPaired(t, data[0]);
    PutRunePaired(t, data[0]);
    PutRunePaired(t, DecodeRune(data).0);
  }

  /** Every run of bytes in which no sequence cuts a wide character keeps all of them whole. */
  lemma {:induction false} GentleRunsStayPaired(t: Terminal, data: seq<Byte>)
    requires Valid(t) && t.pending == [] && GridPaired(t) && Gentle(t, data)
    ensures GridPaired(Feed(t, data))
    decreases |data|
  {
    hide TextStep, ByteInSequence, Cuts, Paired, Tracked;
    if data != [] {
      if t.state != 0 {
        SequencePaired(t, data[0]);
        GentleRunsStayPaired(ByteInSequence(t, data[0]), data[1..]);
      } else {
        TextPaired(t, data);
        var (s, n) := TextStep(t, data);
        FeedText(t, data);
        if n != 0 {
          GentleRunsStayPaired(s, data[n..]);
        }
      }
    }
  }

  // ---------- a split, by bytes ----------

  /** A wide character at the start of a new terminal, and the cursor back on its second half. */
  function BackOverWide(cols: nat, rows: nat, marks: set<int>, r: int): Terminal
    requires cols >= 3 && rows >= 1
  {
    var t := NewTerminal(cols, rows, marks);
    Control(PutRune(t, r), 0x08)
  }

  lemma WideThenBack(cols: nat, rows: nat, marks: set<int>, r: int)
    requires cols >= 3 && rows >= 1 && ' ' as int !in marks && RuneWidth(r, marks) == 2
    ensures var t := BackOverWide(cols, rows, marks, r);
      && GridPaired(t) && Valid(t) && t.state == 0 && t.pending == [] && t.cursorX == 1 && t.cols == cols
      && SplitsAt(t.cells[t.cursorY], 1) && !SplitsAt(t.cells[t.cursorY], 2)
  {
    var t := NewTerminal(cols, rows, marks);
    NewPaired(cols, rows, marks);
    PutRunePaired(t, r);
    ControlPaired(PutRune(t, r), 0x08);
  }

  lemma PrintedThenControl(t: Terminal, r: int, b: Byte)
    requires Valid(t) && t.pending == [] && t.state == 0 && ScalarValue(r) && r >= 0x80 && b < 0x20 && b != 0x1B
    ensures Write(t, Encode(r) + [b]) == Control(PutRune(t, r), b)
  {
    hide PutRune, Control, FullRune, DecodeRune, Tracked, Encode;
    var e := Encode(r);
    DecodeEncode(r, []);
    assert e + [] == e && t.pending + (e + [b]) == e + [b] && t.(pending := []) == t;
    EncodeStarts(r);
    FeedCharacter(t, e, r);
    FeedSplit(t, e, [b]);
    var u := PutRune(t, r);
    assert u.pending + [b] == [b] && u.(pending := []) == u && [b][1..] == [];
    assert TextStep(u, [b]) == (Control(u, b), 1);
    hide TextStep, Feed;
    FeedText(u, [b]);
    FeedNothing(Control(u, b));
  }

  lemma EncodeStarts(r: int)
    requires ScalarValue(r) && r >= 0x80
    ensures Encode(r) != [] && Encode(r)[0] >= 0x80
  {
  }

  lemma CsiSplits(t: Terminal, final: Byte)
    requires GridPaired(t) && t.csi == [] && t.cols >= 3 && t.cursorX == 1
    requires SplitsAt(t.cells[t.cursorY], 1) && !SplitsAt(t.cells[t.cursorY], 2)
    requires final as char in {'K', 'J', 'X', '@', 'P'}
    ensures !GridPaired(ExecuteCsi(t, final))
  {
    hide ExecuteCsi, Paired, SplitsAt;
    CsiExact(t, final);
  }

  lemma ThreeBytes(t: Terminal, final: Byte)
    requires Valid(t) && t.pending == [] && t.state == 0 && 0x40 <= final <= 0x7E
    ensures Write(t, [0x1B, '[' as int, final]) == ExecuteCsi(t.(state := 2, csi := []), final).(state := 0, csi := [])
  {
    hide ExecuteCsi, Tracked, Feed;
    var data := [0x1B, '[' as int, final];
    assert [] + data == data && data[1..] == ['[' as int, final] && data[1..][1..] == [final] && [final][1..] == [];
    assert t.(pending := []) == t;
    FeedText(t, data);
    var escape := t.(state := 1);
    assert TextStep(t, data) == (escape, 1);
    FeedSequence(escape, data[1..]);
    var csi := t.(state := 2, csi := []);
    assert ByteInSequence(escape, '[' as int) == csi;
    FeedSequence(csi, [final]);
    FeedNothing(ByteInSequence(csi, final));
  }

  /** By bytes from a new terminal: K, J, X, @ and P without parameters split the character on whose second
      half the cursor stands. */
  lemma InRowEditsSplit(cols: nat, rows: nat, marks: set<int>, r: int, final: Byte)
    requires cols >= 3 && rows >= 1 && ' ' as int !in marks && ScalarValue(r) && RuneWidth(r, marks) == 2
    requires final as char in {'K', 'J', 'X', '@', 'P'}
    ensures var t := Write(NewTerminal(cols, rows, marks), Encode(r) + [0x08]);
      GridPaired(t) && !GridPaired(Write(t, [0x1B, '[' as int, final]))
  {
    hide Write, PutRune, Control, Paired, ExecuteCsi, NewTerminal, SplitsAt;
    var new0 := NewTerminal(cols, rows, marks);
    NewPaired(cols, rows, marks);
    WideThenBack(cols, rows, marks, r);
    var t := BackOverWide(cols, rows, marks, r);
    PrintedThenControl(new0, r, 0x08);
    ThreeBytes(t, final);
    CsiSplits(t.(state := 2, csi := []), final);
  }
}
