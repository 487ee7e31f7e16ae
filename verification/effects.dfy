/** What the bytes of a control sequence do, in terms of cursor, cells, margins and colours. In every statement
    the state that is left is given up to the rows marked dirty. */
module TerminalEffects {
  import opened Geometry
  import opened Operations
  import opened TerminalGrid
  import opened TerminalParser
  import opened Utf8
  import opened ControlSequences

  /** The grid's sizes are 64-bit integers. */
  predicate Sized(t: Terminal) { t.rows <= 0x7FFF_FFFF_FFFF_FFFF && t.cols <= 0x7FFF_FFFF_FFFF_FFFF }

  /** Up to six numbers of 64 bits. */
  predicate Parameters(ps: seq<nat>) {
    |ps| <= 6 && forall p :: p in ps ==> p <= 0x7FFF_FFFF_FFFF_FFFF
  }

  /** The i-th number; one if it is missing or zero. */
  function Amount(ps: seq<nat>, i: nat): (k: nat)
    ensures k >= 1
  {
    if i < |ps| then Max(ps[i], 1) else 1
  }

  lemma ByCsi(t: Terminal, ps: seq<nat>, final: char, v: Terminal)
    requires Settled(t) && Parameters(ps) && 0x40 <= final as int <= 0x7E
    requires var s := t.(state := 2, csi := Joined(ps));
      InBounds(s) && (ParseParams(s.csi) == ps ==>
                        ExecuteCsi(s, final as int).(dirty := v.dirty, state := 0, csi := []) == v)
    ensures Leaves(t, Csi(ps, final), v)
  {
    hide ExecuteCsi, ParseParams, Joined, Write, Csi;
    CsiExecutes(t, ps, final);
    assert Step(t, Write(t, Csi(ps, final)));
  }

  lemma ByEscape(t: Terminal, final: char, v: Terminal)
    requires Settled(t) && final as int < 256 && final !in {'[', ']', '(', ')', '*', '+'}
    requires EscapeAction(t.(state := 1), final as int).(dirty := v.dirty, state := 0) == v
    ensures Leaves(t, [0x1B, final as int], v)
  {
    hide EscapeAction, Write;
    EscapeExecutes(t, final);
    assert Step(t, Write(t, [0x1B, final as int]));
  }

  lemma ByControl(t: Terminal, b: Byte, v: Terminal)
    requires Settled(t) && ((b < 0x20 && b != 0x1B) || b == 0x7F) && Control(t, b).(dirty := v.dirty) == v
    ensures Leaves(t, [b], v)
  {
    hide Control, Write;
    ControlExecutes(t, b);
    assert Step(t, Write(t, [b]));
  }

  // ---------- cursor ----------

  lemma ParamAmount(ps: seq<nat>, i: nat)
    requires Parameters(ps)
    ensures Param(ps, i, 1) == Amount(ps, i) <= 0x7FFF_FFFF_FFFF_FFFF
  {
    if i < |ps| {
      assert ps[i] in ps;
    }
  }

  /** Sums of two positions wrap at most once. */
  lemma Wraps(n: int)
    requires -0x8000_0000_0000_0000 <= n <= 0xFFFF_FFFF_FFFF_FFFE
    ensures Int64(n) == if n <= 0x7FFF_FFFF_FFFF_FFFF then n else n - 0x1_0000_0000_0000_0000
  {
  }

  function Clamp(n: int, size: nat): int { Min(Max(n, 0), size - 1) }

  /** A final byte that moves the cursor. */
  lemma ByMove(t: Terminal, ps: seq<nat>, final: char, row: int, column: int)
    requires Settled(t) && Parameters(ps) && 0x40 <= final as int <= 0x7E
    requires var s := t.(state := 2, csi := Joined(ps));
      InBounds(s) && (ParseParams(s.csi) == ps ==> ExecuteCsi(s, final as int) == MoveCursor(s, row, column))
    ensures Leaves(t, Csi(ps, final), t.(cursorX := Clamp(column, t.cols), cursorY := Clamp(row, t.rows)))
  {
    hide ParseParams, Joined, Leaves, Csi, ExecuteCsi;
    ByCsi(t, ps, final, t.(cursorX := Clamp(column, t.cols), cursorY := Clamp(row, t.rows)));
  }

  /** ESC [ n A: up, to the top at most. ESC [ n F: the same, and to the first column. */
  lemma UpMoves(t: Terminal, ps: seq<nat>)
    requires Settled(t) && Sized(t) && Parameters(ps)
    ensures Leaves(t, Csi(ps, 'A'), t.(cursorY := Max(0, t.cursorY - Amount(ps, 0))))
    ensures Leaves(t, Csi(ps, 'F'), t.(cursorX := 0, cursorY := Max(0, t.cursorY - Amount(ps, 0))))
  {
    hide ParseParams, Joined, Leaves, Csi, Int64, Param, MoveCursor;
    ParamAmount(ps, 0);
    Wraps(t.cursorY - Amount(ps, 0));
    ByMove(t, ps, 'A', t.cursorY - Amount(ps, 0), t.cursorX);
    ByMove(t, ps, 'F', t.cursorY - Amount(ps, 0), 0);
  }

  /** Down or right by k from a position, as 64-bit integers add: to the end at most, and to the start if the
      sum overflows. */
  function Forward(at: int, k: nat, size: nat): int {
    if at + k > 0x7FFF_FFFF_FFFF_FFFF then 0 else Min(size - 1, at + k)
  }

  /** ESC [ n B and ESC [ n e: down; ESC [ n E: down and to the first column. */
  lemma DownMoves(t: Terminal, ps: seq<nat>)
    requires Settled(t) && Sized(t) && Parameters(ps)
    ensures var y := Forward(t.cursorY, Amount(ps, 0), t.rows);
      && Leaves(t, Csi(ps, 'B'), t.(cursorY := y)) && Leaves(t, Csi(ps, 'e'), t.(cursorY := y))
      && Leaves(t, Csi(ps, 'E'), t.(cursorX := 0, cursorY := y))
  {
    hide ParseParams, Joined, Leaves, Csi, Int64, Param, MoveCursor;
    ParamAmount(ps, 0);
    var row := Int64(t.cursorY + Amount(ps, 0));
    Wraps(t.cursorY + Amount(ps, 0));
    ByMove(t, ps, 'B', row, t.cursorX);
    ByMove(t, ps, 'e', row, t.cursorX);
    ByMove(t, ps, 'E', row, 0);
  }

  /** ESC [ n C and ESC [ n a: right; ESC [ n D: left. */
  lemma SideMoves(t: Terminal, ps: seq<nat>)
    requires Settled(t) && Sized(t) && Parameters(ps)
    ensures var x := Forward(t.cursorX, Amount(ps, 0), t.cols);
      Leaves(t, Csi(ps, 'C'), t.(cursorX := x)) && Leaves(t, Csi(ps, 'a'), t.(cursorX := x))
    ensures Leaves(t, Csi(ps, 'D'), t.(cursorX := Max(0, t.cursorX - Amount(ps, 0))))
  {
    hide ParseParams, Joined, Leaves, Csi, Int64, Param, MoveCursor;
    ParamAmount(ps, 0);
    var right := Int64(t.cursorX + Amount(ps, 0));
    Wraps(t.cursorX + Amount(ps, 0));
    Wraps(t.cursorX - Amount(ps, 0));
    ByMove(t, ps, 'C', t.cursorY, right);
    ByMove(t, ps, 'a', t.cursorY, right);
    ByMove(t, ps, 'D', t.cursorY, t.cursorX - Amount(ps, 0));
  }

  /** ESC [ row ; column H and f, ESC [ column G and `, ESC [ row d: to the place counted from one. */
  lemma PlaceMoves(t: Terminal, ps: seq<nat>)
    requires Settled(t) && Sized(t) && Parameters(ps)
    ensures var row, column := Min(t.rows, Amount(ps, 0)) - 1, Min(t.cols, Amount(ps, 1)) - 1;
      && Leaves(t, Csi(ps, 'H'), t.(cursorX := column, cursorY := row))
      && Leaves(t, Csi(ps, 'f'), t.(cursorX := column, cursorY := row))
      && Leaves(t, Csi(ps, 'd'), t.(cursorY := row))
    ensures var column := Min(t.cols, Amount(ps, 0)) - 1;
      Leaves(t, Csi(ps, 'G'), t.(cursorX := column)) && Leaves(t, Csi(ps, '`'), t.(cursorX := column))
  {
    hide ParseParams, Joined, Leaves, Csi, Int64, Param, MoveCursor;
    ParamAmount(ps, 0);
    ParamAmount(ps, 1);
    Wraps(Amount(ps, 0) - 1);
    Wraps(Amount(ps, 1) - 1);
    ByMove(t, ps, 'H', Amount(ps, 0) - 1, Amount(ps, 1) - 1);
    ByMove(t, ps, 'f', Amount(ps, 0) - 1, Amount(ps, 1) - 1);
    ByMove(t, ps, 'd', Amount(ps, 0) - 1, t.cursorX);
    ByMove(t, ps, 'G', t.cursorY, Amount(ps, 0) - 1);
    ByMove(t, ps, '`', t.cursorY, Amount(ps, 0) - 1);
  }

  /** A count that overflows moves the other way: down from any row but the first goes to the first. */
  lemma HugeCountMovesBack(t: Terminal)
    requires Settled(t) && Sized(t) && t.cursorY >= 1
    ensures Leaves(t, Csi([0x7FFF_FFFF_FFFF_FFFF], 'B'), t.(cursorY := 0))
  {
    hide Leaves, Csi;
    DownMoves(t, [0x7FFF_FFFF_FFFF_FFFF]);
  }

  /** ESC 7 and ESC [ s save the cursor; ESC 8 and ESC [ u go back to it. */
  lemma SavesAndRestores(t: Terminal, ps: seq<nat>)
    requires Settled(t) && Parameters(ps)
    ensures Leaves(t, [0x1B, '7' as int], t.(savedX := t.cursorX, savedY := t.cursorY))
    ensures Leaves(t, Csi(ps, 's'), t.(savedX := t.cursorX, savedY := t.cursorY))
    ensures Leaves(t, [0x1B, '8' as int], t.(cursorX := t.savedX, cursorY := t.savedY))
    ensures Leaves(t, Csi(ps, 'u'), t.(cursorX := t.savedX, cursorY := t.savedY))
  {
    hide ParseParams, Joined, Leaves, Csi;
    ByEscape(t, '7', t.(savedX := t.cursorX, savedY := t.cursorY));
    ByCsi(t, ps, 's', t.(savedX := t.cursorX, savedY := t.cursorY));
    ByEscape(t, '8', t.(cursorX := t.savedX, cursorY := t.savedY));
    ByCsi(t, ps, 'u', t.(cursorX := t.savedX, cursorY := t.savedY));
  }

  /** Carriage return, backspace and tab move the cursor in its row: to the first column, one to the left, and
      to the next multiple of eight or the last column. */
  lemma RowControls(t: Terminal)
    requires Settled(t)
    ensures Leaves(t, [0x0D], t.(cursorX := 0))
    ensures Leaves(t, [0x08], t.(cursorX := Max(0, t.cursorX - 1)))
    ensures Leaves(t, [0x09], t.(cursorX := Min(t.cols - 1, t.cursorX + 8 - t.cursorX % 8)))
  {
    hide Leaves;
    ByControl(t, 0x0D, t.(cursorX := 0));
    ByControl(t, 0x08, t.(cursorX := Max(0, t.cursorX - 1)));
    assert (t.cursorX / 8 + 1) * 8 == t.cursorX + 8 - t.cursorX % 8;
    ByControl(t, 0x09, t.(cursorX := Min(t.cols - 1, t.cursorX + 8 - t.cursorX % 8)));
  }

  /** Other controls, and DEL, do nothing. */
  lemma OtherControls(t: Terminal, b: Byte)
    requires Settled(t) && ((b < 0x20 && !(0x08 <= b <= 0x0D) && b != 0x1B) || b == 0x7F)
    ensures Leaves(t, [b], t)
  {
    hide Leaves;
    ByControl(t, b, t);
  }

  // ---------- scrolling ----------

  /** Spaces in the colours. */
  predicate Blank(row: seq<Cell>, cols: nat, fg: int, bg: int) {
    |row| == cols && forall c :: 0 <= c < |row| ==> row[c] == Cell(0x20, fg, bg, false, false, false)
  }

  /** Inside from..to the rows moved up by n, with blank rows below; outside they stayed. */
  ghost predicate RowsUp(before: seq<seq<Cell>>, after: seq<seq<Cell>>, from: int, to: int, n: nat,
                         cols: nat, fg: int, bg: int) {
    && |after| == |before| && 0 <= from && to < |after|
    && forall r {:trigger after[r]} :: 0 <= r < |after| ==>
         if !(from <= r <= to) then after[r] == before[r]
         else if r + n <= to then after[r] == before[r + n]
         else Blank(after[r], cols, fg, bg)
  }

  /** The same downwards, with blank rows above. */
  ghost predicate RowsDown(before: seq<seq<Cell>>, after: seq<seq<Cell>>, from: int, to: int, n: nat,
                           cols: nat, fg: int, bg: int) {
    && |after| == |before| && 0 <= from && to < |after|
    && forall r {:trigger after[r]} :: 0 <= r < |after| ==>
         if !(from <= r <= to) then after[r] == before[r]
         else if r - n >= from then after[r] == before[r - n]
         else Blank(after[r], cols, fg, bg)
  }

  ghost predicate MovedUp(t: Terminal, cells: seq<seq<Cell>>, from: int, to: int, n: nat) {
    RowsUp(t.cells, cells, from, to, n, t.cols, t.fg, t.bg)
  }

  ghost predicate MovedDown(t: Terminal, cells: seq<seq<Cell>>, from: int, to: int, n: nat) {
    RowsDown(t.cells, cells, from, to, n, t.cols, t.fg, t.bg)
  }

  lemma BlankCellsBlank(t: Terminal)
    ensures Blank(BlankCells(t, t.cols), t.cols, t.fg, t.bg)
  {
  }

  /** One step more, from rows that have moved by n already. */
  lemma RowsUpMore(before: seq<seq<Cell>>, u: Terminal, from: int, to: int, n: nat)
    requires InBounds(u) && 0 <= from <= to < u.rows && RowsUp(before, u.cells, from, to, n, u.cols, u.fg, u.bg)
    ensures RowsUp(before, ShiftUp(u, from, to).cells, from, to, n + 1, u.cols, u.fg, u.bg)
  {
    hide Blank;
    BlankCellsBlank(u);
    var after := ShiftUp(u, from, to).cells;
    forall r | 0 <= r < |after|
      ensures if !(from <= r <= to) then after[r] == before[r]
              else if r + n + 1 <= to then after[r] == before[r + n + 1]
              else Blank(after[r], u.cols, u.fg, u.bg)
    {
      if !(from <= r <= to) {
        assert after[r] == u.cells[r];
      } else if r < to {
        assert after[r] == u.cells[r + 1];
      } else {
        assert after[r] == BlankCells(u, u.cols);
      }
    }
  }

  lemma RowsDownMore(before: seq<seq<Cell>>, u: Terminal, from: int, to: int, n: nat)
    requires InBounds(u) && 0 <= from <= to < u.rows && RowsDown(before, u.cells, from, to, n, u.cols, u.fg, u.bg)
    ensures RowsDown(before, ShiftDown(u, from, to).cells, from, to, n + 1, u.cols, u.fg, u.bg)
  {
    hide Blank;
    BlankCellsBlank(u);
    var after := ShiftDown(u, from, to).cells;
    forall r | 0 <= r < |after|
      ensures if !(from <= r <= to) then after[r] == before[r]
              else if r - n - 1 >= from then after[r] == before[r - n - 1]
              else Blank(after[r], u.cols, u.fg, u.bg)
    {
      if !(from <= r <= to) {
        assert after[r] == u.cells[r];
      } else if from < r {
        assert after[r] == u.cells[r - 1];
      } else {
        assert after[r] == BlankCells(u, u.cols);
      }
    }
  }

  lemma RowsStay(t: Terminal, from: int, to: int)
    requires 0 <= from && to < |t.cells|
    ensures RowsUp(t.cells, t.cells, from, to, 0, t.cols, t.fg, t.bg)
    ensures RowsDown(t.cells, t.cells, from, to, 0, t.cols, t.fg, t.bg)
  {
  }

  lemma ShiftMoves(t: Terminal, from: int, to: int)
    requires InBounds(t) && 0 <= from <= to < t.rows
    ensures var r := ShiftUp(t, from, to);
      r == t.(cells := r.cells, dirty := r.dirty) && MovedUp(t, r.cells, from, to, 1)
    ensures var r := ShiftDown(t, from, to);
      r == t.(cells := r.cells, dirty := r.dirty) && MovedDown(t, r.cells, from, to, 1)
  {
    hide RowsUp, RowsDown;
    RowsStay(t, from, to);
    RowsUpMore(t.cells, t, from, to, 0);
    RowsDownMore(t.cells, t, from, to, 0);
  }

  /** A new terminal is settled: blank in grey on black, with the cursor and the saved cursor at home and the
      margins at the edges. */
  lemma NewIsSettled(cols: nat, rows: nat, marks: set<int>)
    requires cols >= 1 && rows >= 1
    ensures var t := NewTerminal(cols, rows, marks);
      && Settled(t) && t.cols == cols && t.rows == rows && t.marks == marks
      && (forall r :: 0 <= r < rows ==> Blank(t.cells[r], cols, 7, 0) && t.dirty[r])
      && t.fg == 7 && t.bg == 0 && !t.bold && !t.inverse && t.cursorX == t.cursorY == t.savedX == t.savedY == 0
      && t.scrollTop == 0 && t.scrollBottom == rows - 1
  {
  }

  /** A line feed in the row of the bottom margin: the rows inside the margins move up by one. Elsewhere the
      cursor moves down, at most to the last row. ESC D keeps the column; ESC E and the controls LF, VT and FF
      go to the first one. */
  lemma LineFeeds(t: Terminal, b: Byte)
    requires Settled(t) && 0x0A <= b <= 0x0C
    ensures t.cursorY != t.scrollBottom ==>
              && Leaves(t, [b], t.(cursorX := 0, cursorY := Min(t.rows - 1, t.cursorY + 1)))
              && Leaves(t, [0x1B, 'E' as int], t.(cursorX := 0, cursorY := Min(t.rows - 1, t.cursorY + 1)))
              && Leaves(t, [0x1B, 'D' as int], t.(cursorY := Min(t.rows - 1, t.cursorY + 1)))
    ensures t.cursorY == t.scrollBottom ==>
              exists cells :: MovedUp(t, cells, t.scrollTop, t.scrollBottom, 1)
                              && Leaves(t, [b], t.(cursorX := 0, cells := cells))
                              && Leaves(t, [0x1B, 'E' as int], t.(cursorX := 0, cells := cells))
                              && Leaves(t, [0x1B, 'D' as int], t.(cells := cells))
  {
    hide Leaves, ShiftUp, RowsUp;
    if t.cursorY != t.scrollBottom {
      ByControl(t, b, t.(cursorX := 0, cursorY := Min(t.rows - 1, t.cursorY + 1)));
      ByEscape(t, 'E', t.(cursorX := 0, cursorY := Min(t.rows - 1, t.cursorY + 1)));
      ByEscape(t, 'D', t.(cursorY := Min(t.rows - 1, t.cursorY + 1)));
    } else {
      var cells := ShiftUp(t, t.scrollTop, t.scrollBottom).cells;
      ShiftMoves(t, t.scrollTop, t.scrollBottom);
      FeedCells(t, 0, 0);
      FeedCells(t, 1, 0);
      FeedCells(t, 1, t.cursorX);
      ByControl(t, b, t.(cursorX := 0, cells := cells));
      ByEscape(t, 'E', t.(cursorX := 0, cells := cells));
      ByEscape(t, 'D', t.(cells := cells));
    }
  }

  /** Scrolling moves the same rows wherever the cursor stands. */
  lemma FeedCells(t: Terminal, state: nat, col: int)
    requires InBounds(t) && t.cursorY == t.scrollBottom && 0 <= col < t.cols
    ensures var r := LineFeed(t.(state := state), col);
      r == t.(state := state, cursorX := col, dirty := r.dirty, cells := ShiftUp(t, t.scrollTop, t.scrollBottom).cells)
  {
    assert BlankCells(t, t.cols) == BlankCells(t.(state := state, cursorX := col), t.cols);
    assert ShiftUp(t, t.scrollTop, t.scrollBottom).cells
           == ShiftUp(PlaceCursor(t.(state := state), t.cursorY, col), t.scrollTop, t.scrollBottom).cells;
  }

  /** The rows that a line operation moves. */
  function FirstMoved(t: Terminal, op: LineOperation): int {
    if op == ScrollsUp || op == ScrollsDown then t.scrollTop else t.cursorY
  }

  lemma {:induction false} LinesMove(t: Terminal, op: LineOperation, n: nat)
    requires InBounds(t) && (op == ScrollsUp || op == ScrollsDown || t.scrollTop <= t.cursorY <= t.scrollBottom)
    ensures var r := Lines(t, op, n);
      && r == t.(cells := r.cells, dirty := r.dirty)
      && if op == ScrollsUp || op == DeletesLine then MovedUp(t, r.cells, FirstMoved(t, op), t.scrollBottom, n)
         else MovedDown(t, r.cells, FirstMoved(t, op), t.scrollBottom, n)
    decreases n
  {
    hide RowsUp, RowsDown, ShiftUp, ShiftDown;
    if n == 0 {
      RowsStay(t, FirstMoved(t, op), t.scrollBottom);
    } else {
      LinesMove(t, op, n - 1);
      var u := Lines(t, op, n - 1);
      if op == ScrollsUp || op == DeletesLine {
        RowsUpMore(t.cells, u, FirstMoved(t, op), t.scrollBottom, n - 1);
      } else {
        RowsDownMore(t.cells, u, FirstMoved(t, op), t.scrollBottom, n - 1);
      }
      ShiftMoves(u, FirstMoved(t, op), t.scrollBottom);
    }
  }

  lemma {:induction false} LinesStay(t: Terminal, op: LineOperation, n: nat)
    requires InBounds(t) && (op == InsertsLine || op == DeletesLine) && !(t.scrollTop <= t.cursorY <= t.scrollBottom)
    ensures Lines(t, op, n) == t
    decreases n
  {
    if n > 0 {
      LinesStay(t, op, n - 1);
    }
  }

  /** What a row operation with a count does to the rows. */
  lemma CountedLines(t: Terminal, s: Terminal, op: LineOperation, n: nat)
    requires InBounds(t) && s == t.(state := s.state, csi := s.csi) && InBounds(s)
    requires op == ScrollsUp || op == ScrollsDown || t.scrollTop <= t.cursorY <= t.scrollBottom
    ensures var r := Lines(s, op, n);
      && r == s.(cells := r.cells, dirty := r.dirty)
      && if op == ScrollsUp || op == DeletesLine then MovedUp(t, r.cells, FirstMoved(t, op), t.scrollBottom, n)
         else MovedDown(t, r.cells, FirstMoved(t, op), t.scrollBottom, n)
  {
    hide Lines, RowsUp, RowsDown;
    LinesMove(s, op, n);
  }

  /** ESC [ n S and T scroll the rows inside the margins up and down by n. */
  lemma Scrolls(t: Terminal, ps: seq<nat>) returns (up: seq<seq<Cell>>, down: seq<seq<Cell>>)
    requires Settled(t) && Parameters(ps)
    ensures MovedUp(t, up, t.scrollTop, t.scrollBottom, Amount(ps, 0)) && Leaves(t, Csi(ps, 'S'), t.(cells := up))
    ensures MovedDown(t, down, t.scrollTop, t.scrollBottom, Amount(ps, 0)) && Leaves(t, Csi(ps, 'T'), t.(cells := down))
  {
    hide ParseParams, Joined, Leaves, Csi, Int64, Param, MovedUp, MovedDown, Lines;
    ParamAmount(ps, 0);
    var s := t.(state := 2, csi := Joined(ps));
    CountedLines(t, s, ScrollsUp, Amount(ps, 0));
    CountedLines(t, s, ScrollsDown, Amount(ps, 0));
    up, down := Lines(s, ScrollsUp, Amount(ps, 0)).cells, Lines(s, ScrollsDown, Amount(ps, 0)).cells;
    ByCsi(t, ps, 'S', t.(cells := up));
    ByCsi(t, ps, 'T', t.(cells := down));
  }

  /** ESC [ n L and M insert and delete n lines at the cursor, inside the margins; elsewhere they do nothing. */
  lemma LineEdits(t: Terminal, ps: seq<nat>) returns (inserted: seq<seq<Cell>>, deleted: seq<seq<Cell>>)
    requires Settled(t) && Parameters(ps)
    ensures Leaves(t, Csi(ps, 'L'), t.(cells := inserted)) && Leaves(t, Csi(ps, 'M'), t.(cells := deleted))
    ensures if t.scrollTop <= t.cursorY <= t.scrollBottom
            then MovedDown(t, inserted, t.cursorY, t.scrollBottom, Amount(ps, 0))
                 && MovedUp(t, deleted, t.cursorY, t.scrollBottom, Amount(ps, 0))
            else inserted == deleted == t.cells
  {
    hide ParseParams, Joined, Leaves, Csi, Int64, Param, MovedUp, MovedDown, Lines;
    ParamAmount(ps, 0);
    var s := t.(state := 2, csi := Joined(ps));
    if t.scrollTop <= t.cursorY <= t.scrollBottom {
      CountedLines(t, s, InsertsLine, Amount(ps, 0));
      CountedLines(t, s, DeletesLine, Amount(ps, 0));
    } else {
      LinesStay(s, InsertsLine, Amount(ps, 0));
      LinesStay(s, DeletesLine, Amount(ps, 0));
    }
    inserted, deleted := Lines(s, InsertsLine, Amount(ps, 0)).cells, Lines(s, DeletesLine, Amount(ps, 0)).cells;
    ByCsi(t, ps, 'L', t.(cells := inserted));
    ByCsi(t, ps, 'M', t.(cells := deleted));
  }

  /** ESC M: up by one row; in the row of the top margin the rows inside the margins move down. */
  lemma ReverseFeeds(t: Terminal) returns (cells: seq<seq<Cell>>)
    requires Settled(t)
    ensures t.cursorY != t.scrollTop ==> Leaves(t, [0x1B, 'M' as int], t.(cursorY := Max(0, t.cursorY - 1)))
    ensures t.cursorY == t.scrollTop ==>
              MovedDown(t, cells, t.scrollTop, t.scrollBottom, 1) && Leaves(t, [0x1B, 'M' as int], t.(cells := cells))
  {
    hide Leaves, RowsDown, RowsUp, ShiftDown, ShiftUp;
    var s := t.(state := 1);
    ShiftMoves(s, t.scrollTop, t.scrollBottom);
    cells := ShiftDown(s, t.scrollTop, t.scrollBottom).cells;
    if t.cursorY == t.scrollTop {
      ByEscape(t, 'M', t.(cells := cells));
    } else {
      ByEscape(t, 'M', t.(cursorY := Max(0, t.cursorY - 1)));
    }
  }

  /** ESC [ top ; bottom r sets the margins, counted from one, and sends the cursor home; margins that are not
      in order inside the grid change nothing. A missing bottom is the last row. */
  lemma SetsMargins(t: Terminal, ps: seq<nat>)
    requires Settled(t) && Sized(t) && Parameters(ps)
    ensures var top, bottom := Amount(ps, 0) - 1, (if |ps| < 2 || ps[1] == 0 then t.rows else ps[1]) - 1;
      Leaves(t, Csi(ps, 'r'), if top < bottom < t.rows
                              then t.(scrollTop := top, scrollBottom := bottom, cursorX := 0, cursorY := 0) else t)
  {
    hide ParseParams, Joined, Leaves, Csi, Int64;
    ParamAmount(ps, 0);
    if |ps| >= 2 {
      assert ps[1] in ps;
    }
    var top, bottom := Amount(ps, 0) - 1, (if |ps| < 2 || ps[1] == 0 then t.rows else ps[1]) - 1;
    Wraps(top);
    Wraps(bottom);
    ByCsi(t, ps, 'r', if top < bottom < t.rows
                      then t.(scrollTop := top, scrollBottom := bottom, cursorX := 0, cursorY := 0) else t);
  }

  /** ESC c: blank cells in the default colours, home position, margins at the edges. */
  lemma Resets(t: Terminal) returns (cells: seq<seq<Cell>>)
    requires Settled(t)
    ensures |cells| == t.rows && forall r :: 0 <= r < t.rows ==> Blank(cells[r], t.cols, 7, 0)
    ensures Leaves(t, [0x1B, 'c' as int],
                   t.(cells := cells, cursorX := 0, cursorY := 0, savedX := 0, savedY := 0, fg := 7, bg := 0,
                      bold := false, inverse := false, scrollTop := 0, scrollBottom := t.rows - 1))
  {
    hide Leaves;
    cells := Reset(t.(state := 1)).cells;
    ByEscape(t, 'c', t.(cells := cells, cursorX := 0, cursorY := 0, savedX := 0, savedY := 0, fg := 7, bg := 0,
                        bold := false, inverse := false, scrollTop := 0, scrollBottom := t.rows - 1));
  }
}
