/** The cell grid of internal/sshclient/terminal.go as values: what each operation does to the grid, the
    cursor and the dirty rows. Every operation keeps the bounds and marks the rows it changes. */
module TerminalGrid {
  import opened Geometry
  import opened Operations

  datatype Cell = Cell(rune: int, fg: int, bg: int, bold: bool, inverse: bool, continuation: bool)

  /** The terminal's fields. `marks` holds the code points of Unicode's Mn and Me tables; a row of cells
      is a sequence, and the grid is the sequence of its rows. */
  datatype Terminal = Terminal(
    cols: nat, rows: nat, cells: seq<seq<Cell>>,
    cursorX: int, cursorY: int, savedX: int, savedY: int,
    fg: int, bg: int, bold: bool, inverse: bool,
    scrollTop: int, scrollBottom: int,
    state: nat, csi: seq<Byte>, pending: seq<Byte>, dirty: seq<bool>, marks: set<int>)

  // ---------- invariants ----------

  /** Grid, cursor, saved cursor and margins are in bounds. */
  ghost predicate InBounds(t: Terminal) {
    && t.cols >= 1 && t.rows >= 1
    && |t.cells| == t.rows && |t.dirty| == t.rows
    && (forall r :: 0 <= r < t.rows ==> |t.cells[r]| == t.cols)
    && 0 <= t.cursorX < t.cols && 0 <= t.cursorY < t.rows
    && 0 <= t.savedX < t.cols && 0 <= t.savedY < t.rows
    && 0 <= t.scrollTop <= t.scrollBottom < t.rows
  }

  /** Everything a row's picture depends on: its cells, and the cursor's column if it is there. */
  datatype RowInput = RowInput(cells: seq<Cell>, cursor: Option<int>)

  ghost function Picture(t: Terminal, row: nat): RowInput
    requires InBounds(t) && row < t.rows
  {
    RowInput(t.cells[row], if t.cursorY == row then Some(t.cursorX) else None)
  }

  /** Rows stay dirty, and every row whose picture changed is dirty. */
  ghost predicate Tracked(t: Terminal, r: Terminal)
    requires InBounds(t) && InBounds(r)
  {
    && t.rows == r.rows
    && forall row :: 0 <= row < t.rows ==>
         (t.dirty[row] || Picture(t, row) != Picture(r, row) ==> r.dirty[row])
  }

  /** The operation kept the bounds, tracked its changes, and left the parser and the sizes alone. */
  ghost predicate Sound(t: Terminal, r: Terminal) {
    && InBounds(t) && InBounds(r) && Tracked(t, r)
    && r.cols == t.cols && r.rows == t.rows && r.marks == t.marks
    && r.state == t.state && r.csi == t.csi && r.pending == t.pending
  }

  lemma SoundTransitive(a: Terminal, b: Terminal, c: Terminal)
    requires Sound(a, b) && Sound(b, c)
    ensures Sound(a, c)
  {
  }

  lemma SoundReflexive(t: Terminal)
    requires InBounds(t)
    ensures Sound(t, t)
  {
  }

  // ---------- marking ----------

  function MarkRow(t: Terminal, row: int): (r: Terminal)
    requires InBounds(t)
    ensures Sound(t, r)
  {
    if 0 <= row < t.rows then t.(dirty := t.dirty[row := true]) else t
  }

  function MarkedRange(dirty: seq<bool>, from: int, to: int): (r: seq<bool>)
    ensures |r| == |dirty|
  {
    seq(|dirty|, row requires 0 <= row < |dirty| => dirty[row] || from <= row <= to)
  }

  // ---------- cells ----------

  function BlankCell(t: Terminal): Cell { Cell(' ' as int, t.fg, t.bg, false, false, false) }

  function BlankCells(t: Terminal, n: nat): (r: seq<Cell>)
    ensures |r| == n
  {
    seq(n, _ => BlankCell(t))
  }

  /** Rows from..to moved up by one, the last of them blank. */
  function ShiftUp(t: Terminal, from: int, to: int): (r: Terminal)
    requires InBounds(t) && 0 <= from <= to < t.rows
    ensures Sound(t, r)
  {
    var blank := BlankCells(t, t.cols);
    t.(cells := seq(t.rows, r requires 0 <= r < t.rows =>
         if from <= r < to then t.cells[r + 1] else if r == to then blank else t.cells[r]),
       dirty := MarkedRange(t.dirty, from, to))
  }

  /** Rows from..to moved down by one, the first of them blank. */
  function ShiftDown(t: Terminal, from: int, to: int): (r: Terminal)
    requires InBounds(t) && 0 <= from <= to < t.rows
    ensures Sound(t, r)
  {
    var blank := BlankCells(t, t.cols);
    t.(cells := seq(t.rows, r requires 0 <= r < t.rows =>
         if from < r <= to then t.cells[r - 1] else if r == from then blank else t.cells[r]),
       dirty := MarkedRange(t.dirty, from, to))
  }

  function ScrollUp(t: Terminal): (r: Terminal)
    requires InBounds(t)
    ensures Sound(t, r)
  {
    ShiftUp(t, t.scrollTop, t.scrollBottom)
  }

  function ScrollDown(t: Terminal): (r: Terminal)
    requires InBounds(t)
    ensures Sound(t, r)
  {
    ShiftDown(t, t.scrollTop, t.scrollBottom)
  }

  predicate InMargins(t: Terminal) { t.scrollTop <= t.cursorY <= t.scrollBottom }

  function InsertLine(t: Terminal): (r: Terminal)
    requires InBounds(t)
    ensures Sound(t, r)
  {
    if InMargins(t) then ShiftDown(t, t.cursorY, t.scrollBottom) else t
  }

  function DeleteLine(t: Terminal): (r: Terminal)
    requires InBounds(t)
    ensures Sound(t, r)
  {
    if InMargins(t) then ShiftUp(t, t.cursorY, t.scrollBottom) else t
  }

  /** The row of the cursor replaced, and marked. */
  function SetCursorRow(t: Terminal, row: seq<Cell>): (r: Terminal)
    requires InBounds(t) && |row| == t.cols
    ensures Sound(t, r)
  {
    t.(cells := t.cells[t.cursorY := row], dirty := t.dirty[t.cursorY := true])
  }

  function Count(t: Terminal, count: int): (n: nat)
    requires InBounds(t)
    ensures 1 <= n <= t.cols - t.cursorX
  {
    Min(Max(count, 1), t.cols - t.cursorX)
  }

  function InsertChars(t: Terminal, count: int): (r: Terminal)
    requires InBounds(t)
    ensures Sound(t, r)
  {
    var n, row := Count(t, count), t.cells[t.cursorY];
    SetCursorRow(t, row[..t.cursorX] + BlankCells(t, n) + row[t.cursorX..t.cols - n])
  }

  function DeleteChars(t: Terminal, count: int): (r: Terminal)
    requires InBounds(t)
    ensures Sound(t, r)
  {
    var n, row := Count(t, count), t.cells[t.cursorY];
    SetCursorRow(t, row[..t.cursorX] + row[t.cursorX + n..] + BlankCells(t, n))
  }

  function EraseChars(t: Terminal, count: int): (r: Terminal)
    requires InBounds(t)
    ensures Sound(t, r)
  {
    var n, row := Count(t, count), t.cells[t.cursorY];
    SetCursorRow(t, row[..t.cursorX] + BlankCells(t, n) + row[t.cursorX + n..])
  }

  function EraseLine(t: Terminal, mode: int): (r: Terminal)
    requires InBounds(t)
    ensures Sound(t, r)
  {
    var start := if mode == 0 then t.cursorX else 0;
    var end := if mode == 1 then t.cursorX + 1 else t.cols;
    var row := t.cells[t.cursorY];
    SetCursorRow(t, row[..start] + BlankCells(t, end - start) + row[end..])
  }

  /** Rows in from..to blank, and marked. */
  function ClearRows(t: Terminal, from: int, to: int): (r: Terminal)
    requires InBounds(t)
    ensures Sound(t, r)
  {
    var blank := BlankCells(t, t.cols);
    t.(cells := seq(t.rows, r requires 0 <= r < t.rows => if from <= r <= to then blank else t.cells[r]),
       dirty := MarkedRange(t.dirty, from, to))
  }

  function ClearAll(t: Terminal): (r: Terminal)
    requires InBounds(t)
    ensures Sound(t, r)
    ensures forall row :: 0 <= row < t.rows ==> r.dirty[row]
  {
    ClearRows(t, 0, t.rows - 1)
  }

  /** newTerminal: every cell of the new grid cleared, and every row dirty. */
  function NewTerminal(cols: nat, rows: nat, marks: set<int>): (r: Terminal)
    requires cols >= 1 && rows >= 1
    ensures InBounds(r) && r.cols == cols && r.rows == rows
    ensures forall row :: 0 <= row < rows ==> r.dirty[row] && r.cells[row] == BlankCells(r, cols)
  {
    var zero := Cell(0, 0, 0, false, false, false);
    ClearAll(Terminal(cols, rows, seq(rows, _ => seq(cols, _ => zero)), 0, 0, 0, 0, 7, 0, false, false,
                      0, rows - 1, 0, [], [], seq(rows, _ => false), marks))
  }

  function EraseDisplay(t: Terminal, mode: int): (r: Terminal)
    requires InBounds(t)
    ensures Sound(t, r)
  {
    if mode == 0 then ClearRows(EraseLine(t, 0), t.cursorY + 1, t.rows - 1)
    else if mode == 1 then EraseLine(ClearRows(t, 0, t.cursorY - 1), 1)
    else if mode == 2 || mode == 3 then ClearAll(t)
    else t
  }

  // ---------- the cursor ----------

  /** A cursor inside the grid, with the rows it leaves and enters marked. */
  function PlaceCursor(t: Terminal, row: int, col: int): (r: Terminal)
    requires InBounds(t) && 0 <= row < t.rows && 0 <= col < t.cols
    ensures Sound(t, r)
  {
    t.(cursorX := col, cursorY := row, dirty := t.dirty[t.cursorY := true][row := true])
  }

  function MoveCursor(t: Terminal, row: int, col: int): (r: Terminal)
    requires InBounds(t)
    ensures Sound(t, r)
  {
    PlaceCursor(t, Min(Max(row, 0), t.rows - 1), Min(Max(col, 0), t.cols - 1))
  }

  /** The cursor in column 0 of the next line, or in the same line of a scrolled grid. */
  function LineFeed(t: Terminal, col: int): (r: Terminal)
    requires InBounds(t) && 0 <= col < t.cols
    ensures Sound(t, r)
  {
    if t.cursorY == t.scrollBottom then
      ScrollThen(t, col)
    else PlaceCursor(t, Min(t.rows - 1, t.cursorY + 1), col)
  }

  function ScrollThen(t: Terminal, col: int): (r: Terminal)
    requires InBounds(t) && 0 <= col < t.cols
    ensures Sound(t, r)
  {
    var placed := PlaceCursor(t, t.cursorY, col);
    SoundTransitive(t, placed, ScrollUp(placed));
    ScrollUp(placed)
  }

  function ReverseIndex(t: Terminal): (r: Terminal)
    requires InBounds(t)
    ensures Sound(t, r)
  {
    if t.cursorY == t.scrollTop then ScrollDown(t) else MoveCursor(t, t.cursorY - 1, t.cursorX)
  }

  function Reset(t: Terminal): (r: Terminal)
    requires InBounds(t)
    ensures Sound(t, r)
  {
    ClearAll(t.(cursorX := 0, cursorY := 0, savedX := 0, savedY := 0, fg := 7, bg := 0, bold := false, inverse := false,
                scrollTop := 0, scrollBottom := t.rows - 1))
  }

  // ---------- printing ----------

  /** runeDisplayWidth. */
  function RuneWidth(r: int, marks: set<int>): (w: int)
    ensures 0 <= w <= 2
  {
    if r in marks || r == 0x200D then 0
    else if 0x1100 <= r && (r <= 0x115F || r == 0x2329 || r == 0x232A
        || (0x2E80 <= r <= 0xA4CF && r != 0x303F) || 0xAC00 <= r <= 0xD7A3 || 0xF900 <= r <= 0xFAFF
        || 0xFE10 <= r <= 0xFE19 || 0xFE30 <= r <= 0xFE6F || 0xFF00 <= r <= 0xFF60 || 0xFFE0 <= r <= 0xFFE6
        || 0x1F300 <= r <= 0x1FAFF || 0x20000 <= r <= 0x3FFFD) then 2
    else 1
  }

  predicate Wide(c: Cell, marks: set<int>) { RuneWidth(c.rune, marks) == 2 }

  /** clearWideCell on one row: the cell becomes blank, with the other half of a wide character it was part of. */
  function ClearWide(row: seq<Cell>, col: int, blank: Cell, marks: set<int>): (r: seq<Cell>)
    ensures |r| == |row|
  {
    if !(0 <= col < |row|) then row
    else
      var r1 := if row[col].continuation && col > 0 then row[col - 1 := blank] else row;
      var r2 := if Wide(row[col], marks) && col + 1 < |row| then r1[col + 1 := blank] else r1;
      r2[col := blank]
  }

  /** The row after a character of the given width was put at a column. */
  function PutCells(t: Terminal, row: seq<Cell>, col: int, r: int, width: int): (out: seq<Cell>)
    requires 0 <= col < |row|
    ensures |out| == |row|
  {
    var cleared := ClearWide(row, col, BlankCell(t), t.marks);
    var both := if width == 2 then ClearWide(cleared, col + 1, BlankCell(t), t.marks) else cleared;
    var put := both[col := Cell(r, t.fg, t.bg, t.bold, t.inverse, false)];
    if width == 2 && col + 1 < |row| then put[col + 1 := Cell(' ' as int, t.fg, t.bg, t.bold, t.inverse, true)] else put
  }

  /** The cursor after a character of the given width. */
  function Advance(t: Terminal, width: int): (r: Terminal)
    requires InBounds(t) && 1 <= width
    ensures Sound(t, r)
  {
    if t.cursorX + width >= t.cols then LineFeed(t, 0) else PlaceCursor(t, t.cursorY, t.cursorX + width)
  }

  /** A wide character does not start in the last column. */
  function WrapWide(t: Terminal, width: int): (r: Terminal)
    requires InBounds(t)
    ensures Sound(t, r)
  {
    SoundReflexive(t);
    if width == 2 && t.cursorX == t.cols - 1 then LineFeed(t, 0) else t
  }

  function PutRune(t: Terminal, r: int): (out: Terminal)
    requires InBounds(t)
    ensures Sound(t, out)
  {
    var width := RuneWidth(r, t.marks);
    SoundReflexive(t);
    if r < 0x20 || width == 0 then t
    else
      var at := WrapWide(t, width);
      var drawn := SetCursorRow(at, PutCells(at, at.cells[at.cursorY], at.cursorX, r, width));
      SoundTransitive(t, at, drawn);
      SoundTransitive(t, drawn, Advance(drawn, width));
      Advance(drawn, width)
  }

  function Control(t: Terminal, b: Byte): (r: Terminal)
    requires InBounds(t)
    ensures Sound(t, r)
  {
    SoundReflexive(t);
    if b == '\r' as int then PlaceCursor(t, t.cursorY, 0)
    else if b == '\n' as int || b == 0x0B || b == 0x0C then LineFeed(t, 0)
    else if b == 0x08 then PlaceCursor(t, t.cursorY, if t.cursorX > 0 then t.cursorX - 1 else t.cursorX)
    else if b == '\t' as int then PlaceCursor(t, t.cursorY, Min(t.cols - 1, (t.cursorX / 8 + 1) * 8))
    else t
  }
}
