/** What the bytes of erasing, inserting and deleting leave in every cell, and what is ignored. */
module TerminalErasing {
  import opened Geometry
  import opened Operations
  import opened TerminalGrid
  import opened TerminalParser
  import opened ControlSequences
  import opened TerminalEffects

  /** The first number; zero if there is none. */
  function Mode(ps: seq<nat>): nat { if ps == [] then 0 else ps[0] }

  /** A blank cell in the terminal's colours. */
  function Space(t: Terminal): Cell { Cell(0x20, t.fg, t.bg, false, false, false) }

  /** The cursor's row replaced. */
  function WithRow(t: Terminal, row: seq<Cell>): Terminal
    requires 0 <= t.cursorY < |t.cells|
  {
    t.(cells := t.cells[t.cursorY := row])
  }

  lemma ParamMode(ps: seq<nat>)
    ensures Param(ps, 0, 0) == Mode(ps)
  {
  }

  lemma ByRowEdit(t: Terminal, ps: seq<nat>, final: char, row: seq<Cell>)
    requires Settled(t) && Parameters(ps) && 0x40 <= final as int <= 0x7E && |row| == t.cols
    requires var s := t.(state := 2, csi := Joined(ps));
      InBounds(s) && (ParseParams(s.csi) == ps ==> ExecuteCsi(s, final as int) == SetCursorRow(s, row))
    ensures Leaves(t, Csi(ps, final), WithRow(t, row))
  {
    hide ParseParams, Joined, Leaves, Csi, ExecuteCsi;
    ByCsi(t, ps, final, WithRow(t, row));
  }

  /** ESC [ mode K: mode 0 blanks from the cursor to the end of its row, mode 1 from the start to the cursor,
      every other mode the whole row. */
  lemma ErasesLine(t: Terminal, ps: seq<nat>) returns (row: seq<Cell>)
    requires Settled(t) && Parameters(ps)
    ensures |row| == t.cols && Leaves(t, Csi(ps, 'K'), WithRow(t, row))
    ensures forall c {:trigger row[c]} :: 0 <= c < t.cols ==>
              row[c] == if (Mode(ps) == 0 && c < t.cursorX) || (Mode(ps) == 1 && c > t.cursorX)
                        then t.cells[t.cursorY][c] else Space(t)
  {
    hide ParseParams, Joined, Leaves, Csi, Param, Tracked;
    ParamMode(ps);
    var s := t.(state := 2, csi := Joined(ps));
    row := EraseLine(s, Mode(ps)).cells[t.cursorY];
    ByRowEdit(t, ps, 'K', row);
  }

  /** ESC [ n X: n blanks from the cursor on, at most to the end of the row. */
  lemma ErasesCharacters(t: Terminal, ps: seq<nat>) returns (row: seq<Cell>)
    requires Settled(t) && Parameters(ps)
    ensures |row| == t.cols && Leaves(t, Csi(ps, 'X'), WithRow(t, row))
    ensures forall c {:trigger row[c]} :: 0 <= c < t.cols ==>
              row[c] == if t.cursorX <= c < t.cursorX + Amount(ps, 0) then Space(t) else t.cells[t.cursorY][c]
  {
    hide ParseParams, Joined, Leaves, Csi, Param, Tracked;
    ParamAmount(ps, 0);
    var s := t.(state := 2, csi := Joined(ps));
    row := EraseChars(s, Amount(ps, 0)).cells[t.cursorY];
    ByRowEdit(t, ps, 'X', row);
  }

  lemma InsertedCells(row: seq<Cell>, blanks: seq<Cell>, x: nat)
    requires x + |blanks| <= |row|
    ensures var out := row[..x] + blanks + row[x..|row| - |blanks|];
      |out| == |row| && forall c :: 0 <= c < |row| ==>
        out[c] == if c < x then row[c] else if c < x + |blanks| then blanks[c - x] else row[c - |blanks|]
  {
  }

  lemma DeletedCells(row: seq<Cell>, blanks: seq<Cell>, x: nat)
    requires x + |blanks| <= |row|
    ensures var out := row[..x] + row[x + |blanks|..] + blanks;
      |out| == |row| && forall c :: 0 <= c < |row| ==>
        out[c] == if c < x then row[c]
                  else if c + |blanks| < |row| then row[c + |blanks|] else blanks[c + |blanks| - |row|]
  {
  }

  /** ESC [ n @: n blanks at the cursor push the rest of the row to the right. */
  lemma InsertsCharacters(t: Terminal, ps: seq<nat>) returns (row: seq<Cell>)
    requires Settled(t) && Parameters(ps)
    ensures |row| == t.cols && Leaves(t, Csi(ps, '@'), WithRow(t, row))
    ensures forall c {:trigger row[c]} :: 0 <= c < t.cols ==>
              row[c] == if c < t.cursorX then t.cells[t.cursorY][c]
                        else if c < t.cursorX + Amount(ps, 0) then Space(t)
                        else t.cells[t.cursorY][c - Amount(ps, 0)]
  {
    hide ParseParams, Joined, Leaves, Csi, Param, Tracked;
    ParamAmount(ps, 0);
    var s := t.(state := 2, csi := Joined(ps));
    row := InsertChars(s, Amount(ps, 0)).cells[t.cursorY];
    var n, before := Count(s, Amount(ps, 0)), t.cells[t.cursorY];
    assert row == before[..t.cursorX] + BlankCells(s, n) + before[t.cursorX..t.cols - n];
    InsertedCells(before, BlankCells(s, n), t.cursorX);
    forall c {:trigger row[c]} | 0 <= c < t.cols
      ensures row[c] == if c < t.cursorX then before[c]
                        else if c < t.cursorX + Amount(ps, 0) then Space(t) else before[c - Amount(ps, 0)]
    {
      assert t.cursorX <= c < t.cursorX + n ==> BlankCells(s, n)[c - t.cursorX] == Space(t);
    }
    ByRowEdit(t, ps, '@', row);
  }

  /** ESC [ n P: the row behind n cells at the cursor closes up, and blanks follow. */
  lemma DeletesCharacters(t: Terminal, ps: seq<nat>) returns (row: seq<Cell>)
    requires Settled(t) && Parameters(ps)
    ensures |row| == t.cols && Leaves(t, Csi(ps, 'P'), WithRow(t, row))
    ensures forall c {:trigger row[c]} :: 0 <= c < t.cols ==>
              row[c] == if c < t.cursorX then t.cells[t.cursorY][c]
                        else if c + Amount(ps, 0) < t.cols then t.cells[t.cursorY][c + Amount(ps, 0)]
                        else Space(t)
  {
    hide ParseParams, Joined, Leaves, Csi, Param, Tracked;
    ParamAmount(ps, 0);
    var s := t.(state := 2, csi := Joined(ps));
    row := DeleteChars(s, Amount(ps, 0)).cells[t.cursorY];
    var n, before := Count(s, Amount(ps, 0)), t.cells[t.cursorY];
    assert row == before[..t.cursorX] + before[t.cursorX + n..] + BlankCells(s, n);
    DeletedCells(before, BlankCells(s, n), t.cursorX);
    forall c {:trigger row[c]} | 0 <= c < t.cols
      ensures row[c] == if c < t.cursorX then before[c]
                        else if c + Amount(ps, 0) < t.cols then before[c + Amount(ps, 0)] else Space(t)
    {
      assert c >= t.cursorX && c + n >= t.cols ==> BlankCells(s, n)[c + n - t.cols] == Space(t);
    }
    ByRowEdit(t, ps, 'P', row);
  }

  /** The part of the display that a mode of J clears: from the cursor on, up to the cursor, or all. */
  predicate Cleared(t: Terminal, mode: nat, r: int, c: int) {
    if mode == 0 then r > t.cursorY || (r == t.cursorY && c >= t.cursorX)
    else if mode == 1 then r < t.cursorY || (r == t.cursorY && c <= t.cursorX)
    else mode == 2 || mode == 3
  }

  /** Only cells and marks differ, and every cell is a blank or as before. */
  ghost predicate Blanks(t: Terminal, r: Terminal, blank: (int, int) -> bool)
    requires InBounds(t) && InBounds(r)
  {
    r.(cells := t.cells, dirty := t.dirty) == t
    && forall row, c :: 0 <= row < t.rows && 0 <= c < t.cols ==>
         r.cells[row][c] == if blank(row, c) then Space(t) else t.cells[row][c]
  }

  lemma LineBlanks(t: Terminal, mode: int)
    requires InBounds(t)
    ensures Blanks(t, EraseLine(t, mode), (row, c) => row == t.cursorY && (mode != 0 || c >= t.cursorX)
                                                      && (mode != 1 || c <= t.cursorX))
  {
    hide Tracked;
  }

  lemma RowsBlank(t: Terminal, from: int, to: int)
    requires InBounds(t)
    ensures Blanks(t, ClearRows(t, from, to), (row, _) => from <= row <= to)
  {
    hide Tracked;
  }

  lemma DisplayBlanks(t: Terminal, mode: nat)
    requires InBounds(t)
    ensures Blanks(t, EraseDisplay(t, mode), (row, c) => Cleared(t, mode, row, c))
  {
    hide Tracked, EraseLine, ClearRows, InBounds;
    if mode == 0 {
      LineBlanks(t, 0);
      RowsBlank(EraseLine(t, 0), t.cursorY + 1, t.rows - 1);
    } else if mode == 1 {
      RowsBlank(t, 0, t.cursorY - 1);
      LineBlanks(ClearRows(t, 0, t.cursorY - 1), 1);
    } else {
      RowsBlank(t, 0, t.rows - 1);
    }
  }

  /** ESC [ mode J blanks that part and keeps every other cell. */
  lemma ErasesDisplay(t: Terminal, ps: seq<nat>) returns (cells: seq<seq<Cell>>)
    requires Settled(t) && Parameters(ps)
    ensures |cells| == t.rows && (forall r :: 0 <= r < t.rows ==> |cells[r]| == t.cols)
    ensures Leaves(t, Csi(ps, 'J'), t.(cells := cells))
    ensures forall r, c :: 0 <= r < t.rows && 0 <= c < t.cols ==>
              cells[r][c] == if Cleared(t, Mode(ps), r, c) then Space(t) else t.cells[r][c]
  {
    hide ParseParams, Joined, Leaves, Csi, Param, EraseDisplay, Tracked;
    ParamMode(ps);
    var s := t.(state := 2, csi := Joined(ps));
    DisplayBlanks(s, Mode(ps));
    cells := EraseDisplay(s, Mode(ps)).cells;
    ByCsi(t, ps, 'J', t.(cells := cells));
  }

  // ---------- what is ignored ----------

  predicate KnownFinal(final: Byte) {
    final as char in {'A', 'B', 'e', 'C', 'a', 'D', 'E', 'F', 'G', '`', 'H', 'f', 'd', 'J', 'K', 'm', 's', 'u', 'r',
                      'S', 'T', '@', 'P', 'X', 'L', 'M'}
  }

  /** A sequence with any other final byte does nothing, whatever stands before it. */
  lemma UnknownIgnored(t: Terminal, part: seq<Byte>, final: Byte)
    requires Settled(t) && |part| <= 128 && (forall b :: b in part ==> 0x20 <= b < 0x40)
    requires 0x40 <= final <= 0x7E && !KnownFinal(final)
    ensures Leaves(t, [0x1B, '[' as int] + (part + [final]), t)
  {
    hide Feed, Tracked, Write;
    var bytes := [0x1B, '[' as int] + (part + [final]);
    WriteSettled(t, bytes);
    Introduce(t, part + [final]);
    FeedParameters(t.(state := 2, csi := []), part, final);
    assert ExecuteCsi(t.(state := 2, csi := [] + part), final) == t.(state := 2, csi := [] + part);
    assert Step(t, Write(t, bytes));
  }
}
