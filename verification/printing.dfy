/** What printed characters leave in the cells and where the cursor goes, and that a saved cursor survives any
    text. */
module TerminalPrinting {
  import opened Geometry
  import opened Operations
  import opened TerminalGrid
  import opened TerminalParser
  import opened Utf8
  import opened ControlSequences
  import opened TerminalEffects
  import opened TerminalErasing
  import opened TerminalColours

  // ---------- widths ----------

  /** The blocks of characters that take two cells. */
  predicate WideBlock(r: int) {
    || 0x1100 <= r <= 0x115F    // Hangul Jamo initials
    || r in {0x2329, 0x232A}    // angle brackets
    || (0x2E80 <= r <= 0xA4CF && r != 0x303F)  // radicals, kana, Chinese characters, Yi
    || 0xAC00 <= r <= 0xD7A3    // Hangul syllables
    || 0xF900 <= r <= 0xFAFF    // compatibility characters
    || 0xFE10 <= r <= 0xFE19 || 0xFE30 <= r <= 0xFE6F  // vertical and small forms
    || 0xFF00 <= r <= 0xFF60 || 0xFFE0 <= r <= 0xFFE6  // full-width forms
    || 0x1F300 <= r <= 0x1FAFF  // pictographs
    || 0x20000 <= r <= 0x3FFFD  // supplementary Chinese characters
  }

  /** Marks and the zero-width joiner take no cell, the wide blocks two, and everything else one. */
  lemma Widths(r: int, marks: set<int>)
    ensures RuneWidth(r, marks) == 0 <==> r in marks || r == 0x200D
    ensures RuneWidth(r, marks) == 2 <==> r !in marks && r != 0x200D && WideBlock(r)
  {
  }

  // ---------- one character ----------

  /** The character in the terminal's colours. */
  function Glyph(t: Terminal, r: int): Cell { Cell(r, t.fg, t.bg, t.bold, t.inverse, false) }

  /** The second half of a wide character. */
  function SecondHalf(t: Terminal): Cell { Cell(0x20, t.fg, t.bg, t.bold, t.inverse, true) }

  /** The cursor's row after a character of width 1: the character at the cursor, a blank where it cut off half of
      a wide character, and every other cell as it was. */
  ghost predicate PutNarrow(t: Terminal, r: int, row: seq<Cell>)
    requires InBounds(t)
  {
    var before, x := t.cells[t.cursorY], t.cursorX;
    && |row| == t.cols
    && forall c {:trigger row[c]} :: 0 <= c < t.cols ==>
         row[c] == if c == x then Glyph(t, r)
                   else if (c == x - 1 && before[x].continuation) || (c == x + 1 && Wide(before[x], t.marks))
                   then Space(t)
                   else before[c]
  }

  lemma PutsNarrow(t: Terminal, r: int)
    requires InBounds(t)
    ensures PutNarrow(t, r, PutCells(t, t.cells[t.cursorY], t.cursorX, r, 1))
  {
    hide RuneWidth;
  }

  /** What is left is the same up to the rows marked dirty. */
  predicate SameUpToDirty(a: Terminal, b: Terminal) { a.(dirty := b.dirty) == b }

  /** A character of width 1 before the last column: it is printed in the terminal's colours and the cursor moves
      one to the right. */
  lemma PrintsNarrow(t: Terminal, r: int) returns (row: seq<Cell>)
    requires Settled(t) && ScalarValue(r) && r >= 0x20 && r != 0x7F && RuneWidth(r, t.marks) == 1
    requires t.cursorX + 1 < t.cols
    ensures PutNarrow(t, r, row) && Leaves(t, Encode(r), WithRow(t, row).(cursorX := t.cursorX + 1))
  {
    hide RuneWidth, PutCells, Encode, Write;
    PutsNarrow(t, r);
    CharacterPrints(t, r);
    row := PutCells(t, t.cells[t.cursorY], t.cursorX, r, 1);
    assert Step(t, Write(t, Encode(r)));
  }

  /** In the last column it is printed there, and a line feed follows. */
  lemma PrintsNarrowAtEdge(t: Terminal, r: int) returns (row: seq<Cell>)
    requires Settled(t) && ScalarValue(r) && r >= 0x20 && r != 0x7F && RuneWidth(r, t.marks) == 1
    requires t.cursorX + 1 == t.cols
    ensures PutNarrow(t, r, row) && Settled(WithRow(t, row))
    ensures SameUpToDirty(Write(t, Encode(r)), Write(WithRow(t, row), [0x0A]))
  {
    hide RuneWidth, PutCells, Encode, Write;
    PutsNarrow(t, r);
    CharacterPrints(t, r);
    row := PutCells(t, t.cells[t.cursorY], t.cursorX, r, 1);
    RowSettled(t, row);
    ControlExecutes(WithRow(t, row), 0x0A);
    FeedIgnoresDirty(WithRow(t, row), SetCursorRow(t, row));
  }

  lemma RowSettled(t: Terminal, row: seq<Cell>)
    requires Settled(t) && |row| == t.cols
    ensures Settled(WithRow(t, row))
  {
  }

  lemma FeedIgnoresDirty(a: Terminal, b: Terminal)
    requires InBounds(a) && InBounds(b) && SameUpToDirty(a, b)
    ensures SameUpToDirty(LineFeed(a, 0), LineFeed(b, 0))
  {
    assert BlankCells(a, a.cols) == BlankCells(b, b.cols);
    if a.cursorY == a.scrollBottom {
      var p, q := PlaceCursor(a, a.cursorY, 0), PlaceCursor(b, b.cursorY, 0);
      assert ShiftUp(p, p.scrollTop, p.scrollBottom).cells == ShiftUp(q, q.scrollTop, q.scrollBottom).cells;
    }
  }

  /** A wide character is printed over two cells. */
  ghost predicate PutWide(t: Terminal, r: int, row: seq<Cell>)
    requires InBounds(t)
  {
    var before, x := t.cells[t.cursorY], t.cursorX;
    && |row| == t.cols && x + 1 < t.cols
    && forall c {:trigger row[c]} :: 0 <= c < t.cols ==>
         row[c] == if c == x then Glyph(t, r) else if c == x + 1 then SecondHalf(t)
                   else if (c == x - 1 && before[x].continuation)
                           || (c == x + 2 && Wide(before[x + 1], t.marks) && !Wide(before[x], t.marks)) then Space(t)
                   else before[c]
  }

  lemma PutsWide(t: Terminal, r: int)
    requires InBounds(t) && ' ' as int !in t.marks && t.cursorX + 1 < t.cols
    ensures PutWide(t, r, PutCells(t, t.cells[t.cursorY], t.cursorX, r, 2))
  {
    SpaceNarrow(t.marks);
    hide RuneWidth;
  }

  lemma SpaceNarrow(marks: set<int>)
    requires ' ' as int !in marks
    ensures RuneWidth(' ' as int, marks) == 1
  {
  }

  /** A character of width 2 with room for both halves: the cursor moves two to the right, or a line feed
      follows if the second half stands in the last column. */
  lemma PrintsWide(t: Terminal, r: int) returns (row: seq<Cell>)
    requires Settled(t) && ScalarValue(r) && RuneWidth(r, t.marks) == 2
    requires ' ' as int !in t.marks && t.cursorX + 1 < t.cols
    ensures PutWide(t, r, row) && Settled(WithRow(t, row))
    ensures t.cursorX + 2 < t.cols ==> Leaves(t, Encode(r), WithRow(t, row).(cursorX := t.cursorX + 2))
    ensures t.cursorX + 2 == t.cols ==> SameUpToDirty(Write(t, Encode(r)), Write(WithRow(t, row), [0x0A]))
  {
    WideIsHigh(r, t.marks);
    hide RuneWidth, PutCells, Encode, Write;
    PutsWide(t, r);
    CharacterPrints(t, r);
    row := PutCells(t, t.cells[t.cursorY], t.cursorX, r, 2);
    RowSettled(t, row);
    ControlExecutes(WithRow(t, row), 0x0A);
    FeedIgnoresDirty(WithRow(t, row), SetCursorRow(t, row));
    assert Step(t, Write(t, Encode(r)));
  }

  lemma WideIsHigh(r: int, marks: set<int>)
    ensures RuneWidth(r, marks) == 2 ==> r >= 0x1100
  {
  }

  /** Without room, in the last column of several, a line feed comes first. */
  lemma PrintsWideAtEdge(t: Terminal, r: int)
    requires Settled(t) && ScalarValue(r) && RuneWidth(r, t.marks) == 2 && t.cursorX + 1 == t.cols && t.cols >= 2
    ensures Settled(Write(t, [0x0A])) && Write(t, Encode(r)) == Write(Write(t, [0x0A]), Encode(r))
  {
    WideIsHigh(r, t.marks);
    hide RuneWidth, PutCells, Encode, Write, Advance, LineFeed;
    FeedHome(t);
    ControlExecutes(t, 0x0A);
    CharacterPrints(t, r);
    CharacterPrints(LineFeed(t, 0), r);
  }

  lemma FeedHome(t: Terminal)
    requires Settled(t)
    ensures Settled(LineFeed(t, 0)) && LineFeed(t, 0).cursorX == 0 && Control(t, 0x0A) == LineFeed(t, 0)
  {
  }

  /** Marks and the joiner change nothing. */
  lemma PrintsNothing(t: Terminal, r: int)
    requires Settled(t) && ScalarValue(r) && r >= 0x20 && r != 0x7F && RuneWidth(r, t.marks) == 0
    ensures Leaves(t, Encode(r), t)
  {
    hide RuneWidth, Encode, Write;
    CharacterPrints(t, r);
    assert Step(t, Write(t, Encode(r)));
  }

  /** A colour and then a character: the cell has the character in that colour. */
  lemma ColouredCharacter(t: Terminal, k: nat, r: int)
    requires Settled(t) && k < 8 && ScalarValue(r) && r >= 0x20 && r != 0x7F && RuneWidth(r, t.marks) == 1
    requires t.cursorX + 1 < t.cols
    ensures Write(t, Csi([30 + k], 'm') + Encode(r)).cells[t.cursorY][t.cursorX]
            == Cell(r, k, t.bg, t.bold, t.inverse, false)
    ensures Write(t, Csi([40 + k], 'm') + Encode(r)).cells[t.cursorY][t.cursorX]
            == Cell(r, t.fg, k, t.bold, t.inverse, false)
    ensures Write(t, Csi([], 'm') + Encode(r)).cells[t.cursorY][t.cursorX] == Cell(r, 7, 0, false, false, false)
  {
    hide RuneWidth, Encode, Write, Csi, PutNarrow, Glyph, Feed;
    SelectsColour(t, k);
    SelectsAttribute(t);
    ThenPrinted(t, Csi([30 + k], 'm'), t.(fg := k), r);
    ThenPrinted(t, Csi([40 + k], 'm'), t.(bg := k), r);
    ThenPrinted(t, Csi([], 'm'), t.(fg := 7, bg := 0, bold := false, inverse := false), r);
  }

  lemma ThenPrinted(t: Terminal, bytes: seq<Byte>, v: Terminal, r: int)
    requires Settled(t) && Leaves(t, bytes, v) && ScalarValue(r) && r >= 0x20 && r != 0x7F
    requires v == t.(fg := v.fg, bg := v.bg, bold := v.bold, inverse := v.inverse)
    requires RuneWidth(r, t.marks) == 1 && t.cursorX + 1 < t.cols
    ensures Write(t, bytes + Encode(r)).cells[t.cursorY][t.cursorX] == Cell(r, v.fg, v.bg, v.bold, v.inverse, false)
  {
    hide RuneWidth, Encode, Write, Feed;
    ChunkingInvisible(t, bytes, Encode(r));
    var row := PrintsNarrow(Write(t, bytes), r);
    assert row[t.cursorX] == Glyph(v, r);
  }

  // ---------- a saved cursor ----------

  /** Printing and controls leave the saved cursor alone. */
  lemma TextKeepsSaved(t: Terminal, data: seq<Byte>)
    requires Valid(t) && t.pending == [] && t.state == 0 && data != [] && data[0] != 0x1B
    ensures var (u, n) := TextStep(t, data);
      u.savedX == t.savedX && u.savedY == t.savedY && u.state == 0 && u.pending == [] && u.csi == t.csi
  {
    hide FullRune, DecodeRune, RuneWidth, PutCells, ShiftUp, Tracked;
    FeedKeepsSaved(t, 0);
    PutKeepsSaved(t, data[0]);
    PutKeepsSaved(t, DecodeRune(data).0);
  }

  lemma FeedKeepsSaved(t: Terminal, col: int)
    requires InBounds(t) && 0 <= col < t.cols
    ensures var u := LineFeed(t, col); u.savedX == t.savedX && u.savedY == t.savedY
  {
  }

  lemma PutKeepsSaved(t: Terminal, r: int)
    requires InBounds(t)
    ensures var u := PutRune(t, r); u.savedX == t.savedX && u.savedY == t.savedY
  {
    hide RuneWidth, PutCells, LineFeed;
    var width := RuneWidth(r, t.marks);
    if r >= 0x20 && width != 0 {
      FeedKeepsSaved(t, 0);
      var at := WrapWide(t, width);
      var drawn := SetCursorRow(at, PutCells(at, at.cells[at.cursorY], at.cursorX, r, width));
      FeedKeepsSaved(drawn, 0);
    }
  }

  /** A character never takes an ESC byte that follows it, and before one it is always complete. */
  lemma EscapeEndsCharacter(data: seq<Byte>)
    requires data != [] && 0x1B !in data && data[0] >= 0x80
    ensures FullRune(data + [0x1B, '8' as int]) && 1 <= DecodeRune(data + [0x1B, '8' as int]).1 <= |data|
  {
    var all := data + [0x1B, '8' as int];
    assert all[|data|] == 0x1B && forall i :: 0 <= i < |data| ==> all[i] == data[i];
  }

  lemma RestoredNow(t: Terminal)
    requires Valid(t) && t.state == 0 && t.pending == []
    ensures var u := Feed(t, [0x1B, '8' as int]);
      u.cursorX == t.savedX && u.cursorY == t.savedY && u.state == 0 && u.pending == []
  {
    hide Feed, Tracked, FullRune, DecodeRune, PutRune, Control;
    var bytes, escape := [0x1B, '8' as int], t.(state := 1);
    FeedText(t, bytes);
    assert TextStep(t, bytes) == (escape, 1) && bytes[1..] == ['8' as int] && bytes[1..][1..] == [];
    FeedSequence(escape, bytes[1..]);
    FeedNothing(ByteInSequence(escape, '8' as int));
    RestoredEscape(escape);
  }

  lemma RestoredEscape(t: Terminal)
    requires Valid(t) && t.state == 1 && t.pending == []
    ensures var u := ByteInSequence(t, '8' as int);
      u.cursorX == t.savedX && u.cursorY == t.savedY && u.state == 0 && u.pending == []
  {
  }

  lemma {:induction false} RestoredAfter(t: Terminal, data: seq<Byte>)
    requires Valid(t) && t.state == 0 && t.pending == [] && 0x1B !in data
    ensures var u := Feed(t, data + [0x1B, '8' as int]);
      u.cursorX == t.savedX && u.cursorY == t.savedY && u.state == 0 && u.pending == []
    decreases |data|
  {
    hide Feed, Tracked, FullRune, DecodeRune, PutRune, Control, ByteInSequence;
    var all := data + [0x1B, '8' as int];
    if data == [] {
      assert all == [0x1B, '8' as int];
      RestoredNow(t);
    } else {
      FeedText(t, all);
      assert all[0] == data[0] && data[0] in data;
      if data[0] >= 0x80 {
        EscapeEndsCharacter(data);
      }
      TextKeepsSaved(t, all);
      var (s, n) := TextStep(t, all);
      assert 1 <= n <= |data|;
      assert all[n..] == data[n..] + [0x1B, '8' as int];
      forall b | b in data[n..]
        ensures b in data
      {
      }
      RestoredAfter(s, data[n..]);
    }
  }

  /** ESC 7, any bytes without an escape, even a broken character at their end, and ESC 8: the cursor is back. */
  lemma CursorComesBack(t: Terminal, data: seq<Byte>)
    requires Settled(t) && 0x1B !in data
    ensures var u := Write(t, [0x1B, '7' as int] + (data + [0x1B, '8' as int]));
      u.cursorX == t.cursorX && u.cursorY == t.cursorY && u.state == 0 && u.pending == []
  {
    hide Feed, Tracked, Write, Leaves, EscapeAction;
    var rest := data + [0x1B, '8' as int];
    ChunkingInvisible(t, [0x1B, '7' as int], rest);
    SavedBy7(t);
    var saved := Write(t, [0x1B, '7' as int]);
    WriteSettled(saved, rest);
    RestoredAfter(saved, data);
  }

  lemma SavedBy7(t: Terminal)
    requires Settled(t)
    ensures var u := Write(t, [0x1B, '7' as int]); Settled(u) && u.savedX == t.cursorX && u.savedY == t.cursorY
  {
    hide Write;
    SavesAndRestores(t, []);
  }
}
