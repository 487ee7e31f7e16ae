/** The incremental renderer of internal/sshclient/terminal.go. A row's picture is taken to be a function
    of its cells and of the cursor in it, so the frame is the list of what each row was last drawn from. */
module TerminalRenderer {
  import opened Geometry
  import opened Operations
  import opened TerminalGrid
  import opened TerminalParser
  import opened TerminalEmulator

  datatype Band = Band(start: int, end: int)

  /** Go's division by two: towards zero. */
  function Half(n: int): int { if n < 0 then -((-n) / 2) else n / 2 }

  /** The renderer's sizes: the frame in pixels, the grid in cells, and one cell in pixels. */
  datatype Layout = Layout(width: nat, height: nat, cols: nat, rows: nat, cellWidth: nat, cellHeight: nat) {

    function OffsetX(): int { Half(width - cols * cellWidth) }

    function OffsetY(): int { Half(height - rows * cellHeight) }

    function Frame(): Rect { Rect(0, 0, width, height) }

    function RowTop(row: int): int { OffsetY() + row * cellHeight }

    /** rowBand: the strip of the rows of a band. */
    function RowBand(b: Band): Rect {
      Rect(OffsetX(), RowTop(b.start), width - OffsetX(), RowTop(b.end)).Intersect(Frame())
    }

    function RowBands(bands: seq<Band>): seq<Rect> {
      seq(|bands|, i requires 0 <= i < |bands| => RowBand(bands[i]))
    }

    function CellRect(row: int, col: int): Rect {
      Rect(OffsetX() + col * cellWidth, RowTop(row), OffsetX() + col * cellWidth + cellWidth, RowTop(row) + cellHeight)
        .Intersect(Frame())
    }
  }

  /** The bands are the maximal runs of dirty rows, from top to bottom. */
  ghost predicate BandsOf(bands: seq<Band>, dirty: seq<bool>) {
    && (forall i :: 0 <= i < |bands| ==> 0 <= bands[i].start < bands[i].end <= |dirty|)
    && (forall i, j :: 0 <= i < j < |bands| ==> bands[i].end < bands[j].start)
    && (forall row :: 0 <= row < |dirty| ==>
          (dirty[row] <==> exists i :: 0 <= i < |bands| && bands[i].start <= row < bands[i].end))
  }

  ghost predicate Contained(rects: seq<Rect>, x: int, y: int) {
    exists i :: 0 <= i < |rects| && rects[i].Contains(x, y)
  }

  /** The pixel row y belongs to a dirty row of the grid. */
  ghost predicate InDirtyRow(l: Layout, dirty: seq<bool>, y: int) {
    exists row :: 0 <= row < |dirty| && dirty[row] && l.RowTop(row) <= y < l.RowTop(row + 1)
  }

  /** Bands that begin and end where they should hold exactly the rows between. */
  lemma RowInBand(l: Layout, start: int, end: int, y: int) returns (row: int)
    requires l.cellHeight >= 1 && l.RowTop(start) <= y < l.RowTop(end)
    ensures start <= row < end && l.RowTop(row) <= y < l.RowTop(row + 1)
  {
    var d: int := l.cellHeight;
    row := (y - l.OffsetY()) / d;
    assert d * row <= y - l.OffsetY() < d * row + d;
    if row < start {
      MulMono(row + 1, start, d);
    }
    if end <= row {
      MulMono(end, row, d);
    }
  }

  lemma BandHoldsRow(l: Layout, start: int, end: int, row: int, y: int)
    requires start <= row < end && l.RowTop(row) <= y < l.RowTop(row + 1)
    ensures l.RowTop(start) <= y < l.RowTop(end)
  {
    hide Half;
    MulMono(start, row, l.cellHeight);
    MulMono(row + 1, end, l.cellHeight);
  }

  /** The returned rectangles hold exactly the pixels of the frame, between the side margins, in dirty rows. */
  lemma BandsAreDirtyPixels(l: Layout, bands: seq<Band>, dirty: seq<bool>, x: int, y: int)
    requires BandsOf(bands, dirty) && l.cellHeight >= 1
    ensures Contained(l.RowBands(bands), x, y) <==>
            l.Frame().Contains(x, y) && l.OffsetX() <= x < l.width - l.OffsetX() && InDirtyRow(l, dirty, y)
  {
    hide Half;
    var rects := l.RowBands(bands);
    if Contained(rects, x, y) {
      var i :| 0 <= i < |rects| && rects[i].Contains(x, y);
      assert l.RowBand(bands[i]).Contains(x, y);
      var row := RowInBand(l, bands[i].start, bands[i].end, y);
      assert dirty[row];
    }
    if l.Frame().Contains(x, y) && l.OffsetX() <= x < l.width - l.OffsetX() && InDirtyRow(l, dirty, y) {
      var row :| 0 <= row < |dirty| && dirty[row] && l.RowTop(row) <= y < l.RowTop(row + 1);
      var i :| 0 <= i < |bands| && bands[i].start <= row < bands[i].end;
      BandHoldsRow(l, bands[i].start, bands[i].end, row, y);
      assert rects[i] == l.RowBand(bands[i]);
    }
  }

  /** Whatever the frame's size, every pixel of every cell that was drawn lies in a returned rectangle. */
  lemma DrawnCellsReturned(l: Layout, bands: seq<Band>, dirty: seq<bool>, row: nat, col: nat, x: int, y: int)
    requires BandsOf(bands, dirty) && l.cellHeight >= 1 && row < |dirty| && dirty[row] && col < l.cols
    requires l.CellRect(row, col).Contains(x, y)
    ensures Contained(l.RowBands(bands), x, y)
  {
    hide BandsOf, Contained;
    BandsAreDirtyPixels(l, bands, dirty, x, y);
    CellInStrip(l, row, col, x, y);
  }

  lemma CellInStrip(l: Layout, row: nat, col: nat, x: int, y: int)
    requires col < l.cols && l.CellRect(row, col).Contains(x, y)
    ensures l.Frame().Contains(x, y) && l.OffsetX() <= x < l.width - l.OffsetX()
    ensures l.RowTop(row) <= y < l.RowTop(row + 1)
  {
    hide Half;
    var left, right, most := col * l.cellWidth, (col + 1) * l.cellWidth, l.cols * l.cellWidth;
    MulMono(0, col, l.cellWidth);
    MulMono(col + 1, l.cols, l.cellWidth);
    assert right == left + l.cellWidth && 0 <= left && right <= most;
    assert (row + 1) * l.cellHeight == row * l.cellHeight + l.cellHeight;
    HalfMargin(l.width, most);
    var margin := l.OffsetX();
    assert margin == Half(l.width - most) && margin + left <= x < margin + right;
  }

  /** In a frame with room for the grid, the cells lie side by side around the frame's centre. */
  lemma CellPlace(l: Layout, row: nat, col: nat, x: int, y: int)
    requires col < l.cols && row < l.rows && l.cols * l.cellWidth <= l.width && l.rows * l.cellHeight <= l.height
    ensures var left, top := (l.width - l.cols * l.cellWidth) / 2, (l.height - l.rows * l.cellHeight) / 2;
      l.CellRect(row, col).Contains(x, y) <==>
      && left + col * l.cellWidth <= x < left + (col + 1) * l.cellWidth
      && top + row * l.cellHeight <= y < top + (row + 1) * l.cellHeight
  {
    MulMono(0, col, l.cellWidth);
    MulMono(0, row, l.cellHeight);
    MulMono(col + 1, l.cols, l.cellWidth);
    MulMono(row + 1, l.rows, l.cellHeight);
    assert (col + 1) * l.cellWidth == col * l.cellWidth + l.cellWidth;
    assert (row + 1) * l.cellHeight == row * l.cellHeight + l.cellHeight;
  }

  /** The two margins and the cells between them cover the width. */
  lemma HalfMargin(width: int, cells: int)
    ensures var margin := Half(width - cells); margin <= 0 || cells <= width - 2 * margin
  {
  }

  /** Rows below `end` lie in a band exactly when dirty; bands are separated and end by `end`. */
  ghost predicate BandsBelow(bands: seq<Band>, dirty: seq<bool>, end: int) {
    && 0 <= end <= |dirty|
    && (forall i :: 0 <= i < |bands| ==> 0 <= bands[i].start < bands[i].end <= end)
    && (forall i, j :: 0 <= i < j < |bands| ==> bands[i].end < bands[j].start)
    && (forall row :: 0 <= row < end ==> (dirty[row] <==> InBand(bands, row)))
  }

  ghost predicate InBand(bands: seq<Band>, row: int) {
    exists i :: 0 <= i < |bands| && bands[i].start <= row < bands[i].end
  }

  lemma InBandMore(bands: seq<Band>, b: Band, row: int)
    ensures InBand(bands + [b], row) <==> InBand(bands, row) || b.start <= row < b.end
  {
    if InBand(bands, row) {
      var i :| 0 <= i < |bands| && bands[i].start <= row < bands[i].end;
      assert (bands + [b])[i] == bands[i];
    }
    if b.start <= row < b.end {
      assert (bands + [b])[|bands|] == b;
    }
  }

  /** The band start..end closes a run of dirty rows that began after a clean row. */
  lemma CloseBand(bands: seq<Band>, dirty: seq<bool>, start: int, end: int)
    requires BandsBelow(bands, dirty, start) && start < end <= |dirty|
    requires forall row :: start <= row < end ==> dirty[row]
    requires start > 0 ==> !dirty[start - 1]
    ensures BandsBelow(bands + [Band(start, end)], dirty, end)
  {
    forall row | 0 <= row < end
      ensures dirty[row] <==> InBand(bands + [Band(start, end)], row)
    {
      InBandMore(bands, Band(start, end), row);
    }
    forall i | 0 <= i < |bands|
      ensures bands[i].end < start
    {
      if bands[i].end == start {
        assert InBand(bands, start - 1);
      }
    }
  }

  lemma SkipClean(bands: seq<Band>, dirty: seq<bool>, end: int)
    requires BandsBelow(bands, dirty, end) && end < |dirty| && !dirty[end]
    ensures BandsBelow(bands, dirty, end + 1)
  {
    forall row | 0 <= row < end + 1
      ensures dirty[row] <==> InBand(bands, row)
    {
    }
  }

  /** Between bands, or inside one that began at bandStart, with the rows below `row` seen. */
  ghost predicate RunOpen(bands: seq<Band>, dirty: seq<bool>, bandStart: int, row: int) {
    && 0 <= row <= |dirty|
    && if bandStart < 0 then BandsBelow(bands, dirty, row) && (row > 0 ==> !dirty[row - 1])
       else bandStart < row && BandsBelow(bands, dirty, bandStart)
            && (forall r :: bandStart <= r < row ==> dirty[r])
            && (bandStart > 0 ==> !dirty[bandStart - 1])
  }

  lemma RunStart(dirty: seq<bool>)
    ensures RunOpen([], dirty, -1, 0)
  {
  }

  lemma RunClean(bands: seq<Band>, dirty: seq<bool>, bandStart: int, row: int)
    requires RunOpen(bands, dirty, bandStart, row) && row < |dirty| && !dirty[row]
    ensures RunOpen(if bandStart >= 0 then bands + [Band(bandStart, row)] else bands, dirty, -1, row + 1)
  {
    if bandStart >= 0 {
      CloseBand(bands, dirty, bandStart, row);
    }
    SkipClean(if bandStart >= 0 then bands + [Band(bandStart, row)] else bands, dirty, row);
  }

  lemma RunDirty(bands: seq<Band>, dirty: seq<bool>, bandStart: int, row: int)
    requires RunOpen(bands, dirty, bandStart, row) && row < |dirty| && dirty[row]
    ensures RunOpen(bands, dirty, if bandStart < 0 then row else bandStart, row + 1)
  {
  }

  lemma RunEnds(bands: seq<Band>, dirty: seq<bool>, bandStart: int)
    requires RunOpen(bands, dirty, bandStart, |dirty|)
    ensures BandsBelow(if bandStart >= 0 then bands + [Band(bandStart, |dirty|)] else bands, dirty, |dirty|)
  {
    if bandStart >= 0 {
      CloseBand(bands, dirty, bandStart, |dirty|);
    }
  }

  /** The rows below `row` are drawn and clean, the others as they were. */
  ghost predicate Rendered(t0: Terminal, pictures0: seq<RowInput>, t: Terminal, pictures: seq<RowInput>, row: int) {
    && InBounds(t0) && InBounds(t) && |pictures0| == |pictures| == t0.rows
    && t == t0.(dirty := t.dirty)
    && (forall r :: 0 <= r < t0.rows ==> t.dirty[r] == (t0.dirty[r] && r >= row))
    && (forall r :: 0 <= r < t0.rows ==> pictures[r] == if t0.dirty[r] && r < row then Picture(t0, r) else pictures0[r])
  }

  lemma RenderedStart(t: Terminal, pictures: seq<RowInput>)
    requires InBounds(t) && |pictures| == t.rows
    ensures Rendered(t, pictures, t, pictures, 0)
    ensures |t.dirty| == t.rows
  {
  }

  lemma RenderedFacts(t0: Terminal, pictures0: seq<RowInput>, t: Terminal, pictures: seq<RowInput>, row: nat)
    requires Rendered(t0, pictures0, t, pictures, row) && row < t.rows
    ensures |t.dirty| == |t0.dirty| == t.rows == t0.rows && t.dirty[row] == t0.dirty[row]
  {
  }

  /** Row `row` needed nothing, or was drawn and cleaned. */
  lemma RenderedStep(t0: Terminal, pictures0: seq<RowInput>, t1: Terminal, p1: seq<RowInput>,
                     t: Terminal, pictures: seq<RowInput>, row: nat)
    requires Rendered(t0, pictures0, t1, p1, row) && row < t0.rows && InBounds(t)
    requires if t1.dirty[row]
             then t == t1.(dirty := t1.dirty[row := false]) && pictures == p1[row := Picture(t, row)]
             else t == t1 && pictures == p1
    ensures Rendered(t0, pictures0, t, pictures, row + 1)
  {
  }

  /** The terminal and the frame after a render: dirty rows are drawn from their cells and cleaned. */
  ghost function AfterRender(t: Terminal, pictures: seq<RowInput>): (r: (Terminal, seq<RowInput>))
    requires InBounds(t) && |pictures| == t.rows
    ensures InBounds(r.0) && |r.1| == r.0.rows == t.rows
  {
    (t.(dirty := seq(t.rows, _ => false)),
     seq(t.rows, row requires 0 <= row < t.rows => if t.dirty[row] then Picture(t, row) else pictures[row]))
  }

  lemma RenderedAll(t0: Terminal, pictures0: seq<RowInput>, t: Terminal, pictures: seq<RowInput>)
    requires Rendered(t0, pictures0, t, pictures, t0.rows)
    ensures InBounds(t) && InBounds(t0) && t == t0.(dirty := t.dirty) && |pictures| == t.rows == |pictures0|
    ensures (t, pictures) == AfterRender(t0, pictures0)
  {
    var (u, p) := AfterRender(t0, pictures0);
    assert t.dirty == u.dirty && pictures == p;
  }

  lemma CleanStays(t: Terminal, pictures: seq<RowInput>)
    requires InBounds(t) && |pictures| == t.rows && forall row :: 0 <= row < t.rows ==> !t.dirty[row]
    ensures AfterRender(t, pictures) == (t, pictures)
  {
    var (u, p) := AfterRender(t, pictures);
    assert t.dirty == u.dirty && pictures == p;
  }

  /** The frame: what each row was last drawn from, and whether anything was returned before. */
  class Renderer {
    const layout: Layout
    var rowPictures: seq<RowInput>
    var first: bool

    constructor (width: nat, height: nat, cols: nat, rows: nat, cellWidth: nat, cellHeight: nat)
      ensures layout == Layout(width, height, cols, rows, cellWidth, cellHeight)
      ensures |rowPictures| == rows && first
    {
      layout := Layout(width, height, cols, rows, cellWidth, cellHeight);
      rowPictures := seq(rows, _ => RowInput([], None));
      first := true;
    }

    /** Draws the dirty rows and returns their bands; a clean terminal leaves everything alone. */
    method Render(t: Emulator) returns (changed: seq<Rect>, wasFirst: bool, ghost bands: seq<Band>)
      requires InBounds(t.View()) && |rowPictures| == t.rows
      modifies this, t`dirty
      ensures (t.View(), rowPictures) == AfterRender(old(t.View()), old(rowPictures))
      ensures BandsOf(bands, old(t.dirty)) && changed == layout.RowBands(bands)
      ensures wasFirst == (old(first) && bands != []) && first == (old(first) && bands == [])
    {
      var any := HasDirty(t);
      if !any {
        CleanStays(t.View(), rowPictures);
        return [], false, [];
      }
      ghost var t0, pictures0 := t.View(), rowPictures;
      changed, bands := RenderRows(t);
      BandsComplete(bands, t0.dirty);
      RenderedAll(t0, pictures0, t.View(), rowPictures);
      wasFirst := first;
      first := false;
    }

    /** The loop of render over the rows. */
    method RenderRows(t: Emulator) returns (changed: seq<Rect>, ghost bands: seq<Band>)
      requires InBounds(t.View()) && |rowPictures| == t.rows
      modifies this`rowPictures, t`dirty
      ensures Rendered(old(t.View()), old(rowPictures), t.View(), rowPictures, t.rows)
      ensures BandsBelow(bands, old(t.dirty), t.rows) && changed == layout.RowBands(bands)
    {
      hide InBounds, BandsBelow, RunOpen, Rendered;
      changed, bands := [], [];
      ghost var t0, pictures0 := t.View(), rowPictures;
      RenderedStart(t0, pictures0);
      RunStart(t0.dirty);
      var bandStart := -1;
      var row := 0;
      while row < t.rows
        invariant 0 <= row <= t.rows && InBounds(t.View()) && |rowPictures| == t.rows
        invariant Rendered(t0, pictures0, t.View(), rowPictures, row)
        invariant RunOpen(bands, t0.dirty, bandStart, row) && bandStart >= -1 && changed == layout.RowBands(bands)
      {
        changed, bandStart, bands := VisitRow(t, changed, bandStart, row, bands, t0, pictures0);
        row := row + 1;
      }
      RunEnds(bands, t0.dirty, bandStart);
      if bandStart >= 0 {
        changed, bands := changed + [layout.RowBand(Band(bandStart, t.rows))], bands + [Band(bandStart, t.rows)];
      }
    }

    /** The loop body of render. */
    method VisitRow(t: Emulator, changed: seq<Rect>, bandStart: int, row: nat, ghost bands: seq<Band>,
                    ghost t0: Terminal, ghost pictures0: seq<RowInput>)
      returns (changed': seq<Rect>, bandStart': int, ghost bands': seq<Band>)
      requires InBounds(t.View()) && |rowPictures| == t.rows && row < t.rows && bandStart >= -1
      requires changed == layout.RowBands(bands)
      requires Rendered(t0, pictures0, t.View(), rowPictures, row) && RunOpen(bands, t0.dirty, bandStart, row)
      modifies this`rowPictures, t`dirty
      ensures InBounds(t.View()) && |rowPictures| == t.rows && bandStart' >= -1 && changed' == layout.RowBands(bands')
      ensures Rendered(t0, pictures0, t.View(), rowPictures, row + 1) && RunOpen(bands', t0.dirty, bandStart', row + 1)
    {
      hide InBounds, RunOpen, Rendered;
      RenderedFacts(t0, pictures0, t.View(), rowPictures, row);
      changed', bandStart', bands' := changed, bandStart, bands;
      ghost var t1, pictures1 := t.View(), rowPictures;
      if !t.dirty[row] {
        RunClean(bands, t0.dirty, bandStart, row);
        if bandStart >= 0 {
          changed', bandStart' := changed + [layout.RowBand(Band(bandStart, row))], -1;
          bands' := bands + [Band(bandStart, row)];
        }
      } else {
        RunDirty(bands, t0.dirty, bandStart, row);
        if bandStart < 0 {
          bandStart' := row;
        }
        RenderRow(t, row);
      }
      RenderedStep(t0, pictures0, t1, pictures1, t.View(), rowPictures, row);
    }

    method RenderRow(t: Emulator, row: nat)
      requires InBounds(t.View()) && row < t.rows && |rowPictures| == t.rows
      modifies this`rowPictures, t`dirty
      ensures InBounds(t.View()) && t.View() == old(t.View()).(dirty := old(t.dirty)[row := false])
      ensures rowPictures == old(rowPictures)[row := Picture(t.View(), row)]
    {
      rowPictures := rowPictures[row := RowInput(t.cells[row], if t.cursorY == row then Some(t.cursorX) else None)];
      t.dirty := t.dirty[row := false];
    }

    method HasDirty(t: Emulator) returns (any: bool)
      ensures any <==> exists row :: 0 <= row < |t.dirty| && t.dirty[row]
    {
      var row := 0;
      while row < |t.dirty|
        invariant 0 <= row <= |t.dirty|
        invariant forall r :: 0 <= r < row ==> !t.dirty[r]
      {
        if t.dirty[row] {
          return true;
        }
        row := row + 1;
      }
      return false;
    }
  }

  lemma BandsComplete(bands: seq<Band>, dirty: seq<bool>)
    requires BandsBelow(bands, dirty, |dirty|) && exists row :: 0 <= row < |dirty| && dirty[row]
    ensures BandsOf(bands, dirty) && bands != []
  {
    forall row | 0 <= row < |dirty|
      ensures dirty[row] <==> exists i :: 0 <= i < |bands| && bands[i].start <= row < bands[i].end
    {
      assert dirty[row] <==> InBand(bands, row);
    }
  }

  // ---------- runs ----------

  /** Clean rows are drawn as they are. */
  ghost predicate Current(t: Terminal, pictures: seq<RowInput>) {
    InBounds(t) && |pictures| == t.rows
    && forall row :: 0 <= row < t.rows && !t.dirty[row] ==> pictures[row] == Picture(t, row)
  }

  datatype Event = WriteEvent(bytes: seq<Byte>) | RenderEvent

  /** The terminal and the frame after one event; rendering is what Render promises. */
  ghost function After(t: Terminal, pictures: seq<RowInput>, e: Event): (r: (Terminal, seq<RowInput>))
    requires Valid(t) && |pictures| == t.rows
    ensures Valid(r.0) && |r.1| == r.0.rows == t.rows
  {
    match e
    case WriteEvent(bytes) => (Write(t, bytes), pictures)
    case RenderEvent => AfterRender(t, pictures)
  }

  ghost function AfterAll(t: Terminal, pictures: seq<RowInput>, events: seq<Event>): (r: (Terminal, seq<RowInput>))
    requires Valid(t) && |pictures| == t.rows
    ensures Valid(r.0) && |r.1| == r.0.rows
    decreases |events|
  {
    if events == [] then (t, pictures)
    else
      var (t1, p1) := After(t, pictures, events[0]);
      AfterAll(t1, p1, events[1..])
  }

  lemma AfterKeepsCurrent(t: Terminal, pictures: seq<RowInput>, e: Event)
    requires Valid(t) && Current(t, pictures)
    ensures var (t1, p1) := After(t, pictures, e); Current(t1, p1)
  {
    hide Write;
    match e
    case WriteEvent(bytes) =>
      assert Step(t, Write(t, bytes));
    case RenderEvent =>
  }

  lemma {:induction false} RunsStayCurrent(t: Terminal, pictures: seq<RowInput>, events: seq<Event>)
    requires Valid(t) && Current(t, pictures)
    ensures var (t1, p1) := AfterAll(t, pictures, events); Current(t1, p1)
    decreases |events|
  {
    if events != [] {
      AfterKeepsCurrent(t, pictures, events[0]);
      var (t1, p1) := After(t, pictures, events[0]);
      RunsStayCurrent(t1, p1, events[1..]);
    }
  }

  /** Incremental rendering equals full rendering: after any writes and renders that end with a render,
      every row is drawn from its current cells and the current cursor. */
  lemma IncrementalEqualsFull(t: Terminal, pictures: seq<RowInput>, events: seq<Event>)
    requires Valid(t) && |pictures| == t.rows && |t.dirty| == t.rows && forall row :: 0 <= row < t.rows ==> t.dirty[row]
    ensures var (t1, p1) := AfterAll(t, pictures, events + [RenderEvent]);
      && InBounds(t1) && (forall row :: 0 <= row < t1.rows ==> !t1.dirty[row])
      && forall row :: 0 <= row < t1.rows ==>
           p1[row] == RowInput(t1.cells[row], if row == t1.cursorY then Some(t1.cursorX) else None)
  {
    hide After, AfterAll, Tracked, InBounds;
    AllDirtyCurrent(t, pictures);
    AfterLast(t, pictures, events, RenderEvent);
    RunsStayCurrent(t, pictures, events);
    var (t1, p1) := AfterAll(t, pictures, events);
    RenderShowsAll(t1, p1);
  }

  lemma AllDirtyCurrent(t: Terminal, pictures: seq<RowInput>)
    requires InBounds(t) && |pictures| == t.rows && forall row :: 0 <= row < t.rows ==> t.dirty[row]
    ensures Current(t, pictures)
  {
  }

  lemma RenderShowsAll(t: Terminal, pictures: seq<RowInput>)
    requires Valid(t) && Current(t, pictures)
    ensures var (t1, p1) := After(t, pictures, RenderEvent);
      && InBounds(t1) && (forall row :: 0 <= row < t1.rows ==> !t1.dirty[row])
      && forall row :: 0 <= row < t1.rows ==>
           p1[row] == RowInput(t1.cells[row], if row == t1.cursorY then Some(t1.cursorX) else None)
  {
  }

  lemma {:induction false} AfterLast(t: Terminal, pictures: seq<RowInput>, events: seq<Event>, e: Event)
    requires Valid(t) && |pictures| == t.rows
    ensures var (t1, p1) := AfterAll(t, pictures, events);
      AfterAll(t, pictures, events + [e]) == After(t1, p1, e)
    decreases |events|
  {
    if events == [] {
      var (t1, p1) := After(t, pictures, e);
      assert [e][1..] == [] && [] + [e] == [e];
    } else {
      assert (events + [e])[0] == events[0] && (events + [e])[1..] == events[1..] + [e];
      var (t1, p1) := After(t, pictures, events[0]);
      AfterLast(t1, p1, events[1..], e);
    }
  }
}
