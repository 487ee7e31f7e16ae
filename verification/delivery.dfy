/** The display against the remote framebuffer: what the pending list knows about the latest frame, and
    when delivering it makes the screen show that frame. */
module DisplayDelivery {
  import opened Geometry
  import opened Operations
  import opened Regions
  import opened ReplayExactness
  import opened Coalescer
  import opened FrameSource

  // ---------- the pending list ----------

  /** Pending rectangles lie in the frame and there are at most 127 of them. */
  ghost predicate PendingOk(us: seq<RegionUpdate>, bounds: Rect) {
    |us| <= 127 && forall u :: u in us ==> !u.rect.Empty() && u.rect.In(bounds)
  }

  /** Redrawing the list on `before`, each update with its own contents, gives `now` wherever visible. */
  ghost predicate Explains(us: seq<RegionUpdate>, contents: seq<Screen>, visible: Rect, before: Screen, now: Screen) {
    |contents| == |us| && Agree(visible, RedrawAll(us, contents, visible, before), now)
  }

  /** `after` is `before` with the update applied, wherever visible. */
  ghost predicate StepOk(u: RegionUpdate, before: Screen, after: Screen, visible: Rect) {
    Agree(visible, Redraw(u, after, visible, before), after)
  }

  lemma {:induction false} MergeRunOk(us: seq<RegionUpdate>, rect: Rect, bounds: Rect)
    requires PendingOk(us, bounds) && !rect.Empty() && rect.In(bounds)
    ensures var (rest, grown) := MergeRun(us, rect, bounds);
      && |rest| <= |us| && PendingOk(rest, bounds) && !grown.Empty() && grown.In(bounds)
      && (forall x, y :: rect.Contains(x, y) ==> grown.Contains(x, y))
    decreases |us|
  {
    if us != [] && !us[|us| - 1].copy {
      var u, init := us[|us| - 1], us[..|us| - 1];
      assert u in us;
      MergeRunOk(init, if Nearby(u, rect, bounds) then rect.Union(u.rect) else rect, bounds);
    }
  }

  lemma AppendOk(us: seq<RegionUpdate>, u: RegionUpdate, bounds: Rect)
    requires PendingOk(us, bounds) && !bounds.Empty()
    ensures PendingOk(Append(us, u, bounds), bounds)
  {
    var rect := u.rect.Intersect(bounds);
    if !rect.Empty() && !u.copy {
      MergeRunOk(us, rect, bounds);
    }
  }

  lemma {:induction false} AppendAllOk(pending: seq<RegionUpdate>, us: seq<RegionUpdate>, bounds: Rect)
    requires PendingOk(pending, bounds) && !bounds.Empty()
    ensures PendingOk(AppendAll(pending, us, bounds), bounds)
    decreases |us|
  {
    if us != [] {
      AppendAllOk(pending, us[..|us| - 1], bounds);
      AppendOk(AppendAll(pending, us[..|us| - 1], bounds), us[|us| - 1], bounds);
    }
  }

  function Copies(us: seq<RegionUpdate>): seq<RegionUpdate> {
    if us == [] then []
    else Copies(us[..|us| - 1]) + if us[|us| - 1].copy then [us[|us| - 1]] else []
  }

  lemma {:induction false} MergeRunCopies(us: seq<RegionUpdate>, rect: Rect, bounds: Rect)
    ensures Copies(MergeRun(us, rect, bounds).0) == Copies(us)
    decreases |us|
  {
    if us != [] && !us[|us| - 1].copy {
      var u, init := us[|us| - 1], us[..|us| - 1];
      MergeRunCopies(init, if Nearby(u, rect, bounds) then rect.Union(u.rect) else rect, bounds);
      if !Nearby(u, rect, bounds) {
        var rest := MergeRun(init, rect, bounds).0;
        assert (rest + [u])[..|rest|] == rest;
      }
    }
  }

  /** Copies keep their arrival order, and none is lost, until the whole list collapses to the frame. */
  lemma AppendKeepsCopies(us: seq<RegionUpdate>, u: RegionUpdate, bounds: Rect)
    requires !u.rect.Empty() && u.rect.In(bounds)
    ensures Append(us, u, bounds) == [WholeFrame(bounds)]
            || Copies(Append(us, u, bounds)) == Copies(us) + if u.copy then [u] else []
  {
    MergeRunCopies(us, u.rect, bounds);
    var rest := if u.copy then us else MergeRun(us, u.rect, bounds).0;
    if |rest| < MAX_PENDING {
      var out := Append(us, u, bounds);
      assert out[..|out| - 1] == rest;
    }
  }

  /** Two pixel rectangles are merged exactly when the gap between them is less than 8 both ways. */
  lemma MergesNear(u: RegionUpdate, v: RegionUpdate, bounds: Rect)
    requires !u.copy && !v.copy && !u.rect.Empty() && !v.rect.Empty() && u.rect.In(bounds) && v.rect.In(bounds)
    ensures var near := v.rect.minX - u.rect.maxX < 8 && u.rect.minX - v.rect.maxX < 8
                        && v.rect.minY - u.rect.maxY < 8 && u.rect.minY - v.rect.maxY < 8;
      Append([u], v, bounds)
      == if near then [v.(rect := Rect(Min(u.rect.minX, v.rect.minX), Min(u.rect.minY, v.rect.minY),
                                       Max(u.rect.maxX, v.rect.maxX), Max(u.rect.maxY, v.rect.maxY)))]
         else [u, v]
  {
    var near := v.rect.minX - u.rect.maxX < 8 && u.rect.minX - v.rect.maxX < 8
                && v.rect.minY - u.rect.maxY < 8 && u.rect.minY - v.rect.maxY < 8;
    NearbyIff(u, v.rect, bounds);
    InsideClip(v.rect, bounds);
    hide Nearby;
    assert [u][..0] == [];
    var union := v.rect.Union(u.rect);
    assert MergeRun([], v.rect, bounds) == ([], v.rect) && MergeRun([], union, bounds) == ([], union);
    assert MergeRun([u], v.rect, bounds) == if near then ([], union) else ([] + [u], v.rect);
  }

  lemma NearbyIff(u: RegionUpdate, rect: Rect, bounds: Rect)
    requires !u.rect.Empty() && !rect.Empty() && u.rect.In(bounds) && rect.In(bounds)
    ensures Nearby(u, rect, bounds) <==>
            rect.minX - u.rect.maxX < 8 && u.rect.minX - rect.maxX < 8
            && rect.minY - u.rect.maxY < 8 && u.rect.minY - rect.maxY < 8
  {
  }

  lemma InsideClip(rect: Rect, bounds: Rect)
    requires !rect.Empty() && rect.In(bounds)
    ensures rect.Intersect(bounds) == rect
  {
  }

  /** A copy is appended as it is, unless 127 updates wait: then the whole frame replaces the list. */
  lemma CopyAppended(us: seq<RegionUpdate>, u: RegionUpdate, bounds: Rect)
    requires u.copy && !u.rect.Empty() && u.rect.In(bounds)
    ensures Append(us, u, bounds) == if |us| >= 127 then [RegionUpdate(bounds, Point(0, 0), false)] else us + [u]
  {
    InsideClip(u.rect, bounds);
  }

  // ---------- merging keeps the explanation ----------

  lemma {:induction false} MergeExplains(us: seq<RegionUpdate>, contents: seq<Screen>, rect: Rect, bounds: Rect,
                                         visible: Rect, before: Screen) returns (left: seq<Screen>)
    requires |contents| == |us|
    ensures var (rest, grown) := MergeRun(us, rect, bounds);
      && |left| == |rest|
      && (forall x, y :: rect.Contains(x, y) ==> grown.Contains(x, y))
      && (forall x, y :: !grown.Contains(x, y) ==>
            RedrawAll(rest, left, visible, before)(x, y) == RedrawAll(us, contents, visible, before)(x, y))
    decreases |us|
  {
    hide Nearby, IsNative;
    if us == [] || us[|us| - 1].copy {
      left := contents;
    } else {
      var n := |us| - 1;
      var u, init := us[n], us[..n];
      RawIsNotNative(u, visible);
      if Nearby(u, rect, bounds) {
        left := MergeExplains(init, contents[..n], rect.Union(u.rect), bounds, visible, before);
      } else {
        var part := MergeExplains(init, contents[..n], rect, bounds, visible, before);
        var (rest, grown) := MergeRun(init, rect, bounds);
        left := part + [contents[n]];
        assert (rest + [u])[..|rest|] == rest && left[..|part|] == part;
      }
    }
  }

  lemma RawIsNotNative(u: RegionUpdate, visible: Rect)
    requires !u.copy
    ensures !IsNative(u, visible)
  {
  }

  lemma RedrawLast(us: seq<RegionUpdate>, contents: seq<Screen>, u: RegionUpdate, pixels: Screen, visible: Rect,
                   before: Screen)
    requires |contents| == |us|
    ensures RedrawAll(us + [u], contents + [pixels], visible, before)
            == Redraw(u, pixels, visible, RedrawAll(us, contents, visible, before))
  {
  }

  /** Redrawing one update gives the same visible points on pictures that agree. */
  lemma RedrawAgree(u: RegionUpdate, pixels: Screen, visible: Rect, a: Screen, b: Screen)
    requires Agree(visible, a, b)
    ensures Agree(visible, Redraw(u, pixels, visible, a), Redraw(u, pixels, visible, b))
  {
  }

  /** A raw rectangle that contains every place where the pictures differ repairs them all. */
  lemma RawExplains(us: seq<RegionUpdate>, contents: seq<Screen>, u: RegionUpdate, visible: Rect, before: Screen,
                    now: Screen)
    requires |contents| == |us| && !u.copy
    requires forall x, y :: visible.Contains(x, y) && !u.rect.Contains(x, y) ==>
               RedrawAll(us, contents, visible, before)(x, y) == now(x, y)
    ensures Explains(us + [u], contents + [now], visible, before, now)
  {
  }

  lemma AppendExplains(us: seq<RegionUpdate>, contents: seq<Screen>, visible: Rect, bounds: Rect, before: Screen,
                       old': Screen, u: RegionUpdate, new': Screen) returns (left: seq<Screen>)
    requires Explains(us, contents, visible, before, old') && StepOk(u, old', new', visible)
    requires visible.In(bounds) && !u.rect.Empty() && u.rect.In(bounds)
    ensures Explains(Append(us, u, bounds), left, visible, before, new')
  {
    hide IsNative, RedrawAll, MergeRun;
    var rest := us;
    assert u.rect.Intersect(bounds) == u.rect;
    if u.copy {
      RedrawLast(us, contents, u, new', visible, before);
      RedrawAgree(u, new', visible, RedrawAll(us, contents, visible, before), old');
      left := contents + [new'];
    } else {
      var part := MergeExplains(us, contents, u.rect, bounds, visible, before);
      var (merged, grown) := MergeRun(us, u.rect, bounds);
      rest := merged;
      RawExplains(merged, part, u.(rect := grown), visible, before, new');
      left := part + [new'];
    }
    if |rest| >= MAX_PENDING {
      RawExplains([], [], WholeFrame(bounds), visible, before, new');
      left := [new'];
      assert [] + [WholeFrame(bounds)] == [WholeFrame(bounds)] && [] + [new'] == [new'];
    }
  }

  // ---------- one message ----------

  /** The pictures the frame goes through as the updates arrive. */
  ghost predicate Chain(us: seq<RegionUpdate>, trace: seq<Screen>, visible: Rect) {
    |trace| == |us| + 1
    && (forall i :: 0 <= i < |us| ==> StepOk(us[i], trace[i], trace[i + 1], visible))
    && (forall u :: u in us ==> !u.rect.Empty() && u.rect.In(visible))
  }

  lemma {:induction false} AppendAllExplains(pending: seq<RegionUpdate>, contents: seq<Screen>, us: seq<RegionUpdate>,
                                             trace: seq<Screen>, visible: Rect, bounds: Rect, before: Screen)
    returns (left: seq<Screen>)
    requires Chain(us, trace, visible) && visible.In(bounds)
    requires Explains(pending, contents, visible, before, trace[0])
    ensures Explains(AppendAll(pending, us, bounds), left, visible, before, trace[|us|])
    decreases |us|
  {
    hide Explains, StepOk, Append;
    if us == [] {
      left := contents;
    } else {
      var n := |us| - 1;
      assert us[n] in us;
      var part := AppendAllExplains(pending, contents, us[..n], trace[..n + 1], visible, bounds, before);
      assert StepOk(us[n], trace[n], trace[n + 1], visible);
      left := AppendExplains(AppendAll(pending, us[..n], bounds), part, visible, bounds, before, trace[n], us[n],
                             trace[n + 1]);
    }
  }

  ghost predicate Touched(us: seq<RegionUpdate>, x: int, y: int) {
    exists i :: 0 <= i < |us| && us[i].rect.Contains(x, y)
  }

  lemma {:induction false} ChainUntouched(us: seq<RegionUpdate>, trace: seq<Screen>, visible: Rect, x: int, y: int)
    requires Chain(us, trace, visible) && visible.Contains(x, y) && !Touched(us, x, y)
    ensures trace[|us|](x, y) == trace[0](x, y)
    decreases |us|
  {
    if us != [] {
      var n := |us| - 1;
      assert us[n] in us && !us[n].rect.Contains(x, y);
      forall i | 0 <= i < n
        ensures !us[..n][i].rect.Contains(x, y)
      {
        assert us[..n][i] == us[i];
      }
      ChainUntouched(us[..n], trace[..n + 1], visible, x, y);
      assert StepOk(us[n], trace[n], trace[n + 1], visible);
    }
  }

  lemma {:induction false} DrawAllPoint(to: Image, us: seq<RegionUpdate>, from: Image, x: int, y: int)
    requires to.bounds == from.bounds && from.bounds.Contains(x, y)
    ensures DrawAll(to, us, from).bounds == to.bounds
    ensures DrawAll(to, us, from).at(x, y) == if Touched(us, x, y) then from.at(x, y) else to.at(x, y)
    decreases |us|
  {
    if us != [] {
      var n := |us| - 1;
      DrawAllPoint(to, us[..n], from, x, y);
      if Touched(us[..n], x, y) {
        var i :| 0 <= i < n && us[..n][i].rect.Contains(x, y);
        assert us[i].rect.Contains(x, y);
      }
      if Touched(us, x, y) && !us[n].rect.Contains(x, y) {
        var i :| 0 <= i < |us| && us[i].rect.Contains(x, y);
        assert us[..n][i].rect.Contains(x, y);
      }
    }
  }

  /** The screen size a frame is displayed with: the view, or the frame itself. */
  function ScreenWidth(bounds: Rect, view: nat): int { if view > 0 then view else bounds.Dx() }

  function ScreenHeight(bounds: Rect, view: nat): int { if view > 0 then view else bounds.Dy() }

  predicate FrameBounds(bounds: Rect) {
    bounds.minX == 0 && bounds.minY == 0 && 1 <= bounds.maxX <= 8192 && 1 <= bounds.maxY <= 8192
  }

  lemma VisibleIsView(bounds: Rect, viewWidth: nat, viewHeight: nat)
    requires FrameBounds(bounds)
    ensures var v := VisibleBounds(bounds, viewWidth, viewHeight);
      v == Visible(bounds, ScreenWidth(bounds, viewWidth), ScreenHeight(bounds, viewHeight))
      && v.In(bounds) && !v.Empty()
  {
  }

  /** A visible point lies in some raw rectangle of the list. */
  ghost predicate RawAt(us: seq<RegionUpdate>, x: int, y: int) {
    exists i :: 0 <= i < |us| && !us[i].copy && us[i].rect.Contains(x, y)
  }

  ghost predicate RawCover(us: seq<RegionUpdate>, visible: Rect) {
    forall x, y :: visible.Contains(x, y) ==> RawAt(us, x, y)
  }

  lemma RawAtMore(us: seq<RegionUpdate>, u: RegionUpdate, x: int, y: int)
    ensures RawAt(us + [u], x, y) <==> RawAt(us, x, y) || (!u.copy && u.rect.Contains(x, y))
  {
    if RawAt(us, x, y) {
      var i :| 0 <= i < |us| && !us[i].copy && us[i].rect.Contains(x, y);
      assert (us + [u])[i] == us[i];
    }
    if !u.copy && u.rect.Contains(x, y) {
      assert (us + [u])[|us|] == u;
    }
  }

  lemma {:induction false} MergeRunCovers(us: seq<RegionUpdate>, rect: Rect, bounds: Rect, x: int, y: int)
    requires RawAt(us, x, y) || rect.Contains(x, y)
    ensures RawAt(MergeRun(us, rect, bounds).0, x, y) || MergeRun(us, rect, bounds).1.Contains(x, y)
    decreases |us|
  {
    hide RawAt, Nearby;
    if us != [] && !us[|us| - 1].copy {
      var u, init := us[|us| - 1], us[..|us| - 1];
      assert us == init + [u];
      RawAtMore(init, u, x, y);
      if Nearby(u, rect, bounds) {
        MergeRunCovers(init, rect.Union(u.rect), bounds, x, y);
      } else {
        if RawAt(init, x, y) || rect.Contains(x, y) {
          MergeRunCovers(init, rect, bounds, x, y);
        }
        RawAtMore(MergeRun(init, rect, bounds).0, u, x, y);
      }
    }
  }

  lemma AppendCovers(us: seq<RegionUpdate>, u: RegionUpdate, bounds: Rect, x: int, y: int)
    requires bounds.Contains(x, y)
    requires RawAt(us, x, y) || (!u.copy && u.rect.Contains(x, y))
    ensures RawAt(Append(us, u, bounds), x, y)
  {
    hide RawAt, MergeRun;
    var rect := u.rect.Intersect(bounds);
    if !rect.Empty() {
      if !u.copy {
        MergeRunCovers(us, rect, bounds, x, y);
      }
      var (rest, grown) := if u.copy then (us, rect) else MergeRun(us, rect, bounds);
      RawAtMore(rest, u.(rect := grown), x, y);
      RawAtMore([], WholeFrame(bounds), x, y);
      assert [] + [WholeFrame(bounds)] == [WholeFrame(bounds)];
    }
  }

  lemma {:induction false} AppendAllCovers(pending: seq<RegionUpdate>, us: seq<RegionUpdate>, bounds: Rect,
                                           x: int, y: int)
    requires bounds.Contains(x, y) && (RawAt(pending, x, y) || RawAt(us, x, y))
    ensures RawAt(AppendAll(pending, us, bounds), x, y)
    decreases |us|
  {
    if us != [] {
      var init, u := us[..|us| - 1], us[|us| - 1];
      assert us == init + [u];
      RawAtMore(init, u, x, y);
      if RawAt(pending, x, y) || RawAt(init, x, y) {
        AppendAllCovers(pending, init, bounds, x, y);
      }
      AppendCovers(AppendAll(pending, init, bounds), u, bounds, x, y);
    }
  }

  // ---------- reading a message ----------

  /** What the list of a partly read message says about the frame it started from. */
  ghost predicate ReadingOk(start: Image, r: Reading, trace: seq<Screen>, viewWidth: nat, viewHeight: nat) {
    var visible := VisibleBounds(r.frame.bounds, viewWidth, viewHeight);
    && FrameBounds(r.frame.bounds)
    && (r.resized ==> RawCover(r.changed, visible))
    && (r.changed == [] ==> r.frame.bounds == start.bounds && !r.resized)
    && (r.frame.bounds == start.bounds ==>
          && Chain(r.changed, trace, visible) && trace[0] == Colour(start)
          && Agree(visible, trace[|r.changed|], Colour(r.frame)))
  }

  /** A change confined to `u`'s visible part, or a visible copy, is one step of the chain. */
  lemma ChainGrows(us: seq<RegionUpdate>, trace: seq<Screen>, visible: Rect, u: RegionUpdate, frame: Screen,
                   frame': Screen)
    requires Chain(us, trace, visible) && Agree(visible, trace[|us|], frame)
    requires !u.rect.Empty() && u.rect.In(visible) && StepOk(u, frame, frame', visible)
    ensures Chain(us + [u], trace + [frame'], visible)
  {
  }

  lemma RawStep(frame: Image, rect: Rect, pixels: Screen, visible: Rect)
    ensures var clipped := rect.Intersect(visible);
      if clipped.Empty() then Agree(visible, Colour(frame), Colour(PaintRaw(frame, rect, pixels)))
      else StepOk(RegionUpdate(clipped, Point(0, 0), false), Colour(frame), Colour(PaintRaw(frame, rect, pixels)),
                  visible)
  {
  }

  lemma CopyStep(frame: Image, rect: Rect, source: Point, visible: Rect)
    ensures var clipped := rect.Intersect(visible);
      if clipped.Empty() then Agree(visible, Colour(frame), Colour(PaintCopy(frame, rect, source)))
      else StepOk(RegionUpdate(clipped, source, clipped == rect), Colour(frame),
                  Colour(PaintCopy(frame, rect, source)), visible)
  {
  }

  lemma WholeStep(before: Screen, after: Screen, visible: Rect)
    ensures StepOk(WholeFrame(visible), before, after, visible)
  {
  }

  lemma DrawnStep(start: Image, r: Reading, trace: seq<Screen>, viewWidth: nat, viewHeight: nat,
                  u: RegionUpdate, frame': Image) returns (trace': seq<Screen>)
    requires ReadingOk(start, r, trace, viewWidth, viewHeight) && frame'.bounds == r.frame.bounds
    requires var visible := VisibleBounds(r.frame.bounds, viewWidth, viewHeight);
      var clipped := u.rect.Intersect(visible);
      if clipped.Empty() then Agree(visible, Colour(r.frame), Colour(frame'))
      else StepOk(RegionUpdate(clipped, u.source, u.copy && clipped == u.rect), Colour(r.frame), Colour(frame'),
                  visible)
    ensures var visible := VisibleBounds(r.frame.bounds, viewWidth, viewHeight);
      ReadingOk(start, Reading(frame', AppendVisible(r.changed, u, visible), r.resized), trace', viewWidth, viewHeight)
  {
    hide StepOk, Chain;
    var visible := VisibleBounds(r.frame.bounds, viewWidth, viewHeight);
    var clipped := u.rect.Intersect(visible);
    trace' := trace;
    if !clipped.Empty() {
      var v := RegionUpdate(clipped, u.source, u.copy && clipped == u.rect);
      forall x, y | r.resized && visible.Contains(x, y)
        ensures RawAt(r.changed + [v], x, y)
      {
        RawAtMore(r.changed, v, x, y);
      }
      if r.frame.bounds == start.bounds {
        ChainLength(r.changed, trace, visible);
        ChainGrows(r.changed, trace, visible, v, Colour(r.frame), Colour(frame'));
        trace' := trace + [Colour(frame')];
      }
    } else if r.frame.bounds == start.bounds {
      ChainLength(r.changed, trace, visible);
    }
  }

  lemma ChainLength(us: seq<RegionUpdate>, trace: seq<Screen>, visible: Rect)
    requires Chain(us, trace, visible)
    ensures |trace| == |us| + 1
  {
  }

  lemma ReadOneOk(start: Image, r: Reading, trace: seq<Screen>, a: Arrival, viewWidth: nat, viewHeight: nat)
    returns (trace': seq<Screen>)
    requires ReadingOk(start, r, trace, viewWidth, viewHeight) && ReadOne(r, a, viewWidth, viewHeight).Some?
    ensures ReadingOk(start, ReadOne(r, a, viewWidth, viewHeight).value, trace', viewWidth, viewHeight)
  {
    var visible := VisibleBounds(r.frame.bounds, viewWidth, viewHeight);
    match a
    case Raw(rect, pixels) =>
      hide StepOk, ReadingOk, AppendVisible;
      RawStep(r.frame, rect, pixels, visible);
      trace' := DrawnStep(start, r, trace, viewWidth, viewHeight, RegionUpdate(rect, Point(0, 0), false),
                          PaintRaw(r.frame, rect, pixels));
    case CopyRect(rect, source) =>
      hide StepOk, ReadingOk, AppendVisible;
      CopyStep(r.frame, rect, source, visible);
      trace' := DrawnStep(start, r, trace, viewWidth, viewHeight, RegionUpdate(rect, source, true),
                          PaintCopy(r.frame, rect, source));
    case DesktopSize(w, h) =>
      var frame := NewImage(Rect(0, 0, w, h));
      var whole := WholeFrame(VisibleBounds(frame.bounds, viewWidth, viewHeight));
      VisibleIsView(frame.bounds, viewWidth, viewHeight);
      WholeStep(Colour(start), Colour(frame), whole.rect);
      trace' := [Colour(start), Colour(frame)];
      forall x, y | whole.rect.Contains(x, y)
        ensures RawAt([whole], x, y)
      {
        assert [whole][0] == whole;
      }
    case Cursor =>
      trace' := trace;
  }

  lemma {:induction false} ReadAllOk(start: Image, arrivals: seq<Arrival>, viewWidth: nat, viewHeight: nat)
    returns (trace: seq<Screen>)
    requires FrameBounds(start.bounds)
    requires ReadAll(Reading(start, [], false), arrivals, viewWidth, viewHeight).Some?
    ensures ReadingOk(start, ReadAll(Reading(start, [], false), arrivals, viewWidth, viewHeight).value, trace,
                      viewWidth, viewHeight)
    decreases |arrivals|
  {
    if arrivals == [] {
      trace := [Colour(start)];
    } else {
      hide ReadingOk, ReadOne;
      var n := |arrivals| - 1;
      var part := ReadAllOk(start, arrivals[..n], viewWidth, viewHeight);
      trace := ReadOneOk(start, ReadAll(Reading(start, [], false), arrivals[..n], viewWidth, viewHeight).value, part,
                         arrivals[n], viewWidth, viewHeight);
    }
  }

  // ---------- whole runs ----------

  /** The image the session is to show (the connection's framebuffer, or the scaled one), the session's
      queue, the frame at the last take, the delivery under way, the frame of the last delivery, the
      terminal's screen, whether nothing was delivered yet, and whether the last full redraw was followed
      by safe lists only. */
  datatype System = System(remote: Image, queue: Queue, taken: Image, flight: Option<Delivery>, shown: Image,
                           screen: Screen, first: bool, synced: bool)

  datatype Event =
    | UpdateEvent(arrivals: seq<Arrival>)  // one RFB message, read and enqueued
    | ScaledEvent(frame: Image, rects: seq<Rect>, full: bool)  // a message, scaled and enqueued
    | FullFrameEvent                       // RequestFullFrame
    | TakeEvent                            // frameLoop takes the pending work
    | DeliverEvent(screen: Screen)         // OnFrame drew it; the screen it left

  /** What ShowImage and ShowImageRegions promise about the screen they leave. */
  ghost predicate Delivered(d: Delivery, viewWidth: nat, viewHeight: nat, before: Screen, after: Screen) {
    var bounds := d.snapshot.bounds;
    var w, h := ScreenWidth(bounds, viewWidth), ScreenHeight(bounds, viewHeight);
    if d.resized then Shows(after, Colour(d.snapshot), bounds, w, h)
    else
      forall x, y ::
        Unshift(after, OffsetX(bounds, w), OffsetY(bounds, h))(x, y)
        == RedrawAll(d.changed, Same(d.changed, Colour(d.snapshot)), Visible(bounds, w, h),
                     Unshift(before, OffsetX(bounds, w), OffsetY(bounds, h)))(x, y)
  }

  /** Scaling changed the image inside the reported rectangles only, or made it anew. */
  ghost predicate ScaledOk(before: Image, after: Image, rects: seq<Rect>, full: bool) {
    && FrameBounds(after.bounds)
    && (full ==> rects == [after.bounds])
    && (!full ==>
          && after.bounds == before.bounds
          && (forall m :: m in rects ==> !m.Empty() && m.In(after.bounds))
          && (forall x, y :: !InSome(rects, x, y) ==> after.at(x, y) == before.at(x, y)))
  }

  predicate InSome(rects: seq<Rect>, x: int, y: int) {
    rects != [] && (InSome(rects[..|rects| - 1], x, y) || rects[|rects| - 1].Contains(x, y))
  }

  /** The pixel updates that handleFrame enqueues. */
  function RawUpdates(rects: seq<Rect>): (r: seq<RegionUpdate>)
    ensures |r| == |rects|
  {
    seq(|rects|, i requires 0 <= i < |rects| => WholeFrame(rects[i]))
  }

  ghost predicate Next(s: System, e: Event, t: System, viewWidth: nat, viewHeight: nat) {
    match e
    case UpdateEvent(arrivals) =>
      var r := ReadAll(Reading(s.remote, [], false), arrivals, viewWidth, viewHeight);
      r.Some? && t == s.(remote := r.value.frame,
                         queue := EnqueueSpec(s.queue, r.value.frame, r.value.changed, r.value.resized))
    case ScaledEvent(frame, rects, full) =>
      viewWidth == viewHeight == 0 && ScaledOk(s.remote, frame, rects, full)
      && t == s.(remote := frame, queue := EnqueueSpec(s.queue, frame, RawUpdates(rects), full))
    case FullFrameEvent => t == s.(queue := RequestFullFrameSpec(s.queue))
    case TakeEvent =>
      var (q, d) := TakeSpec(s.queue);
      s.flight.None? && t == if d.None? then s else s.(queue := q, taken := s.queue.latest.value, flight := d)
    case DeliverEvent(screen) =>
      s.flight.Some? && Delivered(s.flight.value, viewWidth, viewHeight, s.screen, screen)
      && var d := s.flight.value;
         t == s.(flight := None, shown := s.taken, screen := screen, first := false,
                 synced := d.resized
                           || (s.synced && Safe(d.changed, VisibleBounds(d.snapshot.bounds, viewWidth, viewHeight))))
  }

  ghost predicate Reaches(s: System, events: seq<Event>, t: System, viewWidth: nat, viewHeight: nat)
    decreases |events|
  {
    if events == [] then s == t
    else exists m :: Next(s, events[0], m, viewWidth, viewHeight) && Reaches(m, events[1..], t, viewWidth, viewHeight)
  }

  // ---------- invariants ----------

  /** From frame `before` to frame `now` by the list: it explains the difference, or redraws it all. */
  ghost predicate Leads(before: Image, us: seq<RegionUpdate>, resized: bool, now: Image,
                        viewWidth: nat, viewHeight: nat) {
    var visible := VisibleBounds(now.bounds, viewWidth, viewHeight);
    && FrameBounds(now.bounds) && PendingOk(us, now.bounds)
    && (resized ==> RawCover(us, visible))
    && (!resized ==> before.bounds == now.bounds
                     && exists contents :: Explains(us, contents, visible, Colour(before), Colour(now)))
  }

  ghost predicate QueueInv(s: System, viewWidth: nat, viewHeight: nat) {
    && FrameBounds(s.remote.bounds)
    && (s.queue.latest.Some? ==>
          var latest := s.queue.latest.value;
          && Leads(s.taken, s.queue.pending, s.queue.resized, latest, viewWidth, viewHeight)
          && latest.bounds == s.remote.bounds
          && Agree(VisibleBounds(latest.bounds, viewWidth, viewHeight), Colour(latest), Colour(s.remote)))
    && (s.queue.latest.None? ==> s.queue.pending == [] && s.flight.None?)
  }

  ghost predicate FlightInv(s: System, viewWidth: nat, viewHeight: nat) {
    && (s.flight.None? ==> s.shown == s.taken)
    && (s.flight.Some? ==>
          var d := s.flight.value;
          && Leads(s.shown, d.changed, d.resized, s.taken, viewWidth, viewHeight)
          && d.snapshot == SnapshotOf(s.taken, d.changed))
  }

  ghost predicate ScreenInv(s: System, viewWidth: nat, viewHeight: nat) {
    s.synced ==> Shows(s.screen, Colour(s.shown), s.shown.bounds,
                       ScreenWidth(s.shown.bounds, viewWidth), ScreenHeight(s.shown.bounds, viewHeight))
  }

  /** The first delivery of a session is a full redraw. */
  ghost predicate FirstInv(s: System) {
    s.first ==> if s.flight.Some? then s.flight.value.resized else s.queue.latest.Some? ==> s.queue.resized
  }

  ghost predicate Inv(s: System, viewWidth: nat, viewHeight: nat) {
    && QueueInv(s, viewWidth, viewHeight) && FlightInv(s, viewWidth, viewHeight)
    && ScreenInv(s, viewWidth, viewHeight) && FirstInv(s)
  }

  ghost predicate Initial(s: System) {
    && FrameBounds(s.remote.bounds) && s.queue == Queue(None, [], false, false)
    && s.flight.None? && s.shown == s.taken && s.first && !s.synced
  }

  /** Coverage: a visible point where the latest frame differs from the frame last taken lies in a
      pending rectangle. */
  lemma PendingCovers(s: System, viewWidth: nat, viewHeight: nat, x: int, y: int)
    requires QueueInv(s, viewWidth, viewHeight) && s.queue.latest.Some?
    requires VisibleBounds(s.queue.latest.value.bounds, viewWidth, viewHeight).Contains(x, y)
    requires s.taken.bounds != s.queue.latest.value.bounds
             || Colour(s.queue.latest.value)(x, y) != Colour(s.taken)(x, y)
    ensures Touched(s.queue.pending, x, y)
  {
    var latest := s.queue.latest.value;
    var visible := VisibleBounds(latest.bounds, viewWidth, viewHeight);
    if s.queue.resized {
      assert RawAt(s.queue.pending, x, y);
    } else {
      var contents :| Explains(s.queue.pending, contents, visible, Colour(s.taken), Colour(latest));
      RedrawUntouched(s.queue.pending, contents, visible, Colour(s.taken), x, y);
    }
  }

  lemma {:induction false} RedrawUntouched(us: seq<RegionUpdate>, contents: seq<Screen>, visible: Rect, before: Screen,
                                           x: int, y: int)
    requires |contents| == |us|
    ensures !Touched(us, x, y) ==> RedrawAll(us, contents, visible, before)(x, y) == before(x, y)
    decreases |us|
  {
    if us != [] && !Touched(us, x, y) {
      var n := |us| - 1;
      forall i | 0 <= i < n
        ensures !us[..n][i].rect.Contains(x, y)
      {
        assert us[..n][i] == us[i];
      }
      RedrawUntouched(us[..n], contents[..n], visible, before, x, y);
    }
  }

  // ---------- each event keeps the invariants ----------

  lemma EnqueueFresh(q: Queue, frame: Image, changed: seq<RegionUpdate>, resized: bool, before: Image,
                     viewWidth: nat, viewHeight: nat)
    requires changed != [] && Fresh(q, frame) && FrameBounds(frame.bounds)
    ensures var t := EnqueueSpec(q, frame, changed, resized);
      && t.latest.Some? && t.latest.value.bounds == frame.bounds
      && Leads(before, t.pending, t.resized, t.latest.value, viewWidth, viewHeight)
      && Agree(VisibleBounds(frame.bounds, viewWidth, viewHeight), Colour(t.latest.value), Colour(frame))
  {
    var whole := WholeFrame(frame.bounds);
    var t := EnqueueSpec(q, frame, changed, resized);
    VisibleIsView(frame.bounds, viewWidth, viewHeight);
    assert [whole][..0] == [] && [whole][0] == whole;
    assert AppendAll([], [whole][..0], frame.bounds) == [];
    assert frame.bounds.Intersect(frame.bounds) == frame.bounds;
    assert Append([], whole, frame.bounds) == [whole];
    assert t.pending == [whole];
    forall x, y | frame.bounds.Contains(x, y)
      ensures RawAt([whole], x, y) && t.latest.value.at(x, y) == frame.at(x, y)
    {
      assert [whole][0] == whole;
      DrawAllPoint(NewImage(frame.bounds), [whole], frame, x, y);
    }
    assert t.latest.value.bounds == frame.bounds by {
      DrawAllPoint(NewImage(frame.bounds), [whole], frame, 0, 0);
    }
  }

  lemma EnqueueMerges(q: Queue, r: Reading, start: Image, trace: seq<Screen>, before: Image,
                      viewWidth: nat, viewHeight: nat)
    requires q.latest.Some? && q.latest.value.bounds == start.bounds == r.frame.bounds && r.changed != []
    requires Leads(before, q.pending, q.resized, q.latest.value, viewWidth, viewHeight)
    requires Agree(VisibleBounds(start.bounds, viewWidth, viewHeight), Colour(q.latest.value), Colour(start))
    requires ReadingOk(start, r, trace, viewWidth, viewHeight)
    ensures var t := EnqueueSpec(q, r.frame, r.changed, r.resized);
      && t.latest.Some? && t.latest.value.bounds == r.frame.bounds
      && Leads(before, t.pending, t.resized, t.latest.value, viewWidth, viewHeight)
      && Agree(VisibleBounds(start.bounds, viewWidth, viewHeight), Colour(t.latest.value), Colour(r.frame))
  {
    var bounds := start.bounds;
    var visible := VisibleBounds(bounds, viewWidth, viewHeight);
    var t := EnqueueSpec(q, r.frame, r.changed, r.resized);
    VisibleIsView(bounds, viewWidth, viewHeight);
    AppendAllOk(q.pending, r.changed, bounds);
    DrawAllPoint(q.latest.value, r.changed, r.frame, 0, 0);
    forall x, y | visible.Contains(x, y)
      ensures t.latest.value.at(x, y).r == r.frame.at(x, y).r && t.latest.value.at(x, y).g == r.frame.at(x, y).g
              && t.latest.value.at(x, y).b == r.frame.at(x, y).b
    {
      DrawAllPoint(q.latest.value, r.changed, r.frame, x, y);
      if !Touched(r.changed, x, y) {
        ChainUntouched(r.changed, trace, visible, x, y);
        assert Colour(r.frame)(x, y) == Colour(q.latest.value)(x, y);
      }
    }
    if t.resized {
      forall x, y | visible.Contains(x, y)
        ensures RawAt(t.pending, x, y)
      {
        AppendAllCovers(q.pending, r.changed, bounds, x, y);
      }
    } else {
      var contents :| Explains(q.pending, contents, visible, Colour(before), Colour(q.latest.value));
      assert Explains(q.pending, contents, visible, Colour(before), trace[0]);
      var left := AppendAllExplains(q.pending, contents, r.changed, trace, visible, bounds, Colour(before));
      assert Explains(t.pending, left, visible, Colour(before), Colour(t.latest.value));
    }
  }

  /** A frame and a list of changes that lead to it, enqueued. */
  lemma ReadingKeeps(s: System, r: Reading, trace: seq<Screen>, viewWidth: nat, viewHeight: nat)
    requires Inv(s, viewWidth, viewHeight) && ReadingOk(s.remote, r, trace, viewWidth, viewHeight)
    ensures Inv(s.(remote := r.frame, queue := EnqueueSpec(s.queue, r.frame, r.changed, r.resized)),
                viewWidth, viewHeight)
  {
    hide Leads, ReadingOk, EnqueueSpec;
    ReadingFacts(s.remote, r, trace, viewWidth, viewHeight);
    EnqueueResized(s.queue, r);
    if r.changed == [] {
      NothingEnqueued(s.queue, r);
    } else if Fresh(s.queue, r.frame) {
      EnqueueFresh(s.queue, r.frame, r.changed, r.resized, s.taken, viewWidth, viewHeight);
    } else {
      EnqueueMerges(s.queue, r, s.remote, trace, s.taken, viewWidth, viewHeight);
    }
  }

  /** Enqueuing never takes a pending full redraw back, and starts with one. */
  lemma EnqueueResized(q: Queue, r: Reading)
    ensures var t := EnqueueSpec(q, r.frame, r.changed, r.resized);
      (q.latest.None? || q.resized) && t.latest.Some? ==> t.resized
  {
    hide DrawAll, AppendAll;
  }

  lemma UpdateKeeps(s: System, arrivals: seq<Arrival>, t: System, viewWidth: nat, viewHeight: nat)
    requires Inv(s, viewWidth, viewHeight) && Next(s, UpdateEvent(arrivals), t, viewWidth, viewHeight)
    ensures Inv(t, viewWidth, viewHeight)
  {
    hide QueueInv, FlightInv, ScreenInv, FirstInv, ReadingOk, EnqueueSpec;
    var r := ReadAll(Reading(s.remote, [], false), arrivals, viewWidth, viewHeight).value;
    RemoteBounds(s, viewWidth, viewHeight);
    var trace := ReadAllOk(s.remote, arrivals, viewWidth, viewHeight);
    ReadingKeeps(s, r, trace, viewWidth, viewHeight);
  }

  lemma RemoteBounds(s: System, viewWidth: nat, viewHeight: nat)
    requires QueueInv(s, viewWidth, viewHeight)
    ensures FrameBounds(s.remote.bounds)
  {
  }

  /** The images between the old and the new one, rectangle by rectangle. */
  lemma {:induction false} ScaledTrace(before: Screen, after: Screen, rects: seq<Rect>, visible: Rect)
    returns (trace: seq<Screen>)
    requires forall m :: m in rects ==> !m.Empty() && m.In(visible)
    ensures Chain(RawUpdates(rects), trace, visible) && trace[0] == before
    ensures forall x, y :: visible.Contains(x, y) ==>
              trace[|rects|](x, y) == if InSome(rects, x, y) then after(x, y) else before(x, y)
    decreases |rects|
  {
    if rects == [] {
      trace := [before];
    } else {
      var n := |rects| - 1;
      var rect := rects[n];
      assert rect in rects;
      var part := ScaledTrace(before, after, rects[..n], visible);
      var last := part[n];
      var next := (x: int, y: int) => if rect.Contains(x, y) then after(x, y) else last(x, y);
      trace := part + [next];
      assert RawUpdates(rects) == RawUpdates(rects[..n]) + [WholeFrame(rect)];
      hide Chain;
      RawStepOk(rect, last, next, visible);
      ChainGrows(RawUpdates(rects[..n]), part, visible, WholeFrame(rect), last, next);
    }
  }

  lemma RawStepOk(rect: Rect, before: Screen, after: Screen, visible: Rect)
    requires forall x, y :: !rect.Contains(x, y) ==> after(x, y) == before(x, y)
    ensures StepOk(WholeFrame(rect), before, after, visible)
  {
  }

  lemma ScaledReading(before: Image, after: Image, rects: seq<Rect>, full: bool) returns (trace: seq<Screen>)
    requires ScaledOk(before, after, rects, full)
    ensures ReadingOk(before, Reading(after, RawUpdates(rects), full), trace, 0, 0)
  {
    var visible := VisibleBounds(after.bounds, 0, 0);
    VisibleIsView(after.bounds, 0, 0);
    trace := ScaledTrace(Colour(before), Colour(after), rects, visible);
    if full {
      assert rects[..0] == [] && RawUpdates(rects)[0] == WholeFrame(after.bounds);
      assert forall x, y :: InSome(rects, x, y) <==> after.bounds.Contains(x, y);
      forall x, y | visible.Contains(x, y)
        ensures RawAt(RawUpdates(rects), x, y)
      {
        assert RawUpdates(rects)[0].rect.Contains(x, y);
      }
    }
    hide Chain, InSome;
  }

  lemma ScaledKeeps(s: System, e: Event, t: System)
    requires Inv(s, 0, 0) && e.ScaledEvent? && Next(s, e, t, 0, 0)
    ensures Inv(t, 0, 0)
  {
    hide QueueInv, FlightInv, ScreenInv, FirstInv, ReadingOk, EnqueueSpec, ScaledOk;
    var trace := ScaledReading(s.remote, e.frame, e.rects, e.full);
    ReadingKeeps(s, Reading(e.frame, RawUpdates(e.rects), e.full), trace, 0, 0);
  }

  lemma NothingEnqueued(q: Queue, r: Reading)
    requires r.changed == []
    ensures EnqueueSpec(q, r.frame, r.changed, r.resized) == q
  {
  }

  lemma ReadingFacts(start: Image, r: Reading, trace: seq<Screen>, viewWidth: nat, viewHeight: nat)
    requires ReadingOk(start, r, trace, viewWidth, viewHeight)
    ensures FrameBounds(r.frame.bounds)
    ensures r.changed == [] ==> r.frame.bounds == start.bounds
                                && Agree(VisibleBounds(start.bounds, viewWidth, viewHeight),
                                         Colour(start), Colour(r.frame))
  {
  }

  lemma FullFrameKeeps(s: System, t: System, viewWidth: nat, viewHeight: nat)
    requires Inv(s, viewWidth, viewHeight) && Next(s, FullFrameEvent, t, viewWidth, viewHeight)
    ensures Inv(t, viewWidth, viewHeight)
  {
    if s.queue.latest.Some? {
      var bounds := s.queue.latest.value.bounds;
      VisibleIsView(bounds, viewWidth, viewHeight);
      forall x, y | bounds.Contains(x, y)
        ensures RawAt(t.queue.pending, x, y)
      {
        assert t.queue.pending[0] == WholeFrame(bounds);
      }
    }
  }

  lemma TakeKeeps(s: System, t: System, viewWidth: nat, viewHeight: nat)
    requires Inv(s, viewWidth, viewHeight) && Next(s, TakeEvent, t, viewWidth, viewHeight)
    ensures Inv(t, viewWidth, viewHeight)
  {
    if TakeSpec(s.queue).1.Some? {
      var latest := s.queue.latest.value;
      var visible := VisibleBounds(latest.bounds, viewWidth, viewHeight);
      assert Explains([], [], visible, Colour(latest), Colour(latest));
    }
  }

  // ---------- delivery ----------

  lemma {:induction false} DrawPartPoint(to: Image, us: seq<RegionUpdate>, from: Image, x: int, y: int)
    requires to.bounds == from.bounds && from.bounds.Contains(x, y)
    ensures DrawPart(to, us, from).bounds == to.bounds
    ensures DrawPart(to, us, from).at(x, y) == if Touched(us, x, y) then from.at(x, y) else to.at(x, y)
    decreases |us|
  {
    if us != [] {
      var n := |us| - 1;
      DrawPartPoint(to, us[..n], from, x, y);
      if Touched(us[..n], x, y) {
        var i :| 0 <= i < n && us[..n][i].rect.Contains(x, y);
        assert us[i].rect.Contains(x, y);
      }
      if Touched(us, x, y) && !us[n].rect.Contains(x, y) {
        var i :| 0 <= i < |us| && us[i].rect.Contains(x, y);
        assert us[..n][i].rect.Contains(x, y);
      }
    }
  }

  /** The snapshot has the frame's pixels wherever the list draws from it. */
  lemma SnapshotSuffices(frame: Image, us: seq<RegionUpdate>, visible: Rect, s: Screen, x: int, y: int)
    requires visible.In(frame.bounds) && visible.Contains(x, y)
    ensures SnapshotOf(frame, us).bounds == frame.bounds
    ensures RedrawAll(us, Same(us, Colour(SnapshotOf(frame, us))), visible, s)(x, y)
            == RedrawAll(us, Same(us, Colour(frame)), visible, s)(x, y)
  {
    var snapshot := SnapshotOf(frame, us);
    DrawPartPoint(NewImage(frame.bounds), us, frame, x, y);
    RedrawOrigin(us, Same(us, Colour(snapshot)), visible, s, x, y);
    RedrawOrigin(us, Same(us, Colour(frame)), visible, s, x, y);
    OriginBounds(us, visible, x, y);
    var o := OriginOf(us, visible, x, y);
    if o.Drawn? {
      assert us[o.i].rect.Contains(o.x, o.y);
      DrawPartPoint(NewImage(frame.bounds), us, frame, o.x, o.y);
    }
  }

  /** Redrawing on pictures that agree where visible gives pictures that agree there. */
  lemma {:induction false} RedrawAllAgree(us: seq<RegionUpdate>, contents: seq<Screen>, visible: Rect,
                                          a: Screen, b: Screen)
    requires |contents| == |us| && Agree(visible, a, b)
    ensures Agree(visible, RedrawAll(us, contents, visible, a), RedrawAll(us, contents, visible, b))
    decreases |us|
  {
    if us != [] {
      var n := |us| - 1;
      RedrawAllAgree(us[..n], contents[..n], visible, a, b);
      RedrawAgree(us[n], contents[n], visible, RedrawAll(us[..n], contents[..n], visible, a),
                  RedrawAll(us[..n], contents[..n], visible, b));
    }
  }

  lemma {:induction false} RedrawOutside(us: seq<RegionUpdate>, contents: seq<Screen>, visible: Rect, s: Screen,
                                         x: int, y: int)
    requires |contents| == |us| && !visible.Contains(x, y)
    ensures RedrawAll(us, contents, visible, s)(x, y) == s(x, y)
    decreases |us|
  {
    if us != [] {
      RedrawOutside(us[..|us| - 1], contents[..|us| - 1], visible, s, x, y);
    }
  }

  /** A safe list, redrawn with the final frame's pixels on a picture of the earlier frame, gives the
      final frame. */
  lemma SafeListArrives(us: seq<RegionUpdate>, contents: seq<Screen>, visible: Rect, before: Screen, now: Screen,
                        picture: Screen)
    requires Explains(us, contents, visible, before, now) && Safe(us, visible) && Agree(visible, picture, before)
    ensures Agree(visible, RedrawAll(us, Same(us, now), visible, picture), now)
  {
    SafeSuffices(us, contents, visible, before);
    var final := RedrawAll(us, contents, visible, before);
    RedrawAllAgree(us, Same(us, now), visible, picture, before);
    forall x, y | visible.Contains(x, y)
      ensures RedrawAll(us, Same(us, now), visible, before)(x, y)
              == RedrawAll(us, Same(us, final), visible, before)(x, y)
    {
      RedrawOrigin(us, Same(us, now), visible, before, x, y);
      RedrawOrigin(us, Same(us, final), visible, before, x, y);
      OriginBounds(us, visible, x, y);
    }
  }

  /** A list that covers the visible part with pixel rectangles puts all of it in the snapshot. */
  lemma CoveredSnapshot(frame: Image, us: seq<RegionUpdate>, visible: Rect, x: int, y: int)
    requires RawCover(us, visible) && visible.In(frame.bounds) && visible.Contains(x, y)
    ensures SnapshotOf(frame, us).bounds == frame.bounds
    ensures SnapshotOf(frame, us).at(x, y) == frame.at(x, y)
  {
    DrawPartPoint(NewImage(frame.bounds), us, frame, x, y);
    assert RawAt(us, x, y);
  }

  lemma FullDeliveryShows(frame: Image, d: Delivery, viewWidth: nat, viewHeight: nat, before: Screen, after: Screen)
    requires FrameBounds(frame.bounds) && d.resized && d.snapshot == SnapshotOf(frame, d.changed)
    requires RawCover(d.changed, VisibleBounds(frame.bounds, viewWidth, viewHeight))
    requires Delivered(d, viewWidth, viewHeight, before, after)
    ensures Shows(after, Colour(frame), frame.bounds,
                  ScreenWidth(frame.bounds, viewWidth), ScreenHeight(frame.bounds, viewHeight))
  {
    var bounds := frame.bounds;
    VisibleIsView(bounds, viewWidth, viewHeight);
    var visible := VisibleBounds(bounds, viewWidth, viewHeight);
    CoveredSnapshot(frame, d.changed, visible, 0, 0);
    forall x, y | visible.Contains(x, y)
      ensures Colour(d.snapshot)(x, y) == Colour(frame)(x, y)
    {
      CoveredSnapshot(frame, d.changed, visible, x, y);
    }
  }

  lemma PartialDeliveryShows(shown: Image, frame: Image, d: Delivery, viewWidth: nat, viewHeight: nat,
                             before: Screen, after: Screen)
    requires !d.resized && d.snapshot == SnapshotOf(frame, d.changed)
    requires Leads(shown, d.changed, false, frame, viewWidth, viewHeight)
    requires Safe(d.changed, VisibleBounds(frame.bounds, viewWidth, viewHeight))
    requires Shows(before, Colour(shown), shown.bounds,
                   ScreenWidth(shown.bounds, viewWidth), ScreenHeight(shown.bounds, viewHeight))
    requires Delivered(d, viewWidth, viewHeight, before, after)
    ensures Shows(after, Colour(frame), frame.bounds,
                  ScreenWidth(frame.bounds, viewWidth), ScreenHeight(frame.bounds, viewHeight))
  {
    hide Safe, RedrawAll, SnapshotOf, Explains, PendingOk, Touched;
    var bounds := frame.bounds;
    var w, h := ScreenWidth(bounds, viewWidth), ScreenHeight(bounds, viewHeight);
    var dx, dy := OffsetX(bounds, w), OffsetY(bounds, h);
    VisibleIsView(bounds, viewWidth, viewHeight);
    var visible := VisibleBounds(bounds, viewWidth, viewHeight);
    var picture := Unshift(before, dx, dy);
    var contents :| Explains(d.changed, contents, visible, Colour(shown), Colour(frame));
    forall x, y | visible.Contains(x, y)
      ensures picture(x, y) == Colour(shown)(x, y)
    {
      assert Rect(0, 0, w, h).Contains(x + dx, y + dy);
    }
    SafeListArrives(d.changed, contents, visible, Colour(shown), Colour(frame), picture);
    SnapshotSuffices(frame, d.changed, visible, picture, 0, 0);
    forall x, y | Rect(0, 0, w, h).Contains(x + dx, y + dy)
      ensures Unshift(after, dx, dy)(x, y) == if visible.Contains(x, y) then Colour(frame)(x, y) else Rgb(0, 0, 0)
    {
      if visible.Contains(x, y) {
        SnapshotSuffices(frame, d.changed, visible, picture, x, y);
      } else {
        RedrawOutside(d.changed, Same(d.changed, Colour(d.snapshot)), visible, picture, x, y);
      }
    }
  }

  lemma DeliverKeeps(s: System, screen: Screen, t: System, viewWidth: nat, viewHeight: nat)
    requires Inv(s, viewWidth, viewHeight) && Next(s, DeliverEvent(screen), t, viewWidth, viewHeight)
    ensures Inv(t, viewWidth, viewHeight)
  {
    var d := s.flight.value;
    VisibleIsView(s.taken.bounds, viewWidth, viewHeight);
    DrawPartPoint(NewImage(s.taken.bounds), d.changed, s.taken, 0, 0);
    hide Delivered, Shows, Safe, Leads, QueueInv;
    LeadsFacts(s.shown, d.changed, d.resized, s.taken, viewWidth, viewHeight);
    if d.resized {
      FullDeliveryShows(s.taken, d, viewWidth, viewHeight, s.screen, screen);
    } else if t.synced {
      PartialDeliveryShows(s.shown, s.taken, d, viewWidth, viewHeight, s.screen, screen);
    }
    QueueInvFrame(s, t, viewWidth, viewHeight);
  }

  lemma LeadsFacts(before: Image, us: seq<RegionUpdate>, resized: bool, now: Image, viewWidth: nat, viewHeight: nat)
    requires Leads(before, us, resized, now, viewWidth, viewHeight)
    ensures FrameBounds(now.bounds)
    ensures resized ==> RawCover(us, VisibleBounds(now.bounds, viewWidth, viewHeight))
  {
  }

  lemma QueueInvFrame(s: System, t: System, viewWidth: nat, viewHeight: nat)
    requires QueueInv(s, viewWidth, viewHeight) && t.queue == s.queue && t.remote == s.remote && t.taken == s.taken
    requires t.flight.None? || t.flight == s.flight
    ensures QueueInv(t, viewWidth, viewHeight)
  {
  }

  lemma NextKeeps(s: System, e: Event, t: System, viewWidth: nat, viewHeight: nat)
    requires Inv(s, viewWidth, viewHeight) && Next(s, e, t, viewWidth, viewHeight)
    ensures Inv(t, viewWidth, viewHeight)
  {
    match e
    case UpdateEvent(arrivals) => UpdateKeeps(s, arrivals, t, viewWidth, viewHeight);
    case ScaledEvent(_, _, _) => ScaledKeeps(s, e, t);
    case FullFrameEvent => FullFrameKeeps(s, t, viewWidth, viewHeight);
    case TakeEvent => TakeKeeps(s, t, viewWidth, viewHeight);
    case DeliverEvent(screen) => DeliverKeeps(s, screen, t, viewWidth, viewHeight);
  }

  lemma {:induction false} RunKeeps(s: System, events: seq<Event>, t: System, viewWidth: nat, viewHeight: nat)
    requires Inv(s, viewWidth, viewHeight) && Reaches(s, events, t, viewWidth, viewHeight)
    ensures Inv(t, viewWidth, viewHeight)
    decreases |events|
  {
    hide Inv, Next;
    if events != [] {
      var m :| Next(s, events[0], m, viewWidth, viewHeight) && Reaches(m, events[1..], t, viewWidth, viewHeight);
      NextKeeps(s, events[0], m, viewWidth, viewHeight);
      RunKeeps(m, events[1..], t, viewWidth, viewHeight);
    }
  }

  /** After any run, once nothing is pending or under way, a synced screen shows the visible part of
      the remote framebuffer itself. */
  lemma QuietScreenShowsRemote(s: System, events: seq<Event>, t: System, viewWidth: nat, viewHeight: nat)
    requires Initial(s) && Reaches(s, events, t, viewWidth, viewHeight)
    requires t.synced && t.flight.None? && t.queue.pending == [] && t.queue.latest.Some?
    ensures Shows(t.screen, Colour(t.remote), t.remote.bounds,
                  ScreenWidth(t.remote.bounds, viewWidth), ScreenHeight(t.remote.bounds, viewHeight))
  {
    RunKeeps(s, events, t, viewWidth, viewHeight);
    QuietShows(t, viewWidth, viewHeight);
  }

  lemma QuietShows(t: System, viewWidth: nat, viewHeight: nat)
    requires Inv(t, viewWidth, viewHeight)
    requires t.synced && t.flight.None? && t.queue.pending == [] && t.queue.latest.Some?
    ensures Shows(t.screen, Colour(t.remote), t.remote.bounds,
                  ScreenWidth(t.remote.bounds, viewWidth), ScreenHeight(t.remote.bounds, viewHeight))
  {
    var latest := t.queue.latest.value;
    var bounds := latest.bounds;
    VisibleIsView(bounds, viewWidth, viewHeight);
    var visible := VisibleBounds(bounds, viewWidth, viewHeight);
    assert visible.Contains(0, 0);
    assert !t.queue.resized;
    var contents :| Explains([], contents, visible, Colour(t.taken), Colour(latest));
    assert Agree(visible, Colour(t.taken), Colour(t.remote));
  }

  /** On every run the pending rectangles lie in the frame, at most 127 of them, and cover every visible
      point where the latest frame differs from the one last taken; after a resize or a full-frame
      request, pixel rectangles cover all that is visible. */
  lemma CoverageOnEveryRun(s: System, events: seq<Event>, t: System, viewWidth: nat, viewHeight: nat, x: int, y: int)
    requires Initial(s) && Reaches(s, events, t, viewWidth, viewHeight) && t.queue.latest.Some?
    ensures var latest := t.queue.latest.value;
      var visible := VisibleBounds(latest.bounds, viewWidth, viewHeight);
      && PendingOk(t.queue.pending, latest.bounds)
      && (t.queue.resized ==> RawCover(t.queue.pending, visible))
      && (visible.Contains(x, y)
          && (t.taken.bounds != latest.bounds || Colour(latest)(x, y) != Colour(t.taken)(x, y)) ==>
            Touched(t.queue.pending, x, y))
  {
    RunKeeps(s, events, t, viewWidth, viewHeight);
    var latest := t.queue.latest.value;
    if VisibleBounds(latest.bounds, viewWidth, viewHeight).Contains(x, y)
       && (t.taken.bounds != latest.bounds || Colour(latest)(x, y) != Colour(t.taken)(x, y)) {
      PendingCovers(t, viewWidth, viewHeight, x, y);
    }
  }

  /** Deliveries without copies never lose the screen: only an unsafe list can. */
  lemma CopyFreeStaysSynced(s: System, screen: Screen, t: System, viewWidth: nat, viewHeight: nat)
    requires Next(s, DeliverEvent(screen), t, viewWidth, viewHeight) && s.synced
    requires forall u :: u in s.flight.value.changed ==> !u.copy
    ensures t.synced
  {
    CopyFreeSafe(s.flight.value.changed, VisibleBounds(s.flight.value.snapshot.bounds, viewWidth, viewHeight));
  }

  /** The first delivery of a session is a full redraw, as the callback that draws it has it. */
  lemma FirstDeliveryResized(s: System, events: seq<Event>, t: System, viewWidth: nat, viewHeight: nat)
    requires Initial(s) && Reaches(s, events, t, viewWidth, viewHeight) && t.flight.Some? && t.first
    ensures t.flight.value.resized
  {
    RunKeeps(s, events, t, viewWidth, viewHeight);
  }

  // ---------- scaled sessions ----------

  ghost predicate CopyFree(us: seq<RegionUpdate>) {
    forall u :: u in us ==> !u.copy
  }

  /** In a scaled session no copy is ever pending, so that every delivery keeps the screen. */
  ghost predicate ScaledInv(s: System) {
    CopyFree(s.queue.pending) && (s.flight.Some? ==> CopyFree(s.flight.value.changed)) && (s.synced || s.first)
  }

  lemma {:induction false} MergeRunCopyFree(us: seq<RegionUpdate>, rect: Rect, bounds: Rect)
    requires CopyFree(us)
    ensures CopyFree(MergeRun(us, rect, bounds).0)
    decreases |us|
  {
    hide Nearby;
    if us != [] {
      var u, init := us[|us| - 1], us[..|us| - 1];
      assert u in us;
      MergeRunCopyFree(init, if Nearby(u, rect, bounds) then rect.Union(u.rect) else rect, bounds);
    }
  }

  lemma {:induction false} AppendAllCopyFree(pending: seq<RegionUpdate>, us: seq<RegionUpdate>, bounds: Rect)
    requires CopyFree(pending) && CopyFree(us)
    ensures CopyFree(AppendAll(pending, us, bounds))
    decreases |us|
  {
    hide MergeRun;
    if us != [] {
      var init, u := us[..|us| - 1], us[|us| - 1];
      assert u in us;
      AppendAllCopyFree(pending, init, bounds);
      MergeRunCopyFree(AppendAll(pending, init, bounds), u.rect.Intersect(bounds), bounds);
    }
  }

  lemma ScaledNext(s: System, e: Event, t: System)
    requires Inv(s, 0, 0) && ScaledInv(s) && !e.UpdateEvent? && Next(s, e, t, 0, 0)
    ensures ScaledInv(t)
  {
    hide QueueInv, FlightInv, ScreenInv, Delivered, Safe, ScaledOk, DrawAll, AppendAll, SnapshotOf;
    match e
    case ScaledEvent(frame, rects, full) =>
      AppendAllCopyFree(s.queue.pending, RawUpdates(rects), frame.bounds);
      AppendAllCopyFree([], [WholeFrame(frame.bounds)], frame.bounds);
    case DeliverEvent(_) =>
      var d := s.flight.value;
      CopyFreeSafe(d.changed, VisibleBounds(d.snapshot.bounds, 0, 0));
    case FullFrameEvent =>
    case TakeEvent =>
  }

  lemma {:induction false} ScaledRunKeeps(s: System, events: seq<Event>, t: System)
    requires Inv(s, 0, 0) && ScaledInv(s) && Reaches(s, events, t, 0, 0)
    requires forall e :: e in events ==> !e.UpdateEvent?
    ensures Inv(t, 0, 0) && ScaledInv(t)
    decreases |events|
  {
    hide Inv, ScaledInv, Next;
    if events != [] {
      var m :| Next(s, events[0], m, 0, 0) && Reaches(m, events[1..], t, 0, 0);
      NextKeeps(s, events[0], m, 0, 0);
      ScaledNext(s, events[0], m);
      ScaledRunKeeps(m, events[1..], t);
    }
  }

  lemma NothingCovers(visible: Rect)
    requires !visible.Empty()
    ensures !RawCover([], visible)
  {
    assert visible.Contains(visible.minX, visible.minY) && !RawAt([], visible.minX, visible.minY);
  }

  /** After any run of a scaled session, once nothing is pending or under way, the screen shows the scaled
      image, with no side condition. */
  lemma QuietScreenShowsScaled(s: System, events: seq<Event>, t: System)
    requires Initial(s) && Reaches(s, events, t, 0, 0) && forall e :: e in events ==> !e.UpdateEvent?
    requires t.flight.None? && t.queue.pending == [] && t.queue.latest.Some?
    ensures Shows(t.screen, Colour(t.remote), t.remote.bounds, t.remote.bounds.Dx(), t.remote.bounds.Dy())
  {
    ScaledRunKeeps(s, events, t);
    var bounds := t.queue.latest.value.bounds;
    VisibleIsView(bounds, 0, 0);
    NothingCovers(VisibleBounds(bounds, 0, 0));
    QuietScreenShowsRemote(s, events, t, 0, 0);
  }
}
