/** ShowImage and ShowImageRegions of internal/display/render.go: the operations they send, and what
    these do to the terminal's screen. */
module Regions {
  import opened Geometry
  import opened Operations
  import opened Tiling
  import opened Encoder

  /** An ordered framebuffer change: new pixels for a rectangle, or a copy inside the framebuffer. */
  datatype RegionUpdate = RegionUpdate(rect: Rect, source: Point, copy: bool)

  const BLACK: Rgba := Rgba(0, 0, 0, 255)

  /** The part of an image a screen can show: its top left corner. */
  function Visible(bounds: Rect, screenWidth: int, screenHeight: int): Rect {
    Rect(bounds.minX, bounds.minY,
         bounds.minX + Min(bounds.Dx(), screenWidth), bounds.minY + Min(bounds.Dy(), screenHeight))
  }

  /** Where the visible part's points go on the screen: centred. */
  function OffsetX(bounds: Rect, screenWidth: int): int {
    (screenWidth - Min(bounds.Dx(), screenWidth)) / 2 - bounds.minX
  }

  function OffsetY(bounds: Rect, screenHeight: int): int {
    (screenHeight - Min(bounds.Dy(), screenHeight)) / 2 - bounds.minY
  }

  function SourceRect(u: RegionUpdate): Rect {
    Rect(u.source.x, u.source.y, u.source.x + u.rect.Dx(), u.source.y + u.rect.Dy())
  }

  /** The update is drawn by the terminal's own copy: source and destination are wholly visible. */
  predicate IsNative(u: RegionUpdate, visible: Rect) {
    u.copy && u.rect.Intersect(visible) == u.rect && SourceRect(u).In(visible)
  }

  /** One update on a picture in frame coordinates, drawing pixels from `pixels` unless it is native. */
  function Redraw(u: RegionUpdate, pixels: Screen, visible: Rect, s: Screen): Screen {
    (x: int, y: int) =>
      if !u.rect.Intersect(visible).Contains(x, y) then s(x, y)
      else if IsNative(u, visible) then s(x - u.rect.minX + u.source.x, y - u.rect.minY + u.source.y)
      else pixels(x, y)
  }

  /** The updates one after the other; update i draws from contents[i]. */
  function RedrawAll(us: seq<RegionUpdate>, contents: seq<Screen>, visible: Rect, s: Screen): Screen
    requires |contents| == |us|
  {
    if us == [] then s
    else
      var n := |us| - 1;
      Redraw(us[n], contents[n], visible, RedrawAll(us[..n], contents[..n], visible, s))
  }

  function Colour(img: Image): Screen { (x: int, y: int) => Opaque(img.at(x, y)) }

  /** The same contents for every update. */
  function Same(us: seq<RegionUpdate>, pixels: Screen): (r: seq<Screen>)
    ensures |r| == |us|
  {
    seq(|us|, _ => pixels)
  }

  /** The screen seen in frame coordinates. */
  function Unshift(s: Screen, dx: int, dy: int): Screen {
    (x: int, y: int) => s(x + dx, y + dy)
  }

  /** The operations do to every screen what the updates do to the picture it shows. */
  ghost predicate Redraws(ops: seq<Operation>, us: seq<RegionUpdate>, img: Image, visible: Rect, dx: int, dy: int) {
    forall s: Screen, x, y ::
      Unshift(ApplyAll(ops, s), dx, dy)(x, y)
      == RedrawAll(us, Same(us, Colour(img)), visible, Unshift(s, dx, dy))(x, y)
  }

  lemma SameInit(us: seq<RegionUpdate>, pixels: Screen)
    requires us != []
    ensures Same(us, pixels)[..|us| - 1] == Same(us[..|us| - 1], pixels)
  {
  }

  /** Operations for one more update extend the correspondence, if on every screen they do what the
      update does. */
  lemma RedrawsStep(ops: seq<Operation>, us: seq<RegionUpdate>, more: seq<Operation>, u: RegionUpdate, img: Image,
                    visible: Rect, dx: int, dy: int)
    requires Redraws(ops, us, img, visible, dx, dy)
    requires forall s: Screen, x, y ::
               Unshift(ApplyAll(more, s), dx, dy)(x, y) == Redraw(u, Colour(img), visible, Unshift(s, dx, dy))(x, y)
    ensures Redraws(ops + more, us + [u], img, visible, dx, dy)
  {
    var pixels := Colour(img);
    forall s: Screen, x, y
      ensures Unshift(ApplyAll(ops + more, s), dx, dy)(x, y)
              == RedrawAll(us + [u], Same(us + [u], pixels), visible, Unshift(s, dx, dy))(x, y)
    {
      ApplyAllConcat(ops, more, s);
      SameInit(us + [u], pixels);
      assert (us + [u])[..|us|] == us;
      var mid := ApplyAll(ops, s);
      var picture := RedrawAll(us, Same(us, pixels), visible, Unshift(s, dx, dy));
      assert Unshift(mid, dx, dy)(x, y) == picture(x, y);
      assert Unshift(mid, dx, dy)(x - u.rect.minX + u.source.x, y - u.rect.minY + u.source.y)
             == picture(x - u.rect.minX + u.source.x, y - u.rect.minY + u.source.y);
    }
  }

  lemma UnseenUpdate(u: RegionUpdate, img: Image, visible: Rect, dx: int, dy: int)
    requires u.rect.Intersect(visible).Empty()
    ensures forall s: Screen, x, y ::
              Unshift(ApplyAll([], s), dx, dy)(x, y) == Redraw(u, Colour(img), visible, Unshift(s, dx, dy))(x, y)
  {
  }

  lemma PaintedUpdate(u: RegionUpdate, img: Image, visible: Rect, dx: int, dy: int, more: seq<Operation>)
    requires !IsNative(u, visible)
    requires Paints(more, u.rect.Intersect(visible).Add(dx, dy), Shifted(img, dx, dy))
    ensures forall s: Screen, x, y ::
              Unshift(ApplyAll(more, s), dx, dy)(x, y) == Redraw(u, Colour(img), visible, Unshift(s, dx, dy))(x, y)
  {
    hide ApplyAll, Paints, IsNative, Colour, Unshift;
    forall s: Screen, x, y
      ensures Unshift(ApplyAll(more, s), dx, dy)(x, y) == Redraw(u, Colour(img), visible, Unshift(s, dx, dy))(x, y)
    {
      PaintsShowsAt(more, u.rect.Intersect(visible), img, dx, dy, s, x, y);
    }
  }

  /** A copy operation, point by point. */
  lemma CopyApplies(op: Operation, s: Screen, x: int, y: int)
    requires IsCopy(op.bytes)
    ensures var t := Target(op.bytes);
      Apply(op, s)(x, y) == if t.Contains(x, y) then s(x - t.minX + U16(op.bytes, 12), y - t.minY + U16(op.bytes, 14))
                            else s(x, y)
  {
  }

  lemma CopiedPoint(u: RegionUpdate, pixels: Screen, visible: Rect, dx: int, dy: int, op: Operation, s: Screen,
                    x: int, y: int)
    requires IsNative(u, visible) && IsCopy(op.bytes)
    requires Target(op.bytes) == u.rect.Add(dx, dy)
    requires U16(op.bytes, 12) == u.source.x + dx && U16(op.bytes, 14) == u.source.y + dy
    ensures Apply(op, s)(x + dx, y + dy) == Redraw(u, pixels, visible, Unshift(s, dx, dy))(x, y)
  {
    hide IsCopy, Target, U16, Apply;
    CopyApplies(op, s, x + dx, y + dy);
    var r := u.rect;
    assert r.Intersect(visible) == r;
    var fromX, fromY := x - r.minX + u.source.x, y - r.minY + u.source.y;
    assert Unshift(s, dx, dy)(fromX, fromY) == s(fromX + dx, fromY + dy);
    assert (x + dx) - (r.minX + dx) + (u.source.x + dx) == fromX + dx;
    assert (y + dy) - (r.minY + dy) + (u.source.y + dy) == fromY + dy;
  }

  lemma CopiedUpdate(u: RegionUpdate, img: Image, visible: Rect, dx: int, dy: int, op: Operation)
    requires IsNative(u, visible) && IsCopy(op.bytes)
    requires Target(op.bytes) == u.rect.Add(dx, dy)
    requires U16(op.bytes, 12) == u.source.x + dx && U16(op.bytes, 14) == u.source.y + dy
    ensures forall s: Screen, x, y ::
              Unshift(ApplyAll([op], s), dx, dy)(x, y) == Redraw(u, Colour(img), visible, Unshift(s, dx, dy))(x, y)
  {
    hide Apply, ApplyAll, IsCopy, Target, U16, Redraw, IsNative;
    forall s: Screen, x, y
      ensures Unshift(ApplyAll([op], s), dx, dy)(x, y) == Redraw(u, Colour(img), visible, Unshift(s, dx, dy))(x, y)
    {
      SingleOperation(op, s);
      CopiedPoint(u, Colour(img), visible, dx, dy, op, s, x, y);
    }
  }

  predicate ScreenOk(screenWidth: int, screenHeight: int) {
    1 <= screenWidth < 0x1_0000 && 1 <= screenHeight < 0x1_0000
  }

  /** Visible rectangles land inside the screen. */
  lemma OnScreen(bounds: Rect, screenWidth: int, screenHeight: int, r: Rect)
    requires ScreenOk(screenWidth, screenHeight) && !bounds.Empty()
    requires !r.Empty() && r.In(Visible(bounds, screenWidth, screenHeight))
    ensures Addressable(r.minX + OffsetX(bounds, screenWidth), r.minY + OffsetY(bounds, screenHeight), r.Dx(), r.Dy())
    ensures r.maxX + OffsetX(bounds, screenWidth) <= screenWidth
    ensures r.maxY + OffsetY(bounds, screenHeight) <= screenHeight
  {
  }

  /** The operations of ShowImageRegions. For a screen the 16-bit geometry can address, the update list is
      drawn exactly. */
  method RegionOperations(screenWidth: int, screenHeight: int, img: Image, updates: seq<RegionUpdate>)
    returns (r: Result<seq<Operation>>)
    requires screenWidth < 0x1_0000 && screenHeight < 0x1_0000
    ensures r.Ok? <==> 1 <= screenWidth && 1 <= screenHeight && !img.bounds.Empty()
    ensures r.Ok? ==>
              && (forall op :: op in r.value ==> Transmittable(op))
              && Redraws(r.value, updates, img, Visible(img.bounds, screenWidth, screenHeight),
                         OffsetX(img.bounds, screenWidth), OffsetY(img.bounds, screenHeight))
  {
    hide Redraws, Paints;
    if screenWidth < 1 || screenHeight < 1 {
      return Err("invalid screen size");
    }
    if img.bounds.Empty() {
      return Err("image is empty");
    }
    var visible := Visible(img.bounds, screenWidth, screenHeight);
    var dx, dy := OffsetX(img.bounds, screenWidth), OffsetY(img.bounds, screenHeight);
    var ops: seq<Operation> := [];
    NothingRedraws(img, visible, dx, dy);
    var i := 0;
    while i < |updates|
      invariant 0 <= i <= |updates|
      invariant forall op :: op in ops ==> Transmittable(op)
      invariant Redraws(ops, updates[..i], img, visible, dx, dy)
    {
      var more := OneRegion(screenWidth, screenHeight, img, visible, dx, dy, updates[i]);
      RedrawsStep(ops, updates[..i], more, updates[i], img, visible, dx, dy);
      assert updates[..i + 1] == updates[..i] + [updates[i]];
      ops := ops + more;
      i := i + 1;
    }
    assert updates[..i] == updates;
    return Ok(ops);
  }

  lemma NothingRedraws(img: Image, visible: Rect, dx: int, dy: int)
    ensures Redraws([], [], img, visible, dx, dy)
  {
  }

  /** The copy operation of a native update. */
  lemma NativeUpdate(screenWidth: int, screenHeight: int, img: Image, u: RegionUpdate, op: Operation)
    requires ScreenOk(screenWidth, screenHeight) && !img.bounds.Empty() && !u.rect.Empty()
    requires IsNative(u, Visible(img.bounds, screenWidth, screenHeight))
    requires var dx, dy := OffsetX(img.bounds, screenWidth), OffsetY(img.bounds, screenHeight);
      && |op.bytes| == 16 && op.increment && IsCopy(op.bytes)
      && (Fits(u.rect.minX + dx, u.rect.minY + dy, u.rect.Dx(), u.rect.Dy()) ==> Target(op.bytes) == u.rect.Add(dx, dy))
      && U16(op.bytes, 12) == Uint16(u.source.x + dx) && U16(op.bytes, 14) == Uint16(u.source.y + dy)
    ensures Transmittable(op)
    ensures var dx, dy := OffsetX(img.bounds, screenWidth), OffsetY(img.bounds, screenHeight);
      forall s: Screen, x, y :: Unshift(ApplyAll([op], s), dx, dy)(x, y)
        == Redraw(u, Colour(img), Visible(img.bounds, screenWidth, screenHeight), Unshift(s, dx, dy))(x, y)
  {
    hide Redraw, Unshift, ApplyAll, OffsetX, OffsetY, Colour;
    var visible := Visible(img.bounds, screenWidth, screenHeight);
    OnScreen(img.bounds, screenWidth, screenHeight, u.rect);
    OnScreen(img.bounds, screenWidth, screenHeight, SourceRect(u));
    CopiedUpdate(u, img, visible, OffsetX(img.bounds, screenWidth), OffsetY(img.bounds, screenHeight), op);
  }

  /** The loop body of ShowImageRegions: nothing, a native copy, or encoded pixels. */
  method OneRegion(screenWidth: int, screenHeight: int, img: Image, visible: Rect, dx: int, dy: int, u: RegionUpdate)
    returns (more: seq<Operation>)
    requires ScreenOk(screenWidth, screenHeight) && !img.bounds.Empty()
    requires visible == Visible(img.bounds, screenWidth, screenHeight)
    requires dx == OffsetX(img.bounds, screenWidth) && dy == OffsetY(img.bounds, screenHeight)
    ensures forall op :: op in more ==> Transmittable(op)
    ensures forall s: Screen, x, y ::
              Unshift(ApplyAll(more, s), dx, dy)(x, y) == Redraw(u, Colour(img), visible, Unshift(s, dx, dy))(x, y)
  {
    hide Redraw, Unshift, ApplyAll, Strokes, Paints, Shifted, OffsetX, OffsetY, Colour;
    var changed := u.rect.Intersect(visible);
    if changed.Empty() {
      UnseenUpdate(u, img, visible, dx, dy);
      return [];
    }
    OnScreen(img.bounds, screenWidth, screenHeight, changed);
    if u.copy && changed == u.rect {
      var sourceRect := SourceRect(u);
      if sourceRect.In(visible) {
        var op := Copy(changed.minX + dx, changed.minY + dy, changed.Dx(), changed.Dy(),
                       sourceRect.minX + dx, sourceRect.minY + dy);
        NativeUpdate(screenWidth, screenHeight, img, u, op);
        return [op];
      }
    }
    var r := AppendEncodedBitmapOperations([], img, changed, Point(changed.minX + dx, changed.minY + dy));
    if r.Err? {
      assert false;
    }
    assert r.value[0..] == r.value;
    PaintedUpdate(u, img, visible, dx, dy, r.value);
    PaintsTransmittable(r.value, changed.Add(dx, dy), Shifted(img, dx, dy));
    return r.value;
  }

  /** The screen shows the frame's visible part, centred on black. */
  ghost predicate Shows(s: Screen, frame: Screen, bounds: Rect, screenWidth: int, screenHeight: int) {
    var visible := Visible(bounds, screenWidth, screenHeight);
    var dx, dy := OffsetX(bounds, screenWidth), OffsetY(bounds, screenHeight);
    forall x, y :: Rect(0, 0, screenWidth, screenHeight).Contains(x + dx, y + dy) ==>
      Unshift(s, dx, dy)(x, y) == if visible.Contains(x, y) then frame(x, y) else Rgb(0, 0, 0)
  }

  lemma {:induction false} DrawNothing(ops: seq<Operation>, s: Screen)
    requires forall op :: op in ops ==> DrawsNothing(op)
    ensures forall x, y :: ApplyAll(ops, s)(x, y) == s(x, y)
    decreases |ops|
  {
    if ops != [] {
      DrawNothing(ops[1..], Apply(ops[0], s));
      assert ops[0] in ops;
    }
  }

  method Setup(screenWidth: int, screenHeight: int) returns (bounds: Operation, fill: Operation, cursor: Operation)
    requires ScreenOk(screenWidth, screenHeight)
    ensures DrawsNothing(bounds) && DrawsNothing(cursor)
    ensures PaintsOne(fill, Rect(0, 0, screenWidth, screenHeight), (_, _) => Opaque(BLACK))
    ensures Transmittable(bounds) && Transmittable(fill) && Transmittable(cursor)
  {
    hide DrawsNothing, PaintsOne, SelfDelimiting;
    bounds := Bounds(screenWidth, screenHeight);
    fill := Fill(0, 0, screenWidth, screenHeight, BLACK);
    cursor := InvisibleCursor();
  }

  /** The setup and the picture of ShowImage: the whole frame on black, whatever the screen showed before. */
  method ImageOperations(screenWidth: int, screenHeight: int, img: Image)
    returns (setup: seq<Operation>, r: Result<seq<Operation>>)
    requires screenWidth < 0x1_0000 && screenHeight < 0x1_0000
    ensures r.Ok? <==> 1 <= screenWidth && 1 <= screenHeight && !img.bounds.Empty()
    ensures r.Ok? ==>
              && (forall op :: op in setup + r.value ==> Transmittable(op))
              && forall s: Screen ::
                   Shows(ApplyAll(setup + r.value, s), Colour(img), img.bounds, screenWidth, screenHeight)
  {
    hide Paints, ApplyAll, PaintsOne, DrawsNothing, Transmittable, Shows, Shifted, Colour, OffsetX, OffsetY;
    setup := [];
    if screenWidth < 1 || screenHeight < 1 {
      return setup, Err("invalid screen size");
    }
    if img.bounds.Empty() {
      return setup, Err("image is empty");
    }
    var bounds, fill, cursor := Setup(screenWidth, screenHeight);
    setup := [bounds, fill, cursor];
    var source := Visible(img.bounds, screenWidth, screenHeight);
    var dx, dy := OffsetX(img.bounds, screenWidth), OffsetY(img.bounds, screenHeight);
    OnScreen(img.bounds, screenWidth, screenHeight, source);
    r := AppendEncodedBitmapOperations([], img, source, Point(source.minX + dx, source.minY + dy));
    if r.Err? {
      assert false;
    }
    assert r.value[0..] == r.value;
    PaintsTransmittable(r.value, source.Add(dx, dy), Shifted(img, dx, dy));
    forall s: Screen
      ensures Shows(ApplyAll(setup + r.value, s), Colour(img), img.bounds, screenWidth, screenHeight)
    {
      FullFrameShows(bounds, fill, cursor, r.value, img, screenWidth, screenHeight, s);
    }
  }

  /** The setup operations clear the screen. */
  lemma SetupClears(bounds: Operation, fill: Operation, cursor: Operation, screen: Rect, s: Screen)
    requires DrawsNothing(bounds) && DrawsNothing(cursor)
    requires PaintsOne(fill, screen, (_, _) => Opaque(BLACK))
    ensures forall x, y :: screen.Contains(x, y) ==> ApplyAll([bounds, fill, cursor], s)(x, y) == Opaque(BLACK)
  {
    hide PaintsOne, DrawsNothing, ApplyAll;
    assert [bounds, fill, cursor] == [bounds] + ([fill] + [cursor]);
    ApplyAllConcat([bounds], [fill] + [cursor], s);
    var s1 := ApplyAll([bounds], s);
    ApplyAllConcat([fill], [cursor], s1);
    DrawNothing([cursor], ApplyAll([fill], s1));
    FillClears(fill, screen, s1);
  }

  lemma PaintsShowsAt(ops: seq<Operation>, region: Rect, img: Image, dx: int, dy: int, s: Screen, x: int, y: int)
    requires Paints(ops, region.Add(dx, dy), Shifted(img, dx, dy))
    ensures Unshift(ApplyAll(ops, s), dx, dy)(x, y)
            == if region.Contains(x, y) then Colour(img)(x, y) else Unshift(s, dx, dy)(x, y)
  {
    hide ApplyAll, Paints;
    PaintsShowsPoint(ops, region.Add(dx, dy), Shifted(img, dx, dy), s, x + dx, y + dy);
    assert region.Add(dx, dy).Contains(x + dx, y + dy) <==> region.Contains(x, y);
  }

  lemma FullFrameShows(bounds: Operation, fill: Operation, cursor: Operation, ops: seq<Operation>, img: Image,
                       screenWidth: int, screenHeight: int, s: Screen)
    requires ScreenOk(screenWidth, screenHeight) && DrawsNothing(bounds) && DrawsNothing(cursor)
    requires PaintsOne(fill, Rect(0, 0, screenWidth, screenHeight), (_, _) => Opaque(BLACK))
    requires var dx, dy := OffsetX(img.bounds, screenWidth), OffsetY(img.bounds, screenHeight);
      Paints(ops, Visible(img.bounds, screenWidth, screenHeight).Add(dx, dy), Shifted(img, dx, dy))
    ensures Shows(ApplyAll([bounds, fill, cursor] + ops, s), Colour(img), img.bounds, screenWidth, screenHeight)
  {
    var screen := Rect(0, 0, screenWidth, screenHeight);
    var dx, dy := OffsetX(img.bounds, screenWidth), OffsetY(img.bounds, screenHeight);
    var visible := Visible(img.bounds, screenWidth, screenHeight);
    var cleared := ApplyAll([bounds, fill, cursor], s);
    SetupClears(bounds, fill, cursor, screen, s);
    ApplyAllConcat([bounds, fill, cursor], ops, s);
    hide ApplyAll, Paints, PaintsOne, Visible, OffsetX, OffsetY, DrawsNothing, Colour;
    forall x, y | screen.Contains(x + dx, y + dy)
      ensures Unshift(ApplyAll(ops, cleared), dx, dy)(x, y)
              == if visible.Contains(x, y) then Colour(img)(x, y) else Rgb(0, 0, 0)
    {
      PaintsShowsAt(ops, visible, img, dx, dy, cleared, x, y);
      assert cleared(x + dx, y + dy) == Opaque(BLACK);
    }
  }

  lemma FillClears(fill: Operation, screen: Rect, s: Screen)
    requires PaintsOne(fill, screen, (_, _) => Opaque(BLACK))
    ensures forall x, y :: screen.Contains(x, y) ==> ApplyAll([fill], s)(x, y) == Opaque(BLACK)
  {
  }
}
