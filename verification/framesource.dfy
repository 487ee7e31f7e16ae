/** readFramebufferUpdate of internal/vnc/protocol.go on decoded rectangles: the connection's own
    framebuffer, and the list of changes it reports. */
module FrameSource {
  import opened Geometry
  import opened Operations
  import opened Regions
  import opened Coalescer

  const MAX_DIMENSION := 8192

  /** One rectangle of a FramebufferUpdate message (RFC 6143 section 7.6.1). */
  datatype Arrival =
    | Raw(rect: Rect, pixels: Screen)           // section 7.7.1
    | CopyRect(rect: Rect, source: Point)       // section 7.7.2
    | DesktopSize(width: int, height: int)      // section 7.8.2
    | Cursor                                    // cursor shapes and positions: skipped

  datatype Reading = Reading(frame: Image, changed: seq<RegionUpdate>, resized: bool)

  /** The part of the framebuffer the session asked for; a view size of 0 asks for all. */
  function VisibleBounds(bounds: Rect, viewWidth: nat, viewHeight: nat): Rect {
    Rect(0, 0, if viewWidth > 0 then Min(bounds.Dx(), viewWidth) else bounds.Dx(),
         if viewHeight > 0 then Min(bounds.Dy(), viewHeight) else bounds.Dy())
  }

  function AppendVisible(updates: seq<RegionUpdate>, changed: RegionUpdate, visible: Rect): seq<RegionUpdate> {
    var clipped := changed.rect.Intersect(visible);
    if clipped.Empty() then updates
    else updates + [RegionUpdate(clipped, changed.source, changed.copy && clipped == changed.rect)]
  }

  function PaintRaw(frame: Image, rect: Rect, pixels: Screen): Image {
    Image(frame.bounds, (x: int, y: int) =>
      if rect.Contains(x, y) then Rgba(pixels(x, y).r, pixels(x, y).g, pixels(x, y).b, 255) else frame.at(x, y))
  }

  /** Source and destination may overlap: the source is read before anything is written. */
  function PaintCopy(frame: Image, rect: Rect, source: Point): Image {
    Image(frame.bounds, (x: int, y: int) =>
      if rect.Contains(x, y) then frame.at(x - rect.minX + source.x, y - rect.minY + source.y) else frame.at(x, y))
  }

  /** One rectangle read; None when the server's rectangle is refused. */
  function ReadOne(r: Reading, a: Arrival, viewWidth: nat, viewHeight: nat): Option<Reading> {
    match a
    case Raw(rect, pixels) =>
      if !rect.In(r.frame.bounds) || rect.Empty() then None
      else
        var frame := PaintRaw(r.frame, rect, pixels);
        Some(Reading(frame, AppendVisible(r.changed, RegionUpdate(rect, Point(0, 0), false),
                                          VisibleBounds(frame.bounds, viewWidth, viewHeight)), r.resized))
    case CopyRect(rect, source) =>
      if !rect.In(r.frame.bounds) then None
      else if !SourceRect(RegionUpdate(rect, source, true)).In(r.frame.bounds) then None
      else
        var frame := PaintCopy(r.frame, rect, source);
        Some(Reading(frame, AppendVisible(r.changed, RegionUpdate(rect, source, true),
                                          VisibleBounds(frame.bounds, viewWidth, viewHeight)), r.resized))
    case DesktopSize(w, h) =>
      if w < 1 || h < 1 || w > MAX_DIMENSION || h > MAX_DIMENSION then None
      else
        var frame := NewImage(Rect(0, 0, w, h));
        Some(Reading(frame, [WholeFrame(VisibleBounds(frame.bounds, viewWidth, viewHeight))], true))
    case Cursor => Some(r)
  }

  function ReadAll(r: Reading, arrivals: seq<Arrival>, viewWidth: nat, viewHeight: nat): Option<Reading> {
    if arrivals == [] then Some(r)
    else
      match ReadAll(r, arrivals[..|arrivals| - 1], viewWidth, viewHeight)
      case None => None
      case Some(r1) => ReadOne(r1, arrivals[|arrivals| - 1], viewWidth, viewHeight)
  }

  class Connection {
    var frame: Image
    const viewWidth: nat
    const viewHeight: nat

    constructor (width: nat, height: nat, viewWidth: nat, viewHeight: nat)
      ensures frame == NewImage(Rect(0, 0, width, height))
      ensures this.viewWidth == viewWidth && this.viewHeight == viewHeight
    {
      frame := NewImage(Rect(0, 0, width, height));
      this.viewWidth, this.viewHeight := viewWidth, viewHeight;
    }

    /** Reads one message; on success reports what onFrame is to be called with. */
    method ReadFramebufferUpdate(arrivals: seq<Arrival>) returns (r: Option<Reading>)
      modifies this
      ensures r == ReadAll(Reading(old(frame), [], false), arrivals, viewWidth, viewHeight)
      ensures r.Some? ==> r.value.frame == frame
    {
      var changed: seq<RegionUpdate> := [];
      var resized := false;
      var i := 0;
      while i < |arrivals|
        invariant 0 <= i <= |arrivals|
        invariant ReadAll(Reading(old(frame), [], false), arrivals[..i], viewWidth, viewHeight)
                  == Some(Reading(frame, changed, resized))
      {
        assert arrivals[..i + 1][..i] == arrivals[..i];
        var next := ReadOne(Reading(frame, changed, resized), arrivals[i], viewWidth, viewHeight);
        if next.None? {
          RefusedStaysRefused(Reading(old(frame), [], false), arrivals, i + 1, viewWidth, viewHeight);
          return None;
        }
        frame, changed, resized := next.value.frame, next.value.changed, next.value.resized;
        i := i + 1;
      }
      assert arrivals[..i] == arrivals;
      return Some(Reading(frame, changed, resized));
    }
  }

  lemma {:induction false} RefusedStaysRefused(r: Reading, arrivals: seq<Arrival>, k: nat,
                                               viewWidth: nat, viewHeight: nat)
    requires k <= |arrivals| && ReadAll(r, arrivals[..k], viewWidth, viewHeight).None?
    ensures ReadAll(r, arrivals, viewWidth, viewHeight).None?
    decreases |arrivals|
  {
    if k < |arrivals| {
      assert arrivals[..|arrivals| - 1][..k] == arrivals[..k];
      RefusedStaysRefused(r, arrivals[..|arrivals| - 1], k, viewWidth, viewHeight);
    } else {
      assert arrivals[..k] == arrivals;
    }
  }

  predicate IsResize(a: Arrival) { a.DesktopSize? }

  /** After a message the framebuffer has the size of its last resize, width by height, and keeps its size
      without one; a message is refused if a resize in it is not between 1 and 8192 both ways. */
  lemma {:induction false} LastResizeCounts(r: Reading, arrivals: seq<Arrival>, k: nat, viewWidth: nat, viewHeight: nat)
    requires k < |arrivals| && IsResize(arrivals[k]) && forall i :: k < i < |arrivals| ==> !IsResize(arrivals[i])
    ensures var s := ReadAll(r, arrivals, viewWidth, viewHeight);
      && (s.Some? ==> s.value.frame.bounds == Rect(0, 0, arrivals[k].width, arrivals[k].height) && s.value.resized)
      && (!(1 <= arrivals[k].width <= 8192 && 1 <= arrivals[k].height <= 8192) ==> s.None?)
    decreases |arrivals|
  {
    hide AppendVisible, PaintRaw, PaintCopy;
    var n := |arrivals| - 1;
    if k < n {
      LastResizeCounts(r, arrivals[..n], k, viewWidth, viewHeight);
      KeepsSize(arrivals[n], viewWidth, viewHeight);
    }
  }

  /** A resize is refused exactly when it is not between 1 and 8192 both ways. */
  lemma ResizeAccepted(r: Reading, width: int, height: int, viewWidth: nat, viewHeight: nat)
    ensures ReadOne(r, DesktopSize(width, height), viewWidth, viewHeight).Some?
            <==> 1 <= width <= 8192 && 1 <= height <= 8192
  {
  }

  /** Pixels are refused exactly when their rectangle is empty or leaves the framebuffer; a copy when its
      rectangle, or the one it reads, is not empty and leaves it. */
  lemma RectanglesAccepted(r: Reading, rect: Rect, pixels: Screen, source: Point, viewWidth: nat, viewHeight: nat)
    ensures ReadOne(r, Raw(rect, pixels), viewWidth, viewHeight).Some? <==>
            var b := r.frame.bounds;
            && rect.minX < rect.maxX && rect.minY < rect.maxY
            && b.minX <= rect.minX && rect.maxX <= b.maxX && b.minY <= rect.minY && rect.maxY <= b.maxY
    ensures ReadOne(r, CopyRect(rect, source), viewWidth, viewHeight).Some? <==>
            var b := r.frame.bounds;
            || rect.maxX <= rect.minX || rect.maxY <= rect.minY
            || (&& b.minX <= rect.minX && rect.maxX <= b.maxX && b.minY <= rect.minY && rect.maxY <= b.maxY
                && b.minX <= source.x && source.x + rect.maxX - rect.minX <= b.maxX
                && b.minY <= source.y && source.y + rect.maxY - rect.minY <= b.maxY)
  {
  }

  /** Anything but a resize keeps the size. */
  lemma KeepsSize(a: Arrival, viewWidth: nat, viewHeight: nat)
    ensures !IsResize(a) ==> forall r: Reading :: ReadOne(r, a, viewWidth, viewHeight).Some? ==>
              var s := ReadOne(r, a, viewWidth, viewHeight).value;
              s.frame.bounds == r.frame.bounds && s.resized == r.resized
  {
  }

  lemma {:induction false} SizeKept(r: Reading, arrivals: seq<Arrival>, viewWidth: nat, viewHeight: nat)
    requires forall a :: a in arrivals ==> !IsResize(a)
    ensures var s := ReadAll(r, arrivals, viewWidth, viewHeight);
      s.Some? ==> s.value.frame.bounds == r.frame.bounds && s.value.resized == r.resized
    decreases |arrivals|
  {
    hide ReadOne;
    if arrivals != [] {
      var n := |arrivals| - 1;
      assert arrivals[n] in arrivals;
      SizeKept(r, arrivals[..n], viewWidth, viewHeight);
      KeepsSize(arrivals[n], viewWidth, viewHeight);
    }
  }
}
