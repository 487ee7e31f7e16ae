/** scaleFramebuffer of internal/vnc/scale.go and handleFrame of internal/vnc/session.go: the scaled image and
    the rectangles of it that are enqueued. What the scaler draws is a parameter: colours for the target. */
module ScaledSource {
  import opened Geometry
  import opened Operations
  import opened Regions
  import opened Coalescer
  import opened Scaling
  import opened DisplayDelivery

  /** The colours that scaling a part of an image to a target rectangle gives to the target's points. */
  type Scaler = (Image, Rect, Rect, int, int) -> Rgba

  function DrawScaled(to: Image, target: Rect, scale: Scaler, source: Image, part: Rect): Image {
    Image(to.bounds, (x: int, y: int) =>
      if target.Contains(x, y) then scale(source, part, target, x, y) else to.at(x, y))
  }

  function DrawBlack(to: Image): Image {
    Image(to.bounds, (x: int, y: int) => if to.bounds.Contains(x, y) then BLACK else to.at(x, y))
  }

  /** The rectangles are inside the fit, and together exactly its pixels that show part of one of the
      first n changes. */
  ghost predicate Mapped(rects: seq<Rect>, changed: seq<Rect>, n: nat, source: Rect, fit: Rect)
    requires !source.Empty() && !fit.Empty()
  {
    && (forall m :: m in rects ==> !m.Empty() && m.In(fit))
    && forall x, y :: InSome(rects, x, y) <==> exists k :: 0 <= k < n && ShowsChange(changed, k, source, fit, x, y)
  }

  /** Only pixels in the rectangles were drawn. */
  ghost predicate Confined(before: Image, after: Image, rects: seq<Rect>) {
    after.bounds == before.bounds && forall x, y :: !InSome(rects, x, y) ==> after.at(x, y) == before.at(x, y)
  }

  lemma MappedSkip(rects: seq<Rect>, changed: seq<Rect>, n: nat, source: Rect, fit: Rect)
    requires !source.Empty() && !fit.Empty() && n < |changed|
    requires Mapped(rects, changed, n, source, fit) && changed[n].Intersect(source).Empty()
    ensures Mapped(rects, changed, n + 1, source, fit)
  {
    hide MapRectangle, InSome;
  }

  lemma MappedMore(rects: seq<Rect>, changed: seq<Rect>, n: nat, source: Rect, fit: Rect, target: Rect)
    requires !source.Empty() && !fit.Empty() && n < |changed|
    requires Mapped(rects, changed, n, source, fit) && !changed[n].Intersect(source).Empty()
    requires target == MapRectangle(changed[n].Intersect(source), source, fit)
    ensures Mapped(rects + [target], changed, n + 1, source, fit)
  {
    MapIsNotEmpty(changed[n].Intersect(source), source, fit);
    hide MapRectangle, InSome;
    forall x, y
      ensures InSome(rects + [target], x, y) <==> InSome(rects, x, y) || ShowsChange(changed, n, source, fit, x, y)
    {
      OneMore(rects, target, x, y);
    }
  }

  lemma ConfinedMore(before: Image, after: Image, rects: seq<Rect>, target: Rect, scale: Scaler, source: Image,
                     part: Rect)
    requires Confined(before, after, rects)
    ensures Confined(before, DrawScaled(after, target, scale, source, part), rects + [target])
  {
    hide InSome;
    forall x, y
      ensures InSome(rects + [target], x, y) <==> InSome(rects, x, y) || target.Contains(x, y)
    {
      OneMore(rects, target, x, y);
    }
  }

  lemma NoneMapped(changed: seq<Rect>, source: Rect, fit: Rect, image: Image)
    requires !source.Empty() && !fit.Empty()
    ensures Mapped([], changed, 0, source, fit) && Confined(image, image, [])
  {
  }

  /** The loop over the changes: exactly the fitted pixels that show part of a change are drawn. */
  method ScaleChanges(destination: Image, source: Image, changed: seq<Rect>, fit: Rect, scale: Scaler)
    returns (drawn: Image, mapped: seq<Rect>)
    requires !source.bounds.Empty() && !fit.Empty()
    ensures Mapped(mapped, changed, |changed|, source.bounds, fit) && Confined(destination, drawn, mapped)
  {
    hide MapRectangle, InSome, Mapped, Confined, DrawScaled;
    drawn, mapped := destination, [];
    NoneMapped(changed, source.bounds, fit, destination);
    var i := 0;
    while i < |changed|
      invariant 0 <= i <= |changed|
      invariant Mapped(mapped, changed, i, source.bounds, fit) && Confined(destination, drawn, mapped)
    {
      var rectangle := changed[i].Intersect(source.bounds);
      if rectangle.Empty() {
        MappedSkip(mapped, changed, i, source.bounds, fit);
      } else {
        var target := MapRectangle(rectangle, source.bounds, fit);
        MapIsNotEmpty(rectangle, source.bounds, fit);
        if target.Empty() {
          assert false;
        }
        MappedMore(mapped, changed, i, source.bounds, fit, target);
        ConfinedMore(destination, drawn, mapped, target, scale, source, rectangle);
        drawn := DrawScaled(drawn, target, scale, source, rectangle);
        mapped := mapped + [target];
      }
      i := i + 1;
    }
  }

  /** In full, the scaled image stands on black; otherwise only what shows a change is drawn. */
  method ScaleFramebuffer(destination: Image, source: Image, changed: seq<Rect>, full: bool, scale: Scaler)
    returns (drawn: Image, mapped: seq<Rect>)
    requires !destination.bounds.Empty() && !source.bounds.Empty()
    ensures drawn.bounds == destination.bounds && !FitRectangle(source.bounds, destination.bounds).Empty()
    ensures full ==> mapped == [destination.bounds]
    ensures full ==> forall x, y :: destination.bounds.Contains(x, y) ==>
              var fit := FitRectangle(source.bounds, destination.bounds);
              drawn.at(x, y) == if fit.Contains(x, y) then scale(source, source.bounds, fit, x, y)
                                else Rgba(0, 0, 0, 255)
    ensures !full ==>
              && Mapped(mapped, changed, |changed|, source.bounds, FitRectangle(source.bounds, destination.bounds))
              && Confined(destination, drawn, mapped)
  {
    FitIsInsideCentredAndProportional(source.bounds, destination.bounds);
    hide FitRectangle, Mapped, InSome;
    var fit := FitRectangle(source.bounds, destination.bounds);
    if full {
      drawn := DrawScaled(DrawBlack(destination), fit, scale, source, source.bounds);
      return drawn, [destination.bounds];
    }
    drawn, mapped := ScaleChanges(destination, source, changed, fit, scale);
  }

  lemma OneMore(rects: seq<Rect>, r: Rect, x: int, y: int)
    ensures InSome(rects + [r], x, y) <==> InSome(rects, x, y) || r.Contains(x, y)
  {
    assert (rects + [r])[..|rects|] == rects;
  }

  /** The scaled image of a session, and the size of the framebuffer it was last made from. */
  class ScaledSession {
    const screenWidth: int
    const screenHeight: int
    var scaled: Option<Image>
    var sourceSize: Point

    constructor (screenWidth: int, screenHeight: int)
      requires 1 <= screenWidth <= 8192 && 1 <= screenHeight <= 8192
      ensures this.screenWidth == screenWidth && this.screenHeight == screenHeight && scaled == None && Valid()
    {
      this.screenWidth, this.screenHeight := screenWidth, screenHeight;
      scaled, sourceSize := None, Point(0, 0);
    }

    ghost predicate Valid()
      reads this
    {
      && 1 <= screenWidth <= 8192 && 1 <= screenHeight <= 8192
      && (scaled.Some? ==> scaled.value.bounds == Rect(0, 0, screenWidth, screenHeight))
    }

    /** The step enqueues a change of the scaled image that is confined to the enqueued rectangles. */
    method HandleFrame(session: Session, frame: Image, changed: seq<Rect>, resized: bool, scale: Scaler)
      returns (rects: seq<Rect>, full: bool)
      requires Valid() && !frame.bounds.Empty()
      modifies this, session
      ensures Valid() && scaled.Some? && sourceSize == Point(frame.bounds.Dx(), frame.bounds.Dy())
      ensures full <==> old(scaled).None? || old(sourceSize) != sourceSize || resized
      ensures ScaledOk(if old(scaled).Some? then old(scaled).value else scaled.value, scaled.value, rects, full)
      ensures session.View() == EnqueueSpec(old(session.View()), scaled.value, RawUpdates(rects), full)
    {
      hide InSome, FitRectangle, EnqueueSpec, ShowsChange;
      var size := Point(frame.bounds.Dx(), frame.bounds.Dy());
      full := scaled.None? || sourceSize != size || resized;
      ghost var before := scaled;
      if full {
        scaled := Some(NewImage(Rect(0, 0, screenWidth, screenHeight)));
        sourceSize := size;
      }
      FitIsInsideCentredAndProportional(frame.bounds, scaled.value.bounds);
      var drawn, mapped := ScaleFramebuffer(scaled.value, frame, changed, full, scale);
      scaled := Some(drawn);
      rects := mapped;
      if |mapped| == 0 {
        EnqueueNothing(session.View(), drawn, full);
        return;
      }
      var updates := WholeFrames(mapped);
      session.EnqueueFrame(drawn, updates, full);
    }
  }

  lemma EnqueueNothing(q: Queue, frame: Image, full: bool)
    ensures EnqueueSpec(q, frame, RawUpdates([]), full) == q
  {
  }

  /** The loop that turns rectangles into pixel updates. */
  method WholeFrames(rects: seq<Rect>) returns (updates: seq<RegionUpdate>)
    ensures updates == RawUpdates(rects)
  {
    updates := [];
    var i := 0;
    while i < |rects|
      invariant 0 <= i <= |rects| && updates == RawUpdates(rects[..i])
    {
      updates := updates + [WholeFrame(rects[i])];
      i := i + 1;
    }
    assert rects[..i] == rects;
  }
}
