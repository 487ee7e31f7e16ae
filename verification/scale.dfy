/** The geometry of internal/vnc/scale.go and of translateScaledPoint in internal/vnc/session.go. */
module Scaling {
  import opened Geometry

  // ---------- division ----------

  lemma MulLess(a: int, b: int, d: int)
    requires d > 0
    ensures a * d < b * d <==> a < b
    ensures a * d <= b * d <==> a <= b
  {
  }

  lemma FloorAtMost(v: nat, d: nat, i: nat)
    requires d > 0
    ensures v / d <= i <==> v < (i + 1) * d
  {
    var q := v / d;
    assert q * d <= v < (q + 1) * d;
    MulLess(q, i + 1, d);
    MulLess(i + 1, q + 1, d);
    MulLess(q + 1, i + 1, d);
  }

  lemma CeilAbove(v: nat, d: nat, i: nat)
    requires d > 0
    ensures i < DivideCeil(v, d) <==> i * d < v
  {
    FloorAtMost(v + d - 1, d, i);
    assert (i + 1) * d == i * d + d;
  }

  // ---------- fitting ----------

  /** A value is the quotient a/d to within one. */
  predicate WithinOne(v: int, a: int, d: int) {
    -d <= v * d - a <= d
  }

  function FitRectangle(source: Rect, destination: Rect): Rect {
    if source.Empty() || destination.Empty() then Rect(0, 0, 0, 0)
    else
      var height0 := source.Dy() * destination.Dx() / source.Dx();
      var tall := height0 > destination.Dy();
      var height := Max(if tall then destination.Dy() else height0, 1);
      var width := Max(if tall then source.Dx() * destination.Dy() / source.Dy() else destination.Dx(), 1);
      var minX := destination.minX + (destination.Dx() - width) / 2;
      var minY := destination.minY + (destination.Dy() - height) / 2;
      Rect(minX, minY, minX + width, minY + height)
  }

  lemma FloorWithinOne(a: nat, d: nat)
    requires d > 0
    ensures WithinOne(Max(a / d, 1), a, d)
  {
  }

  /** Scaling the larger direction to fit leaves the other inside as well. */
  lemma NarrowWidth(sw: nat, sh: nat, w: nat, h: nat)
    requires sw > 0 && sh > 0 && w > 0 && h > 0 && sh * w / sw > h
    ensures sw * h / sh <= w
  {
  }

  /** The fitted rectangle lies in the destination, fills it in one direction, is centred to within a
      pixel and keeps the aspect ratio to within a pixel. */
  lemma FitIsInsideCentredAndProportional(source: Rect, destination: Rect)
    requires !source.Empty() && !destination.Empty()
    ensures var f := FitRectangle(source, destination);
      && !f.Empty() && f.In(destination)
      && 0 <= (destination.maxX - f.maxX) - (f.minX - destination.minX) <= 1
      && 0 <= (destination.maxY - f.maxY) - (f.minY - destination.minY) <= 1
      && ((f.Dx() == destination.Dx() && WithinOne(f.Dy(), source.Dy() * f.Dx(), source.Dx()))
          || (f.Dy() == destination.Dy() && WithinOne(f.Dx(), source.Dx() * f.Dy(), source.Dy())))
  {
    var sw, sh, w, h := source.Dx(), source.Dy(), destination.Dx(), destination.Dy();
    MulLess(0, sh, w);
    MulLess(0, sw, h);
    FloorWithinOne(sh * w, sw);
    FloorWithinOne(sw * h, sh);
    if sh * w / sw > h {
      NarrowWidth(sw, sh, w, h);
    }
  }

  // ---------- mapping ----------

  function MapRectangle(r: Rect, source: Rect, fit: Rect): Rect
    requires !source.Empty() && !fit.Empty() && !r.Empty() && r.In(source)
  {
    MulLess(0, r.minX - source.minX, fit.Dx());
    MulLess(0, r.minY - source.minY, fit.Dy());
    MulLess(0, r.maxX - source.minX, fit.Dx());
    MulLess(0, r.maxY - source.minY, fit.Dy());
    Rect(fit.minX + (r.minX - source.minX) * fit.Dx() / source.Dx(),
         fit.minY + (r.minY - source.minY) * fit.Dy() / source.Dy(),
         fit.minX + DivideCeil((r.maxX - source.minX) * fit.Dx(), source.Dx()),
         fit.minY + DivideCeil((r.maxY - source.minY) * fit.Dy(), source.Dy())).Intersect(fit)
  }

  /** The part of the source that pixel i of n shows, [i*size/n, (i+1)*size/n), meets [a, b). */
  predicate FootprintMeets(i: int, n: int, size: int, a: int, b: int) {
    i * size < b * n && a * n < (i + 1) * size
  }

  /** One direction: the scaled interval contains exactly the pixels whose footprint meets it. */
  lemma MappedInterval(i: nat, n: nat, size: nat, a: nat, b: nat)
    requires n > 0 && size > 0
    ensures a * n / size <= i < DivideCeil(b * n, size) <==> FootprintMeets(i, n, size, a, b)
  {
    MulLess(0, a, n);
    MulLess(0, b, n);
    FloorAtMost(a * n, size, i);
    CeilAbove(b * n, size, i);
  }

  /** The mapped rectangle consists of exactly the fitted pixels whose source footprint meets the
      source rectangle. */
  lemma MapIsExact(r: Rect, source: Rect, fit: Rect, x: int, y: int)
    requires !source.Empty() && !fit.Empty() && !r.Empty() && r.In(source)
    ensures MapRectangle(r, source, fit).Contains(x, y) <==>
            fit.Contains(x, y)
            && FootprintMeets(x - fit.minX, fit.Dx(), source.Dx(), r.minX - source.minX, r.maxX - source.minX)
            && FootprintMeets(y - fit.minY, fit.Dy(), source.Dy(), r.minY - source.minY, r.maxY - source.minY)
  {
    if fit.Contains(x, y) {
      MappedInterval(x - fit.minX, fit.Dx(), source.Dx(), r.minX - source.minX, r.maxX - source.minX);
      MappedInterval(y - fit.minY, fit.Dy(), source.Dy(), r.minY - source.minY, r.maxY - source.minY);
    }
  }

  /** Some pixel shows part of any non-empty interval: the one that shows its first point. */
  lemma FirstPixel(n: nat, size: nat, a: nat, b: nat) returns (i: nat)
    requires n > 0 && size > 0 && a < b <= size
    ensures i < n && FootprintMeets(i, n, size, a, b)
  {
    MulLess(0, a, n);
    i := a * n / size;
    assert i * size <= a * n < (i + 1) * size;
    MulLess(a, b, n);
    MulLess(a, size, n);
    MulLess(i, n, size);
  }

  lemma MapIsNotEmpty(r: Rect, source: Rect, fit: Rect)
    requires !source.Empty() && !fit.Empty() && !r.Empty() && r.In(source)
    ensures !MapRectangle(r, source, fit).Empty() && MapRectangle(r, source, fit).In(fit)
  {
    var i := FirstPixel(fit.Dx(), source.Dx(), r.minX - source.minX, r.maxX - source.minX);
    var j := FirstPixel(fit.Dy(), source.Dy(), r.minY - source.minY, r.maxY - source.minY);
    MapIsExact(r, source, fit, fit.minX + i, fit.minY + j);
  }

  /** The fitted pixel shows part of the k-th changed rectangle. */
  predicate ShowsChange(changed: seq<Rect>, k: int, source: Rect, fit: Rect, x: int, y: int)
    requires !source.Empty() && !fit.Empty()
  {
    0 <= k < |changed| && !changed[k].Intersect(source).Empty()
    && MapRectangle(changed[k].Intersect(source), source, fit).Contains(x, y)
  }

  // ---------- pointer ----------

  function TranslateScaledPoint(x: int, y: int, screenWidth: nat, screenHeight: nat,
                                width: nat, height: nat): (int, int)
    requires screenWidth > 0 && screenHeight > 0 && width > 0 && height > 0
  {
    var fit := FitRectangle(Rect(0, 0, width, height), Rect(0, 0, screenWidth, screenHeight));
    FitIsInsideCentredAndProportional(Rect(0, 0, width, height), Rect(0, 0, screenWidth, screenHeight));
    var cx := Min(Max(x, fit.minX), fit.maxX - 1);
    var cy := Min(Max(y, fit.minY), fit.maxY - 1);
    (Min((cx - fit.minX) * width / fit.Dx(), width - 1), Min((cy - fit.minY) * height / fit.Dy(), height - 1))
  }

  /** A pixel's source point: inside the source, and with a footprint that the pixel meets. */
  lemma SourceOfPixel(i: nat, n: nat, size: nat)
    requires i < n && size > 0
    ensures var a := Min(i * size / n, size - 1);
      0 <= a < size && FootprintMeets(i, n, size, a, a + 1)
  {
  }

  /** Every pointer position lands in the framebuffer, and one inside the fitted image lies in the
      mapped rectangle of the source pixel it selects. */
  lemma TranslateSelectsShownPixel(x: int, y: int, screenWidth: nat, screenHeight: nat, width: nat, height: nat)
    requires screenWidth > 0 && screenHeight > 0 && width > 0 && height > 0
    ensures var source, screen := Rect(0, 0, width, height), Rect(0, 0, screenWidth, screenHeight);
      var fit := FitRectangle(source, screen);
      var (px, py) := TranslateScaledPoint(x, y, screenWidth, screenHeight, width, height);
      && source.Contains(px, py) && !fit.Empty()
      && (fit.Contains(x, y) ==> MapRectangle(Rect(px, py, px + 1, py + 1), source, fit).Contains(x, y))
  {
    hide FitRectangle, MapRectangle, FootprintMeets, WithinOne;
    var source, screen := Rect(0, 0, width, height), Rect(0, 0, screenWidth, screenHeight);
    FitIsInsideCentredAndProportional(source, screen);
    var fit := FitRectangle(source, screen);
    var cx := Min(Max(x, fit.minX), fit.maxX - 1);
    var cy := Min(Max(y, fit.minY), fit.maxY - 1);
    SourceOfPixel(cx - fit.minX, fit.Dx(), width);
    SourceOfPixel(cy - fit.minY, fit.Dy(), height);
    var (px, py) := TranslateScaledPoint(x, y, screenWidth, screenHeight, width, height);
    if fit.Contains(x, y) {
      MapIsExact(Rect(px, py, px + 1, py + 1), source, fit, x, y);
    }
  }
}
