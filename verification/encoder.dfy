/** The bitmap encoder of internal/display/render.go: scanlines are classified, merged, and drawn as
    fills, two-colour bitmaps or RGB bitmaps cut to the datagram limit. */
module Encoder {
  import opened Geometry
  import opened Operations
  import opened Tiling

  // ---------- what a list of operations paints ----------

  /** The colours a list of operations puts on a point, in order. */
  ghost function Strokes(ops: seq<Operation>, x: int, y: int): seq<Rgb> {
    if ops == [] then []
    else
      Strokes(ops[..|ops| - 1], x, y)
      + match Stroke(ops[|ops| - 1], x, y) case Some(c) => [c] case None => []
  }

  /** The operations paint every point of the region exactly once, with the given colours, and no
      other point; each fits one datagram. */
  ghost predicate Paints(ops: seq<Operation>, region: Rect, colour: Screen) {
    (forall op :: op in ops ==> IsPaint(op.bytes) && op.increment && Small(op)) &&
    forall x, y :: Strokes(ops, x, y) == if region.Contains(x, y) then [colour(x, y)] else []
  }

  predicate Small(op: Operation) {
    |op.bytes| <= 1432
  }

  /** The operation can be sent in a datagram, remembered under its own number, and cut out of a stream. */
  predicate Transmittable(op: Operation) {
    Small(op) && op.increment && SelfDelimiting(op.bytes)
  }

  lemma PaintsTransmittable(ops: seq<Operation>, region: Rect, colour: Screen)
    requires Paints(ops, region, colour)
    ensures forall op :: op in ops ==> Transmittable(op)
  {
    hide SelfDelimiting, IsPaint;
    forall op | op in ops
      ensures SelfDelimiting(op.bytes)
    {
      DrawingDelimited(op.bytes);
    }
  }

  /** c is a and b side by side. */
  ghost predicate Splits(c: Rect, a: Rect, b: Rect) {
    forall x, y :: (c.Contains(x, y) <==> a.Contains(x, y) || b.Contains(x, y))
                   && !(a.Contains(x, y) && b.Contains(x, y))
  }

  lemma {:induction false} StrokesConcat(a: seq<Operation>, b: seq<Operation>, x: int, y: int)
    ensures Strokes(a + b, x, y) == Strokes(a, x, y) + Strokes(b, x, y)
  {
    if b == [] {
      assert a + b == a;
    } else {
      assert (a + b)[..|a + b| - 1] == a + b[..|b| - 1];
      StrokesConcat(a, b[..|b| - 1], x, y);
    }
  }

  lemma PaintsConcat(a: seq<Operation>, ra: Rect, b: seq<Operation>, rb: Rect, rc: Rect, colour: Screen)
    requires Paints(a, ra, colour) && Paints(b, rb, colour) && Splits(rc, ra, rb)
    ensures Paints(a + b, rc, colour)
  {
    forall x, y
      ensures Strokes(a + b, x, y) == if rc.Contains(x, y) then [colour(x, y)] else []
    {
      StrokesConcat(a, b, x, y);
      assert rc.Contains(x, y) <==> ra.Contains(x, y) || rb.Contains(x, y);
    }
  }

  lemma PaintsSingle(op: Operation, region: Rect, colour: Screen)
    requires PaintsOne(op, region, colour) && IsPaint(op.bytes) && Small(op)
    ensures Paints([op], region, colour)
  {
  }

  lemma ApplyPoint(op: Operation, s: Screen, x: int, y: int)
    requires IsPaint(op.bytes)
    ensures Apply(op, s)(x, y) == match Stroke(op, x, y) case Some(c) => c case None => s(x, y)
  {
  }

  /** Painting operations leave on each point the last of their strokes. */
  lemma {:induction false} ApplyStrokes(ops: seq<Operation>, s: Screen, x: int, y: int)
    requires forall op :: op in ops ==> IsPaint(op.bytes)
    ensures var k := Strokes(ops, x, y);
      ApplyAll(ops, s)(x, y) == if k == [] then s(x, y) else k[|k| - 1]
  {
    hide Apply, Stroke, IsPaint, ApplyAll;
    if ops == [] {
      NoOperations(s);
    } else {
      var init, last := ops[..|ops| - 1], ops[|ops| - 1];
      ApplyStrokes(init, s, x, y);
      assert ops == init + [last];
      ApplyAllConcat(init, [last], s);
      SingleOperation(last, ApplyAll(init, s));
      ApplyPoint(last, ApplyAll(init, s), x, y);
    }
  }

  lemma NoOperations(s: Screen)
    ensures ApplyAll([], s) == s
  {
  }

  lemma SingleOperation(op: Operation, s: Screen)
    ensures ApplyAll([op], s) == Apply(op, s)
  {
  }

  lemma PaintsShowsPoint(ops: seq<Operation>, region: Rect, colour: Screen, s: Screen, x: int, y: int)
    requires Paints(ops, region, colour)
    ensures ApplyAll(ops, s)(x, y) == if region.Contains(x, y) then colour(x, y) else s(x, y)
  {
    ApplyStrokes(ops, s, x, y);
  }

  /** Applying operations that paint a region makes the screen equal the colours there, and
      changes nothing else. */
  lemma PaintsShows(ops: seq<Operation>, region: Rect, colour: Screen, s: Screen)
    requires Paints(ops, region, colour)
    ensures forall x, y :: ApplyAll(ops, s)(x, y) == if region.Contains(x, y) then colour(x, y) else s(x, y)
  {
    forall x, y
      ensures ApplyAll(ops, s)(x, y) == if region.Contains(x, y) then colour(x, y) else s(x, y)
    {
      PaintsShowsPoint(ops, region, colour, s, x, y);
    }
  }

  // ---------- tiles ----------

  /** The rectangle lies in the 16-bit coordinate space. */
  predicate Addressable(x: int, y: int, w: int, h: int) {
    0 <= x && 0 <= y && x + w <= 0x1_0000 && y + h <= 0x1_0000 && w < 0x1_0000 && h < 0x1_0000
  }

  lemma RgbTileSmall(tileWidth: nat, tileHeight: nat, w: nat, h: nat)
    requires w <= tileWidth && h <= tileHeight && FitsPayload(tileWidth, tileHeight)
    ensures 12 + Rows(h, Round4(3 * w)) + PACKET_HEADER_SIZE <= MAX_DATAGRAM_SIZE
  {
    MulMono(h, tileHeight, Round4(3 * tileWidth));
    MulMono(Round4(3 * w), Round4(3 * tileWidth), h);
  }

  lemma BiColourTileSmall(stride: nat, tileHeight: nat, w: nat, h: nat)
    requires 0 < stride <= MAX_BITMAP_BYTES && (w + 7) / 8 <= stride
    requires h <= tileHeight <= Max(1, MAX_BITMAP_BYTES / stride)
    ensures 20 + Round4(Rows(h, (w + 7) / 8)) + PACKET_HEADER_SIZE <= MAX_DATAGRAM_SIZE
    ensures Rows(h, (w + 7) / 8) >= 0
  {
    QuotientBound(MAX_BITMAP_BYTES, stride, 1);
    QuotientBound(MAX_BITMAP_BYTES, stride, tileHeight);
    MulMono(h, tileHeight, stride);
    MulMono((w + 7) / 8, stride, h);
    MulMono(0, h, (w + 7) / 8);
  }

  const MAX_BITMAP_BYTES: nat := MAX_DATAGRAM_SIZE - PACKET_HEADER_SIZE - 20

  /** Appending the tile at column x of a band of tiles. */
  lemma BandStep(band: seq<Operation>, op: Operation, dst: Rect, x: nat, w: nat, colour: Screen)
    requires Paints(band, Rect(dst.minX, dst.minY, dst.minX + x, dst.maxY), colour)
    requires PaintsOne(op, Rect(dst.minX + x, dst.minY, dst.minX + x + w, dst.maxY), colour)
    requires IsPaint(op.bytes) && Small(op)
    ensures Paints(band + [op], Rect(dst.minX, dst.minY, dst.minX + x + w, dst.maxY), colour)
  {
    PaintsSingle(op, Rect(dst.minX + x, dst.minY, dst.minX + x + w, dst.maxY), colour);
    PaintsConcat(band, Rect(dst.minX, dst.minY, dst.minX + x, dst.maxY),
                 [op], Rect(dst.minX + x, dst.minY, dst.minX + x + w, dst.maxY),
                 Rect(dst.minX, dst.minY, dst.minX + x + w, dst.maxY), colour);
  }

  /** Appending a band of h rows below the y rows already painted. */
  lemma StackStep(done: seq<Operation>, band: seq<Operation>, dst: Rect, y: nat, h: nat, colour: Screen)
    requires Paints(done, Rect(dst.minX, dst.minY, dst.maxX, dst.minY + y), colour)
    requires Paints(band, Rect(dst.minX, dst.minY + y, dst.maxX, dst.minY + y + h), colour)
    ensures Paints(done + band, Rect(dst.minX, dst.minY, dst.maxX, dst.minY + y + h), colour)
  {
    PaintsConcat(done, Rect(dst.minX, dst.minY, dst.maxX, dst.minY + y),
                 band, Rect(dst.minX, dst.minY + y, dst.maxX, dst.minY + y + h),
                 Rect(dst.minX, dst.minY, dst.maxX, dst.minY + y + h), colour);
  }

  lemma PaintsNothing(region: Rect, colour: Screen)
    requires region.Empty()
    ensures Paints([], region, colour)
  {
  }

  lemma StartTiling(size: nat, tile: nat)
    ensures Tiled(size, tile, 0, 0)
  {
  }

  method AppendBitmapTiles(ops: seq<Operation>, img: Image, source: Rect, destination: Point)
    returns (r: Result<seq<Operation>>)
    requires !source.Empty() && source.In(img.bounds)
    requires Addressable(destination.x, destination.y, source.Dx(), source.Dy())
    ensures r.Ok? && ops <= r.value
    ensures Paints(r.value[|ops|..],
                   source.Add(destination.x - source.minX, destination.y - source.minY),
                   Shifted(img, destination.x - source.minX, destination.y - source.minY))
    ensures source.Dx() < 1024 ==>
              forall w: nat, h: nat :: 0 < w && 0 < h && FitsPayload(w, h) ==>
                |r.value| - |ops| <= TileCount(source.Dx(), source.Dy(), w, h)
  {
    hide Paints, PaintsOne, Shifted, Round4, FitsPayload, BestBelow, Small, Tiled, DivideCeil;
    var tileWidth, tileHeight := BestTileSize(source.Dx(), source.Dy());
    ghost var dst := Rect(destination.x, destination.y, destination.x + source.Dx(), destination.y + source.Dy());
    ghost var colour := Shifted(img, destination.x - source.minX, destination.y - source.minY);
    ghost var done: seq<Operation> := [];
    PaintsNothing(Rect(dst.minX, dst.minY, dst.maxX, dst.minY), colour);
    var out := ops;
    var y := 0;
    ghost var columns, bands := DivideCeil(source.Dx(), tileWidth), 0;
    StartTiling(source.Dy(), tileHeight);
    while y < source.Dy()
      invariant 0 <= y <= source.Dy()
      invariant out == ops + done
      invariant Tiled(source.Dy(), tileHeight, bands, y) && |done| == bands * columns
      invariant Paints(done, Rect(dst.minX, dst.minY, dst.maxX, dst.minY + y), colour)
    {
      var h := Min(tileHeight, source.Dy() - y);
      ghost var band: seq<Operation> := [];
      ghost var row := Rect(dst.minX, dst.minY + y, dst.maxX, dst.minY + y + h);
      PaintsNothing(Rect(row.minX, row.minY, row.minX, row.maxY), colour);
      var x := 0;
      StartTiling(source.Dx(), tileWidth);
      while x < source.Dx()
        invariant 0 <= x <= source.Dx() && Tiled(source.Dx(), tileWidth, |band|, x)
        invariant out == ops + done + band
        invariant Paints(band, Rect(row.minX, row.minY, row.minX + x, row.maxY), colour)
      {
        var w := Min(tileWidth, source.Dx() - x);
        var rect := Rect(source.minX + x, source.minY + y, source.minX + x + w, source.minY + y + h);
        var tile := BitmapRGB(img, rect, Point(destination.x + x, destination.y + y));
        if tile.Err? {
          assert false;
        }
        RgbTileSmall(tileWidth, tileHeight, w, h);
        TilePaints(tile.value, Rect(row.minX + x, row.minY, row.minX + x + w, row.maxY), colour);
        BandStep(band, tile.value, row, x, w, colour);
        TiledNext(source.Dx(), tileWidth, |band|, x);
        out := out + [tile.value];
        band := band + [tile.value];
        x := x + w;
      }
      TiledAll(source.Dx(), tileWidth, |band|, x);
      TiledNext(source.Dy(), tileHeight, bands, y);
      StackStep(done, band, dst, y, h, colour);
      done := done + band;
      y := y + h;
      bands := bands + 1;
    }
    TiledAll(source.Dy(), tileHeight, bands, y);
    assert |done| == TileCount(source.Dx(), source.Dy(), tileWidth, tileHeight);
    assert out[|ops|..] == done;
    return Ok(out);
  }

  lemma TilePaints(op: Operation, region: Rect, colour: Screen)
    requires PaintsOne(op, region, colour) && !region.Empty()
    requires |op.bytes| + PACKET_HEADER_SIZE <= MAX_DATAGRAM_SIZE
    ensures IsPaint(op.bytes) && Small(op)
  {
    assert Stroke(op, region.minX, region.minY) == Some(colour(region.minX, region.minY));
  }

  /** A one-bit picture of at most 1412 bytes is one tile. */
  lemma OneTile(width: nat, height: nat)
    requires width > 0 && height > 0 && (width + 7) / 8 * height <= 1412
    ensures width <= MAX_BITMAP_BYTES * 8 && height <= MAX_BITMAP_BYTES / ((width + 7) / 8)
  {
    var stride := (width + 7) / 8;
    MulMono(1, height, stride);
    QuotientBound(MAX_BITMAP_BYTES, stride, height);
    assert stride * height <= 1412 && stride <= stride * height;
  }

  method AppendBiColourTiles(ops: seq<Operation>, img: Image, source: Rect, destination: Point, c0: Rgba, c1: Rgba)
    returns (r: Result<seq<Operation>>)
    requires !source.Empty() && source.In(img.bounds) && TwoColoured(img, source, c0, c1)
    requires Addressable(destination.x, destination.y, source.Dx(), source.Dy())
    ensures r.Ok? && ops <= r.value
    ensures Paints(r.value[|ops|..],
                   source.Add(destination.x - source.minX, destination.y - source.minY),
                   Shifted(img, destination.x - source.minX, destination.y - source.minY))
    ensures (source.Dx() + 7) / 8 * source.Dy() <= 1412 ==> |r.value| == |ops| + 1
  {
    hide Paints, PaintsOne, Shifted, Round4, Rows, Small;
    var tileWidth := Min(source.Dx(), MAX_BITMAP_BYTES * 8);
    var stride := (tileWidth + 7) / 8;
    var tileHeight := Min(source.Dy(), Max(1, MAX_BITMAP_BYTES / stride));
    ghost var single := (source.Dx() + 7) / 8 * source.Dy() <= 1412;
    if single {
      OneTile(source.Dx(), source.Dy());
    }
    ghost var dst := Rect(destination.x, destination.y, destination.x + source.Dx(), destination.y + source.Dy());
    ghost var colour := Shifted(img, destination.x - source.minX, destination.y - source.minY);
    ghost var done: seq<Operation> := [];
    PaintsNothing(Rect(dst.minX, dst.minY, dst.maxX, dst.minY), colour);
    var out := ops;
    var y := 0;
    while y < source.Dy()
      invariant 0 <= y <= source.Dy()
      invariant out == ops + done
      invariant Paints(done, Rect(dst.minX, dst.minY, dst.maxX, dst.minY + y), colour)
      invariant single ==> if y == 0 then |done| == 0 else y == source.Dy() && |done| == 1
    {
      var h := Min(tileHeight, source.Dy() - y);
      ghost var band: seq<Operation> := [];
      ghost var row := Rect(dst.minX, dst.minY + y, dst.maxX, dst.minY + y + h);
      PaintsNothing(Rect(row.minX, row.minY, row.minX, row.maxY), colour);
      var x := 0;
      while x < source.Dx()
        invariant 0 <= x <= source.Dx()
        invariant out == ops + done + band
        invariant Paints(band, Rect(row.minX, row.minY, row.minX + x, row.maxY), colour)
        invariant single ==> if x == 0 then |band| == 0 else x == source.Dx() && |band| == 1
      {
        var w := Min(tileWidth, source.Dx() - x);
        var rect := Rect(source.minX + x, source.minY + y, source.minX + x + w, source.minY + y + h);
        TwoColouredPart(img, source, rect, c0, c1);
        var tile := BitmapBiColor(img, rect, Point(destination.x + x, destination.y + y), c0, c1);
        if tile.Err? {
          assert false;
        }
        BiColourTileSmall(stride, tileHeight, w, h);
        TilePaints(tile.value, Rect(row.minX + x, row.minY, row.minX + x + w, row.maxY), colour);
        BandStep(band, tile.value, row, x, w, colour);
        out := out + [tile.value];
        band := band + [tile.value];
        x := x + w;
      }
      StackStep(done, band, dst, y, h, colour);
      done := done + band;
      y := y + h;
    }
    assert out[|ops|..] == done;
    return Ok(out);
  }

  lemma TwoColouredPart(img: Image, whole: Rect, part: Rect, c0: Rgba, c1: Rgba)
    requires TwoColoured(img, whole, c0, c1) && part.In(whole)
    ensures TwoColoured(img, part, c0, c1)
  {
  }

  // ---------- scanlines ----------

  datatype ScanlineKind = RgbLine | FillLine | BiColourLine

  datatype Scanline = Scanline(kind: ScanlineKind, color0: Rgba, color1: Rgba)

  predicate RgbaLess(a: Rgba, b: Rgba) {
    if a.r != b.r then a.r < b.r
    else if a.g != b.g then a.g < b.g
    else if a.b != b.b then a.b < b.b
    else a.a < b.a
  }

  /** The colours of row y between two columns. */
  ghost function Colours(img: Image, minX: int, maxX: int, y: int): set<Rgba> {
    set x | minX <= x < maxX :: img.at(x, y)
  }

  /** The classification says which colours the row has: one, two in order, or more. */
  ghost predicate Describes(line: Scanline, colours: set<Rgba>) {
    match line.kind
    case FillLine => colours == {line.color0}
    case BiColourLine => colours == {line.color0, line.color1} && RgbaLess(line.color0, line.color1)
    case RgbLine => |colours| > 2
  }

  lemma MoreThanTwo(s: set<Rgba>, a: Rgba, b: Rgba, c: Rgba)
    requires a in s && b in s && c in s && a != b && b != c && a != c
    ensures |s| > 2
  {
    var rest := s - {a} - {b} - {c};
    assert s == rest + {a} + {b} + {c};
    assert |rest + {a} + {b} + {c}| == |rest + {a} + {b}| + 1 == |rest + {a}| + 2;
  }

  method ClassifyScanline(img: Image, minX: int, maxX: int, y: int) returns (line: Scanline)
    requires minX < maxX
    ensures Describes(line, Colours(img, minX, maxX, y))
  {
    var first := img.at(minX, y);
    line := Scanline(FillLine, first, Rgba(0, 0, 0, 0));
    var x := minX + 1;
    while x < maxX
      invariant minX < x <= maxX
      invariant line.kind == FillLine || line.kind == BiColourLine
      invariant line.kind == FillLine ==> Colours(img, minX, x, y) == {line.color0}
      invariant line.kind == BiColourLine ==>
                  line.color0 != line.color1 && Colours(img, minX, x, y) == {line.color0, line.color1}
    {
      var pixel := img.at(x, y);
      assert Colours(img, minX, x + 1, y) == Colours(img, minX, x, y) + {pixel};
      if pixel == line.color0 {
      } else if line.kind == FillLine {
        line := line.(kind := BiColourLine, color1 := pixel);
      } else if pixel != line.color1 {
        line := line.(kind := RgbLine);
        assert Colours(img, minX, x + 1, y) <= Colours(img, minX, maxX, y);
        MoreThanTwo(Colours(img, minX, maxX, y), line.color0, line.color1, pixel);
        return line;
      }
      x := x + 1;
    }
    if line.kind == BiColourLine && RgbaLess(line.color1, line.color0) {
      line := line.(color0 := line.color1, color1 := line.color0);
    }
  }

  predicate CompatibleScanlines(a: Scanline, b: Scanline) {
    if a.kind != b.kind then false
    else if a.kind == RgbLine then true
    else a.color0 == b.color0 && (a.kind != BiColourLine || a.color1 == b.color1)
  }

  /** Thanks to the colour order, lines are compatible exactly when they have the same one or two
      colours, or both have more. */
  lemma CompatibleIff(a: Scanline, ca: set<Rgba>, b: Scanline, cb: set<Rgba>)
    requires Describes(a, ca) && Describes(b, cb)
    ensures CompatibleScanlines(a, b) <==> (|ca| > 2 && |cb| > 2) || (|ca| <= 2 && ca == cb)
  {
  }

  // ---------- the encoder ----------

  /** lines[k] describes row source.minY + k of the image. */
  ghost predicate Classified(lines: seq<Scanline>, img: Image, source: Rect) {
    forall k :: 0 <= k < |lines| ==> Describes(lines[k], Colours(img, source.minX, source.maxX, source.minY + k))
  }

  /** A run of compatible lines holds only the colours of its first one. */
  lemma RunColours(lines: seq<Scanline>, img: Image, source: Rect, first: nat, last: nat)
    requires Classified(lines, img, source) && first < last <= |lines|
    requires forall k :: first <= k < last ==> CompatibleScanlines(lines[first], lines[k])
    requires lines[first].kind != RgbLine
    ensures TwoColoured(img, Rect(source.minX, source.minY + first, source.maxX, source.minY + last),
                        lines[first].color0, lines[first].color1)
    ensures lines[first].kind == FillLine ==>
              forall x, y :: source.minX <= x < source.maxX && source.minY + first <= y < source.minY + last ==>
                img.at(x, y) == lines[first].color0
  {
    forall x, y | source.minX <= x < source.maxX && source.minY + first <= y < source.minY + last
      ensures img.at(x, y) == lines[first].color0
              || (lines[first].kind == BiColourLine && img.at(x, y) == lines[first].color1)
    {
      var k := y - source.minY;
      assert CompatibleScanlines(lines[first], lines[k]);
      assert img.at(x, y) in Colours(img, source.minX, source.maxX, source.minY + k);
    }
  }

  /** A fill of one colour paints the image's pixels when they all have that colour. */
  lemma FillPaints(op: Operation, img: Image, rect: Rect, dst: Point, c: Rgba)
    requires !rect.Empty() && |op.bytes| == 16
    requires forall x, y :: rect.Contains(x, y) ==> img.at(x, y) == c
    requires PaintsOne(op, Rect(dst.x, dst.y, dst.x + rect.Dx(), dst.y + rect.Dy()), (_, _) => Opaque(c))
    ensures Paints([op], Rect(dst.x, dst.y, dst.x + rect.Dx(), dst.y + rect.Dy()),
                   Shifted(img, dst.x - rect.minX, dst.y - rect.minY))
  {
    var region := Rect(dst.x, dst.y, dst.x + rect.Dx(), dst.y + rect.Dy());
    var colour := Shifted(img, dst.x - rect.minX, dst.y - rect.minY);
    TilePaints(op, region, (_, _) => Opaque(c));
    forall x, y
      ensures Stroke(op, x, y) == if region.Contains(x, y) then Some(colour(x, y)) else None
    {
      if region.Contains(x, y) {
        assert rect.Contains(x - dst.x + rect.minX, y - dst.y + rect.minY);
      }
    }
    PaintsSingle(op, region, colour);
  }

  method ClassifyLines(img: Image, source: Rect) returns (lines: seq<Scanline>)
    requires !source.Empty()
    ensures |lines| == source.Dy() && Classified(lines, img, source)
  {
    lines := [];
    var y := source.minY;
    while y < source.maxY
      invariant source.minY <= y <= source.maxY && |lines| == y - source.minY
      invariant Classified(lines, img, source)
    {
      var line := ClassifyScanline(img, source.minX, source.maxX, y);
      lines := lines + [line];
      y := y + 1;
    }
  }

  /** All of the rectangle has one colour. */
  ghost predicate OneColour(img: Image, rect: Rect) {
    forall x, y :: rect.Contains(x, y) ==> img.at(x, y) == img.at(rect.minX, rect.minY)
  }

  lemma OneColourLines(lines: seq<Scanline>, img: Image, source: Rect, k: nat)
    requires Classified(lines, img, source) && !source.Empty() && |lines| == source.Dy() && k < |lines|
    requires OneColour(img, source)
    ensures lines[k].kind == FillLine && CompatibleScanlines(lines[0], lines[k])
  {
    var c := img.at(source.minX, source.minY);
    OneColourLine(lines[0], img, source, c, 0);
    OneColourLine(lines[k], img, source, c, k);
  }

  lemma OneColourLine(line: Scanline, img: Image, source: Rect, c: Rgba, k: nat)
    requires !source.Empty() && k < source.Dy() && forall x, y :: source.Contains(x, y) ==> img.at(x, y) == c
    requires Describes(line, Colours(img, source.minX, source.maxX, source.minY + k))
    ensures line.kind == FillLine && line.color0 == c
  {
    var colours := Colours(img, source.minX, source.maxX, source.minY + k);
    assert source.Contains(source.minX, source.minY + k);
    assert img.at(source.minX, source.minY + k) in colours;
    assert colours == {c};
  }

  /** The meaning of the encoder: the operations it appends, decoded from their bytes, paint the
      destination with the image's pixels, each point once, and nothing else. A rectangle of one colour
      takes one operation. */
  method AppendEncodedBitmapOperations(ops: seq<Operation>, img: Image, source: Rect, destination: Point)
    returns (r: Result<seq<Operation>>)
    requires source.In(img.bounds)
    requires Addressable(destination.x, destination.y, source.Dx(), source.Dy())
    ensures r.Ok? && ops <= r.value
    ensures Paints(r.value[|ops|..],
                   source.Add(destination.x - source.minX, destination.y - source.minY),
                   Shifted(img, destination.x - source.minX, destination.y - source.minY))
    ensures !source.Empty() && OneColour(img, source) ==> |r.value| == |ops| + 1
  {
    hide Paints, PaintsOne, Shifted, Small, Describes, OneColour;
    ghost var colour := Shifted(img, destination.x - source.minX, destination.y - source.minY);
    if source.Empty() {
      PaintsNothing(source.Add(destination.x - source.minX, destination.y - source.minY), colour);
      assert ops[|ops|..] == [];
      return Ok(ops);
    }
    var lines := ClassifyLines(img, source);
    ghost var dst := Rect(destination.x, destination.y, destination.x + source.Dx(), destination.y + source.Dy());
    ghost var done: seq<Operation> := [];
    PaintsNothing(Rect(dst.minX, dst.minY, dst.maxX, dst.minY), colour);
    var out := ops;
    var first := 0;
    while first < |lines|
      invariant 0 <= first <= |lines|
      invariant out == ops + done
      invariant Paints(done, Rect(dst.minX, dst.minY, dst.maxX, dst.minY + first), colour)
      invariant OneColour(img, source) ==> if first == 0 then |done| == 0 else first == |lines| && |done| == 1
    {
      var last := first + 1;
      while last < |lines| && CompatibleScanlines(lines[first], lines[last])
        invariant first < last <= |lines|
        invariant forall k :: first <= k < last ==> CompatibleScanlines(lines[first], lines[k])
      {
        last := last + 1;
      }
      if OneColour(img, source) {
        OneColourLines(lines, img, source, 0);
        if last < |lines| {
          OneColourLines(lines, img, source, last);
        }
      }
      var run := AppendRun(out, img, lines[first], source, first, last, lines,
                           Point(destination.x, destination.y + first));
      if run.Err? {
        assert false;
      }
      ghost var band := run.value[|out|..];
      StackStep(done, band, dst, first, last - first, colour);
      assert run.value == ops + (done + band);
      done := done + band;
      out := run.value;
      first := last;
    }
    assert out[|ops|..] == done;
    return Ok(out);
  }

  /** One merged run of lines: a fill, two-colour tiles, or RGB tiles. */
  method AppendRun(ops: seq<Operation>, img: Image, line: Scanline, source: Rect, first: nat, last: nat,
                   ghost lines: seq<Scanline>, dst: Point)
    returns (r: Result<seq<Operation>>)
    requires source.In(img.bounds) && !source.Empty() && first < last <= source.Dy()
    requires |lines| == source.Dy() && Classified(lines, img, source) && line == lines[first]
    requires forall k :: first <= k < last ==> CompatibleScanlines(line, lines[k])
    requires Addressable(dst.x, dst.y, source.Dx(), last - first)
    ensures r.Ok? && ops <= r.value
    ensures Paints(r.value[|ops|..], Rect(dst.x, dst.y, dst.x + source.Dx(), dst.y + (last - first)),
                   Shifted(img, dst.x - source.minX, dst.y - (source.minY + first)))
    ensures line.kind == FillLine ==> |r.value| == |ops| + 1
  {
    hide Paints, PaintsOne, Shifted, Small, Describes;
    var rect := Rect(source.minX, source.minY + first, source.maxX, source.minY + last);
    match line.kind
    case FillLine =>
      RunColours(lines, img, source, first, last);
      var op := Fill(dst.x, dst.y, rect.Dx(), rect.Dy(), line.color0);
      FillPaints(op, img, rect, dst, line.color0);
      r := Ok(ops + [op]);
      assert r.value[|ops|..] == [op];
    case BiColourLine =>
      RunColours(lines, img, source, first, last);
      r := AppendBiColourTiles(ops, img, rect, dst, line.color0, line.color1);
    case RgbLine =>
      r := AppendBitmapTiles(ops, img, rect, dst);
  }
}
