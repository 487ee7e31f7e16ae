/** When is drawing a list of pending updates with final pixels the same as having drawn each with the
    pixels it arrived with? The exact answer, decided from the rectangles alone. */
module ReplayExactness {
  import opened Geometry
  import opened Operations
  import opened Regions

  /** Where a visible point's final colour comes from: the picture before the list, or update i's own
      pixels at (x, y). */
  datatype Origin = Before(x: int, y: int) | Drawn(i: nat, x: int, y: int)

  function OriginOf(us: seq<RegionUpdate>, visible: Rect, x: int, y: int): Origin
    decreases |us|
  {
    if us == [] then Before(x, y)
    else
      var u, rest := us[|us| - 1], us[..|us| - 1];
      if !u.rect.Intersect(visible).Contains(x, y) then OriginOf(rest, visible, x, y)
      else if IsNative(u, visible) then
        OriginOf(rest, visible, x - u.rect.minX + u.source.x, y - u.rect.minY + u.source.y)
      else Drawn(|us| - 1, x, y)
  }

  function ValueOf(o: Origin, contents: seq<Screen>, s: Screen): Rgb
    requires o.Drawn? ==> o.i < |contents|
  {
    match o case Before(x, y) => s(x, y) case Drawn(i, x, y) => contents[i](x, y)
  }

  /** A native copy takes its pixels from visible points. */
  lemma NativeSource(u: RegionUpdate, visible: Rect, x: int, y: int)
    requires IsNative(u, visible) && u.rect.Intersect(visible).Contains(x, y)
    ensures SourceRect(u).Contains(x - u.rect.minX + u.source.x, y - u.rect.minY + u.source.y)
    ensures visible.Contains(x - u.rect.minX + u.source.x, y - u.rect.minY + u.source.y)
  {
  }

  lemma {:induction false} OriginBounds(us: seq<RegionUpdate>, visible: Rect, x: int, y: int)
    ensures var o := OriginOf(us, visible, x, y);
      && (o.Drawn? ==> o.i < |us| && !IsNative(us[o.i], visible)
                       && us[o.i].rect.Intersect(visible).Contains(o.x, o.y))
      && (visible.Contains(x, y) ==> visible.Contains(o.x, o.y))
    decreases |us|
  {
    hide IsNative;
    if us != [] {
      var u, rest := us[|us| - 1], us[..|us| - 1];
      if !u.rect.Intersect(visible).Contains(x, y) {
        OriginBounds(rest, visible, x, y);
      } else if IsNative(u, visible) {
        NativeSource(u, visible, x, y);
        OriginBounds(rest, visible, x - u.rect.minX + u.source.x, y - u.rect.minY + u.source.y);
      }
    }
  }

  /** Redrawing gives each point the value of its origin. */
  lemma {:induction false} RedrawOrigin(us: seq<RegionUpdate>, contents: seq<Screen>, visible: Rect, s: Screen,
                                        x: int, y: int)
    requires |contents| == |us|
    ensures var o := OriginOf(us, visible, x, y);
      && (o.Drawn? ==> o.i < |us|)
      && RedrawAll(us, contents, visible, s)(x, y) == ValueOf(o, contents, s)
    decreases |us|
  {
    OriginBounds(us, visible, x, y);
    hide IsNative;
    if us != [] {
      var n := |us| - 1;
      var u := us[n];
      if !u.rect.Intersect(visible).Contains(x, y) {
        RedrawOrigin(us[..n], contents[..n], visible, s, x, y);
      } else if IsNative(u, visible) {
        RedrawOrigin(us[..n], contents[..n], visible, s, x - u.rect.minX + u.source.x, y - u.rect.minY + u.source.y);
      }
    }
  }

  /** The two pictures agree wherever the display shows the frame. */
  ghost predicate Agree(visible: Rect, a: Screen, b: Screen) {
    forall x, y :: visible.Contains(x, y) ==> a(x, y) == b(x, y)
  }

  /** No visible point ends up, through copies, with something a pixel rectangle drew at a place that
      was redrawn afterwards. */
  ghost predicate Safe(us: seq<RegionUpdate>, visible: Rect) {
    forall x, y :: visible.Contains(x, y) ==>
      var o := OriginOf(us, visible, x, y);
      o.Drawn? ==> OriginOf(us, visible, o.x, o.y) == o
  }

  /** Drawing every pixel rectangle with the final picture's pixels reproduces the final picture. */
  ghost predicate FinalPixelsSuffice(us: seq<RegionUpdate>, contents: seq<Screen>, visible: Rect, s: Screen)
    requires |contents| == |us|
  {
    var final := RedrawAll(us, contents, visible, s);
    Agree(visible, RedrawAll(us, Same(us, final), visible, s), final)
  }

  lemma SafeSuffices(us: seq<RegionUpdate>, contents: seq<Screen>, visible: Rect, s: Screen)
    requires |contents| == |us| && Safe(us, visible)
    ensures FinalPixelsSuffice(us, contents, visible, s)
  {
    var final := RedrawAll(us, contents, visible, s);
    forall x, y | visible.Contains(x, y)
      ensures RedrawAll(us, Same(us, final), visible, s)(x, y) == final(x, y)
    {
      RedrawOrigin(us, Same(us, final), visible, s, x, y);
      RedrawOrigin(us, contents, visible, s, x, y);
      var o := OriginOf(us, visible, x, y);
      if o.Drawn? {
        RedrawOrigin(us, contents, visible, s, o.x, o.y);
      }
    }
  }

  /** Contents that tell (i, p, q) from every other origin. */
  function Marked(n: nat, i: nat, px: int, py: int): (r: seq<Screen>)
    ensures |r| == n
  {
    seq(n, k => (x: int, y: int) => if k == i && x == px && y == py then Rgb(255, 255, 255) else Rgb(0, 0, 0))
  }

  lemma UnsafeFails(us: seq<RegionUpdate>, visible: Rect, x: int, y: int) returns (contents: seq<Screen>, s: Screen)
    requires visible.Contains(x, y) && OriginOf(us, visible, x, y).Drawn?
    requires var o := OriginOf(us, visible, x, y); OriginOf(us, visible, o.x, o.y) != o
    ensures |contents| == |us| && !FinalPixelsSuffice(us, contents, visible, s)
  {
    var o := OriginOf(us, visible, x, y);
    contents, s := Marked(|us|, o.i, o.x, o.y), (_, _) => Rgb(0, 0, 0);
    var final := RedrawAll(us, contents, visible, s);
    OriginBounds(us, visible, x, y);
    RedrawOrigin(us, contents, visible, s, x, y);
    RedrawOrigin(us, Same(us, final), visible, s, x, y);
    OriginBounds(us, visible, o.x, o.y);
    RedrawOrigin(us, contents, visible, s, o.x, o.y);
    assert final(x, y) == Rgb(255, 255, 255);
    assert RedrawAll(us, Same(us, final), visible, s)(x, y) == final(o.x, o.y) == Rgb(0, 0, 0);
  }

  /** The exact condition: final pixels reproduce the final picture for all pixels and all earlier
      pictures if and only if the list is safe. */
  lemma ExactlySafe(us: seq<RegionUpdate>, visible: Rect)
    ensures Safe(us, visible) <==>
            forall contents: seq<Screen>, s: Screen ::
              |contents| == |us| ==> FinalPixelsSuffice(us, contents, visible, s)
  {
    if Safe(us, visible) {
      forall contents: seq<Screen>, s: Screen | |contents| == |us|
        ensures FinalPixelsSuffice(us, contents, visible, s)
      {
        SafeSuffices(us, contents, visible, s);
      }
    } else {
      var x, y :| visible.Contains(x, y) && var o := OriginOf(us, visible, x, y);
        o.Drawn? && OriginOf(us, visible, o.x, o.y) != o;
      var contents, s := UnsafeFails(us, visible, x, y);
    }
  }

  /** No pixel rectangle overlaps the source of a later copy. */
  ghost predicate NoHazard(us: seq<RegionUpdate>, visible: Rect) {
    forall i, k :: 0 <= i < k < |us| && !IsNative(us[i], visible) && IsNative(us[k], visible) ==>
      !us[i].rect.Intersect(visible).Overlaps(SourceRect(us[k]))
  }

  lemma NoHazardApart(us: seq<RegionUpdate>, visible: Rect, i: nat, k: nat, x: int, y: int)
    requires NoHazard(us, visible) && i < k < |us| && !IsNative(us[i], visible) && IsNative(us[k], visible)
    ensures !(us[i].rect.Intersect(visible).Contains(x, y) && SourceRect(us[k]).Contains(x, y))
  {
  }

  lemma NoHazardInit(us: seq<RegionUpdate>, visible: Rect)
    requires NoHazard(us, visible) && us != []
    ensures NoHazard(us[..|us| - 1], visible)
  {
  }

  lemma {:induction false} NoHazardDirect(us: seq<RegionUpdate>, visible: Rect, x: int, y: int)
    requires NoHazard(us, visible)
    ensures var o := OriginOf(us, visible, x, y); o.Drawn? ==> o.x == x && o.y == y
    decreases |us|
  {
    hide NoHazard, IsNative;
    if us != [] {
      var n := |us| - 1;
      var u, rest := us[n], us[..n];
      NoHazardInit(us, visible);
      NoHazardDirect(rest, visible, x, y);
      if u.rect.Intersect(visible).Contains(x, y) && IsNative(u, visible) {
        var fx, fy := x - u.rect.minX + u.source.x, y - u.rect.minY + u.source.y;
        NoHazardDirect(rest, visible, fx, fy);
        OriginBounds(rest, visible, fx, fy);
        NativeSource(u, visible, x, y);
        var o := OriginOf(rest, visible, fx, fy);
        if o.Drawn? {
          NoHazardApart(us, visible, o.i, n, fx, fy);
        }
      }
    }
  }

  /** Lists without that overlap are safe; in particular lists without native copies. */
  lemma NoHazardSafe(us: seq<RegionUpdate>, visible: Rect)
    requires NoHazard(us, visible)
    ensures Safe(us, visible)
  {
    forall x, y | visible.Contains(x, y)
      ensures var o := OriginOf(us, visible, x, y); o.Drawn? ==> OriginOf(us, visible, o.x, o.y) == o
    {
      NoHazardDirect(us, visible, x, y);
    }
  }

  lemma CopyFreeSafe(us: seq<RegionUpdate>, visible: Rect)
    requires forall u :: u in us ==> !u.copy
    ensures Safe(us, visible)
  {
    NoHazardSafe(us, visible);
  }

  lemma OriginLast(rest: seq<RegionUpdate>, u: RegionUpdate, visible: Rect, x: int, y: int)
    ensures OriginOf(rest + [u], visible, x, y)
            == if !u.rect.Intersect(visible).Contains(x, y) then OriginOf(rest, visible, x, y)
               else if IsNative(u, visible) then
                 OriginOf(rest, visible, x - u.rect.minX + u.source.x, y - u.rect.minY + u.source.y)
               else Drawn(|rest|, x, y)
  {
    assert (rest + [u])[..|rest|] == rest;
  }

  /** The unconditional claim is false: drawing A, copying A to B, and drawing A again leaves the
      second drawing in B. */
  lemma RedrawnSourceFails() returns (us: seq<RegionUpdate>, visible: Rect, contents: seq<Screen>, s: Screen)
    ensures us == [RegionUpdate(Rect(0, 0, 1, 1), Point(0, 0), false),
                   RegionUpdate(Rect(1, 0, 2, 1), Point(0, 0), true),
                   RegionUpdate(Rect(0, 0, 1, 1), Point(0, 0), false)]
    ensures visible == Rect(0, 0, 2, 1) && |contents| == 3
    ensures !FinalPixelsSuffice(us, contents, visible, s)
  {
    us := [RegionUpdate(Rect(0, 0, 1, 1), Point(0, 0), false),
           RegionUpdate(Rect(1, 0, 2, 1), Point(0, 0), true),
           RegionUpdate(Rect(0, 0, 1, 1), Point(0, 0), false)];
    visible := Rect(0, 0, 2, 1);
    hide OriginOf;
    OriginLast([], us[0], visible, 0, 0);
    OriginLast([us[0]], us[1], visible, 1, 0);
    OriginLast(us[..2], us[2], visible, 1, 0);
    OriginLast(us[..2], us[2], visible, 0, 0);
    assert [] + [us[0]] == [us[0]] && [us[0]] + [us[1]] == us[..2] && us[..2] + [us[2]] == us;
    contents, s := UnsafeFails(us, visible, 1, 0);
  }
}
