/** The frame queue of internal/vnc/session.go: enqueueFrame, RequestFullFrame, the take in frameLoop,
    and appendChangedUpdate's merging of pending updates. */
module Coalescer {
  import opened Geometry
  import opened Operations
  import opened Regions

  const MERGE_DISTANCE: nat := 8
  const MAX_PENDING: nat := 127

  /** The fields of a session that the frame queue uses; `wake` is the one-place frameWake channel. */
  datatype Queue = Queue(latest: Option<Image>, pending: seq<RegionUpdate>, resized: bool, wake: bool)

  /** A snapshot handed to OnFrame. */
  datatype Delivery = Delivery(snapshot: Image, changed: seq<RegionUpdate>, resized: bool)

  // ---------- merging ----------

  predicate Nearby(u: RegionUpdate, rect: Rect, bounds: Rect) {
    u.rect.Grow(MERGE_DISTANCE).Intersect(bounds).Overlaps(rect)
  }

  /** What is left of the updates, and the grown rectangle, after the final run of pixel updates was
      searched from its end for rectangles near `rect`. */
  function MergeRun(updates: seq<RegionUpdate>, rect: Rect, bounds: Rect): (seq<RegionUpdate>, Rect)
    decreases |updates|
  {
    if updates == [] || updates[|updates| - 1].copy then (updates, rect)
    else
      var u, init := updates[|updates| - 1], updates[..|updates| - 1];
      if Nearby(u, rect, bounds) then MergeRun(init, rect.Union(u.rect), bounds)
      else
        var (rest, grown) := MergeRun(init, rect, bounds);
        (rest + [u], grown)
  }

  function Append(updates: seq<RegionUpdate>, changed: RegionUpdate, bounds: Rect): seq<RegionUpdate> {
    var u := changed.(rect := changed.rect.Intersect(bounds));
    if u.rect.Empty() then updates
    else
      var (rest, rect) := if u.copy then (updates, u.rect) else MergeRun(updates, u.rect, bounds);
      if |rest| >= MAX_PENDING then [RegionUpdate(bounds, Point(0, 0), false)]
      else rest + [u.(rect := rect)]
  }

  lemma MergeStep(us: seq<RegionUpdate>, i: nat, rect: Rect, bounds: Rect)
    requires i < |us| && !us[i].copy
    ensures MergeRun(us[..i + 1], rect, bounds)
            == if Nearby(us[i], rect, bounds) then MergeRun(us[..i], rect.Union(us[i].rect), bounds)
               else
                 var (rest, grown) := MergeRun(us[..i], rect, bounds);
                 (rest + [us[i]], grown)
  {
    hide Nearby;
    assert us[..i + 1][..i] == us[..i];
  }

  lemma MergeEnds(us: seq<RegionUpdate>, rect: Rect, bounds: Rect)
    requires us == [] || us[|us| - 1].copy
    ensures MergeRun(us, rect, bounds) == (us, rect)
  {
  }

  /** Before the loop looks at update i: the updates up to i are untouched, `kept` follows them, and
      merging goes on with the rectangle grown so far. */
  ghost predicate Merging(updates: seq<RegionUpdate>, rect: Rect, bounds: Rect,
                          i: int, r: seq<RegionUpdate>, grown: Rect, kept: seq<RegionUpdate>)
  {
    && -1 <= i < |updates| && r == updates[..i + 1] + kept
    && MergeRun(updates, rect, bounds)
       == (MergeRun(updates[..i + 1], grown, bounds).0 + kept, MergeRun(updates[..i + 1], grown, bounds).1)
  }

  lemma MergingStarts(updates: seq<RegionUpdate>, rect: Rect, bounds: Rect)
    ensures Merging(updates, rect, bounds, |updates| - 1, updates, rect, [])
  {
    hide MergeRun;
    var rest := MergeRun(updates, rect, bounds).0;
    assert updates[..|updates|] == updates && updates + [] == updates && rest + [] == rest;
  }

  lemma MergingAt(updates: seq<RegionUpdate>, rect: Rect, bounds: Rect,
                  i: int, r: seq<RegionUpdate>, grown: Rect, kept: seq<RegionUpdate>)
    requires Merging(updates, rect, bounds, i, r, grown, kept)
    ensures -1 <= i < |updates| && i < |r| && (i >= 0 ==> r[i] == updates[i])
  {
  }

  lemma MergingNear(updates: seq<RegionUpdate>, rect: Rect, bounds: Rect,
                    i: nat, r: seq<RegionUpdate>, grown: Rect, kept: seq<RegionUpdate>)
    requires Merging(updates, rect, bounds, i, r, grown, kept)
    requires i < |r| && !updates[i].copy && Nearby(updates[i], grown, bounds)
    ensures Merging(updates, rect, bounds, i - 1, r[..i] + r[i + 1..], grown.Union(updates[i].rect), kept)
  {
    hide MergeRun, Nearby;
    MergeStep(updates, i, grown, bounds);
    assert r[..i] == updates[..i] && r[i + 1..] == kept;
  }

  lemma MergingFar(updates: seq<RegionUpdate>, rect: Rect, bounds: Rect,
                   i: nat, r: seq<RegionUpdate>, grown: Rect, kept: seq<RegionUpdate>)
    requires Merging(updates, rect, bounds, i, r, grown, kept)
    requires !updates[i].copy && !Nearby(updates[i], grown, bounds)
    ensures Merging(updates, rect, bounds, i - 1, r, grown, [updates[i]] + kept)
  {
    hide MergeRun, Nearby;
    MergeStep(updates, i, grown, bounds);
    Regroup(updates[..i], updates[i], kept);
    assert updates[..i + 1] == updates[..i] + [updates[i]];
    Regroup(MergeRun(updates[..i], grown, bounds).0, updates[i], kept);
  }

  lemma MergingEnds(updates: seq<RegionUpdate>, rect: Rect, bounds: Rect,
                    i: int, r: seq<RegionUpdate>, grown: Rect, kept: seq<RegionUpdate>)
    requires Merging(updates, rect, bounds, i, r, grown, kept) && (i < 0 || updates[i].copy)
    ensures MergeRun(updates, rect, bounds) == (r, grown)
  {
    MergeEnds(updates[..i + 1], grown, bounds);
  }

  lemma Regroup(a: seq<RegionUpdate>, u: RegionUpdate, b: seq<RegionUpdate>)
    ensures (a + [u]) + b == a + ([u] + b)
  {
  }

  /** The loop of appendChangedUpdate over the final run of pixel updates. */
  method MergeFinalRun(updates: seq<RegionUpdate>, rect: Rect, bounds: Rect) returns (r: seq<RegionUpdate>, grown: Rect)
    ensures (r, grown) == MergeRun(updates, rect, bounds)
  {
    hide MergeRun, Nearby, Merging;
    r, grown := updates, rect;
    ghost var kept: seq<RegionUpdate> := [];
    var i := |r| - 1;
    MergingStarts(updates, rect, bounds);
    MergingAt(updates, rect, bounds, i, r, grown, kept);
    while i >= 0 && !r[i].copy
      invariant -1 <= i < |updates| && i < |r| && (i >= 0 ==> r[i] == updates[i])
      invariant Merging(updates, rect, bounds, i, r, grown, kept)
    {
      if Nearby(r[i], grown, bounds) {
        MergingNear(updates, rect, bounds, i, r, grown, kept);
        grown := grown.Union(r[i].rect);
        r := r[..i] + r[i + 1..];
      } else {
        MergingFar(updates, rect, bounds, i, r, grown, kept);
        kept := [updates[i]] + kept;
      }
      i := i - 1;
      MergingAt(updates, rect, bounds, i, r, grown, kept);
    }
    MergingEnds(updates, rect, bounds, i, r, grown, kept);
  }

  method AppendChangedUpdate(updates: seq<RegionUpdate>, changed: RegionUpdate, bounds: Rect)
    returns (r: seq<RegionUpdate>)
    ensures r == Append(updates, changed, bounds)
  {
    hide MergeRun, Nearby;
    var u := changed.(rect := changed.rect.Intersect(bounds));
    if u.rect.Empty() {
      return updates;
    }
    r := updates;
    if !u.copy {
      var merged, grown := MergeFinalRun(updates, u.rect, bounds);
      r, u := merged, u.(rect := grown);
    }
    if |r| >= MAX_PENDING {
      return [RegionUpdate(bounds, Point(0, 0), false)];
    }
    r := r + [u];
  }

  // ---------- the queue ----------

  /** Go's image.NewRGBA: transparent black. */
  function NewImage(bounds: Rect): Image {
    Image(bounds, (_, _) => Rgba(0, 0, 0, 0))
  }

  /** draw.Draw(to, rect, from, rect.Min, draw.Src). */
  function Draw(to: Image, rect: Rect, from: Image): Image {
    Image(to.bounds, (x: int, y: int) =>
      if rect.Intersect(to.bounds).Intersect(from.bounds).Contains(x, y) then from.at(x, y) else to.at(x, y))
  }

  function DrawAll(to: Image, updates: seq<RegionUpdate>, from: Image): Image {
    if updates == [] then to
    else
      var n := |updates| - 1;
      var rect := updates[n].rect.Intersect(from.bounds);
      var done := DrawAll(to, updates[..n], from);
      if rect.Empty() then done else Draw(done, rect, from)
  }

  function AppendAll(pending: seq<RegionUpdate>, updates: seq<RegionUpdate>, bounds: Rect): seq<RegionUpdate> {
    if updates == [] then pending
    else Append(AppendAll(pending, updates[..|updates| - 1], bounds), updates[|updates| - 1], bounds)
  }

  /** The frame's size differs from the one held, or none is held. */
  predicate Fresh(q: Queue, frame: Image) {
    q.latest.None? || q.latest.value.bounds != frame.bounds
  }

  function WholeFrame(bounds: Rect): RegionUpdate { RegionUpdate(bounds, Point(0, 0), false) }

  function EnqueueSpec(q: Queue, frame: Image, changed: seq<RegionUpdate>, resized: bool): Queue {
    if |changed| == 0 then q
    else if Fresh(q, frame) then
      var whole := [WholeFrame(frame.bounds)];
      Queue(Some(DrawAll(NewImage(frame.bounds), whole, frame)), AppendAll([], whole, frame.bounds), true, true)
    else
      Queue(Some(DrawAll(q.latest.value, changed, frame)), AppendAll(q.pending, changed, frame.bounds),
            q.resized || resized, true)
  }

  function RequestFullFrameSpec(q: Queue): Queue {
    if q.latest.None? then q
    else Queue(q.latest, [WholeFrame(q.latest.value.bounds)], true, true)
  }

  /** What frameLoop hands over, and the queue it leaves, if there is work. */
  function TakeSpec(q: Queue): (Queue, Option<Delivery>) {
    if |q.pending| == 0 || q.latest.None? then (q, None)
    else
      (q.(pending := [], resized := false),
       Some(Delivery(SnapshotOf(q.latest.value, q.pending), q.pending, q.resized)))
  }

  function SnapshotOf(latest: Image, changed: seq<RegionUpdate>): Image {
    DrawPart(NewImage(latest.bounds), changed, latest)
  }

  function DrawPart(to: Image, updates: seq<RegionUpdate>, from: Image): Image {
    if updates == [] then to
    else Draw(DrawPart(to, updates[..|updates| - 1], from), updates[|updates| - 1].rect, from)
  }

  class Session {
    var latest: Option<Image>
    var pendingChanged: seq<RegionUpdate>
    var pendingResized: bool
    var frameWake: bool

    ghost function View(): Queue
      reads this
    {
      Queue(latest, pendingChanged, pendingResized, frameWake)
    }

    constructor ()
      ensures View() == Queue(None, [], false, false)
    {
      latest, pendingChanged, pendingResized, frameWake := None, [], false, false;
    }

    method RequestFullFrame()
      modifies this
      ensures View() == RequestFullFrameSpec(old(View()))
      ensures latest == old(latest)
      ensures latest.Some? ==> pendingChanged == [RegionUpdate(latest.value.bounds, Point(0, 0), false)]
                               && pendingResized && frameWake
      ensures latest.None? ==> View() == old(View())
    {
      if latest.None? {
        return;
      }
      pendingChanged := [WholeFrame(latest.value.bounds)];
      pendingResized := true;
      frameWake := true;
    }

    method EnqueueFrame(frame: Image, changed: seq<RegionUpdate>, resized: bool)
      modifies this
      ensures View() == EnqueueSpec(old(View()), frame, changed, resized)
    {
      if |changed| == 0 {
        return;
      }
      var updates, forced := changed, resized;
      if latest.None? || latest.value.bounds != frame.bounds {
        latest := Some(NewImage(frame.bounds));
        pendingChanged := [];
        updates := [WholeFrame(frame.bounds)];
        forced := true;
      }
      ghost var image0, pending0 := latest.value, pendingChanged;
      var i := 0;
      while i < |updates|
        invariant 0 <= i <= |updates|
        invariant latest == Some(DrawAll(image0, updates[..i], frame))
        invariant pendingChanged == AppendAll(pending0, updates[..i], frame.bounds)
        invariant pendingResized == old(pendingResized)
      {
        assert updates[..i + 1][..i] == updates[..i];
        var rectangle := updates[i].rect.Intersect(frame.bounds);
        if !rectangle.Empty() {
          latest := Some(Draw(latest.value, rectangle, frame));
          ClipTwice(pendingChanged, updates[i], frame.bounds);
          pendingChanged := AppendChangedUpdate(pendingChanged, updates[i].(rect := rectangle), frame.bounds);
        }
        i := i + 1;
      }
      assert updates[..i] == updates;
      pendingResized := pendingResized || forced;
      frameWake := true;
    }

    /** The locked part of frameLoop. */
    method Take() returns (d: Option<Delivery>)
      modifies this
      ensures (View(), d) == TakeSpec(old(View()))
    {
      var changed := pendingChanged;
      var resized := pendingResized;
      if |changed| == 0 || latest.None? {
        return None;
      }
      var snapshot := NewImage(latest.value.bounds);
      var i := 0;
      while i < |changed|
        invariant 0 <= i <= |changed|
        invariant snapshot == DrawPart(NewImage(latest.value.bounds), changed[..i], latest.value)
        invariant View() == old(View())
      {
        assert changed[..i + 1][..i] == changed[..i];
        snapshot := Draw(snapshot, changed[i].rect, latest.value);
        i := i + 1;
      }
      assert changed[..i] == changed;
      pendingChanged := [];
      pendingResized := false;
      return Some(Delivery(snapshot, changed, resized));
    }
  }

  lemma ClipTwice(updates: seq<RegionUpdate>, u: RegionUpdate, bounds: Rect)
    ensures Append(updates, u.(rect := u.rect.Intersect(bounds)), bounds) == Append(updates, u, bounds)
  {
  }
}
