/** A run of the whole queue that ends quiet with a screen that does not show the remote framebuffer: a
    rectangle is drawn, copied and drawn again before the display catches up. */
module StaleCopy {
  import opened Geometry
  import opened Operations
  import opened Regions
  import opened ReplayExactness
  import opened Coalescer
  import opened FrameSource
  import opened DisplayDelivery

  const LEFT := RegionUpdate(Rect(0, 0, 1, 1), Point(0, 0), false)
  const COPIED := RegionUpdate(Rect(1, 0, 2, 1), Point(0, 0), true)
  const RED := Rgb(255, 0, 0)
  const BLUE := Rgb(0, 0, 255)

  function Plain(colour: Rgb): Screen { (_, _) => colour }

  /** Draw the left pixel, copy it to the right one, and draw the left one again. */
  function Hazard(): seq<RegionUpdate> { [LEFT, COPIED, LEFT] }

  function HazardArrivals(): seq<Arrival> {
    [Raw(LEFT.rect, Plain(RED)), CopyRect(COPIED.rect, COPIED.source), Raw(LEFT.rect, Plain(BLUE))]
  }

  /** A framebuffer with room for two pixels side by side. */
  predicate Wide(bounds: Rect) { FrameBounds(bounds) && bounds.maxX >= 2 }

  /** The queue keeps the three updates as they are. */
  lemma QueueKeepsHazard(bounds: Rect)
    requires Wide(bounds)
    ensures AppendAll([], Hazard(), bounds) == Hazard()
  {
    var us := Hazard();
    assert us[..2][..1] == [LEFT] && us[..2][1] == COPIED && [LEFT][..0] == [];
    assert AppendAll([], us[..2][..1][..0], bounds) == [];
    assert AppendAll([], [LEFT], bounds) == [LEFT];
    assert AppendAll([], us[..2], bounds) == [LEFT, COPIED];
  }

  /** The right pixel's colour comes from what the first update draws at the left one. */
  lemma HazardOrigin(bounds: Rect)
    requires Wide(bounds)
    ensures OriginOf(Hazard(), bounds, 1, 0) == Drawn(0, 0, 0)
  {
    var us := Hazard();
    OriginLast([], LEFT, bounds, 0, 0);
    OriginLast([LEFT], COPIED, bounds, 1, 0);
    OriginLast([LEFT, COPIED], LEFT, bounds, 1, 0);
    hide OriginOf;
    assert [] + [LEFT] == [LEFT] && [LEFT] + [COPIED] == [LEFT, COPIED] && [LEFT, COPIED] + [LEFT] == us;
  }

  /** The geometry of a display as large as the framebuffer. */
  lemma Placement(bounds: Rect)
    requires FrameBounds(bounds)
    ensures VisibleBounds(bounds, 0, 0) == bounds
    ensures ScreenWidth(bounds, 0) == bounds.maxX && ScreenHeight(bounds, 0) == bounds.maxY
    ensures Fits(bounds, bounds.maxX, bounds.maxY)
  {
  }

  /** The rectangle lies in the frame, all of it visible. */
  predicate Inside(rect: Rect, bounds: Rect) {
    !rect.Empty() && rect.In(bounds) && rect.Intersect(bounds) == rect
  }

  lemma ReadRaw(r: Reading, rect: Rect, pixels: Screen, bounds: Rect)
    requires r.frame.bounds == bounds == VisibleBounds(bounds, 0, 0) && Inside(rect, bounds)
    ensures ReadOne(r, Raw(rect, pixels), 0, 0)
            == Some(Reading(PaintRaw(r.frame, rect, pixels), r.changed + [RegionUpdate(rect, Point(0, 0), false)],
                            r.resized))
  {
    hide VisibleBounds;
  }

  lemma ReadCopy(r: Reading, rect: Rect, source: Point, bounds: Rect)
    requires r.frame.bounds == bounds == VisibleBounds(bounds, 0, 0) && Inside(rect, bounds)
    requires SourceRect(RegionUpdate(rect, source, true)).In(bounds)
    ensures ReadOne(r, CopyRect(rect, source), 0, 0)
            == Some(Reading(PaintCopy(r.frame, rect, source), r.changed + [RegionUpdate(rect, source, true)],
                            r.resized))
  {
    hide VisibleBounds;
  }

  lemma PaintRawPoint(frame: Image, rect: Rect, pixels: Screen, x: int, y: int)
    ensures Colour(PaintRaw(frame, rect, pixels))(x, y)
            == if rect.Contains(x, y) then pixels(x, y) else Colour(frame)(x, y)
  {
    var c := pixels(x, y);
    assert c == Rgb(c.r, c.g, c.b);
    assert rect.Contains(x, y) ==> PaintRaw(frame, rect, pixels).at(x, y) == Rgba(c.r, c.g, c.b, 255);
  }

  lemma PaintCopyPoint(frame: Image, rect: Rect, source: Point, x: int, y: int)
    requires rect.Contains(x, y)
    ensures Colour(PaintCopy(frame, rect, source))(x, y)
            == Colour(frame)(x - rect.minX + source.x, y - rect.minY + source.y)
  {
  }

  lemma ReadLast(r: Reading, arrivals: seq<Arrival>, a: Arrival)
    requires ReadAll(r, arrivals, 0, 0).Some?
    ensures ReadAll(r, arrivals + [a], 0, 0) == ReadOne(ReadAll(r, arrivals, 0, 0).value, a, 0, 0)
  {
    hide ReadOne;
    assert (arrivals + [a])[..|arrivals|] == arrivals;
  }

  lemma ReadThree(r0: Reading, a0: Arrival, r1: Reading, a1: Arrival, r2: Reading, a2: Arrival)
    requires ReadOne(r0, a0, 0, 0) == Some(r1) && ReadOne(r1, a1, 0, 0) == Some(r2)
    ensures ReadAll(r0, [a0, a1, a2], 0, 0) == ReadOne(r2, a2, 0, 0)
  {
    hide ReadOne;
    assert ReadAll(r0, [], 0, 0) == Some(r0);
    ReadLast(r0, [], a0);
    ReadLast(r0, [a0], a1);
    ReadLast(r0, [a0, a1], a2);
    assert [] + [a0] == [a0] && [a0] + [a1] == [a0, a1] && [a0, a1] + [a2] == [a0, a1, a2];
  }

  lemma HazardPlaced(bounds: Rect)
    requires Wide(bounds)
    ensures Inside(LEFT.rect, bounds) && Inside(COPIED.rect, bounds) && SourceRect(COPIED).In(bounds)
    ensures LEFT.rect.Contains(0, 0) && !LEFT.rect.Contains(1, 0) && COPIED.rect.Contains(1, 0)
  {
    hide Inside;
    InsideWithin(LEFT.rect, bounds);
    InsideWithin(COPIED.rect, bounds);
  }

  lemma InsideWithin(rect: Rect, bounds: Rect)
    requires !rect.Empty() && bounds.minX <= rect.minX && bounds.minY <= rect.minY
    requires rect.maxX <= bounds.maxX && rect.maxY <= bounds.maxY
    ensures Inside(rect, bounds)
  {
  }

  /** Reading a rectangle, a copy of a point of it, and the rectangle again. */
  lemma ReadHazard(r0: Reading, left: Rect, right: Rect, source: Point, before: Screen, after: Screen, x: int, y: int,
                   bounds: Rect) returns (r1: Reading, r2: Reading, r3: Reading)
    requires r0.frame.bounds == bounds == VisibleBounds(bounds, 0, 0)
    requires Inside(left, bounds) && Inside(right, bounds) && SourceRect(RegionUpdate(right, source, true)).In(bounds)
    requires right.Contains(x, y) && !left.Contains(x, y)
    requires left.Contains(x - right.minX + source.x, y - right.minY + source.y)
    ensures ReadOne(r0, Raw(left, before), 0, 0) == Some(r1) && ReadOne(r1, CopyRect(right, source), 0, 0) == Some(r2)
    ensures ReadOne(r2, Raw(left, after), 0, 0) == Some(r3)
    ensures r3.frame.bounds == bounds && r3.resized == r0.resized
    ensures r3.changed == r0.changed + [RegionUpdate(left, Point(0, 0), false)] + [RegionUpdate(right, source, true)]
                          + [RegionUpdate(left, Point(0, 0), false)]
    ensures Colour(r3.frame)(x, y) == before(x - right.minX + source.x, y - right.minY + source.y)
    ensures forall x, y :: left.Contains(x, y) ==> Colour(r3.frame)(x, y) == after(x, y)
  {
    hide ReadOne, Colour, VisibleBounds, SourceRect;
    ReadRaw(r0, left, before, bounds);
    r1 := ReadOne(r0, Raw(left, before), 0, 0).value;
    PaintRawPoint(r0.frame, left, before, x - right.minX + source.x, y - right.minY + source.y);
    ReadCopy(r1, right, source, bounds);
    r2 := ReadOne(r1, CopyRect(right, source), 0, 0).value;
    PaintCopyPoint(r1.frame, right, source, x, y);
    ReadRaw(r2, left, after, bounds);
    r3 := ReadOne(r2, Raw(left, after), 0, 0).value;
    forall p, q | left.Contains(p, q)
      ensures Colour(r3.frame)(p, q) == after(p, q)
    {
      PaintRawPoint(r2.frame, left, after, p, q);
    }
    PaintRawPoint(r2.frame, left, after, x, y);
  }

  /** Reading the message leaves blue on the left, red on the right, and reports the three updates. */
  lemma HazardRead(bounds: Rect, start: Image)
    requires Wide(bounds) && start.bounds == bounds
    ensures var r := ReadAll(Reading(start, [], false), HazardArrivals(), 0, 0);
      && r.Some? && r.value.frame.bounds == bounds && r.value.changed == Hazard() && !r.value.resized
      && Colour(r.value.frame)(0, 0) == BLUE && Colour(r.value.frame)(1, 0) == RED
  {
    hide ReadAll, ReadOne, Colour, VisibleBounds, SourceRect, Inside;
    Placement(bounds);
    HazardPlaced(bounds);
    var r0 := Reading(start, [], false);
    var r1, r2, r3 := ReadHazard(r0, LEFT.rect, COPIED.rect, COPIED.source, Plain(RED), Plain(BLUE), 1, 0, bounds);
    var a := HazardArrivals();
    ReadThree(r0, a[0], r1, a[1], r2, a[2]);
  }

  /** A session that shows its remote framebuffer and has nothing to do. */
  ghost predicate Quiet(bounds: Rect, s: System) {
    && Inv(s, 0, 0) && s.remote.bounds == bounds && s.synced
    && s.queue.latest.Some? && s.queue.pending == [] && s.flight.None?
  }

  lemma QuietNotResized(bounds: Rect, s: System)
    requires Wide(bounds)
    requires Quiet(bounds, s)
    ensures s.queue.latest.value.bounds == bounds && !s.queue.resized
  {
    VisibleIsView(bounds, 0, 0);
    NothingCovers(VisibleBounds(bounds, 0, 0));
  }

  /** The queue after the message: the three updates wait, and the frame it holds is blue on the left. */
  lemma HazardQueued(bounds: Rect, s: System) returns (t: System)
    requires Wide(bounds)
    requires Quiet(bounds, s)
    ensures Next(s, UpdateEvent(HazardArrivals()), t, 0, 0)
    ensures t.queue.pending == Hazard() && !t.queue.resized && t.flight.None? && t.queue.latest.Some?
    ensures var latest := t.queue.latest.value; latest.bounds == bounds && Colour(latest)(0, 0) == BLUE
    ensures t.remote.bounds == bounds && Colour(t.remote)(1, 0) == RED
  {
    QuietNotResized(bounds, s);
    hide Quiet, Inv, ReadAll, HazardArrivals, DrawAll, AppendAll;
    HazardRead(bounds, s.remote);
    QueueKeepsHazard(bounds);
    var r := ReadAll(Reading(s.remote, [], false), HazardArrivals(), 0, 0).value;
    t := s.(remote := r.frame, queue := EnqueueSpec(s.queue, r.frame, r.changed, r.resized));
    DrawAllPoint(s.queue.latest.value, Hazard(), r.frame, 0, 0);
    assert Hazard()[0].rect.Contains(0, 0);
  }

  lemma HazardSnapshot(bounds: Rect, latest: Image)
    requires Wide(bounds)
    requires latest.bounds == bounds && Colour(latest)(0, 0) == BLUE
    ensures |Hazard()| == 3
    ensures SnapshotOf(latest, Hazard()).bounds == bounds && Colour(SnapshotOf(latest, Hazard()))(0, 0) == BLUE
  {
    hide DrawPart;
    DrawPartPoint(NewImage(bounds), Hazard(), latest, 0, 0);
    assert Hazard()[0].rect.Contains(0, 0);
  }

  /** Taken and delivered, the right pixel is blue where the remote framebuffer is red. */
  lemma HazardDelivered(bounds: Rect, s: System) returns (t: System, u: System, screen: Screen)
    requires Wide(bounds)
    requires s.queue.pending == Hazard() && !s.queue.resized && s.flight.None? && s.queue.latest.Some?
    requires s.queue.latest.value.bounds == bounds && Colour(s.queue.latest.value)(0, 0) == BLUE
    ensures Next(s, TakeEvent, t, 0, 0) && Next(t, DeliverEvent(screen), u, 0, 0)
    ensures u.flight.None? && u.queue.pending == [] && u.queue.latest.Some? && u.remote == s.remote
    ensures u.screen(1, 0) == BLUE
  {
    hide RedrawAll, SnapshotOf, Safe, OriginOf, Hazard, Visible, OffsetX, OffsetY, ScreenWidth, ScreenHeight,
         VisibleBounds;
    var us := Hazard();
    var d := Delivery(SnapshotOf(s.queue.latest.value, us), us, false);
    t := s.(queue := s.queue.(pending := [], resized := false), taken := s.queue.latest.value, flight := Some(d));
    HazardSnapshot(bounds, s.queue.latest.value);
    Placement(bounds);
    HazardOrigin(bounds);
    screen := RedrawAll(us, Same(us, Colour(d.snapshot)), bounds, Unshift(t.screen, 0, 0));
    RedrawOrigin(us, Same(us, Colour(d.snapshot)), bounds, Unshift(t.screen, 0, 0), 1, 0);
    u := t.(flight := None, shown := t.taken, screen := screen, first := false,
            synced := d.resized || (t.synced && Safe(d.changed, VisibleBounds(d.snapshot.bounds, 0, 0))));
  }

  /** The frame is shown as it is on a screen of its own size. */
  ghost predicate Fits(bounds: Rect, width: int, height: int) {
    && bounds == Rect(0, 0, width, height) && Visible(bounds, width, height) == bounds
    && OffsetX(bounds, width) == 0 && OffsetY(bounds, height) == 0
  }

  lemma ShowsItself(frame: Screen, bounds: Rect, width: int, height: int)
    requires Fits(bounds, width, height)
    ensures Shows(frame, frame, bounds, width, height)
  {
    hide Visible, OffsetX, OffsetY;
  }

  lemma NotShown(screen: Screen, frame: Screen, bounds: Rect, width: int, height: int)
    requires Fits(bounds, width, height) && bounds.Contains(1, 0) && screen(1, 0) != frame(1, 0)
    ensures !Shows(screen, frame, bounds, width, height)
  {
    hide Visible, OffsetX, OffsetY;
    assert Rect(0, 0, width, height).Contains(1 + OffsetX(bounds, width), 0 + OffsetY(bounds, height));
    assert Unshift(screen, 0, 0)(1, 0) == screen(1, 0);
  }

  /** A first message that fills the framebuffer, taken and delivered. */
  lemma Started(bounds: Rect, screen0: Screen) returns (s: System, events: seq<Event>, t: System)
    requires Wide(bounds)
    ensures Initial(s) && Reaches(s, events, t, 0, 0) && Quiet(bounds, t)
  {
    var blank := NewImage(bounds);
    s := System(blank, Queue(None, [], false, false), blank, None, blank, screen0, true, false);
    InitialOk(s);
    var t1 := FirstMessage(bounds, s);
    NextKeeps(s, UpdateEvent([Raw(bounds, Plain(RED))]), t1, 0, 0);
    var t2, t3, screen := FirstDelivered(bounds, t1);
    NextKeeps(t1, TakeEvent, t2, 0, 0);
    NextKeeps(t2, DeliverEvent(screen), t3, 0, 0);
    t := t3;
    events := [UpdateEvent([Raw(bounds, Plain(RED))]), TakeEvent, DeliverEvent(screen)];
    ThreeEvents(s, events[0], t1, events[1], t2, events[2], t3);
    assert events == [events[0], events[1], events[2]];
  }

  lemma InitialOk(s: System)
    requires Initial(s)
    ensures Inv(s, 0, 0)
  {
  }

  lemma FirstMessage(bounds: Rect, s: System) returns (t: System)
    requires Wide(bounds)
    requires Initial(s) && s.remote.bounds == bounds
    ensures Next(s, UpdateEvent([Raw(bounds, Plain(RED))]), t, 0, 0)
    ensures t.queue.latest.Some? && t.queue.latest.value.bounds == bounds && t.queue.resized && t.queue.pending != []
    ensures t.flight.None? && t.remote.bounds == bounds
  {
    var a := [Raw(bounds, Plain(RED))];
    var r0 := Reading(s.remote, [], false);
    assert a[..0] == [];
    assert ReadAll(r0, a[..0], 0, 0) == Some(r0);
    var r := ReadAll(r0, a, 0, 0).value;
    t := s.(remote := r.frame, queue := EnqueueSpec(s.queue, r.frame, r.changed, r.resized));
    EnqueueFresh(s.queue, r.frame, r.changed, r.resized, s.taken, 0, 0);
    VisibleIsView(bounds, 0, 0);
    var whole := [WholeFrame(bounds)];
    assert whole[..0] == [] && AppendAll([], whole[..0], bounds) == [];
    assert AppendAll([], whole, bounds) == Append([], WholeFrame(bounds), bounds) == whole;
  }

  lemma FirstDelivered(bounds: Rect, s: System) returns (t: System, u: System, screen: Screen)
    requires Wide(bounds)
    requires s.queue.latest.Some? && s.queue.latest.value.bounds == bounds && s.queue.resized && s.queue.pending != []
    requires s.flight.None? && s.remote.bounds == bounds
    ensures Next(s, TakeEvent, t, 0, 0) && Next(t, DeliverEvent(screen), u, 0, 0)
    ensures u.flight.None? && u.queue.pending == [] && u.queue.latest.Some? && u.synced && u.remote == s.remote
  {
    var d := Delivery(SnapshotOf(s.queue.latest.value, s.queue.pending), s.queue.pending, true);
    t := s.(queue := s.queue.(pending := [], resized := false), taken := s.queue.latest.value, flight := Some(d));
    hide SnapshotOf, Safe, Visible, OffsetX, OffsetY, ScreenWidth, ScreenHeight, VisibleBounds, Colour;
    SnapshotBounds(bounds, s.queue.latest.value, s.queue.pending);
    Placement(bounds);
    screen := Colour(d.snapshot);
    ShowsItself(screen, bounds, bounds.maxX, bounds.maxY);
    u := t.(flight := None, shown := t.taken, screen := screen, first := false, synced := true);
  }

  lemma SnapshotBounds(bounds: Rect, latest: Image, us: seq<RegionUpdate>)
    requires Wide(bounds) && latest.bounds == bounds
    ensures SnapshotOf(latest, us).bounds == bounds
  {
    hide DrawPart;
    DrawPartPoint(NewImage(bounds), us, latest, 0, 0);
  }

  lemma ThreeEvents(s: System, a: Event, t: System, b: Event, u: System, c: Event, v: System)
    requires Next(s, a, t, 0, 0) && Next(t, b, u, 0, 0) && Next(u, c, v, 0, 0)
    ensures Reaches(s, [a, b, c], v, 0, 0)
  {
    hide Next;
    assert [a, b, c][1..] == [b, c] && [b, c][1..] == [c] && [c][1..] == [];
    assert Reaches(v, [], v, 0, 0);
    assert Reaches(u, [c], v, 0, 0);
    assert Reaches(t, [b, c], v, 0, 0);
  }

  lemma {:induction false} ReachesConcat(s: System, a: seq<Event>, t: System, b: seq<Event>, u: System)
    requires Reaches(s, a, t, 0, 0) && Reaches(t, b, u, 0, 0)
    ensures Reaches(s, a + b, u, 0, 0)
    decreases |a|
  {
    hide Next;
    if a == [] {
      assert a + b == b;
    } else {
      var m :| Next(s, a[0], m, 0, 0) && Reaches(m, a[1..], t, 0, 0);
      ReachesConcat(m, a[1..], t, b, u);
      assert (a + b)[0] == a[0] && (a + b)[1..] == a[1..] + b;
    }
  }

  /** From a new session to a quiet one whose screen is wrong. */
  lemma QuietScreenFails(bounds: Rect, screen0: Screen) returns (s: System, events: seq<Event>, t: System)
    requires Wide(bounds)
    ensures Initial(s) && Reaches(s, events, t, 0, 0)
    ensures t.flight.None? && t.queue.pending == [] && t.queue.latest.Some?
    ensures !Shows(t.screen, Colour(t.remote), t.remote.bounds,
                   ScreenWidth(t.remote.bounds, 0), ScreenHeight(t.remote.bounds, 0))
  {
    hide Initial, Reaches, Next, Shows, Colour, Hazard, HazardArrivals, Fits, ScreenWidth, ScreenHeight;
    var first, ready;
    s, first, ready := Started(bounds, screen0);
    var queued := HazardQueued(bounds, ready);
    var taken, screen;
    taken, t, screen := HazardDelivered(bounds, queued);
    ThreeEvents(ready, UpdateEvent(HazardArrivals()), queued, TakeEvent, taken, DeliverEvent(screen), t);
    events := first + [UpdateEvent(HazardArrivals()), TakeEvent, DeliverEvent(screen)];
    ReachesConcat(s, first, ready, [UpdateEvent(HazardArrivals()), TakeEvent, DeliverEvent(screen)], t);
    Placement(bounds);
    NotShown(t.screen, Colour(t.remote), bounds, bounds.maxX, bounds.maxY);
  }
}
