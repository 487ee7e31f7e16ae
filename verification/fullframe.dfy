/** Full-frame requests (the resync handler): what waits after one, and that the next delivery repairs the
    screen whatever was drawn before. */
module FullFrame {
  import opened Geometry
  import opened Operations
  import opened Regions
  import opened ReplayExactness
  import opened Coalescer
  import opened FrameSource
  import opened DisplayDelivery

  /** A full redraw of the latest frame waits: a token is posted, and pixel rectangles cover all that is
      visible. */
  ghost predicate RedrawWaits(s: System, viewWidth: nat, viewHeight: nat) {
    && s.queue.latest.Some? && s.queue.resized && s.queue.wake && s.queue.pending != []
    && RawCover(s.queue.pending, VisibleBounds(s.queue.latest.value.bounds, viewWidth, viewHeight))
  }

  /** In every reachable session with a frame, a full-frame request leaves a full redraw waiting and
      changes nothing else. Without a frame it changes nothing. */
  lemma RequestQueuesRedraw(s: System, events: seq<Event>, a: System, b: System, viewWidth: nat, viewHeight: nat)
    requires Initial(s) && Reaches(s, events, a, viewWidth, viewHeight)
    requires Next(a, FullFrameEvent, b, viewWidth, viewHeight)
    ensures a.queue.latest.Some? ==> RedrawWaits(b, viewWidth, viewHeight)
    ensures b == a.(queue := b.queue) && b.queue.latest == a.queue.latest
    ensures a.queue.latest.None? ==> b == a
  {
    InitialOk(s, viewWidth, viewHeight);
    RunKeeps(s, events, a, viewWidth, viewHeight);
    NextKeeps(a, FullFrameEvent, b, viewWidth, viewHeight);
  }

  lemma InitialOk(s: System, viewWidth: nat, viewHeight: nat)
    requires Initial(s)
    ensures Inv(s, viewWidth, viewHeight)
  {
  }

  /** A full redraw is in the queue. */
  predicate Waiting(q: Queue) {
    q.latest.Some? && q.resized && q.wake && q.pending != []
  }

  lemma AppendSome(us: seq<RegionUpdate>, u: RegionUpdate, bounds: Rect)
    requires us != []
    ensures Append(us, u, bounds) != []
  {
    hide MergeRun;
  }

  lemma {:induction false} AppendAllSome(pending: seq<RegionUpdate>, us: seq<RegionUpdate>, bounds: Rect)
    requires pending != []
    ensures AppendAll(pending, us, bounds) != []
    decreases |us|
  {
    hide Append;
    if us != [] {
      AppendAllSome(pending, us[..|us| - 1], bounds);
      AppendSome(AppendAll(pending, us[..|us| - 1], bounds), us[|us| - 1], bounds);
    }
  }

  lemma WholeAppended(bounds: Rect)
    requires !bounds.Empty()
    ensures AppendAll([], [WholeFrame(bounds)], bounds) != []
  {
    assert [WholeFrame(bounds)][..0] == [];
    assert AppendAll([], [WholeFrame(bounds)][..0], bounds) == [];
  }

  lemma EnqueueKeepsWaiting(q: Queue, frame: Image, changed: seq<RegionUpdate>, resized: bool)
    requires Waiting(q) && !frame.bounds.Empty()
    ensures Waiting(EnqueueSpec(q, frame, changed, resized))
  {
    hide AppendAll, DrawAll;
    AppendAllSome(q.pending, changed, frame.bounds);
    WholeAppended(frame.bounds);
  }

  /** Only a take removes it. */
  lemma WaitingStays(s: System, e: Event, t: System, viewWidth: nat, viewHeight: nat)
    requires Inv(s, viewWidth, viewHeight) && Waiting(s.queue) && Next(s, e, t, viewWidth, viewHeight) && !e.TakeEvent?
    ensures Waiting(t.queue)
  {
    hide EnqueueSpec, Delivered, ReadAll;
    NextKeeps(s, e, t, viewWidth, viewHeight);
    RemoteBounds(t, viewWidth, viewHeight);
    match e
    case UpdateEvent(arrivals) =>
      var r := ReadAll(Reading(s.remote, [], false), arrivals, viewWidth, viewHeight).value;
      EnqueueKeepsWaiting(s.queue, r.frame, r.changed, r.resized);
    case ScaledEvent(frame, rects, full) =>
      EnqueueKeepsWaiting(s.queue, frame, RawUpdates(rects), full);
    case _ =>
  }

  lemma {:induction false} WaitingUntilTaken(s: System, events: seq<Event>, t: System, viewWidth: nat, viewHeight: nat)
    requires Inv(s, viewWidth, viewHeight) && Waiting(s.queue) && Reaches(s, events, t, viewWidth, viewHeight)
    requires forall e :: e in events ==> !e.TakeEvent?
    ensures Inv(t, viewWidth, viewHeight) && Waiting(t.queue)
    decreases |events|
  {
    hide Inv, Next, Waiting;
    if events != [] {
      var m :| Next(s, events[0], m, viewWidth, viewHeight) && Reaches(m, events[1..], t, viewWidth, viewHeight);
      assert events[0] in events;
      NextKeeps(s, events[0], m, viewWidth, viewHeight);
      WaitingStays(s, events[0], m, viewWidth, viewHeight);
      WaitingUntilTaken(m, events[1..], t, viewWidth, viewHeight);
    }
  }

  /** What was taken stays under way until it is delivered. */
  lemma {:induction false} FlightUntilDelivered(s: System, events: seq<Event>, t: System, viewWidth: nat,
                                                viewHeight: nat)
    requires s.flight.Some? && Reaches(s, events, t, viewWidth, viewHeight)
    requires forall e :: e in events ==> !e.DeliverEvent?
    ensures t.flight == s.flight
    decreases |events|
  {
    hide EnqueueSpec, RequestFullFrameSpec, ReadAll, TakeSpec;
    if events != [] {
      var m :| Next(s, events[0], m, viewWidth, viewHeight) && Reaches(m, events[1..], t, viewWidth, viewHeight);
      assert events[0] in events;
      FlightUntilDelivered(m, events[1..], t, viewWidth, viewHeight);
    }
  }

  lemma WaitingIsTaken(s: System, t: System, viewWidth: nat, viewHeight: nat)
    requires Waiting(s.queue) && Next(s, TakeEvent, t, viewWidth, viewHeight)
    ensures t.flight.Some? && t.flight.value.resized
  {
  }

  /** A run after a request: events up to the next take, the take, events up to its delivery, the delivery. */
  ghost predicate Repairs(b: System, waiting: seq<Event>, c: System, d: System, drawing: seq<Event>, e: System,
                          screen: Screen, f: System, viewWidth: nat, viewHeight: nat) {
    && Reaches(b, waiting, c, viewWidth, viewHeight) && (forall x :: x in waiting ==> !x.TakeEvent?)
    && Next(c, TakeEvent, d, viewWidth, viewHeight)
    && Reaches(d, drawing, e, viewWidth, viewHeight) && (forall x :: x in drawing ==> !x.DeliverEvent?)
    && Next(e, DeliverEvent(screen), f, viewWidth, viewHeight)
  }

  /** Whatever unsafe lists were drawn before, and whatever arrives meanwhile: after a full-frame request the
      next take and its delivery leave a screen that shows the frame that was taken, and that shows the
      remote framebuffer if nothing is pending. */
  lemma RequestRepairsScreen(s: System, before: seq<Event>, a: System, b: System, waiting: seq<Event>, c: System,
                             d: System, drawing: seq<Event>, e: System, screen: Screen, f: System,
                             viewWidth: nat, viewHeight: nat)
    requires Initial(s) && Reaches(s, before, a, viewWidth, viewHeight) && a.queue.latest.Some?
    requires Next(a, FullFrameEvent, b, viewWidth, viewHeight)
    requires Repairs(b, waiting, c, d, drawing, e, screen, f, viewWidth, viewHeight)
    ensures f.synced
    ensures Shows(f.screen, Colour(f.shown), f.shown.bounds,
                  ScreenWidth(f.shown.bounds, viewWidth), ScreenHeight(f.shown.bounds, viewHeight))
    ensures f.queue.pending == [] && f.queue.latest.Some? ==>
              Shows(f.screen, Colour(f.remote), f.remote.bounds,
                    ScreenWidth(f.remote.bounds, viewWidth), ScreenHeight(f.remote.bounds, viewHeight))
  {
    hide Inv, Next, Shows, Waiting;
    InitialOk(s, viewWidth, viewHeight);
    RunKeeps(s, before, a, viewWidth, viewHeight);
    RequestQueuesRedraw(s, before, a, b, viewWidth, viewHeight);
    NextKeeps(a, FullFrameEvent, b, viewWidth, viewHeight);
    RedrawWaiting(b, viewWidth, viewHeight);
    WaitingUntilTaken(b, waiting, c, viewWidth, viewHeight);
    NextKeeps(c, TakeEvent, d, viewWidth, viewHeight);
    WaitingIsTaken(c, d, viewWidth, viewHeight);
    RunKeeps(d, drawing, e, viewWidth, viewHeight);
    FlightUntilDelivered(d, drawing, e, viewWidth, viewHeight);
    NextKeeps(e, DeliverEvent(screen), f, viewWidth, viewHeight);
    DeliveredSynced(e, screen, f, viewWidth, viewHeight);
    SyncedShows(f, viewWidth, viewHeight);
    if f.queue.pending == [] && f.queue.latest.Some? {
      QuietShows(f, viewWidth, viewHeight);
    }
  }

  lemma RedrawWaiting(b: System, viewWidth: nat, viewHeight: nat)
    requires RedrawWaits(b, viewWidth, viewHeight)
    ensures Waiting(b.queue)
  {
  }

  lemma DeliveredSynced(e: System, screen: Screen, f: System, viewWidth: nat, viewHeight: nat)
    requires e.flight.Some? && e.flight.value.resized && Next(e, DeliverEvent(screen), f, viewWidth, viewHeight)
    ensures f.synced && f.flight.None?
  {
  }

  lemma SyncedShows(f: System, viewWidth: nat, viewHeight: nat)
    requires Inv(f, viewWidth, viewHeight) && f.synced
    ensures Shows(f.screen, Colour(f.shown), f.shown.bounds,
                  ScreenWidth(f.shown.bounds, viewWidth), ScreenHeight(f.shown.bounds, viewHeight))
  {
    hide Shows;
  }

  /** From then on, on any run whose deliveries are safe lists or full redraws, a quiet screen shows the
      remote framebuffer. */
  lemma {:induction false} SafeRunStaysSynced(s: System, events: seq<Event>, t: System, viewWidth: nat, viewHeight: nat)
    requires Inv(s, viewWidth, viewHeight) && s.synced && SafeRun(s, events, t, viewWidth, viewHeight)
    ensures t.synced && Inv(t, viewWidth, viewHeight)
    ensures t.flight.None? && t.queue.pending == [] && t.queue.latest.Some? ==>
              Shows(t.screen, Colour(t.remote), t.remote.bounds,
                    ScreenWidth(t.remote.bounds, viewWidth), ScreenHeight(t.remote.bounds, viewHeight))
    decreases |events|
  {
    hide Inv, Shows;
    if events != [] {
      var m :| Next(s, events[0], m, viewWidth, viewHeight) && SafeDelivery(s, events[0], viewWidth, viewHeight)
               && SafeRun(m, events[1..], t, viewWidth, viewHeight);
      NextKeeps(s, events[0], m, viewWidth, viewHeight);
      SafeKeepsSynced(s, events[0], m, viewWidth, viewHeight);
      SafeRunStaysSynced(m, events[1..], t, viewWidth, viewHeight);
    } else if t.flight.None? && t.queue.pending == [] && t.queue.latest.Some? {
      QuietShows(t, viewWidth, viewHeight);
    }
  }

  lemma SafeKeepsSynced(s: System, e: Event, m: System, viewWidth: nat, viewHeight: nat)
    requires s.synced && Next(s, e, m, viewWidth, viewHeight) && SafeDelivery(s, e, viewWidth, viewHeight)
    ensures m.synced
  {
    hide EnqueueSpec, RequestFullFrameSpec, ReadAll, TakeSpec, Delivered, Safe;
  }

  ghost predicate SafeDelivery(s: System, e: Event, viewWidth: nat, viewHeight: nat) {
    e.DeliverEvent? && s.flight.Some? ==>
      var d := s.flight.value;
      d.resized || Safe(d.changed, VisibleBounds(d.snapshot.bounds, viewWidth, viewHeight))
  }

  ghost predicate SafeRun(s: System, events: seq<Event>, t: System, viewWidth: nat, viewHeight: nat)
    decreases |events|
  {
    if events == [] then s == t
    else exists m :: Next(s, events[0], m, viewWidth, viewHeight) && SafeDelivery(s, events[0], viewWidth, viewHeight)
                     && SafeRun(m, events[1..], t, viewWidth, viewHeight)
  }

  /** New pixels never wait without a token. */
  ghost predicate Posted(s: System) { s.queue.pending != [] ==> s.queue.wake }

  /** On every run pending work has posted a token. */
  lemma {:induction false} PendingIsPosted(s: System, events: seq<Event>, t: System, viewWidth: nat, viewHeight: nat)
    requires Posted(s) && Reaches(s, events, t, viewWidth, viewHeight)
    ensures Posted(t)
    decreases |events|
  {
    hide ReadAll, DrawAll, AppendAll, Delivered, SnapshotOf;
    if events != [] {
      var m :| Next(s, events[0], m, viewWidth, viewHeight) && Reaches(m, events[1..], t, viewWidth, viewHeight);
      PendingIsPosted(m, events[1..], t, viewWidth, viewHeight);
    }
  }
}
