/** Pointer forwarding of internal/vnc/session.go (RFC 6143 section 7.5.5): HandleInput's pointer case, the two
    halves of a pointerLoop tick, and the translation of positions. Sends succeed. */
module Pointer {
  import opened Geometry
  import Regions
  import opened Scaling

  datatype PointerEvent = PointerEvent(x: nat, y: nat, buttons: nat, wheel: int)

  /** A message of the remote protocol: the button mask and a position in the framebuffer. */
  datatype Message = Message(buttons: nat, x: int, y: int)

  const MAX_DIMENSION: nat := 8192

  type Dimension = n: nat | 1 <= n <= MAX_DIMENSION witness 1

  /** The current connection: the framebuffer's size, and what was sent since it was made. */
  datatype Remote = Remote(width: Dimension, height: Dimension, sent: seq<Message>)

  /** A screen size of zero stands for the framebuffer's own. */
  datatype Config = Config(viewOnly: bool, scaleToFit: bool, screenWidth: nat, screenHeight: nat)

  /** The session's button mask, the one-place channel of movements, the movement pointerLoop has received
      and not yet sent, and the connection. */
  datatype State = State(buttons: nat, queued: Option<PointerEvent>, inFlight: Option<PointerEvent>,
                         remote: Option<Remote>)

  const WHEEL_UP := 8
  const WHEEL_DOWN := 16
  const MAX_STEPS := 16

  /** Masks of five buttons, and a signed 16-bit wheel delta. */
  predicate EventOk(e: PointerEvent) {
    e.buttons < 32 && -32768 <= e.wheel < 32768
  }

  // ---------- positions ----------

  function TranslateCoordinate(value: int, screenSize: nat, framebufferSize: nat): int {
    if framebufferSize < 1 then 0
    else
      var offset := if screenSize > framebufferSize then (screenSize - framebufferSize) / 2 else 0;
      Min(Max(value - offset, 0), framebufferSize - 1)
  }

  /** The screen's size; zero stands for the framebuffer's. */
  function ScreenSize(c: Config, width: Dimension, height: Dimension): (nat, nat) {
    if c.screenWidth == 0 || c.screenHeight == 0 then (width, height) else (c.screenWidth, c.screenHeight)
  }

  /** The framebuffer position that a screen position selects. */
  function Position(c: Config, width: Dimension, height: Dimension, e: PointerEvent): Point {
    var (w, h) := ScreenSize(c, width, height);
    if c.scaleToFit then
      var (x, y) := TranslateScaledPoint(e.x, e.y, w, h, width, height);
      Point(x, y)
    else Point(TranslateCoordinate(e.x, w, width), TranslateCoordinate(e.y, h, height))
  }

  /** Every event selects a position in the framebuffer. */
  lemma PositionInside(c: Config, width: Dimension, height: Dimension, e: PointerEvent)
    ensures var p := Position(c, width, height, e); Rect(0, 0, width, height).Contains(p.x, p.y)
  {
    if c.scaleToFit {
      hide TranslateScaledPoint, FitRectangle;
      var (w, h) := ScreenSize(c, width, height);
      TranslateSelectsShownPixel(e.x, e.y, w, h, width, height);
    }
  }

  /** Without scaling, a pointer over the place where the display shows a point of the framebuffer selects
      that point: the translation undoes the placement of the picture. */
  lemma TranslationUndoesPlacement(c: Config, width: Dimension, height: Dimension, e: PointerEvent, x: int, y: int)
    requires !c.scaleToFit
    requires var (w, h), frame := ScreenSize(c, width, height), Rect(0, 0, width, height);
      && Regions.Visible(frame, w, h).Contains(x, y)
      && e.x == x + Regions.OffsetX(frame, w) && e.y == y + Regions.OffsetY(frame, h)
    ensures Position(c, width, height, e) == Point(x, y)
  {
  }

  // ---------- events ----------

  /** Go's buttons & 0x07. */
  function Base(buttons: nat): nat { buttons % 8 }

  predicate HasUp(buttons: nat) { buttons / 8 % 2 == 1 }

  predicate HasDown(buttons: nat) { buttons / 16 % 2 == 1 }

  function Pulse(buttons: nat, p: Point, wheel: nat): seq<Message> {
    [Message(Base(buttons) + wheel, p.x, p.y), Message(Base(buttons), p.x, p.y)]
  }

  function Pulses(buttons: nat, p: Point, wheel: nat, n: nat): seq<Message> {
    if n == 0 then [] else Pulses(buttons, p, wheel, n - 1) + Pulse(buttons, p, wheel)
  }

  function Steps(delta: int): nat { Min(if delta < 0 then -delta else delta, MAX_STEPS) }

  /** What a wheel event sends. */
  function WheelMessages(e: PointerEvent, p: Point): seq<Message> {
    (if HasUp(e.buttons) then Pulse(e.buttons, p, WHEEL_UP) else [])
    + (if HasDown(e.buttons) then Pulse(e.buttons, p, WHEEL_DOWN) else [])
    + Pulses(e.buttons, p, if e.wheel < 0 then WHEEL_DOWN else WHEEL_UP, Steps(e.wheel))
  }

  predicate IsWheel(e: PointerEvent) {
    e.buttons / 8 != 0 || e.wheel != 0
  }

  function Sent(r: Remote, more: seq<Message>): Remote { r.(sent := r.sent + more) }

  lemma SentTwice(r: Remote, a: seq<Message>, b: seq<Message>)
    ensures Sent(Sent(r, a), b) == Sent(r, a + b) && Sent(r, []) == r
  {
    assert r.sent + a + b == r.sent + (a + b) && r.sent + [] == r.sent;
  }

  /** HandleInput: nothing for a viewer or without a connection. */
  function Handle(c: Config, s: State, e: PointerEvent): State {
    if c.viewOnly || s.remote.None? then s
    else
      var r := s.remote.value;
      var p := Position(c, r.width, r.height, e);
      if IsWheel(e) then
        s.(buttons := Base(e.buttons), queued := None, remote := Some(Sent(r, WheelMessages(e, p))))
      else if e.buttons != s.buttons then
        s.(buttons := e.buttons, queued := None, remote := Some(Sent(r, [Message(e.buttons, p.x, p.y)])))
      else s.(queued := Some(e))
  }

  /** A tick takes the waiting movement from the channel ... */
  function Receive(s: State): State {
    if s.inFlight.None? then s.(queued := None, inFlight := s.queued) else s
  }

  /** ... and then sends it on whatever connection there is. */
  function Send(c: Config, s: State): State {
    if s.inFlight.Some? && s.remote.Some? then
      var e, r := s.inFlight.value, s.remote.value;
      var p := Position(c, r.width, r.height, e);
      s.(inFlight := None, remote := Some(Sent(r, [Message(e.buttons, p.x, p.y)])))
    else s.(inFlight := None)
  }

  class Session {
    const config: Config
    var current: Option<Remote>
    var pointerButtons: nat
    var pointerEvents: Option<PointerEvent>
    var received: Option<PointerEvent>

    ghost function View(): State
      reads this
    {
      State(pointerButtons, pointerEvents, received, current)
    }

    constructor (config: Config)
      ensures this.config == config && View() == State(0, None, None, None)
    {
      this.config := config;
      pointerButtons, pointerEvents, received, current := 0, None, None, None;
    }

    /** Where the event points, on the current connection. */
    ghost function PositionOf(event: PointerEvent): Point
      requires current.Some?
      reads this`current
    {
      Position(config, current.value.width, current.value.height, event)
    }

    method SendPointer(event: PointerEvent, buttons: nat)
      requires current.Some?
      modifies this`current
      ensures var p := old(PositionOf(event));
        current == Some(Sent(old(current).value, [Message(buttons, p.x, p.y)]))
    {
      var conn := current.value;
      var screenWidth, screenHeight := config.screenWidth, config.screenHeight;
      if screenWidth == 0 || screenHeight == 0 {
        screenWidth, screenHeight := conn.width, conn.height;
      }
      var x, y := 0, 0;
      if config.scaleToFit {
        var point := TranslateScaledPoint(event.x, event.y, screenWidth, screenHeight, conn.width, conn.height);
        x, y := point.0, point.1;
      } else {
        x := TranslateCoordinate(event.x, screenWidth, conn.width);
        y := TranslateCoordinate(event.y, screenHeight, conn.height);
      }
      current := Some(conn.(sent := conn.sent + [Message(buttons, x, y)]));
    }

    method SendPulse(event: PointerEvent, wheel: nat)
      requires current.Some?
      modifies this`current
      ensures current == Some(Sent(old(current).value,
                                   Pulse(event.buttons, old(PositionOf(event)), wheel)))
    {
      hide Position;
      ghost var r, p := current.value, PositionOf(event);
      SendPointer(event, event.buttons % 8 + wheel);
      SendPointer(event, event.buttons % 8);
      ghost var press := Message(Base(event.buttons) + wheel, p.x, p.y);
      ghost var release := Message(Base(event.buttons), p.x, p.y);
      SentTwice(r, [press], [release]);
      assert [press] + [release] == Pulse(event.buttons, p, wheel);
    }

    method SendSteps(event: PointerEvent)
      requires current.Some?
      modifies this`current
      ensures current == Some(Sent(old(current).value,
                                   Pulses(event.buttons, old(PositionOf(event)),
                                          if event.wheel < 0 then WHEEL_DOWN else WHEEL_UP, Steps(event.wheel))))
    {
      hide Position;
      var steps, wheel := event.wheel, WHEEL_UP;
      if steps < 0 {
        steps, wheel := -steps, WHEEL_DOWN;
      }
      steps := Min(steps, MAX_STEPS);
      ghost var r, p := current.value, PositionOf(event);
      SentTwice(r, [], []);
      var i := 0;
      while i < steps
        invariant 0 <= i <= steps
        invariant current == Some(Sent(r, Pulses(event.buttons, p, wheel, i))) && PositionOf(event) == p
      {
        SendPulse(event, wheel);
        SentTwice(r, Pulses(event.buttons, p, wheel, i), Pulse(event.buttons, p, wheel));
        i := i + 1;
      }
    }

    /** The pulses of the legacy wheel bits, then those of the signed delta. */
    method SendWheel(event: PointerEvent)
      requires current.Some?
      modifies this`current
      ensures current == Some(Sent(old(current).value,
                                   WheelMessages(event, old(PositionOf(event)))))
    {
      hide Position;
      ghost var r, p := current.value, PositionOf(event);
      ghost var up := if HasUp(event.buttons) then Pulse(event.buttons, p, WHEEL_UP) else [];
      ghost var down := if HasDown(event.buttons) then Pulse(event.buttons, p, WHEEL_DOWN) else [];
      SentTwice(r, [], []);
      if HasUp(event.buttons) {
        SendPulse(event, WHEEL_UP);
      }
      if HasDown(event.buttons) {
        SendPulse(event, WHEEL_DOWN);
      }
      SentTwice(r, up, down);
      SentTwice(Sent(r, up), [], []);
      SendSteps(event);
      ghost var wheel := if event.wheel < 0 then WHEEL_DOWN else WHEEL_UP;
      SentTwice(r, up + down, Pulses(event.buttons, p, wheel, Steps(event.wheel)));
    }

    method HandlePointer(event: PointerEvent)
      requires EventOk(event)
      modifies this
      ensures View() == Handle(config, old(View()), event)
    {
      if config.viewOnly || current.None? {
        return;
      }
      var baseButtons, wheelButtons := event.buttons % 8, event.buttons / 8 * 8;
      var wheelDelta := event.wheel;
      var buttonChanged := event.buttons != pointerButtons;
      if wheelButtons != 0 || wheelDelta != 0 {
        pointerButtons := baseButtons;
      } else {
        pointerButtons := event.buttons;
      }
      if buttonChanged || wheelButtons != 0 || wheelDelta != 0 {
        pointerEvents := None;
      }
      if wheelButtons != 0 || wheelDelta != 0 {
        SendWheel(event);
        return;
      }
      if buttonChanged {
        SendPointer(event, event.buttons);
        return;
      }
      pointerEvents := Some(event);
    }

    method ReceiveMovement()
      modifies this`pointerEvents, this`received
      ensures View() == Receive(old(View()))
    {
      if received.None? {
        received, pointerEvents := pointerEvents, None;
      }
    }

    method SendMovement()
      modifies this`received, this`current
      ensures View() == Send(config, old(View()))
    {
      if received.Some? && current.Some? {
        SendPointer(received.value, received.value.buttons);
      }
      received := None;
    }
  }

  // ---------- the remote mask ----------

  /** The mask the remote end saw last; none is pressed before the first message of a connection. */
  function RemoteMask(r: Remote): nat {
    if r.sent == [] then 0 else r.sent[|r.sent| - 1].buttons
  }

  datatype Event =
    | Input(event: PointerEvent) | Received | Delivered
    | Connected(width: Dimension, height: Dimension) | Disconnected | Resized(width: Dimension, height: Dimension)

  function After(c: Config, s: State, e: Event): State {
    match e
    case Input(p) => Handle(c, s, p)
    case Received => Receive(s)
    case Delivered => Send(c, s)
    case Connected(w, h) => s.(remote := Some(Remote(w, h, [])))
    case Disconnected => s.(remote := None)
    case Resized(w, h) => if s.remote.Some? then s.(remote := Some(Remote(w, h, s.remote.value.sent))) else s
  }

  function Run(c: Config, events: seq<Event>): State {
    if events == [] then State(0, None, None, None)
    else After(c, Run(c, events[..|events| - 1]), events[|events| - 1])
  }

  /** The event leaves the remote mask behind: it sends a movement received under another mask, or it makes
      a connection while buttons are down. */
  predicate LeavesBehind(s: State, e: Event) {
    match e
    case Delivered => s.inFlight.Some? && s.remote.Some? && s.inFlight.value.buttons != s.buttons
    case Connected(_, _) => s.buttons != 0
    case _ => false
  }

  /** The event brings the remote mask up to date: it sends the session's own mask. */
  predicate BringsUp(c: Config, s: State, e: Event) {
    match e
    case Input(p) => !c.viewOnly && s.remote.Some? && (IsWheel(p) || p.buttons != s.buttons)
    case Delivered => s.inFlight.Some? && s.remote.Some? && s.inFlight.value.buttons == s.buttons
    case Connected(_, _) => s.buttons == 0
    case _ => false
  }

  /** Since the last event that brought the mask up to date, some event left it behind. */
  predicate Behind(c: Config, events: seq<Event>) {
    if events == [] then false
    else
      var init, e := events[..|events| - 1], events[|events| - 1];
      var s := Run(c, init);
      LeavesBehind(s, e) || (Behind(c, init) && !BringsUp(c, s, e))
  }

  predicate EventsOk(events: seq<Event>) {
    forall e :: e in events && e.Input? ==> EventOk(e.event)
  }

  lemma {:induction false} PulsesEnd(buttons: nat, p: Point, wheel: nat, n: nat)
    ensures |Pulses(buttons, p, wheel, n)| == 2 * n
    ensures n > 0 ==> Pulses(buttons, p, wheel, n)[2 * n - 1].buttons == Base(buttons)
  {
    if n > 0 {
      PulsesEnd(buttons, p, wheel, n - 1);
    }
  }

  lemma WheelEnds(e: PointerEvent, p: Point)
    requires EventOk(e) && IsWheel(e)
    ensures WheelMessages(e, p) != [] && WheelMessages(e, p)[|WheelMessages(e, p)| - 1].buttons == Base(e.buttons)
  {
    PulsesEnd(e.buttons, p, if e.wheel < 0 then WHEEL_DOWN else WHEEL_UP, Steps(e.wheel));
  }

  /** The remote mask is the session's. */
  predicate Agrees(s: State) {
    s.remote.Some? ==> RemoteMask(s.remote.value) == s.buttons
  }

  lemma AgreesAfter(c: Config, s: State, e: Event)
    requires e.Input? ==> EventOk(e.event)
    ensures LeavesBehind(s, e) && After(c, s, e).remote.Some? ==> !Agrees(After(c, s, e))
    ensures BringsUp(c, s, e) ==> Agrees(After(c, s, e))
    ensures !LeavesBehind(s, e) && !BringsUp(c, s, e) && !e.Disconnected? ==> Agrees(After(c, s, e)) == Agrees(s)
    ensures After(c, s, e).remote.Some? <==> e.Connected? || (s.remote.Some? && !e.Disconnected?)
  {
    hide Position;
    if e.Input? && IsWheel(e.event) && s.remote.Some? {
      WheelEnds(e.event, Position(c, s.remote.value.width, s.remote.value.height, e.event));
    }
  }

  /** On every run, with connections lost and made and sizes changed at will, the remote mask is the
      session's exactly when no event left it behind since it was last brought up to date. */
  lemma {:induction false} MaskExact(c: Config, events: seq<Event>)
    requires EventsOk(events)
    ensures var s := Run(c, events); s.remote.Some? ==> (Agrees(s) <==> !Behind(c, events))
    decreases |events|
  {
    hide After, Agrees, LeavesBehind, BringsUp;
    if events != [] {
      var init, e := events[..|events| - 1], events[|events| - 1];
      MaskExact(c, init);
      assert e in events;
      AgreesAfter(c, Run(c, init), e);
      ConnectedEither(c, Run(c, init), e);
    }
  }

  /** Making a connection always decides whether the mask agrees. */
  lemma ConnectedEither(c: Config, s: State, e: Event)
    ensures e.Connected? ==> LeavesBehind(s, e) || BringsUp(c, s, e)
    ensures !(LeavesBehind(s, e) && BringsUp(c, s, e))
    ensures e.Disconnected? ==> After(c, s, e).remote.None?
  {
  }

  /** A waiting movement always carries the session's mask. */
  lemma {:induction false} QueuedCarriesMask(c: Config, events: seq<Event>)
    ensures var s := Run(c, events); s.queued.Some? ==> s.queued.value.buttons == s.buttons
    decreases |events|
  {
    hide Position;
    if events != [] {
      QueuedCarriesMask(c, events[..|events| - 1]);
    }
  }

  /** No button changes between a tick's two halves, and no connection is made with buttons down. */
  predicate Undisturbed(c: Config, events: seq<Event>) {
    forall k :: 0 <= k < |events| ==> !LeavesBehind(Run(c, events[..k]), events[k])
  }

  lemma {:induction false} UndisturbedNotBehind(c: Config, events: seq<Event>)
    requires Undisturbed(c, events)
    ensures !Behind(c, events)
    decreases |events|
  {
    hide Run, LeavesBehind, BringsUp;
    if events != [] {
      var init := events[..|events| - 1];
      forall k | 0 <= k < |init|
        ensures !LeavesBehind(Run(c, init[..k]), init[k])
      {
        assert init[..k] == events[..k];
      }
      UndisturbedNotBehind(c, init);
    }
  }

  /** On undisturbed runs the remote mask is the session's after every event. */
  lemma MaskFollows(c: Config, events: seq<Event>)
    requires EventsOk(events) && Undisturbed(c, events)
    ensures Agrees(Run(c, events))
  {
    hide Run, Behind, Undisturbed;
    UndisturbedNotBehind(c, events);
    MaskExact(c, events);
  }

  /** A button pressed between the two halves of a tick is lost at the remote end: it sees the press and
      then the received movement's released mask, and the session still holds the button. */
  lemma PressIsLost(c: Config, width: Dimension, height: Dimension, x: nat, y: nat, pressed: nat)
    requires !c.viewOnly && 0 < pressed < 8
    ensures var events := [Connected(width, height), Input(PointerEvent(x, y, 0, 0)), Received,
                           Input(PointerEvent(x, y, pressed, 0)), Delivered];
      var s := Run(c, events);
      && EventsOk(events) && s.buttons == pressed && s.queued.None? && s.inFlight.None?
      && s.remote.Some? && |s.remote.value.sent| == 2
      && s.remote.value.sent[0].buttons == pressed && RemoteMask(s.remote.value) == 0
  {
    hide Position;
    var e0, e1, e2 := Connected(width, height), Input(PointerEvent(x, y, 0, 0)), Received;
    var e3, e4 := Input(PointerEvent(x, y, pressed, 0)), Delivered;
    RunLast(c, [], e0);
    RunLast(c, [e0], e1);
    RunLast(c, [e0, e1], e2);
    RunLast(c, [e0, e1, e2], e3);
    RunLast(c, [e0, e1, e2, e3], e4);
    assert [] + [e0] == [e0] && [e0] + [e1] == [e0, e1] && [e0, e1] + [e2] == [e0, e1, e2];
    assert [e0, e1, e2] + [e3] == [e0, e1, e2, e3] && [e0, e1, e2, e3] + [e4] == [e0, e1, e2, e3, e4];
  }

  lemma RunLast(c: Config, events: seq<Event>, e: Event)
    ensures Run(c, events + [e]) == After(c, Run(c, events), e)
  {
    assert (events + [e])[..|events|] == events;
  }

  /** n complete notches of the button with the mask, at one position: press and release, n times. */
  function Notches(mask: nat, base: nat, p: Point, n: nat): seq<Message> {
    seq(2 * n, i requires 0 <= i < 2 * n => Message(base + if i % 2 == 0 then mask else 0, p.x, p.y))
  }

  lemma {:induction false} PulsesAreNotches(buttons: nat, p: Point, wheel: nat, n: nat)
    ensures Pulses(buttons, p, wheel, n) == Notches(wheel, buttons % 8, p, n)
    decreases n
  {
    if n > 0 {
      PulsesAreNotches(buttons, p, wheel, n - 1);
      NotchMore(wheel, buttons % 8, p, n - 1);
    }
  }

  lemma NotchMore(mask: nat, base: nat, p: Point, n: nat)
    ensures Notches(mask, base, p, n + 1)
            == Notches(mask, base, p, n) + [Message(base + mask, p.x, p.y), Message(base, p.x, p.y)]
  {
  }

  lemma NoNotch(mask: nat, base: nat, p: Point)
    ensures Notches(mask, base, p, 0) == []
    ensures Notches(mask, base, p, 1) == [Message(base + mask, p.x, p.y), Message(base, p.x, p.y)]
  {
  }

  lemma WheelIsNotches(e: PointerEvent, p: Point)
    requires EventOk(e)
    ensures var base := e.buttons % 8;
      WheelMessages(e, p)
      == Notches(8, base, p, e.buttons / 8 % 2) + Notches(16, base, p, e.buttons / 16 % 2)
         + Notches(if e.wheel > 0 then 8 else 16, base, p, Min(if e.wheel > 0 then e.wheel else -e.wheel, 16))
  {
    hide Notches, Pulses;
    var base := e.buttons % 8;
    NoNotch(8, base, p);
    NoNotch(16, base, p);
    PulsesAreNotches(e.buttons, p, if e.wheel < 0 then WHEEL_DOWN else WHEEL_UP, Steps(e.wheel));
    if e.wheel == 0 {
      NoNotch(WHEEL_UP, base, p);
    }
  }

  /** What a wheel event adds to the messages: one notch of button 8 for legacy bit 8, then one of button 16
      for legacy bit 16, then min(|delta|, 16) notches of button 8 for a positive delta and of button 16 for
      a negative one, all over the other buttons and at the position the event selects, and nothing else. */
  lemma WheelSendsItsNotches(c: Config, s: State, e: PointerEvent)
    requires EventOk(e) && (e.buttons >= 8 || e.wheel != 0) && !c.viewOnly && s.remote.Some?
    ensures var r, after := s.remote.value, Handle(c, s, e);
      var p, base := Position(c, r.width, r.height, e), e.buttons % 8;
      && after.remote.Some? && after.buttons == base && after.queued.None?
      && after.remote.value.sent
         == r.sent + (Notches(8, base, p, e.buttons / 8 % 2) + Notches(16, base, p, e.buttons / 16 % 2)
                      + Notches(if e.wheel > 0 then 8 else 16, base, p,
                                Min(if e.wheel > 0 then e.wheel else -e.wheel, 16)))
  {
    hide Position, WheelMessages, Notches;
    var r := s.remote.value;
    WheelIsNotches(e, Position(c, r.width, r.height, e));
  }

  /** Every other event sends one message with its own mask if that mask is new, and otherwise waits. */
  lemma OthersSendOrWait(c: Config, s: State, e: PointerEvent)
    requires e.buttons < 8 && e.wheel == 0 && !c.viewOnly && s.remote.Some?
    ensures var r, after := s.remote.value, Handle(c, s, e);
      var p := Position(c, r.width, r.height, e);
      && after.remote.Some? && after.buttons == e.buttons
      && after.queued == (if e.buttons == s.buttons then Some(e) else None)
      && after.remote.value.sent == r.sent + if e.buttons == s.buttons then [] else [Message(e.buttons, p.x, p.y)]
  {
    hide Position;
    assert s.remote.value.sent + [] == s.remote.value.sent;
  }
}
