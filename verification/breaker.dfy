/** The storm breaker of internal/display/client.go over whole runs, in terms of the requests that were
    answered: exactly when a request is replayed and when it resets the history. */
module Breaker {
  import opened Geometry
  import opened Operations
  import opened Encoder
  import opened Packing
  import opened Transport
  import opened History
  import opened Recovery
  import opened Storm

  // ---------- the window, from the answers ----------

  /** When the window began that the last answer belongs to: a replay joins a window that began at most two
      seconds before and begins one otherwise; a reset leaves none. */
  function Opened(answers: seq<Answer>): Option<int>
    decreases |answers|, 0
  {
    if answers == [] then None
    else
      match answers[|answers| - 1]
      case Resets(_) => None
      case Replays(time, _) =>
        var before := answers[..|answers| - 1];
        Some(if Open(before, time) then Opened(before).value else time)
  }

  predicate Open(answers: seq<Answer>, now: int)
    decreases |answers|, 1
  {
    Opened(answers).Some? && now - Opened(answers).value <= 2_000_000_000
  }

  /** The replays of that window. */
  function Held(answers: seq<Answer>): nat {
    if answers == [] then 0
    else
      match answers[|answers| - 1]
      case Resets(_) => 0
      case Replays(time, _) => 1 + if Open(answers[..|answers| - 1], time) then Held(answers[..|answers| - 1]) else 0
  }

  /** Their operations, at most 256 counted for each. */
  function Charged(answers: seq<Answer>): nat {
    if answers == [] then 0
    else
      match answers[|answers| - 1]
      case Resets(_) => 0
      case Replays(time, count) =>
        Min(count, 256) + if Open(answers[..|answers| - 1], time) then Charged(answers[..|answers| - 1]) else 0
  }

  /** The last reset. */
  function LastReset(answers: seq<Answer>): Option<int> {
    if answers == [] then None
    else
      match answers[|answers| - 1]
      case Resets(time) => Some(time)
      case Replays(_, _) => LastReset(answers[..|answers| - 1])
  }

  /** The times of the answers do not go back. */
  ghost predicate InOrder(answers: seq<Answer>, clock: int) {
    && (forall a :: a in answers ==> a.time <= clock)
    && forall i, j :: 0 <= i < j < |answers| ==> answers[i].time <= answers[j].time
  }

  /** The client's counters are those of the answers. */
  ghost predicate Accounts(y: System) {
    && y.state.windowStart == Opened(y.answers) && InOrder(y.answers, y.clock)
    && (Opened(y.answers).Some? ==>
          y.state.windowCount == Held(y.answers) && y.state.windowOps == Charged(y.answers))
    && (LastReset(y.answers).Some? ==> y.state.cooldownUntil == LastReset(y.answers).value + 2_000_000_000)
  }

  lemma AnswerMore(answers: seq<Answer>, a: Answer, clock: int)
    requires InOrder(answers, clock) && clock <= a.time
    ensures InOrder(answers + [a], a.time) && (answers + [a])[..|answers|] == answers
    ensures a.Resets? ==> Opened(answers + [a]) == None && LastReset(answers + [a]) == Some(a.time)
    ensures a.Replays? ==> LastReset(answers + [a]) == LastReset(answers)
    ensures a.Replays? ==>
              && Opened(answers + [a]) == Some(if Open(answers, a.time) then Opened(answers).value else a.time)
              && Held(answers + [a]) == 1 + (if Open(answers, a.time) then Held(answers) else 0)
              && Charged(answers + [a])
                 == Min(a.count, 256) + if Open(answers, a.time) then Charged(answers) else 0
  {
    assert (answers + [a])[..|answers|] == answers;
  }

  lemma ServeAccounts(y: System, now: int)
    requires Storm.Inv(y) && Accounts(y) && Enabled(y, ServeEvent(now))
    ensures Accounts(Step(y, ServeEvent(now)))
  {
    hide ResendSpec, HistoryOk, LogOk, WindowOk, IssuedOk, Held, Charged, Opened, LastReset, InOrder;
    ReplayAccounting(y, now);
    var outcome := ResendSpec(y.state.(pending := None), now, y.state.pending.value).1;
    match outcome
    case Missing => LaterInOrder(y.answers, y.clock, now);
    case Fired => AnswerMore(y.answers, Resets(now), y.clock);
    case Replayed(n) => AnswerMore(y.answers, Replays(now, n), y.clock);
  }

  lemma LaterInOrder(answers: seq<Answer>, clock: int, now: int)
    requires InOrder(answers, clock) && clock <= now
    ensures InOrder(answers, now)
  {
  }

  lemma StepAccounts(y: System, e: Event)
    requires Storm.Inv(y) && Accounts(y) && Enabled(y, e)
    ensures Accounts(Step(y, e))
  {
    hide ResendSpec, SendBatchSpec, HistoryOk, LogOk, WindowOk, IssuedOk, Held, Charged, Opened, LastReset, InOrder,
         Issues, FirstOversized;
    match e
    case SendEvent(ops) => SendFrame(y.state, ops);
    case ServeEvent(now) => ServeAccounts(y, now);
    case NackEvent(now, _) => LaterInOrder(y.answers, y.clock, now);
    case _ =>
  }

  lemma {:induction false} RunAccounts(x: System, events: seq<Event>, y: System)
    requires Storm.Inv(x) && Accounts(x) && Reaches(x, events, y)
    ensures Storm.Inv(y) && Accounts(y)
    decreases |events|
  {
    hide Storm.Inv, Accounts;
    if events != [] {
      StepKeeps(x, events[0]);
      StepAccounts(x, events[0]);
      RunAccounts(Step(x, events[0]), events[1..], y);
    }
  }

  lemma OnRun(x: System, events: seq<Event>, y: System)
    requires Initial(x) && Reaches(x, events, y)
    ensures Storm.Inv(y) && Accounts(y)
  {
    InitialInv(x);
    RunAccounts(x, events, y);
  }

  // ---------- exactly when ----------

  /** The waiting request asks for n operations that are all remembered. */
  ghost predicate AsksFor(y: System, n: nat) {
    && !y.state.closed && y.state.pending.Some?
    && var (from, to) := Resolve(y.state.opSeq, y.state.pending.value.from, y.state.pending.value.to);
       from in y.state.history && from <= Min(to, y.state.opSeq) && n == Min(to, y.state.opSeq) - from + 1
  }

  /** With n more operations the window of the answers reaches one of its limits. */
  predicate Storms(answers: seq<Answer>, now: int, n: nat) {
    Open(answers, now) && (Held(answers) >= 63 || Charged(answers) + Min(n, 256) >= 4096)
  }

  lemma StormsIsNoRoom(y: System, now: int, n: nat)
    requires Accounts(y)
    ensures Storms(y.answers, now, n) <==> !Room(y.state, now, n)
  {
    hide Held, Charged, Opened, LastReset, InOrder;
  }

  /** On every run: a request for more than 512 remembered operations is answered by a reset; one for at most
      512 is answered by a reset if and only if its window already holds 63 replays or its operations reach
      4096 with this request, and otherwise by replaying all of them. A reset forgets the history and
      starts a cooldown of two seconds; the breaker's sends nothing, the other one packet. */
  lemma RequestAnswered(x: System, events: seq<Event>, y: System, now: int, n: nat)
    requires Initial(x) && Reaches(x, events, y) && Enabled(y, ServeEvent(now)) && AsksFor(y, n)
    ensures var t := Step(y, ServeEvent(now));
      && (n > 512 || Storms(y.answers, now, n) ==>
            && t.answers == y.answers + [Resets(now)] && t.draining
            && t.state.history == map[] && t.state.cooldownUntil == now + 2_000_000_000
            && |t.state.sent| == |y.state.sent| + if n > 512 then 1 else 0)
      && (n <= 512 && !Storms(y.answers, now, n) ==>
            t.answers == y.answers + [Replays(now, n)] && t.state.history == y.state.history && !t.draining)
  {
    hide Held, Charged, Opened, LastReset, InOrder, HistoryOk, LogOk, WindowOk, IssuedOk, Room, Open, Storms, Resolve,
         ResendSpec, Reaches, Initial, SendBatchSpec;
    OnRun(x, events, y);
    StormsIsNoRoom(y, now, n);
    var s := y.state.(pending := None);
    HistoryFrame(y.state, s);
    SameRoom(y.state, s, now, n);
    AnswerOf(s, now, y.state.pending.value, n);
  }

  lemma SameRoom(s: State, t: State, now: int, n: nat)
    requires s.windowStart == t.windowStart && s.windowCount == t.windowCount && s.windowOps == t.windowOps
    ensures Room(s, now, n) <==> Room(t, now, n)
  {
  }

  lemma AnswerOf(s: State, now: int, nack: Nack, n: nat)
    requires HistoryOk(s) && !s.closed
    requires var (from, to) := Resolve(s.opSeq, nack.from, nack.to);
      from in s.history && from <= Min(to, s.opSeq) && n == Min(to, s.opSeq) - from + 1
    ensures var (t, outcome) := ResendSpec(s, now, nack);
      && (n > 512 || !Room(s, now, n) ==>
            && outcome.Fired? && t.history == map[] && t.cooldownUntil == now + 2_000_000_000
            && |t.sent| == |s.sent| + if n > 512 then 1 else 0)
      && (n <= 512 && Room(s, now, n) ==> outcome == Replayed(n) && t.history == s.history)
  {
    ReplayAllOrNothing(s, now, nack);
    RoomExact(s, now, n);
    hide HistoryOk, Room, Resolve, Completion, Packet, SendPackets, PackFrom, Available;
  }

  // ---------- the last two seconds ----------

  /** The replays since a time, and their operations. */
  function HeldSince(answers: seq<Answer>, from: int): nat {
    if answers == [] then 0
    else
      var a := answers[|answers| - 1];
      HeldSince(answers[..|answers| - 1], from) + if a.Replays? && from <= a.time then 1 else 0
  }

  function ChargedSince(answers: seq<Answer>, from: int): nat {
    if answers == [] then 0
    else
      var a := answers[|answers| - 1];
      ChargedSince(answers[..|answers| - 1], from) + if a.Replays? && from <= a.time then Min(a.count, 256) else 0
  }

  /** The window's replays are among those since it began. */
  lemma {:induction false} WindowSince(answers: seq<Answer>, clock: int, from: int)
    requires InOrder(answers, clock) && Opened(answers).Some? && from <= Opened(answers).value
    ensures answers != [] && Opened(answers).value <= answers[|answers| - 1].time
    ensures Held(answers) <= HeldSince(answers, from) && Charged(answers) <= ChargedSince(answers, from)
    decreases |answers|
  {
    var init, a := answers[..|answers| - 1], answers[|answers| - 1];
    assert a in answers;
    assert InOrder(init, a.time);
    if Open(init, a.time) {
      WindowSince(init, a.time, from);
    }
  }

  /** On every run, with fewer than 63 replays in the last two seconds and fewer than 4096 operations together
      with this request, a request for at most 512 remembered operations is replayed. */
  lemma QuietRequestReplayed(x: System, events: seq<Event>, y: System, now: int, n: nat)
    requires Initial(x) && Reaches(x, events, y) && Enabled(y, ServeEvent(now)) && AsksFor(y, n) && n <= 512
    requires HeldSince(y.answers, now - 2_000_000_000) < 63
    requires ChargedSince(y.answers, now - 2_000_000_000) + Min(n, 256) < 4096
    ensures Step(y, ServeEvent(now)).answers == y.answers + [Replays(now, n)]
  {
    hide Held, Charged, Opened, HeldSince, ChargedSince, InOrder, Storm.Inv, AsksFor, LastReset;
    OnRun(x, events, y);
    QuietHasRoom(y, now, n);
    StormsIsNoRoom(y, now, n);
    RequestAnswered(x, events, y, now, n);
  }

  lemma QuietHasRoom(y: System, now: int, n: nat)
    requires Accounts(y)
    requires HeldSince(y.answers, now - 2_000_000_000) < 63
    requires ChargedSince(y.answers, now - 2_000_000_000) + Min(n, 256) < 4096
    ensures Room(y.state, now, n)
  {
    hide Held, Charged, Opened, HeldSince, ChargedSince, LastReset, InOrder;
    if Open(y.answers, now) {
      WindowSince(y.answers, y.clock, now - 2_000_000_000);
    }
  }

  /** Recovery on every run: at most 512 operations of a batch, asked for right after it by a terminal that
      had fewer than 63 replays and fewer than 4096 operations in the last two seconds, restore every
      screen if and only if what was drawn and the range leave the batch's traces. */
  lemma LossRecoveredOnRun(x: System, events: seq<Event>, y: System, ops: seq<Operation>, i: nat, j: nat, now: int,
                           nack: Nack, drawn: seq<Operation>)
    requires Initial(x) && Reaches(x, events, y) && !y.state.closed
    requires (forall op :: op in ops ==> Transmittable(op)) && Headroom(y.state.opSeq + |ops|)
    requires i < j <= |ops| <= i + 8192 && j - i <= 512
    requires Names(nack, y.state.opSeq + 1 + i, y.state.opSeq + j, y.state.opSeq + |ops|)
    requires HeldSince(y.answers, now - 2_000_000_000) < 63
    requires ChargedSince(y.answers, now - 2_000_000_000) + Min(j - i, 256) < 4096
    ensures Headed(ops)
    ensures var t := SendBatchSpec(y.state, ops).0;
      Restores(ResendSpec(t, now, nack).0.sent, |t.sent|, drawn, ops) <==> SameTraces(drawn + ops[i..j], ops)
  {
    hide Held, Charged, Opened, HeldSince, ChargedSince, LastReset, InOrder, SendBatchSpec, ResendSpec, Restores,
         SameTraces, Names;
    OnRun(x, events, y);
    QuietHasRoom(y, now, j - i);
    LossRecovered(y.state, ops, i, j, now, nack, drawn);
  }

  // ---------- the cooldown ----------

  /** The numbers of a request form a range that can be asked for: open-ended, at most 65536 numbers, or
      at most so many across the wrap of the 16-bit numbers. */
  predicate AskableRange(from: nat, to: nat) {
    from <= 0x00FF_FFFF
    && (to == 0x00FF_FFFF || (from <= to < 0x00FF_FFFF && to - from < 65536) || (to < from < 65536))
  }

  /** On every run a request that arrives less than two seconds after the last reset is dropped; later ones
      replace the waiting request if and only if their range can be asked for. */
  lemma CooldownExact(x: System, events: seq<Event>, y: System, now: int, nack: Nack)
    requires Initial(x) && Reaches(x, events, y) && Enabled(y, NackEvent(now, nack)) && LastReset(y.answers).Some?
    ensures Step(y, NackEvent(now, nack)).state.pending
            == if now - LastReset(y.answers).value >= 2_000_000_000 && AskableRange(nack.from, nack.to) then Some(nack)
               else y.state.pending
  {
    hide Held, Charged, Opened, LastReset, InOrder;
    OnRun(x, events, y);
  }

  /** After the queue has been emptied for a reset, the first request two seconds after it is queued and answered. */
  lemma DrainReopens(x: System, events: seq<Event>, y: System, now: int, nack: Nack)
    requires Initial(x) && Reaches(x, events, y) && y.draining && y.clock <= now && LastReset(y.answers).Some?
    requires now - LastReset(y.answers).value >= 2_000_000_000 && AskableRange(nack.from, nack.to)
    ensures var z := Step(y, DrainEvent);
      && z.state.pending == None && Enabled(z, NackEvent(now, nack))
      && Step(z, NackEvent(now, nack)).state.pending == Some(nack)
      && Enabled(Step(z, NackEvent(now, nack)), ServeEvent(now))
  {
    hide LastReset, QueueSpec, Initial, SendBatchSpec, ResendSpec, AskableRange;
    var z := Step(y, DrainEvent);
    assert Reaches(z, [], z);
    assert [DrainEvent][1..] == [];
    ReachesConcat(x, events, y, [DrainEvent], z);
    CooldownExact(x, events + [DrainEvent], z, now, nack);
  }

  // ---------- a full window ----------

  lemma {:induction false} ReachesConcat(x: System, a: seq<Event>, y: System, b: seq<Event>, z: System)
    requires Reaches(x, a, y) && Reaches(y, b, z)
    ensures Reaches(x, a + b, z)
    decreases |a|
  {
    hide Step, Enabled;
    if a == [] {
      assert a + b == b;
    } else {
      ReachesConcat(Step(x, a[0]), a[1..], y, b, z);
      assert (a + b)[0] == a[0] && (a + b)[1..] == a[1..] + b;
    }
  }

  /** An open client that has sent nothing and answered k requests at one time. */
  ghost predicate Answered(y: System, now: int, k: nat) {
    && !y.state.closed && !y.draining && y.clock <= now && y.state.cooldownUntil <= now
    && y.state.opSeq == 0 && y.state.history == map[0 := WithSequence(Pad().bytes, 0)]
    && |y.answers| == k && (forall i :: 0 <= i < k ==> y.answers[i] == Replays(now, 1))
  }

  lemma {:induction false} SameTime(answers: seq<Answer>, now: int)
    requires forall i :: 0 <= i < |answers| ==> answers[i] == Replays(now, 1)
    ensures Held(answers) == Charged(answers) == |answers|
    ensures Opened(answers) == if answers == [] then None else Some(now)
    decreases |answers|
  {
    if answers != [] {
      SameTime(answers[..|answers| - 1], now);
    }
  }

  lemma NackWaits(y: System, now: int, k: nat)
    requires Answered(y, now, k)
    ensures Enabled(y, NackEvent(now, Nack(0, 0, 0)))
    ensures var m := Step(y, NackEvent(now, Nack(0, 0, 0)));
      Answered(m, now, k) && AsksFor(m, 1) && Enabled(m, ServeEvent(now)) && m.answers == y.answers
  {
    hide WithSequence;
    assert Resolve(0, 0, 0) == (0, 0);
  }

  lemma OneMoreEvent(x: System, events: seq<Event>, y: System, e: Event)
    requires Reaches(x, events, y) && Enabled(y, e)
    ensures Reaches(x, events + [e], Step(y, e))
  {
    hide Step, Enabled;
    assert [e][1..] == [] && Reaches(Step(y, e), [], Step(y, e));
    ReachesConcat(x, events, y, [e], Step(y, e));
  }

  /** A request for the operation that opened the channel waits. */
  lemma AskAgain(x: System, events: seq<Event>, y: System, now: int, k: nat) returns (more: seq<Event>, m: System)
    requires Reaches(x, events, y) && Answered(y, now, k)
    ensures Enabled(y, NackEvent(now, Nack(0, 0, 0))) && m == Step(y, NackEvent(now, Nack(0, 0, 0)))
    ensures Reaches(x, more, m) && Answered(m, now, k) && AsksFor(m, 1) && Enabled(m, ServeEvent(now))
    ensures m.answers == y.answers
  {
    hide Step, Enabled, Answered, AsksFor;
    var e := NackEvent(now, Nack(0, 0, 0));
    NackWaits(y, now, k);
    OneMoreEvent(x, events, y, e);
    more, m := events + [e], Step(y, e);
  }

  /** It is answered. */
  lemma AnswerOnce(x: System, events: seq<Event>, y: System, now: int, k: nat) returns (more: seq<Event>, z: System)
    requires Initial(x) && Reaches(x, events, y) && Answered(y, now, k) && k < 63
    ensures Reaches(x, more, z) && Answered(z, now, k + 1)
  {
    hide Step, Enabled, AsksFor, Initial, Held, Charged, Opened, WithSequence;
    var part, m := AskAgain(x, events, y, now, k);
    OneMoreEvent(x, part, m, ServeEvent(now));
    more, z := part + [ServeEvent(now)], Step(m, ServeEvent(now));
    SameTime(m.answers, now);
    RequestAnswered(x, part, m, now, 1);
    OnRun(x, part, m);
    ServedQuietly(m, now);
  }

  lemma ServedQuietly(m: System, now: int)
    requires HistoryOk(m.state) && Enabled(m, ServeEvent(now))
    ensures var t := Step(m, ServeEvent(now));
      && t.state.opSeq == m.state.opSeq && t.state.closed == m.state.closed && t.clock == now
      && (t.answers == m.answers + [Replays(now, 1)] ==> t.state.cooldownUntil == m.state.cooldownUntil)
  {
    hide HistoryOk, ResendSpec, Resolve;
    var s, nack := m.state.(pending := None), m.state.pending.value;
    HistoryFrame(m.state, s);
    ReplayAllOrNothing(s, now, nack);
    ReplayAccounting(m, now);
    ResendOpen(s, now, nack);
    if ResendSpec(s, now, nack).1.Fired? {
      assert (m.answers + [Resets(now)])[|m.answers|] == Resets(now);
      assert (m.answers + [Replays(now, 1)])[|m.answers|] == Replays(now, 1);
    }
  }

  /** k requests at one time, for any k up to 63, are all replayed. */
  lemma {:induction false} AnswerMany(x: System, now: int, k: nat) returns (events: seq<Event>, y: System)
    requires Initial(x) && !x.state.closed && x.clock <= now && x.state.cooldownUntil <= now && k <= 63
    ensures Reaches(x, events, y) && Answered(y, now, k)
    decreases k
  {
    hide Step;
    if k == 0 {
      events, y := [], x;
    } else {
      var part, m := AnswerMany(x, now, k - 1);
      events, y := AnswerOnce(x, part, m, now, k - 1);
    }
  }

  /** Both sides of the limit are reached: from every new open client there is a run with 63 replays at one
      time, and there the next request resets the history. */
  lemma LimitIsReached(x: System, now: int) returns (events: seq<Event>, y: System, m: System)
    requires Initial(x) && !x.state.closed && x.clock <= now && x.state.cooldownUntil <= now
    ensures Reaches(x, events, y) && |y.answers| == 63 && forall a :: a in y.answers ==> a == Replays(now, 1)
    ensures Enabled(y, NackEvent(now, Nack(0, 0, 0))) && m == Step(y, NackEvent(now, Nack(0, 0, 0)))
    ensures Enabled(m, ServeEvent(now)) && Step(m, ServeEvent(now)).answers == y.answers + [Resets(now)]
    ensures Step(m, ServeEvent(now)).state.history == map[]
  {
    hide Step, Enabled, AsksFor, Initial, Held, Charged, Opened, WithSequence;
    events, y := AnswerMany(x, now, 63);
    var asked;
    asked, m := AskAgain(x, events, y, now, 63);
    SameTime(m.answers, now);
    RequestAnswered(x, asked, m, now, 1);
  }
}
