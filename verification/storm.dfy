/** Runs of the transport under a nondecreasing clock: the history invariant on every run, and the
    bound the storm breaker puts on replays. */
module Storm {
  import opened Geometry
  import opened Operations
  import opened Tiling
  import opened Packing
  import opened Transport
  import opened History

  /** One answered request: when, in which accounting window, and how many operations it replayed. */
  datatype Replay = Replay(time: int, window: nat, count: nat)

  /** A request that was answered: by a replay, or by a reset of the history. */
  datatype Answer = Replays(time: int, count: nat) | Resets(time: int)

  /** The transport inside a run: the clock, whether resendLoop still has to drain the NACK channel
      after a reset, the number of the current accounting window, the replays so far, what was issued
      under each sequence number, and all answers so far. */
  datatype System = System(state: State, clock: int, draining: bool, window: nat, log: seq<Replay>,
                           issued: map<nat, Issue>, answers: seq<Answer>)

  datatype Event =
    | SendEvent(ops: seq<Operation>)
    | FlushEvent
    | NackEvent(now: int, nack: Nack)   // a NACK arrives: queueResend
    | ServeEvent(now: int)              // resendLoop takes the queued request and runs resend
    | DrainEvent                        // resendLoop drains the channel after a reset

  ghost predicate Enabled(y: System, e: Event) {
    match e
    case SendEvent(ops) => Headed(ops) && Headroom(y.state.opSeq + |ops|)
    case FlushEvent => true
    case NackEvent(now, _) => y.clock <= now
    case ServeEvent(now) => y.clock <= now && !y.draining && y.state.pending.Some?
    case DrainEvent => y.draining
  }

  ghost function Serve(y: System, now: int): System
    requires y.state.pending.Some?
  {
    var s := y.state.(pending := None);
    var (t, outcome) := ResendSpec(s, now, y.state.pending.value);
    match outcome
    case Missing => y.(state := t, clock := now)
    case Fired => y.(state := t, clock := now, draining := true, answers := y.answers + [Resets(now)])
    case Replayed(n) =>
      var w := if WindowOver(s, now) then y.window + 1 else y.window;
      y.(state := t, clock := now, window := w, log := y.log + [Replay(now, w, n)],
         answers := y.answers + [Replays(now, n)])
  }

  /** All that the packets so far carry, end to end. */
  ghost function Stream(s: State): Bytes { Carried(s.sent, 0) }

  /** SendBatch numbers the operations before the first oversized one; if there is none it sends them. */
  ghost function Send(y: System, ops: seq<Operation>): System
    requires Headed(ops)
  {
    var (t, ok) := SendBatchSpec(y.state, ops);
    var numbered := if y.state.closed then [] else ops[..FirstOversized(ops)];
    y.(state := t,
       issued := y.issued + Issues(y.state, numbered, if ok then Some(|Stream(y.state)|) else None))
  }

  ghost function Step(y: System, e: Event): System
    requires Enabled(y, e)
  {
    match e
    case SendEvent(ops) => Send(y, ops)
    case FlushEvent => y.(state := y.state.(history := map[]))
    case NackEvent(now, nack) => y.(state := QueueSpec(y.state, now, nack), clock := now)
    case ServeEvent(now) => Serve(y, now)
    case DrainEvent => y.(state := y.state.(pending := None), draining := false)
  }

  /** y is reached from x by the events, each enabled in its turn. */
  ghost predicate Reaches(x: System, events: seq<Event>, y: System)
    decreases |events|
  {
    if events == [] then x == y
    else Enabled(x, events[0]) && Reaches(Step(x, events[0]), events[1..], y)
  }

  // ---------- accounting ----------

  function CountIn(log: seq<Replay>, w: nat): nat {
    if log == [] then 0 else CountIn(log[..|log| - 1], w) + if log[|log| - 1].window == w then 1 else 0
  }

  function ChargeIn(log: seq<Replay>, w: nat): nat {
    if log == [] then 0
    else ChargeIn(log[..|log| - 1], w) + if log[|log| - 1].window == w then Charge(log[|log| - 1].count) else 0
  }

  /** No replay in the log belongs to a window this late. */
  lemma {:induction false} NoneIn(log: seq<Replay>, w: nat)
    requires forall r :: r in log ==> r.window < w
    ensures CountIn(log, w) == 0 && ChargeIn(log, w) == 0
  {
    if log != [] {
      assert log[|log| - 1] in log;
      NoneIn(log[..|log| - 1], w);
    }
  }

  /** Every window stayed below both limits, windows do not go back, and replays two windows apart
      are more than a whole window of time apart. */
  ghost predicate LogOk(log: seq<Replay>) {
    && (forall w :: CountIn(log, w) < RESEND_STORM_LIMIT && ChargeIn(log, w) < RESEND_STORM_OPS)
    && (forall r :: r in log ==> r.count <= MAX_DIRECT_RESEND)
    && (forall a, b :: a in log && b in log && a.window + 2 <= b.window ==> a.time + RESEND_STORM_WINDOW < b.time)
  }

  /** The breaker's counters describe the current window, and what is left of earlier ones lies
      before it; with no window open the next one starts after the cooldown. */
  ghost predicate WindowOk(y: System) {
    var s := y.state;
    && (forall r :: r in y.log ==> r.window <= y.window && r.time <= y.clock)
    && (s.windowStart.Some? ==>
          var start := s.windowStart.value;
          && start <= y.clock
          && s.windowCount == CountIn(y.log, y.window) && s.windowOps == ChargeIn(y.log, y.window)
          && (forall r :: r in y.log && r.window == y.window ==> r.time <= start + RESEND_STORM_WINDOW)
          && (forall r :: r in y.log && r.window < y.window ==> r.time < start)
          && (forall r :: r in y.log && r.window + 2 <= y.window ==> r.time + RESEND_STORM_WINDOW < start))
    && (s.windowStart.None? ==>
          && (forall r :: r in y.log ==> r.time + RESEND_STORM_WINDOW <= s.cooldownUntil)
          && (forall r :: r in y.log && r.window < y.window ==> r.time + RESEND_STORM_WINDOW < s.cooldownUntil))
  }

  /** A request waiting while no drain is due was accepted after the last cooldown. */
  ghost predicate QueueOk(y: System) {
    !y.draining && y.state.pending.Some? ==> y.state.cooldownUntil <= y.clock
  }

  /** The numbers issued are those up to the counter, the history holds what was issued under its
      numbers, and what was sent under a number stands in the stream. */
  ghost predicate IssuedOk(y: System) {
    && (forall k: nat :: k in y.issued <==> k <= y.state.opSeq)
    && (forall k: nat :: k in y.state.history ==> k in y.issued && y.state.history[k] == y.issued[k].bytes)
    && Placed(y.issued, Stream(y.state))
  }

  ghost predicate Inv(y: System) {
    HistoryOk(y.state) && LogOk(y.log) && WindowOk(y) && QueueOk(y) && IssuedOk(y)
  }

  ghost predicate Initial(y: System) {
    && y.state.opSeq == 0 && y.state.history == map[0 := WithSequence(Pad().bytes, 0)]
    && y.state.windowStart == None && y.state.pending == None
    && !y.draining && y.log == [] && y.answers == [] && y.issued == map[0 := Issue(WithSequence(Pad().bytes, 0), None)]
  }

  lemma InitialInv(y: System)
    requires Initial(y)
    ensures Inv(y)
  {
    OpenHistoryOk(y.state);
  }

  lemma CountAppend(log: seq<Replay>, r: Replay)
    ensures forall w :: CountIn(log + [r], w) == CountIn(log, w) + if r.window == w then 1 else 0
    ensures forall w :: ChargeIn(log + [r], w) == ChargeIn(log, w) + if r.window == w then Charge(r.count) else 0
  {
  }

  /** What a replay adds to the log keeps every window within the limits and apart from the others. */
  lemma LogGrows(y: System, now: int, n: nat, w: nat)
    requires LogOk(y.log) && WindowOk(y) && n <= MAX_DIRECT_RESEND && y.clock <= now
    requires y.state.windowStart.None? ==> y.state.cooldownUntil <= now
    requires w == if WindowOver(y.state, now) then y.window + 1 else y.window
    requires CountIn(y.log, w) + 1 < RESEND_STORM_LIMIT && ChargeIn(y.log, w) + Charge(n) < RESEND_STORM_OPS
    ensures LogOk(y.log + [Replay(now, w, n)])
  {
    CountAppend(y.log, Replay(now, w, n));
  }

  /** The part of a served request that is a replay, seen from the accounting state. */
  lemma ReplayAccounting(y: System, now: int)
    requires y.state.pending.Some? && HistoryOk(y.state)
    ensures var s := y.state.(pending := None);
      var (t, outcome) := ResendSpec(s, now, y.state.pending.value);
      && t.pending == None
      && (outcome.Missing? ==> t == s)
      && (outcome.Fired? ==> t.windowStart == None && t.cooldownUntil == now + RESEND_STORM_COOLDOWN)
      && (outcome.Replayed? ==>
            && outcome.count <= MAX_DIRECT_RESEND && t.cooldownUntil == s.cooldownUntil
            && t.windowCount < RESEND_STORM_LIMIT && t.windowOps < RESEND_STORM_OPS
            && t.windowCount == (if WindowOver(s, now) then 0 else s.windowCount) + 1
            && t.windowOps == (if WindowOver(s, now) then 0 else s.windowOps) + Charge(outcome.count)
            && t.windowStart == if WindowOver(s, now) then Some(now) else s.windowStart)
  {
    var s := y.state.(pending := None);
    var nack := y.state.pending.value;
    ReplayAllOrNothing(s, now, nack);
    var (from, to) := Resolve(s.opSeq, nack.from, nack.to);
    var last := Min(to, s.opSeq);
    if ResendSpec(s, now, nack).1.Replayed? {
      var s1 := RecordResend(s, now, Charge(last - from + 1)).0;
      SendPacketsFrame(s1, Payloads(PackFrom([], Available(s.history, from, last))));
    }
  }

  lemma WindowGrows(y: System, now: int, n: nat, w: nat, t: State)
    requires LogOk(y.log) && WindowOk(y) && y.clock <= now
    requires y.state.windowStart.None? ==> y.state.cooldownUntil <= now
    requires w == if WindowOver(y.state, now) then y.window + 1 else y.window
    requires t.windowCount == (if WindowOver(y.state, now) then 0 else y.state.windowCount) + 1
    requires t.windowOps == (if WindowOver(y.state, now) then 0 else y.state.windowOps) + Charge(n)
    requires t.windowStart == if WindowOver(y.state, now) then Some(now) else y.state.windowStart
    requires t.windowCount < RESEND_STORM_LIMIT && t.windowOps < RESEND_STORM_OPS && n <= MAX_DIRECT_RESEND
    ensures LogOk(y.log + [Replay(now, w, n)])
    ensures WindowOk(y.(state := t, clock := now, window := w, log := y.log + [Replay(now, w, n)]))
  {
    if WindowOver(y.state, now) {
      NoneIn(y.log, w);
    }
    LogGrows(y, now, n, w);
    hide LogOk, CountIn, ChargeIn;
    CountAppend(y.log, Replay(now, w, n));
  }

  lemma ServeKeepsWindow(y: System, now: int)
    requires Inv(y) && y.clock <= now && !y.draining && y.state.pending.Some?
    ensures LogOk(Serve(y, now).log) && WindowOk(Serve(y, now)) && QueueOk(Serve(y, now))
  {
    hide ResendSpec, HistoryOk, LogOk, CountIn, ChargeIn;
    ReplayAccounting(y, now);
    var s := y.state.(pending := None);
    var (t, outcome) := ResendSpec(s, now, y.state.pending.value);
    if outcome.Replayed? {
      WindowGrows(y, now, outcome.count, if WindowOver(s, now) then y.window + 1 else y.window, t);
    }
  }

  /** Sending a batch, or refusing it, touches neither the accounting nor the NACK channel. */
  lemma SendFrame(s: State, ops: seq<Operation>)
    requires HistoryOk(s) && Headed(ops) && Headroom(s.opSeq + |ops|)
    ensures var t := SendBatchSpec(s, ops).0;
      && HistoryOk(t) && s.sent <= t.sent
      && t == s.(opSeq := t.opSeq, history := t.history, packetSeq := t.packetSeq, sent := t.sent)
  {
    hide HistoryOk, Record, Encode, PackFrom, SendPackets, FirstOversized, Headroom, Payloads;
    if !s.closed {
      var numbered := ops[..FirstOversized(ops)];
      NumberedTravel(ops);
      LessHeadroom(s.opSeq + |numbered|, s.opSeq + |ops|);
      RecordKeeps(s, numbered, None);
      if FirstOversized(ops) == |ops| {
        assert numbered == ops;
        SendPacketsFrame(Record(s, ops), Payloads(PackFrom([], Encode(s, ops))));
      }
      HistoryFrame(Record(s, numbered), SendBatchSpec(s, ops).0);
    }
  }

  lemma LessHeadroom(a: nat, b: nat)
    requires a <= b && Headroom(b)
    ensures Headroom(a)
  {
  }

  /** The operations that a batch numbers fit their datagrams. */
  lemma NumberedTravel(ops: seq<Operation>)
    requires Headed(ops)
    ensures Travels(ops[..FirstOversized(ops)])
  {
  }

  /** New numbers with what they issue. */
  lemma IssuedMore(y: System, t: System, more: map<nat, Issue>)
    requires IssuedOk(y) && t.issued == y.issued + more
    requires forall k: nat :: k in more <==> y.state.opSeq < k <= t.state.opSeq
    requires y.state.opSeq <= t.state.opSeq
    requires forall k: nat :: k in t.state.history ==>
               if k <= y.state.opSeq then k in y.state.history && t.state.history[k] == y.state.history[k]
               else k in more && t.state.history[k] == more[k].bytes
    requires Placed(y.issued, Stream(t.state)) && Placed(more, Stream(t.state))
    ensures IssuedOk(t)
    ensures forall k: nat :: k in y.issued ==> k in t.issued && t.issued[k] == y.issued[k]
  {
    hide Placed, Stream;
    PlacedTogether(y.issued, more, Stream(t.state));
  }

  lemma SentIssued(y: System, ops: seq<Operation>)
    requires HistoryOk(y.state) && IssuedOk(y) && Headed(ops) && Headroom(y.state.opSeq + |ops|)
    requires !y.state.closed && FirstOversized(ops) == |ops|
    ensures IssuedOk(Send(y, ops))
    ensures forall k: nat :: k in y.issued ==> k in Send(y, ops).issued && Send(y, ops).issued[k] == y.issued[k]
  {
    hide HistoryOk, Record, Encode, PackFrom, SendPackets, FirstOversized, Issues, Placed, Payloads, Carried;
    var s := y.state;
    NumberedTravel(ops);
    assert ops[..|ops|] == ops;
    RecordKeeps(s, ops, Some(|Stream(s)|));
    SentStream(s, ops);
    IssuesPlaced(s, ops, Stream(s));
    PlacedLonger(y.issued, Stream(s), Join(Encode(s, ops)));
    IssuedMore(y, Send(y, ops), Issues(s, ops, Some(|Stream(s)|)));
  }

  lemma RefusedIssued(y: System, ops: seq<Operation>)
    requires HistoryOk(y.state) && IssuedOk(y) && Headed(ops) && Headroom(y.state.opSeq + |ops|)
    requires !y.state.closed && FirstOversized(ops) < |ops|
    ensures IssuedOk(Send(y, ops))
    ensures forall k: nat :: k in y.issued ==> k in Send(y, ops).issued && Send(y, ops).issued[k] == y.issued[k]
  {
    hide HistoryOk, Record, Encode, PackFrom, SendPackets, FirstOversized, Issues, Placed, Payloads, Carried;
    var s, numbered := y.state, ops[..FirstOversized(ops)];
    NumberedTravel(ops);
    RecordKeeps(s, numbered, None);
    NotPlaced(s, numbered, Stream(s));
    IssuedMore(y, Send(y, ops), Issues(s, numbered, None));
  }

  /** A batch issues its numbers and no others; those of a batch that is sent stand in the stream. */
  lemma SendKeepsIssued(y: System, ops: seq<Operation>)
    requires HistoryOk(y.state) && IssuedOk(y) && Headed(ops) && Headroom(y.state.opSeq + |ops|)
    ensures IssuedOk(Send(y, ops))
    ensures forall k: nat :: k in y.issued ==> k in Send(y, ops).issued && Send(y, ops).issued[k] == y.issued[k]
  {
    hide IssuedOk, Send, HistoryOk;
    if y.state.closed {
      ClosedIssues(y, ops);
    } else if FirstOversized(ops) == |ops| {
      SentIssued(y, ops);
    } else {
      RefusedIssued(y, ops);
    }
  }

  lemma ClosedIssues(y: System, ops: seq<Operation>)
    requires y.state.closed && Headed(ops)
    ensures Send(y, ops) == y
  {
    hide Record, Encode, Carried;
    assert y.issued + map[] == y.issued;
  }

  lemma {:induction false} NotPlaced(s: State, ops: seq<Operation>, stream: Bytes)
    requires Headed(ops)
    ensures Placed(Issues(s, ops, None), stream)
    decreases |ops|
  {
    hide Record, WithSequence;
    if ops != [] {
      NotPlaced(s, ops[..|ops| - 1], stream);
    }
  }

  lemma PlacedTogether(a: map<nat, Issue>, b: map<nat, Issue>, stream: Bytes)
    requires Placed(a, stream) && Placed(b, stream)
    ensures Placed(a + b, stream)
  {
  }

  /** A batch that is sent extends the stream by its numbered operations. */
  lemma SentStream(s: State, ops: seq<Operation>)
    requires HistoryOk(s) && !s.closed && Headed(ops) && Headroom(s.opSeq + |ops|) && FirstOversized(ops) == |ops|
    ensures var t := SendBatchSpec(s, ops).0;
      && Stream(t) == Stream(s) + Join(Encode(s, ops))
      && t == Record(s, ops).(packetSeq := t.packetSeq, sent := t.sent)
  {
    hide HistoryOk, Record, Encode, PackFrom, SendPackets, FirstOversized, Carried, Payloads, Headroom, Packet, Flatten;
    NumberedTravel(ops);
    assert ops[..FirstOversized(ops)] == ops;
    RecordKeeps(s, ops, None);
    PackFromIsPacking([], Encode(s, ops));
    assert [] + Encode(s, ops) == Encode(s, ops);
    SendOperationsPacks(Record(s, ops), Encode(s, ops), PackFrom([], Encode(s, ops)));
    var t := SendBatchSpec(s, ops).0;
    LongerStream(s, t);
  }

  /** More packets extend the stream. */
  lemma LongerStream(s: State, t: State)
    requires s.sent <= t.sent
    ensures Stream(t) == Stream(s) + Carried(t.sent, |s.sent|)
  {
    hide Carried;
    CarriedSplit(t.sent, 0, |s.sent|);
    assert t.sent[..|s.sent|] == s.sent;
  }

  /** Steps that send no batch issue nothing. */
  lemma OthersKeepIssued(y: System, t: System)
    requires IssuedOk(y) && t.issued == y.issued && t.state.opSeq == y.state.opSeq && y.state.sent <= t.state.sent
    requires t.state.history == y.state.history || t.state.history == map[]
    ensures IssuedOk(t)
  {
    hide Carried, Placed;
    LongerStream(y.state, t.state);
    PlacedLonger(y.issued, Stream(y.state), Carried(t.state.sent, |y.state.sent|));
  }

  /** The history invariant depends on the counter and the history only. */
  lemma HistoryFrame(s: State, t: State)
    ensures s.opSeq == t.opSeq && s.history == t.history ==> (HistoryOk(s) <==> HistoryOk(t))
  {
  }

  lemma ResendExtends(s: State, now: int, nack: Nack)
    ensures s.sent <= ResendSpec(s, now, nack).0.sent
  {
    hide Resolve, Completion, PackFrom, SendPackets, Available, Packet;
    var (from, to) := Resolve(s.opSeq, nack.from, nack.to);
    var last := Min(to, s.opSeq);
    var s1 := RecordResend(s, now, Charge(Max(0, last - from + 1))).0;
    if ResendSpec(s, now, nack).1.Replayed? {
      SendPacketsFrame(s1, Payloads(PackFrom([], Available(s.history, from, last))));
    }
  }

  lemma FlushedHistory(s: State)
    ensures HistoryOk(s.(history := map[]))
  {
  }

  lemma ServeKeeps(y: System, now: int)
    requires Inv(y) && Enabled(y, ServeEvent(now))
    ensures Inv(Step(y, ServeEvent(now))) && Step(y, ServeEvent(now)).issued == y.issued
  {
    hide HistoryOk, LogOk, ResendSpec, IssuedOk;
    var t := Step(y, ServeEvent(now));
    HistoryFrame(y.state, t.state);
    ServeKeepsWindow(y, now);
    HistoryFrame(y.state, y.state.(pending := None));
    ReplayAllOrNothing(y.state.(pending := None), now, y.state.pending.value);
    ResendExtends(y.state.(pending := None), now, y.state.pending.value);
    OthersKeepIssued(y, t);
  }

  lemma StepKeeps(y: System, e: Event)
    requires Inv(y) && Enabled(y, e)
    ensures Inv(Step(y, e))
    ensures forall k: nat :: k in y.issued ==> k in Step(y, e).issued && Step(y, e).issued[k] == y.issued[k]
  {
    hide HistoryOk, LogOk, SendBatchSpec, ResendSpec, IssuedOk, Issues, FirstOversized;
    HistoryFrame(y.state, Step(y, e).state);
    match e
    case SendEvent(ops) =>
      SendFrame(y.state, ops);
      SendKeepsIssued(y, ops);
    case FlushEvent =>
      FlushedHistory(y.state);
      OthersKeepIssued(y, Step(y, e));
    case ServeEvent(now) =>
      ServeKeeps(y, now);
    case NackEvent(_, _) =>
      OthersKeepIssued(y, Step(y, e));
    case DrainEvent =>
      OthersKeepIssued(y, Step(y, e));
  }

  /** The invariant holds after every run from an open client. */
  lemma {:induction false} RunKeeps(x: System, events: seq<Event>, y: System)
    requires Inv(x) && Reaches(x, events, y)
    ensures Inv(y)
    ensures forall k: nat :: k in x.issued ==> k in y.issued && y.issued[k] == x.issued[k]
    decreases |events|
  {
    if events != [] {
      StepKeeps(x, events[0]);
      RunKeeps(Step(x, events[0]), events[1..], y);
    }
  }

  // ---------- the bound ----------

  predicate During(r: Replay, from: int) {
    from <= r.time <= from + 2_000_000_000
  }

  /** Replays, and replayed operations, in the closed interval of two seconds that starts at `from`. */
  function ReplaysDuring(log: seq<Replay>, from: int): nat {
    if log == [] then 0
    else ReplaysDuring(log[..|log| - 1], from) + if During(log[|log| - 1], from) then 1 else 0
  }

  function OperationsDuring(log: seq<Replay>, from: int): nat {
    if log == [] then 0
    else OperationsDuring(log[..|log| - 1], from) + if During(log[|log| - 1], from) then log[|log| - 1].count else 0
  }

  /** If the interval only meets windows w and w+1, its replays are among theirs; one operation in two
      is charged. */
  lemma {:induction false} TwoWindows(log: seq<Replay>, from: int, w: nat)
    requires forall r :: r in log ==> r.count <= 512
    requires forall r :: r in log && During(r, from) ==> r.window == w || r.window == w + 1
    ensures ReplaysDuring(log, from) <= CountIn(log, w) + CountIn(log, w + 1)
    ensures OperationsDuring(log, from) <= 2 * (ChargeIn(log, w) + ChargeIn(log, w + 1))
  {
    if log != [] {
      assert log[|log| - 1] in log;
      TwoWindows(log[..|log| - 1], from, w);
    }
  }

  /** The earliest window with a replay in the interval, or none. */
  lemma {:induction false} EarliestWindow(log: seq<Replay>, from: int) returns (w: nat)
    ensures forall r :: r in log && During(r, from) ==> w <= r.window
    ensures (exists r :: r in log && During(r, from)) ==> exists r :: r in log && During(r, from) && r.window == w
  {
    if log == [] {
      w := 0;
    } else {
      var init, last := log[..|log| - 1], log[|log| - 1];
      w := EarliestWindow(init, from);
      assert forall r :: r in log <==> r in init || r == last;
      if During(last, from) && (last.window < w || !exists r :: r in init && During(r, from)) {
        w := last.window;
      }
    }
  }

  /** On every run, any closed interval of two seconds contains at most 126 replays, with at most
      16380 operations between them. */
  lemma StormBound(x: System, events: seq<Event>, y: System, from: int)
    requires Initial(x) && Reaches(x, events, y)
    ensures ReplaysDuring(y.log, from) <= 126
    ensures OperationsDuring(y.log, from) <= 16380
  {
    InitialInv(x);
    RunKeeps(x, events, y);
    var w := EarliestWindow(y.log, from);
    TwoWindows(y.log, from, w);
  }

  /** On every run the history holds exactly the newest numbered operations, each with the bytes that were
      issued under its number; they were sent under it, unless their batch was refused. */
  lemma HistoryOnEveryRun(x: System, events: seq<Event>, y: System)
    requires Initial(x) && Reaches(x, events, y)
    ensures HistoryOk(y.state)
    ensures forall k: nat :: k in y.state.history ==> k in y.issued && y.state.history[k] == y.issued[k].bytes
    ensures Placed(y.issued, Stream(y.state))
  {
    InitialInv(x);
    RunKeeps(x, events, y);
  }

  /** What is issued under a number is never changed afterwards. */
  lemma IssuedOnce(x: System, first: seq<Event>, y: System, second: seq<Event>, z: System, k: nat)
    requires Initial(x) && Reaches(x, first, y) && Reaches(y, second, z) && k in y.issued
    ensures k in z.issued && z.issued[k] == y.issued[k]
  {
    InitialInv(x);
    RunKeeps(x, first, y);
    RunKeeps(y, second, z);
  }

  /** The bytes issued under the numbers from..to. */
  ghost function IssuedBytes(issued: map<nat, Issue>, from: nat, to: int): seq<Bytes>
    requires from <= to + 1 && forall k: nat :: from <= k <= to ==> k in issued
  {
    seq(to - from + 1, i requires 0 <= i < to - from + 1 => issued[from + i].bytes)
  }

  /** On every run a replay carries, byte for byte and in order, what was first issued under the
      numbers asked for. */
  lemma ReplaysWhatWasIssued(x: System, events: seq<Event>, y: System, now: int)
    requires Initial(x) && Reaches(x, events, y) && Enabled(y, ServeEvent(now))
    requires ResendSpec(y.state.(pending := None), now, y.state.pending.value).1.Replayed?
    ensures var nack := y.state.pending.value;
      var (from, to) := Resolve(y.state.opSeq, nack.from, nack.to);
      var last, t := Min(to, y.state.opSeq), Step(y, ServeEvent(now)).state;
      && from <= last && |y.state.sent| < |t.sent| && (forall k: nat :: from <= k <= last ==> k in y.issued)
      && Carried(t.sent[..|t.sent| - 1], |y.state.sent|) == Join(IssuedBytes(y.issued, from, last))
  {
    hide HistoryOk, ResendSpec, Resolve, Carried, Initial, Placed, Reaches, Entries, IssuedBytes;
    HistoryOnEveryRun(x, events, y);
    var s, nack := y.state.(pending := None), y.state.pending.value;
    HistoryFrame(y.state, s);
    ReplayCarries(s, now, nack);
    var (from, to) := Resolve(s.opSeq, nack.from, nack.to);
    EntriesIssued(s.history, y.issued, from, Min(to, s.opSeq));
  }

  lemma EntriesIssued(history: map<nat, Bytes>, issued: map<nat, Issue>, from: nat, to: int)
    requires forall k: nat :: k in history ==> k in issued && history[k] == issued[k].bytes
    requires from <= to + 1 && forall k: nat :: from <= k <= to ==> k in history
    ensures Entries(history, from, to) == IssuedBytes(issued, from, to)
  {
  }

  /** Without refused batches everything issued after the opening was sent. */
  lemma {:induction false} AllSent(x: System, events: seq<Event>, y: System)
    requires Inv(x) && !x.state.closed && Reaches(x, events, y)
    requires forall e :: e in events && e.SendEvent? ==> FirstOversized(e.ops) == |e.ops|
    requires forall k: nat :: k in x.issued && k > 0 ==> x.issued[k].at.Some?
    ensures forall k: nat :: k in y.issued && k > 0 ==> y.issued[k].at.Some?
    decreases |events|
  {
    hide Inv, SendBatchSpec, ResendSpec, Issues, FirstOversized;
    if events != [] {
      var e, m := events[0], Step(x, events[0]);
      StepKeeps(x, e);
      StepSent(x, e);
      AllSent(m, events[1..], y);
    }
  }

  lemma StepSent(y: System, e: Event)
    requires Inv(y) && !y.state.closed && Enabled(y, e)
    requires e.SendEvent? ==> FirstOversized(e.ops) == |e.ops|
    requires forall k: nat :: k in y.issued && k > 0 ==> y.issued[k].at.Some?
    ensures !Step(y, e).state.closed
    ensures forall k: nat :: k in Step(y, e).issued && k > 0 ==> Step(y, e).issued[k].at.Some?
  {
    hide HistoryOk, LogOk, WindowOk, QueueOk, IssuedOk, Issues, FirstOversized, Record, Encode, PackFrom, SendPackets;
    match e
    case SendEvent(ops) =>
      assert ops[..FirstOversized(ops)] == ops;
      SendFrame(y.state, ops);
      AllPlaced(y.state, ops, |Stream(y.state)|);
    case ServeEvent(now) =>
      ResendOpen(y.state.(pending := None), now, y.state.pending.value);
    case FlushEvent =>
    case NackEvent(_, _) =>
    case DrainEvent =>
  }

  lemma ResendOpen(s: State, now: int, nack: Nack)
    ensures ResendSpec(s, now, nack).0.closed == s.closed
  {
    hide Resolve, Completion, PackFrom, SendPackets, Available, Packet;
    var (from, to) := Resolve(s.opSeq, nack.from, nack.to);
    var last := Min(to, s.opSeq);
    var s1 := RecordResend(s, now, Charge(Max(0, last - from + 1))).0;
    if ResendSpec(s, now, nack).1.Replayed? {
      SendPacketsFrame(s1, Payloads(PackFrom([], Available(s.history, from, last))));
    }
  }

  lemma {:induction false} AllPlaced(s: State, ops: seq<Operation>, base: nat)
    requires Headed(ops)
    ensures forall k: nat :: k in Issues(s, ops, Some(base)) ==> Issues(s, ops, Some(base))[k].at.Some?
    decreases |ops|
  {
    if ops != [] {
      AllPlaced(s, ops[..|ops| - 1], base);
    }
  }
}
