/** What the transport of internal/display/client.go guarantees about its history, its replays and
    the ranges NACKs stand for. */
module History {
  import opened Geometry
  import opened Operations
  import opened Tiling
  import opened Packing
  import opened Transport

  // ---------- sequence extension ----------

  function Distance(a: int, b: int): nat { if a < b then b - a else a - b }

  /** Room below the uint32 limit. */
  predicate Headroom(opSeq: nat) { opSeq + SEQ_MOD < 0x1_0000_0000 }

  /** The extension has the wire value's low 16 bits and is as near to the current sequence as any
      non-negative number that has them. */
  lemma ExtendNearest(wire: nat, current: nat, other: nat)
    requires Headroom(current) && other % 0x1_0000 == wire % 0x1_0000
    ensures ExtendSequence(wire, current) % 0x1_0000 == wire % 0x1_0000
    ensures Distance(ExtendSequence(wire, current), current) <= Distance(other, current)
  {
    var epoch, others := current / SEQ_MOD, other / SEQ_MOD;
    assert other == others * SEQ_MOD + wire % SEQ_MOD;
    assert (epoch * SEQ_MOD + wire % SEQ_MOD) % SEQ_MOD == wire % SEQ_MOD;
    assert others <= epoch - 1 || others == epoch || others >= epoch + 1;
  }

  /** Up to and at half the 16-bit space the number keeps the high bits of the current sequence. */
  lemma ExtendTie(wire: nat, current: nat)
    requires Headroom(current)
    ensures var same := current / 0x1_0000 * 0x1_0000 + wire % 0x1_0000;
      Distance(same, current) <= 0x8000 ==> ExtendSequence(wire, current) == same
  {
  }

  /** A number within half the 16-bit space of the current sequence is found again from its low bits. */
  lemma ExtendRecovers(n: nat, wire: nat, current: nat)
    requires Headroom(current) && n <= current && current - n < 0x8000
    requires wire % 0x1_0000 == n % 0x1_0000
    ensures ExtendSequence(wire, current) == n
  {
    hide ExtendSequence, Headroom;
    ExtendNearest(wire, current, n);
    SameResidue(ExtendSequence(wire, current), n);
  }

  lemma SameResidue(a: nat, b: nat)
    requires a % SEQ_MOD == b % SEQ_MOD && Distance(a, b) < SEQ_MOD
    ensures a == b
  {
    var p, q := a / SEQ_MOD, b / SEQ_MOD;
    assert a - b == (p - q) * SEQ_MOD;
  }

  // ---------- the history invariant ----------

  /** The history holds exactly the last |history| sequence numbers, each with its own wire number
      and a size that travels in one datagram. */
  ghost predicate HistoryOk(s: State) {
    && |s.history| <= 8192 && |s.history| <= s.opSeq + 1
    && (forall k: nat :: k in s.history <==> s.opSeq - |s.history| < k <= s.opSeq)
    && (forall k: nat :: k in s.history ==> HoldsNumber(s.history[k], k))
  }

  predicate HoldsNumber(b: Bytes, k: nat) {
    12 <= |b| <= 1432 && U16(b, 2) == k % 0x1_0000
  }

  predicate Travels(ops: seq<Operation>) {
    forall op :: op in ops ==> 12 <= |op.bytes| <= 1432
  }

  lemma OpenHistoryOk(s: State)
    requires s.opSeq == 0 && s.history == map[0 := WithSequence(Pad().bytes, 0)]
    ensures HistoryOk(s)
  {
    assert s.history.Keys == {0};
    assert |s.history| == 1;
  }

  lemma MapAdd<V>(m: map<nat, V>, k: nat, v: V)
    requires k !in m
    ensures |m[k := v]| == |m| + 1
  {
  }

  lemma MapRemove<V>(m: map<nat, V>, k: nat)
    requires k in m
    ensures |m - {k}| == |m| - 1
  {
  }

  /** The history with one entry more, and without the one 8192 numbers back when it is over its limit. */
  function Remembered(s: State, n: nat, bytes: Bytes): map<nat, Bytes>
    requires n >= |s.history|
  {
    var g := s.history[n := bytes];
    if |g| > MAX_HISTORY_SIZE then g - {n - MAX_HISTORY_SIZE} else g
  }

  lemma RememberedKeys(s: State, n: nat, bytes: Bytes)
    requires HistoryOk(s) && n == s.opSeq + 1
    ensures var h := Remembered(s, n, bytes);
      && |h| == Min(|s.history| + 1, MAX_HISTORY_SIZE)
      && (forall k: nat :: k in h <==> n - |h| < k <= n)
  {
    hide HoldsNumber;
    MapAdd(s.history, n, bytes);
    var g := s.history[n := bytes];
    if |g| > MAX_HISTORY_SIZE {
      OldestPresent(s);
      MapRemove(g, n - MAX_HISTORY_SIZE);
    }
  }

  lemma RememberedEntries(s: State, n: nat, bytes: Bytes)
    requires HistoryOk(s) && n == s.opSeq + 1
    ensures forall k: nat :: k in Remembered(s, n, bytes) ==>
              if k == n then Remembered(s, n, bytes)[k] == bytes
              else k in s.history && Remembered(s, n, bytes)[k] == s.history[k]
  {
  }

  lemma RememberKeeps(s: State, n: nat, bytes: Bytes)
    requires HistoryOk(s) && n == s.opSeq + 1 && HoldsNumber(bytes, n)
    ensures var h := Remembered(s, n, bytes);
      && HistoryOk(s.(opSeq := n, history := h))
      && n in h && h[n] == bytes && |h| == Min(|s.history| + 1, MAX_HISTORY_SIZE)
      && (forall k: nat :: k <= s.opSeq && k in h ==> k in s.history && h[k] == s.history[k])
  {
    RememberedKeys(s, n, bytes);
    RememberedEntries(s, n, bytes);
    hide Remembered, HoldsNumber;
  }

  lemma OldestPresent(s: State)
    requires HistoryOk(s) && |s.history| == MAX_HISTORY_SIZE
    ensures s.opSeq + 1 >= MAX_HISTORY_SIZE && s.opSeq + 1 - MAX_HISTORY_SIZE in s.history
  {
  }

  lemma NumberedHolds(bytes: Bytes, n: nat)
    requires 12 <= |bytes| <= CAPACITY
    ensures HoldsNumber(WithSequence(bytes, n), n)
  {
  }

  /** Below the uint32 limit numbering does not wrap. */
  lemma Recorded(s: State, op: Operation)
    requires HistoryOk(s) && Headroom(s.opSeq) && 12 <= |op.bytes| && op.increment
    ensures var n := s.opSeq + 1;
      RecordOne(s, op) == s.(opSeq := n, history := Remembered(s, n, WithSequence(op.bytes, n)))
  {
    hide WithSequence, HoldsNumber;
    var n := s.opSeq + 1;
    MapAdd(s.history, n, WithSequence(op.bytes, n));
    Unwrapped(n);
    if n >= MAX_HISTORY_SIZE {
      Unwrapped(n - MAX_HISTORY_SIZE);
    }
    hide U32;
  }

  lemma Unwrapped(n: nat)
    requires n < 0x1_0000_0000
    ensures U32(n) == n
  {
  }

  lemma RecordOneKeeps(s: State, op: Operation)
    requires HistoryOk(s) && Headroom(s.opSeq) && 12 <= |op.bytes| && !Oversized(op)
    ensures var t := RecordOne(s, op);
      && HistoryOk(t) && s.opSeq <= t.opSeq <= s.opSeq + 1
      && (op.increment <==> t.opSeq == s.opSeq + 1)
      && (op.increment ==> t.opSeq in t.history && t.history[t.opSeq] == WithSequence(op.bytes, t.opSeq))
      && (op.increment ==> |t.history| == Min(|s.history| + 1, MAX_HISTORY_SIZE))
      && (forall k: nat :: k <= s.opSeq && k in t.history ==> k in s.history && t.history[k] == s.history[k])
      && (!op.increment ==> t == s)
      && t == s.(opSeq := t.opSeq, history := t.history)
  {
    if op.increment {
      var n := s.opSeq + 1;
      NumberedHolds(op.bytes, n);
      Recorded(s, op);
      hide WithSequence, HoldsNumber, HistoryOk, RecordOne, Remembered;
      RememberKeeps(s, n, WithSequence(op.bytes, n));
    }
  }

  function Increments(ops: seq<Operation>): nat {
    if ops == [] then 0 else Increments(ops[..|ops| - 1]) + if ops[|ops| - 1].increment then 1 else 0
  }

  /** The bytes issued under a number, and where they stand in the stream of all that was sent; None for
      a number of a refused batch, which is issued and remembered but not sent. */
  datatype Issue = Issue(bytes: Bytes, at: Option<nat>)

  /** What a batch issues, number by number; `base` is the length of the stream before it, if it is sent. */
  ghost function Issues(s: State, ops: seq<Operation>, base: Option<nat>): map<nat, Issue>
    requires Headed(ops)
    decreases |ops|
  {
    if ops == [] then map[]
    else
      var init, op := ops[..|ops| - 1], ops[|ops| - 1];
      var n := Record(s, ops).opSeq;
      if op.increment then Issues(s, init, base)[n := Issue(WithSequence(op.bytes, n), Place(s, init, base))]
      else Issues(s, init, base)
  }

  /** Where the operation after `before` goes. */
  ghost function Place(s: State, before: seq<Operation>, base: Option<nat>): Option<nat>
    requires Headed(before)
  {
    if base.Some? then Some(base.value + |Join(Encode(s, before))|) else None
  }

  /** After numbering a batch the invariant still holds, the counter advanced once for each drawing
      operation, the batch issued each number in between once, and every history entry is an old one or
      the bytes that the batch issued under its number. */
  lemma {:induction false} RecordKeeps(s: State, ops: seq<Operation>, base: Option<nat>)
    requires HistoryOk(s) && Travels(ops) && Headroom(s.opSeq + |ops|)
    ensures var t, issues := Record(s, ops), Issues(s, ops, base);
      && HistoryOk(t) && t.opSeq == s.opSeq + Increments(ops) <= s.opSeq + |ops|
      && t == s.(opSeq := t.opSeq, history := t.history)
      && (forall k: nat :: k in issues <==> s.opSeq < k <= t.opSeq)
      && (forall k: nat :: k in t.history ==>
            if k <= s.opSeq then k in s.history && t.history[k] == s.history[k]
            else k in issues && t.history[k] == issues[k].bytes)
    ensures Sendable(Encode(s, ops))
    decreases |ops|
  {
    hide HistoryOk, RecordOne, Place, WithSequence;
    HistoryBelow(s);
    if ops != [] {
      var init, op := ops[..|ops| - 1], ops[|ops| - 1];
      RecordKeeps(s, init, base);
      assert op in ops;
      RecordOneKeeps(Record(s, init), op);
      HistoryBelow(Record(s, ops));
      IssuesLast(s, ops, base);
      hide Issues;
      forall k: nat
        ensures k in Issues(s, ops, base) <==> s.opSeq < k <= Record(s, ops).opSeq
      {
        assert k in Issues(s, init, base) <==> s.opSeq < k <= Record(s, init).opSeq;
      }
    }
  }

  lemma IssuesLast(s: State, ops: seq<Operation>, base: Option<nat>)
    requires Headed(ops) && ops != []
    ensures var init, op, n := ops[..|ops| - 1], ops[|ops| - 1], Record(s, ops).opSeq;
      && (forall k: nat :: k in Issues(s, ops, base) <==> k in Issues(s, init, base) || (op.increment && k == n))
      && (forall k: nat :: k in Issues(s, init, base) && !(op.increment && k == n) ==>
            Issues(s, ops, base)[k] == Issues(s, init, base)[k])
      && (op.increment ==> Issues(s, ops, base)[n] == Issue(WithSequence(op.bytes, n), Place(s, init, base)))
  {
    hide Record, Place, WithSequence;
  }

  lemma HistoryBelow(s: State)
    ensures HistoryOk(s) ==> forall k: nat :: k in s.history ==> k <= s.opSeq
  {
  }

  lemma TravelsInit(ops: seq<Operation>)
    requires Travels(ops)
    ensures Headed(ops) && (ops != [] ==> Travels(ops[..|ops| - 1]) && Headed(ops[..|ops| - 1]))
  {
  }

  /** The i-th operation's bytes are issued under its number: the i-th that are sent. */
  lemma {:induction false} IssuedAsSent(s: State, ops: seq<Operation>, base: Option<nat>, i: nat)
    requires HistoryOk(s) && Travels(ops) && Headroom(s.opSeq + |ops|) && i < |ops| && ops[i].increment
    ensures var k := s.opSeq + Increments(ops[..i + 1]);
      k in Issues(s, ops, base) && Issues(s, ops, base)[k].bytes == Encode(s, ops)[i]
    decreases |ops|
  {
    hide HistoryOk, Record, Place, WithSequence, Travels, Issues, Encode;
    var init := ops[..|ops| - 1];
    TravelsInit(ops);
    RecordKeeps(s, ops, base);
    IssuesLast(s, ops, base);
    EncodeLast(s, ops);
    if i == |ops| - 1 {
      assert ops[..i + 1] == ops;
    } else {
      RecordKeeps(s, init, base);
      assert init[..i + 1] == ops[..i + 1];
      IssuedAsSent(s, init, base, i);
    }
  }

  lemma EncodeLast(s: State, ops: seq<Operation>)
    requires Headed(ops) && ops != []
    ensures var n := |ops| - 1;
      && |Encode(s, ops)| == |ops| && Encode(s, ops)[..n] == Encode(s, ops[..n])
      && Encode(s, ops)[n] == WithSequence(ops[n].bytes, Record(s, ops).opSeq)
  {
    hide WithSequence, Record;
  }

  /** The issued bytes stand at their places in the stream. */
  ghost predicate Placed(issues: map<nat, Issue>, stream: Bytes) {
    forall k: nat :: k in issues && issues[k].at.Some? ==>
      var at, bytes := issues[k].at.value, issues[k].bytes;
      at + |bytes| <= |stream| && stream[at..at + |bytes|] == bytes
  }

  lemma PlacedLonger(issues: map<nat, Issue>, stream: Bytes, more: Bytes)
    requires Placed(issues, stream)
    ensures Placed(issues, stream + more)
  {
    forall k: nat | k in issues && issues[k].at.Some?
      ensures var at, bytes := issues[k].at.value, issues[k].bytes;
        at + |bytes| <= |stream + more| && (stream + more)[at..at + |bytes|] == bytes
    {
      var at, bytes := issues[k].at.value, issues[k].bytes;
      assert (stream + more)[at..at + |bytes|] == stream[at..at + |bytes|];
    }
  }

  /** A batch's bytes, sent after `before`, stand where its issues say. */
  lemma {:induction false} IssuesPlaced(s: State, ops: seq<Operation>, before: Bytes)
    requires Headed(ops)
    ensures Placed(Issues(s, ops, Some(|before|)), before + Join(Encode(s, ops)))
    decreases |ops|
  {
    hide WithSequence, Record;
    if ops != [] {
      var init, op := ops[..|ops| - 1], ops[|ops| - 1];
      var bytes := WithSequence(op.bytes, Record(s, ops).opSeq);
      IssuesPlaced(s, init, before);
      var stream := before + Join(Encode(s, init));
      PlacedLonger(Issues(s, init, Some(|before|)), stream, bytes);
      JoinAppend(Encode(s, init), bytes);
      assert before + Join(Encode(s, ops)) == stream + bytes;
      assert (stream + bytes)[|stream|..] == bytes;
    }
  }

  // ---------- batches ----------

  lemma PacketCarries(n: nat, payload: Bytes)
    ensures |Packet(n, payload)| == PACKET_HEADER_SIZE + |payload|
    ensures Packet(n, payload)[PACKET_HEADER_SIZE..] == payload
  {
  }

  lemma {:induction false} CarriedStep(sent: seq<Bytes>, from: nat)
    requires from < |sent| && |sent[from]| >= PACKET_HEADER_SIZE
    ensures Carried(sent, from) == sent[from][PACKET_HEADER_SIZE..] + Carried(sent, from + 1)
  {
  }

  /** What the packets carry is what the first n carry and then what the others do. */
  lemma {:induction false} CarriedSplit(sent: seq<Bytes>, from: nat, n: nat)
    requires from <= n <= |sent|
    ensures Carried(sent, from) == Carried(sent[..n], from) + Carried(sent, n)
    decreases n - from
  {
    if from < n {
      CarriedSplit(sent, from + 1, n);
      assert sent[..n][from] == sent[from];
    }
  }

  lemma {:induction false} JoinFront(payloads: seq<Bytes>)
    requires payloads != []
    ensures Join(payloads) == payloads[0] + Join(payloads[1..])
  {
    assert payloads == [payloads[0]] + payloads[1..];
    JoinConcat([payloads[0]], payloads[1..]);
    JoinSingle(payloads[0]);
  }

  /** The packets of a transmission carry its payloads, one each. */
  lemma {:induction false} SendPacketsCarry(s: State, payloads: seq<Bytes>)
    ensures var t := SendPackets(s, payloads);
      && |t.sent| == |s.sent| + |payloads|
      && s.sent <= t.sent
      && Carried(t.sent, |s.sent|) == Join(payloads)
      && (forall i :: 0 <= i < |payloads| ==> |t.sent[|s.sent| + i]| == PACKET_HEADER_SIZE + |payloads[i]|)
    decreases |payloads|
  {
    if payloads != [] {
      var s1 := SendPacket(s, payloads[0]);
      SendPacketsCarry(s1, payloads[1..]);
      PacketCarries(Uint16(s.packetSeq + 1), payloads[0]);
      var t := SendPackets(s1, payloads[1..]);
      assert t.sent[|s.sent|] == s1.sent[|s.sent|];
      CarriedStep(t.sent, |s.sent|);
      JoinFront(payloads);
    }
  }

  lemma PacketsFit(s: State, payloads: seq<Bytes>)
    requires forall p :: p in payloads ==> |p| <= CAPACITY
    ensures var t := SendPackets(s, payloads);
      |s.sent| <= |t.sent| && forall i :: |s.sent| <= i < |t.sent| ==> |t.sent[i]| <= MAX_DATAGRAM_SIZE
  {
    SendPacketsCarry(s, payloads);
    var t := SendPackets(s, payloads);
    forall i | |s.sent| <= i < |t.sent|
      ensures |t.sent[i]| <= MAX_DATAGRAM_SIZE
    {
      var j := i - |s.sent|;
      assert |t.sent[|s.sent| + j]| == PACKET_HEADER_SIZE + |payloads[j]|;
      assert payloads[j] in payloads;
    }
  }

  /** A transmission of sendable operations: the packets carry exactly their bytes in order, none is
      above the datagram limit, and no packing of whole operations needs fewer. */
  lemma SendOperationsPacks(s: State, operations: seq<Bytes>, other: seq<seq<Bytes>>)
    requires Sendable(operations) && IsPacking(other, operations)
    ensures var t := SendOperations(s, operations);
      && s.sent <= t.sent && Carried(t.sent, |s.sent|) == Join(operations)
      && (forall i :: |s.sent| <= i < |t.sent| ==> |t.sent[i]| <= 1448)
      && |t.sent| - |s.sent| <= |other|
      && t == s.(packetSeq := t.packetSeq, sent := t.sent)
  {
    hide PackFrom, Packet, SendPackets, Carried, Payloads, Flatten;
    var groups := PackFrom([], operations);
    PackFromIsPacking([], operations);
    PackFromMinimal([], operations, other);
    assert [] + operations == operations;
    JoinPayloads(groups);
    PayloadsFit(groups);
    SendPacketsCarry(s, Payloads(groups));
    SendPacketsFrame(s, Payloads(groups));
    PacketsFit(s, Payloads(groups));
  }

  lemma {:induction false} NoneOversized(ops: seq<Operation>)
    requires Travels(ops)
    ensures FirstOversized(ops) == |ops|
  {
  }

  /** A batch of operations that fit always succeeds: the packets carry exactly the numbered
      operations, and new history entries are what they carry under their numbers. */
  lemma SendBatchDelivers(s: State, ops: seq<Operation>, other: seq<seq<Bytes>>)
    requires HistoryOk(s) && !s.closed && Travels(ops) && Headroom(s.opSeq + |ops|)
    requires IsPacking(other, Encode(s, ops))
    ensures var (t, ok) := SendBatchSpec(s, ops);
      && ok && HistoryOk(t) && t.opSeq == s.opSeq + Increments(ops)
      && s.sent <= t.sent && Carried(t.sent, |s.sent|) == Join(Encode(s, ops))
      && (forall i :: |s.sent| <= i < |t.sent| ==> |t.sent[i]| <= 1448)
      && |t.sent| - |s.sent| <= |other|
      && (forall k: nat :: k in t.history && k > s.opSeq ==>
            k in Issues(s, ops, None) && t.history[k] == Issues(s, ops, None)[k].bytes)
  {
    NoneOversized(ops);
    RecordKeeps(s, ops, None);
    SendOperationsPacks(Record(s, ops), Encode(s, ops), other);
  }

  /** A batch with an oversized operation is refused with nothing sent, yet the drawing operations
      before it stay numbered: the counter moved exactly when there was one. */
  lemma SendBatchRefuses(s: State, ops: seq<Operation>)
    requires HistoryOk(s) && !s.closed && Headed(ops) && Headroom(s.opSeq + |ops|)
    requires FirstOversized(ops) < |ops|
    ensures var (t, ok) := SendBatchSpec(s, ops);
      && !ok && t.sent == s.sent && HistoryOk(t)
      && (t.history == s.history && t.opSeq == s.opSeq <==>
          forall i :: 0 <= i < FirstOversized(ops) ==> !ops[i].increment)
  {
    hide RecordOne, HistoryOk, Record, Encode, PackFrom, SendPackets, FirstOversized;
    var k := FirstOversized(ops);
    var part := ops[..k];
    assert forall i :: 0 <= i < k ==> part[i] == ops[i];
    RecordKeeps(s, part, None);
    NoIncrements(s, part);
  }

  lemma OneThenOversized(first: Operation, second: Operation)
    requires !Oversized(first) && Oversized(second)
    ensures FirstOversized([first, second]) == 1
  {
    assert [first, second][1..] == [second];
  }

  /** An input that shows it: a refused batch that nevertheless numbers its first operation. */
  lemma RefusedBatchAdvances(s: State) returns (ops: seq<Operation>)
    requires HistoryOk(s) && !s.closed && Headroom(s.opSeq + 2)
    ensures Headed(ops) && |ops| == 2
    ensures var (t, ok) := SendBatchSpec(s, ops);
      !ok && t.sent == s.sent && t.opSeq == s.opSeq + 1 && t.opSeq in t.history
  {
    hide HistoryOk, Record, Encode, PackFrom, SendPackets, FirstOversized;
    var first, second := Operation(seq(16, _ => 0), true), Operation(seq(MAX_DATAGRAM_SIZE, _ => 0), true);
    ops := [first, second];
    OneThenOversized(first, second);
    assert ops[..1] == [first];
    RecordSingle(s, first);
  }

  lemma RecordSingle(s: State, op: Operation)
    requires HistoryOk(s) && Headroom(s.opSeq) && 12 <= |op.bytes| && !Oversized(op) && op.increment
    ensures var t := Record(s, [op]);
      t.opSeq == s.opSeq + 1 && t.opSeq in t.history && t.sent == s.sent
  {
    hide HistoryOk, RecordOne, WithSequence;
    assert [op][..0] == [];
    assert Record(s, []) == s;
    RecordOneKeeps(s, op);
  }

  lemma {:induction false} NoIncrements(s: State, ops: seq<Operation>)
    requires Headed(ops)
    ensures Increments(ops) == 0 <==> forall i :: 0 <= i < |ops| ==> !ops[i].increment
    ensures Increments(ops) == 0 ==> Record(s, ops) == s
  {
    if ops != [] {
      NoIncrements(s, ops[..|ops| - 1]);
    }
  }

  // ---------- the storm breaker ----------

  /** The breaker has room for a replay of n operations: no window of two seconds is open, or the open one
      has fewer than 63 replays and its operations, at most 256 for each replay, stay below 4096. */
  predicate Room(s: State, now: int, n: nat) {
    || s.windowStart.None? || now - s.windowStart.value > 2_000_000_000
    || (s.windowCount < 63 && s.windowOps + Min(n, 256) < 4096)
  }

  lemma RoomExact(s: State, now: int, n: nat)
    ensures RecordResend(s, now, Charge(n)).1 <==> !Room(s, now, n)
  {
  }

  // ---------- replays ----------

  lemma {:induction false} AvailableAll(history: map<nat, Bytes>, from: nat, to: int)
    requires from <= to + 1 && (forall k: nat :: from <= k <= to ==> k in history)
    ensures |Available(history, from, to)| == to - from + 1
    ensures forall k: nat {:trigger history[k]} :: from <= k <= to ==>
              Available(history, from, to)[k - from] == history[k]
    decreases 1 + to - from
  {
    if from <= to {
      AvailableAll(history, from + 1, to);
    }
  }

  /** A replay never stops early: a request is answered by the whole of from..min(to, opSeq), at most
      512 operations, or by nothing at all; no answer advances the drawing sequence. */
  lemma ReplayAllOrNothing(s: State, now: int, nack: Nack)
    requires HistoryOk(s)
    ensures var (from, to) := Resolve(s.opSeq, nack.from, nack.to);
      var last := Min(to, s.opSeq);
      var (t, outcome) := ResendSpec(s, now, nack);
      && t.opSeq == s.opSeq && HistoryOk(t)
      && (outcome.Missing? <==> s.closed || from > last || from !in s.history)
      && (outcome.Missing? ==> t == s)
      && (outcome.Fired? ==> t.history == map[] && t.cooldownUntil == now + 2_000_000_000)
      && (outcome.Replayed? ==>
            && outcome.count == last - from + 1 <= 512
            && (forall k: nat :: from <= k <= last ==> k in s.history)
            && t.history == s.history)
  {
    hide Resolve, Completion, PackFrom, SendPackets, Available, HoldsNumber;
    var (from, to) := Resolve(s.opSeq, nack.from, nack.to);
    var last := Min(to, s.opSeq);
    if !s.closed && from <= last && from in s.history {
      AvailableAll(s.history, from, last);
      var replay := Available(s.history, from, last);
      var (s1, fired) := RecordResend(s, now, Charge(last - from + 1));
      SendPacketsFrame(s1, Payloads(PackFrom([], replay)));
    }
  }

  /** The sequence number of a completion's two operations, as bytes. */
  function SequenceBytes(n: nat): Bytes { [n % 0x1_0000 / 256, n % 0x1_0000 % 256] }

  lemma PadBytes(n: nat)
    ensures WithSequence(Pad().bytes, n)
            == [0xAF, 0] + SequenceBytes(n) + [0, 0, 0, 1, 255, 255, 255, 255] + seq(12, _ => 255)
  {
    var b := Pad().bytes;
    assert b[..2] == [0xAF, 0] && b[4..] == [0, 0, 0, 1, 255, 255, 255, 255] + seq(12, _ => 255);
  }

  lemma DoneBytes(n: nat, to: nat)
    ensures WithSequence(ResendDone(to).bytes, n)
            == [0xAC, 0] + SequenceBytes(n) + seq(11, _ => 0) + [1, 0, 0] + SequenceBytes(to)
  {
    var b := ResendDone(to).bytes;
    assert b[..2] == [0xAC, 0];
    assert b[4..] == seq(11, _ => 0) + [1, 0, 0] + SequenceBytes(to);
  }

  /** The completion, byte for byte: a pad and the status operation with the requested end, both under the
      current sequence number. */
  lemma CompletionEchoes(n: nat, opSeq: nat, to: nat)
    ensures Completion(opSeq, to)
            == [0xAF, 0] + SequenceBytes(opSeq) + [0, 0, 0, 1, 255, 255, 255, 255] + seq(12, _ => 255)
               + ([0xAC, 0] + SequenceBytes(opSeq) + seq(11, _ => 0) + [1, 0, 0] + SequenceBytes(to))
    ensures |Completion(opSeq, to)| == 44
    ensures U16(Packet(n, Completion(opSeq, to)), 58) == Uint16(to)
  {
    hide WithSequence, Pad, ResendDone;
    PadBytes(opSeq);
    DoneBytes(opSeq, to);
    var c, end := Completion(opSeq, to), SequenceBytes(to);
    assert c[42] == end[0] && c[43] == end[1];
    PacketCarries(n, c);
    assert Packet(n, c)[16..][42] == Packet(n, c)[58] && Packet(n, c)[16..][43] == Packet(n, c)[59];
  }

  /** The history entries from..to, one after the other. */
  ghost function Entries(history: map<nat, Bytes>, from: nat, to: int): seq<Bytes>
    requires from <= to + 1 && forall k: nat :: from <= k <= to ==> k in history
  {
    seq(to - from + 1, i requires 0 <= i < to - from + 1 => history[from + i])
  }

  lemma EntriesSendable(s: State, from: nat, last: nat)
    requires HistoryOk(s) && from <= last && forall k: nat :: from <= k <= last ==> k in s.history
    ensures Available(s.history, from, last) == Entries(s.history, from, last)
    ensures Sendable(Entries(s.history, from, last))
  {
    AvailableAll(s.history, from, last);
    var e := Entries(s.history, from, last);
    forall op | op in e
      ensures 0 < |op| <= CAPACITY
    {
      var i :| 0 <= i < |e| && e[i] == op;
      assert HoldsNumber(s.history[from + i], from + i);
    }
  }

  lemma ReplayShape(s: State, now: int, nack: Nack) returns (s1: State)
    requires ResendSpec(s, now, nack).1.Replayed?
    ensures var (from, to) := Resolve(s.opSeq, nack.from, nack.to);
      && s1.sent == s.sent
      && ResendSpec(s, now, nack).0
         == SendPacket(SendOperations(s1, Available(s.history, from, Min(to, s.opSeq))), Completion(s.opSeq, nack.to))
  {
    hide Completion, Resolve, Available, SendOperations;
    var (from, to) := Resolve(s.opSeq, nack.from, nack.to);
    s1 := RecordResend(s, now, Charge(Min(to, s.opSeq) - from + 1)).0;
  }

  /** The packets of a replay carry the history entries in order, then one Pad/ResendDone packet
      that echoes the requested end. */
  lemma ReplayCarries(s: State, now: int, nack: Nack)
    requires HistoryOk(s) && ResendSpec(s, now, nack).1.Replayed?
    ensures var (from, to) := Resolve(s.opSeq, nack.from, nack.to);
      var last := Min(to, s.opSeq);
      var t := ResendSpec(s, now, nack).0;
      && s.sent < t.sent
      && from <= last && (forall k: nat :: from <= k <= last ==> k in s.history)
      && Carried(t.sent[..|t.sent| - 1], |s.sent|) == Join(Entries(s.history, from, last))
      && t.sent[|t.sent| - 1] == Packet(t.packetSeq, Completion(s.opSeq, nack.to))
      && U16(t.sent[|t.sent| - 1], 58) == Uint16(nack.to)
  {
    hide HistoryOk, PackFrom, Packet, Completion, SendPackets, Resolve, Carried, Available, ResendSpec;
    var (from, to) := Resolve(s.opSeq, nack.from, nack.to);
    var last := Min(to, s.opSeq);
    ReplayAllOrNothing(s, now, nack);
    EntriesSendable(s, from, last);
    var replay := Available(s.history, from, last);
    var s1 := ReplayShape(s, now, nack);
    PackFromIsPacking([], replay);
    assert [] + replay == replay;
    SendOperationsPacks(s1, replay, PackFrom([], replay));
    var t1 := SendOperations(s1, replay);
    var t := SendPacket(t1, Completion(s.opSeq, nack.to));
    assert t.sent[..|t.sent| - 1] == t1.sent;
    CompletionEchoes(t.packetSeq, s.opSeq, nack.to);
  }

  /** Two 16-bit values always stand for numbers in order, the second at most one wrap behind its nearest number;
      wider values stand for the nearest numbers themselves. */
  lemma ResolveInOrder(opSeq: nat, from: nat, to: nat)
    requires Headroom(opSeq + 0x1_0000) && to != 0x00FF_FFFF
    ensures var (f, t) := Resolve(opSeq, from, to);
      var near := ExtendSequence(to, opSeq);
      && f == ExtendSequence(from, opSeq)
      && if from < 0x1_0000 && to < 0x1_0000 then f <= t && t == (if near < f then near + 0x1_0000 else near)
         else t == near
  {
    ExtendClose(from, opSeq);
    ExtendClose(to, opSeq);
    hide ExtendSequence;
  }

  lemma ExtendClose(wire: nat, current: nat)
    requires Headroom(current)
    ensures ExtendSequence(wire, current) < 0xFFFF_0000 + 0x8000
    ensures current < 0x8000 || Distance(ExtendSequence(wire, current), current) <= 0x8000
    ensures current < 0x8000 ==> ExtendSequence(wire, current) < 0x1_0000
  {
  }

  /** For numbers a <= b still in the history, a NACK carrying their low 16 bits in any way, wrapped
      or not, resolves to exactly a..b, and the two 16-bit values pass the range check. */
  lemma NackFindsRange(s: State, a: nat, b: nat, from: nat, to: nat)
    requires HistoryOk(s) && Headroom(s.opSeq)
    requires a <= b && a in s.history && b in s.history
    requires from % 0x1_0000 == a % 0x1_0000 && to % 0x1_0000 == b % 0x1_0000 && to != 0x00FF_FFFF
    ensures Resolve(s.opSeq, from, to) == (a, b)
    ensures ValidNackRange(a % 0x1_0000, b % 0x1_0000)
  {
    ExtendRecovers(a, from, s.opSeq);
    ExtendRecovers(b, to, s.opSeq);
  }
}
