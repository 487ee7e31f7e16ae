/** internal/display/client.go: sequence numbers, the bounded history, NACK ranges, replay and the
    resend storm breaker. Time is an explicit number of nanoseconds and the socket is the list of
    packets sent; sends succeed. */
module Transport {
  import opened Geometry
  import opened Operations
  import opened Tiling
  import opened Packing

  const SEQ_MOD: nat := 0x1_0000
  const NACK_OPEN_ENDED: nat := 0x00FF_FFFF
  const MAX_NACK_RANGE: nat := SEQ_MOD
  const MAX_RESEND_CHARGE: nat := 256
  const MAX_DIRECT_RESEND: nat := 512
  const MAX_HISTORY_SIZE: nat := 8192
  const RESEND_STORM_LIMIT: nat := 64
  const RESEND_STORM_OPS: nat := 4096
  const RESEND_STORM_WINDOW: nat := 2_000_000_000
  const RESEND_STORM_COOLDOWN: nat := 2_000_000_000

  /** uint32 arithmetic. */
  function U32(n: int): nat { n % 0x1_0000_0000 }

  datatype Nack = Nack(marker: nat, from: nat, to: nat)

  /** The client's fields; `sent` stands for the socket. */
  datatype State = State(packetSeq: nat, opSeq: nat, history: map<nat, Bytes>,
                         windowStart: Option<int>, windowCount: nat, windowOps: nat, cooldownUntil: int,
                         pending: Option<Nack>, closed: bool, sent: seq<Bytes>)

  // ---------- operations on the wire ----------

  function BigEndian16(n: int): Bytes {
    [Uint16(n) / 256, Uint16(n) % 256]
  }

  function HeaderBytes(code: Byte, x: int, y: int, w: int, h: int): (b: Bytes)
    ensures |b| == 12 && Header(b, code, x, y, w, h)
  {
    [code, 0, 0, 0] + BigEndian16(x) + BigEndian16(y) + BigEndian16(w) + BigEndian16(h)
  }

  function Pad(): Operation {
    Operation(HeaderBytes(OP_PAD, 0, 1, 0xFFFF, 0xFFFF) + seq(12, _ => 0xFF), false)
  }

  function ResendDone(to: nat): Operation {
    Operation(HeaderBytes(OP_RESEND_DONE, 0, 0, 0, 0)
              + BigEndian16(0) + BigEndian16(1) + BigEndian16(0) + BigEndian16(to), false)
  }

  function WithSequence(b: Bytes, n: nat): (r: Bytes)
    requires |b| >= 12
    ensures |r| == |b| && U16(r, 2) == Uint16(n) && r[..2] == b[..2] && r[4..] == b[4..]
  {
    b[..2] + BigEndian16(n) + b[4..]
  }

  function Packet(packetSeq: nat, payload: Bytes): Bytes {
    BigEndian16(packetSeq) + BigEndian16(0) + BigEndian16(1) + seq(10, _ => 0) + payload
  }

  function SendPacket(s: State, payload: Bytes): State {
    var n := Uint16(s.packetSeq + 1);
    s.(packetSeq := n, sent := s.sent + [Packet(n, payload)])
  }

  function SendPackets(s: State, payloads: seq<Bytes>): State
    decreases |payloads|
  {
    if payloads == [] then s else SendPackets(SendPacket(s, payloads[0]), payloads[1..])
  }

  /** Sending changes the packet counter and the socket only. */
  lemma {:induction false} SendPacketsFrame(s: State, payloads: seq<Bytes>)
    ensures var t := SendPackets(s, payloads);
      t == s.(packetSeq := t.packetSeq, sent := t.sent) && s.sent <= t.sent
    decreases |payloads|
  {
    if payloads != [] {
      SendPacketsFrame(SendPacket(s, payloads[0]), payloads[1..]);
    }
  }

  ghost function SendOperations(s: State, operations: seq<Bytes>): State {
    SendPackets(s, Payloads(PackFrom([], operations)))
  }

  /** What the packets after the first `from` ones carry, end to end. */
  ghost function Carried(sent: seq<Bytes>, from: nat): Bytes
    requires from <= |sent|
    decreases |sent| - from
  {
    if from == |sent| then []
    else (if |sent[from]| >= PACKET_HEADER_SIZE then sent[from][PACKET_HEADER_SIZE..] else [])
         + Carried(sent, from + 1)
  }

  // ---------- sending ----------

  function RecordOne(s: State, op: Operation): State
    requires |op.bytes| >= 12
  {
    if !op.increment then s
    else
      var n := U32(s.opSeq + 1);
      var h := s.history[n := WithSequence(op.bytes, n)];
      s.(opSeq := n, history := if |h| > MAX_HISTORY_SIZE then h - {U32(n - MAX_HISTORY_SIZE)} else h)
  }

  predicate Headed(ops: seq<Operation>) {
    forall op :: op in ops ==> |op.bytes| >= 12
  }

  function Record(s: State, ops: seq<Operation>): State
    requires Headed(ops)
  {
    if ops == [] then s else RecordOne(Record(s, ops[..|ops| - 1]), ops[|ops| - 1])
  }

  /** The bytes of each operation under the sequence number it is given. */
  function Encode(s: State, ops: seq<Operation>): (r: seq<Bytes>)
    requires Headed(ops)
    ensures |r| == |ops|
  {
    if ops == [] then []
    else Encode(s, ops[..|ops| - 1]) + [WithSequence(ops[|ops| - 1].bytes, Record(s, ops).opSeq)]
  }

  predicate Oversized(op: Operation) {
    |op.bytes| + PACKET_HEADER_SIZE > MAX_DATAGRAM_SIZE
  }

  function FirstOversized(ops: seq<Operation>): (k: nat)
    ensures k <= |ops| && (forall i :: 0 <= i < k ==> !Oversized(ops[i])) && (k < |ops| ==> Oversized(ops[k]))
  {
    if ops == [] then 0 else if Oversized(ops[0]) then 0 else 1 + FirstOversized(ops[1..])
  }

  ghost function SendBatchSpec(s: State, ops: seq<Operation>): (State, bool)
    requires Headed(ops)
  {
    var k := FirstOversized(ops);
    if s.closed then (s, false)
    else if k < |ops| then (Record(s, ops[..k]), false)
    else (SendOperations(Record(s, ops), Encode(s, ops)), true)
  }

  // ---------- NACK ranges ----------

  function ValidNackRange(from: nat, to: nat): bool {
    if from > NACK_OPEN_ENDED || to > NACK_OPEN_ENDED then false
    else if to == NACK_OPEN_ENDED then true
    else if to >= from then to - from + 1 <= MAX_NACK_RANGE
    else if from < SEQ_MOD && to < SEQ_MOD then SEQ_MOD - from + to + 1 <= MAX_NACK_RANGE
    else false
  }

  function ExtendSequence(wire: nat, current: nat): nat {
    var candidate := current / SEQ_MOD * SEQ_MOD + wire % SEQ_MOD;
    if candidate > current && candidate - current > SEQ_MOD / 2 then
      if candidate >= SEQ_MOD then candidate - SEQ_MOD else candidate
    else if current > candidate && current - candidate > SEQ_MOD / 2 then U32(candidate + SEQ_MOD)
    else candidate
  }

  /** The range a NACK stands for, in full sequence numbers. */
  function Resolve(opSeq: nat, from: nat, to: nat): (nat, nat) {
    var f := ExtendSequence(from, opSeq);
    if to == NACK_OPEN_ENDED then (f, opSeq)
    else
      var t := ExtendSequence(to, opSeq);
      (f, if t < f && from < SEQ_MOD && to < SEQ_MOD then U32(t + SEQ_MOD) else t)
  }

  function ShouldReplaceWithSnapshot(from: nat, to: nat, current: nat): bool {
    if from > to || from > current then false
    else Min(to, current) - from + 1 > MAX_DIRECT_RESEND
  }

  // ---------- replay ----------

  datatype Outcome = Fired | Missing | Replayed(count: nat)

  function ResetStorm(s: State, now: int): State {
    s.(history := map[], windowStart := None, windowCount := 0, windowOps := 0,
       cooldownUntil := now + RESEND_STORM_COOLDOWN)
  }

  predicate WindowOver(s: State, now: int) {
    s.windowStart.None? || now - s.windowStart.value > RESEND_STORM_WINDOW
  }

  function RecordResend(s: State, now: int, operations: nat): (State, bool) {
    var s0 := if WindowOver(s, now) then s.(windowStart := Some(now), windowCount := 0, windowOps := 0) else s;
    var s1 := s0.(windowCount := s0.windowCount + 1, windowOps := s0.windowOps + operations);
    if s1.windowCount < RESEND_STORM_LIMIT && s1.windowOps < RESEND_STORM_OPS then (s1, false)
    else (ResetStorm(s1, now), true)
  }

  /** The operations from..to, up to the first one missing from the history. */
  function Available(history: map<nat, Bytes>, from: nat, to: int): seq<Bytes>
    decreases to - from + 1
  {
    if from <= to && from in history then [history[from]] + Available(history, from + 1, to) else []
  }

  function Completion(opSeq: nat, requestedTo: nat): Bytes {
    WithSequence(Pad().bytes, opSeq) + WithSequence(ResendDone(requestedTo).bytes, opSeq)
  }

  function Charge(count: nat): nat { Min(count, MAX_RESEND_CHARGE) }

  ghost function ResendSpec(s: State, now: int, nack: Nack): (State, Outcome) {
    var (from, to) := Resolve(s.opSeq, nack.from, nack.to);
    var last := Min(to, s.opSeq);
    if s.closed then (s, Missing)
    else if from in s.history && ShouldReplaceWithSnapshot(from, to, s.opSeq) then
      (ResetStorm(SendPacket(s, Completion(s.opSeq, nack.to)), now), Fired)
    else if from > last || from !in s.history then (s, Missing)
    else
      var (s1, fired) := RecordResend(s, now, Charge(last - from + 1));
      if fired then (s1, Fired)
      else
        var replay := Available(s.history, from, last);
        (SendPacket(SendOperations(s1, replay), Completion(s.opSeq, nack.to)), Replayed(|replay|))
  }

  function QueueSpec(s: State, now: int, nack: Nack): State {
    if now < s.cooldownUntil || !ValidNackRange(nack.from, nack.to) then s
    else s.(pending := Some(nack))
  }

  // ---------- the client object ----------

  class Client {
    var packetSeq: nat
    var opSeq: nat
    var history: map<nat, Bytes>
    var windowStart: Option<int>
    var windowCount: nat
    var windowOps: nat
    var cooldownUntil: int
    var pending: Option<Nack>  // the one-place NACK channel
    var closed: bool
    var sent: seq<Bytes>

    ghost function View(): State
      reads this
    {
      State(packetSeq, opSeq, history, windowStart, windowCount, windowOps, cooldownUntil, pending, closed, sent)
    }

    constructor Open()
      ensures View() == State(0, 0, map[0 := WithSequence(Pad().bytes, 0)], None, 0, 0, 0, None, false, [])
    {
      packetSeq, opSeq, history := 0, 0, map[0 := WithSequence(Pad().bytes, 0)];
      windowStart, windowCount, windowOps, cooldownUntil := None, 0, 0, 0;
      pending, closed, sent := None, false, [];
    }

    method Send(payload: Bytes)
      modifies this
      ensures View() == SendPacket(old(View()), payload)
    {
      packetSeq := Uint16(packetSeq + 1);
      sent := sent + [Packet(packetSeq, payload)];
    }

    method SendEncodedOperations(operations: seq<Bytes>)
      modifies this
      ensures View() == SendOperations(old(View()), operations)
    {
      var buffer: Bytes := [];
      ghost var current: seq<Bytes> := [];
      var i := 0;
      while i < |operations|
        invariant 0 <= i <= |operations|
        invariant buffer == Join(current)
        invariant SendPackets(View(), Payloads(PackFrom(current, operations[i..])))
                  == SendOperations(old(View()), operations)
      {
        var encoded := operations[i];
        assert operations[i..][0] == encoded && operations[i..][1..] == operations[i + 1..];
        if |buffer| > 0 && |buffer| + |encoded| > CAPACITY {
          Send(buffer);
          buffer := [];
          current := [];
        }
        JoinAppend(current, encoded);
        buffer := buffer + encoded;
        current := current + [encoded];
        i := i + 1;
      }
      if |buffer| != 0 {
        Send(buffer);
      }
    }

    /** The loop body of SendBatch: number one operation and remember it. */
    method Number(op: Operation) returns (bytes: Bytes)
      requires |op.bytes| >= 12
      modifies this
      ensures View() == RecordOne(old(View()), op)
      ensures bytes == WithSequence(op.bytes, opSeq)
    {
      if op.increment {
        opSeq := U32(opSeq + 1);
      }
      bytes := WithSequence(op.bytes, opSeq);
      if op.increment {
        history := history[opSeq := bytes];
        if |history| > MAX_HISTORY_SIZE {
          history := history - {U32(opSeq - MAX_HISTORY_SIZE)};
        }
      }
    }

    method SendBatch(ops: seq<Operation>) returns (ok: bool)
      requires Headed(ops)
      modifies this
      ensures (View(), ok) == SendBatchSpec(old(View()), ops)
    {
      hide RecordOne, WithSequence;
      if closed {
        return false;
      }
      var encoded: seq<Bytes> := [];
      var i := 0;
      while i < |ops|
        invariant 0 <= i <= |ops| && forall j :: 0 <= j < i ==> !Oversized(ops[j])
        invariant Headed(ops[..i])
        invariant View() == Record(old(View()), ops[..i])
        invariant encoded == Encode(old(View()), ops[..i])
      {
        var op := ops[i];
        if |op.bytes| + PACKET_HEADER_SIZE > MAX_DATAGRAM_SIZE {
          assert FirstOversized(ops) == i;
          return false;
        }
        assert ops[..i + 1][..i] == ops[..i];
        var bytes := Number(op);
        encoded := encoded + [bytes];
        i := i + 1;
      }
      assert ops[..i] == ops;
      SendEncodedOperations(encoded);
      return true;
    }

    method FlushHistory()
      modifies this
      ensures View() == old(View()).(history := map[])
    {
      history := map[];
    }

    method QueueResend(now: int, nack: Nack)
      modifies this
      ensures View() == QueueSpec(old(View()), now, nack)
    {
      if now < cooldownUntil {
        return;
      }
      if !ValidNackRange(nack.from, nack.to) {
        return;
      }
      if pending.Some? {
        pending := None;
      }
      pending := Some(nack);
    }

    method DrainNacks()
      modifies this
      ensures View() == old(View()).(pending := None)
    {
      pending := None;
    }

    method RecordResendLocked(now: int, operations: nat) returns (fired: bool)
      modifies this
      ensures (View(), fired) == RecordResend(old(View()), now, operations)
      ensures var open := old(windowStart).Some? && now - old(windowStart).value <= 2_000_000_000;
        fired <==> (open && old(windowCount) >= 63) || (if open then old(windowOps) else 0) + operations >= 4096
    {
      if windowStart.None? || now - windowStart.value > RESEND_STORM_WINDOW {
        windowStart := Some(now);
        windowCount := 0;
        windowOps := 0;
      }
      windowCount := windowCount + 1;
      windowOps := windowOps + operations;
      if windowCount < RESEND_STORM_LIMIT && windowOps < RESEND_STORM_OPS {
        return false;
      }
      history := map[];
      windowStart := None;
      windowCount := 0;
      windowOps := 0;
      cooldownUntil := now + RESEND_STORM_COOLDOWN;
      return true;
    }

    method SendResendCompletion(requestedTo: nat)
      modifies this
      ensures View() == SendPacket(old(View()), Completion(old(opSeq), requestedTo))
    {
      var pad := WithSequence(Pad().bytes, opSeq);
      var status := WithSequence(ResendDone(requestedTo).bytes, opSeq);
      Send(pad + status);
    }

    /** Reports whether the storm breaker fired; `outcome` says how the request ended. */
    method Resend(now: int, nack: Nack) returns (fired: bool, ghost outcome: Outcome)
      modifies this
      ensures (View(), outcome) == ResendSpec(old(View()), now, nack)
      ensures fired <==> outcome.Fired?
    {
      hide Completion, PackFrom, Resolve;
      if closed {
        return false, Missing;
      }
      var (from, to) := Resolve(opSeq, nack.from, nack.to);
      if from in history && ShouldReplaceWithSnapshot(from, to, opSeq) {
        SendResendCompletion(nack.to);
        history := map[];
        windowStart := None;
        windowCount := 0;
        windowOps := 0;
        cooldownUntil := now + RESEND_STORM_COOLDOWN;
        return true, Fired;
      }
      var replay: seq<Bytes> := [];
      if from <= to && from <= opSeq {
        to := Min(to, opSeq);
        var stormCharge := Min(to - from + 1, MAX_RESEND_CHARGE);
        if from in history {
          var storm := RecordResendLocked(now, stormCharge);
          if storm {
            return true, Fired;
          }
        }
        replay := CollectReplay(from, to);
      }
      if |replay| == 0 {
        return false, Missing;
      }
      label recorded:
      assert View() == RecordResend(old(View()), now, Charge(to - from + 1)).0;
      SendEncodedOperations(replay);
      SendPacketsFrame(old@recorded(View()), Payloads(PackFrom([], replay)));
      SendResendCompletion(nack.to);
      return false, Replayed(|replay|);
    }

    /** One turn of resendLoop: the queued request is taken and answered; after a reset the channel is
        drained and the resync handler is to be called. */
    method ServeRequest(now: int) returns (resync: bool, ghost outcome: Outcome)
      requires pending.Some?
      modifies this
      ensures var (t, o) := ResendSpec(old(View()).(pending := None), now, old(pending.value));
        outcome == o && resync == o.Fired? && View() == if o.Fired? then t.(pending := None) else t
    {
      hide ResendSpec;
      var nack := pending.value;
      pending := None;
      resync, outcome := Resend(now, nack);
      if resync {
        DrainNacks();
      }
    }

    /** The replay loop: the operations from..to up to the first one missing. */
    method CollectReplay(from: nat, to: nat) returns (replay: seq<Bytes>)
      requires from <= to
      ensures replay == Available(history, from, to)
    {
      replay := [];
      var n := from;
      while n <= to && n in history
        invariant from <= n <= to + 1
        invariant replay + Available(history, n, to) == Available(history, from, to)
      {
        replay := replay + [history[n]];
        n := n + 1;
      }
    }
  }
}
