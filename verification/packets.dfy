/** The header of every datagram of internal/display/client.go: consecutive packet numbers over whole runs. */
module PacketNumbers {
  import opened Geometry
  import opened Operations
  import opened Packing
  import opened Transport
  import opened History
  import opened Storm

  /** The 16 bytes before the payload: the packet number, 0 and 1 as 16-bit fields, and zeros. */
  ghost predicate PacketHeader(packet: Bytes, n: int) {
    && |packet| >= 16 && U16(packet, 0) == n % 0x1_0000 && U16(packet, 2) == 0 && U16(packet, 4) == 1
    && forall i :: 6 <= i < 16 ==> packet[i] == 0
  }

  /** From s to t only packets with the next numbers were sent. */
  ghost predicate NextNumbers(s: State, t: State) {
    && s.sent <= t.sent && t.packetSeq % 0x1_0000 == (s.packetSeq + |t.sent| - |s.sent|) % 0x1_0000
    && forall i :: |s.sent| <= i < |t.sent| ==> PacketHeader(t.sent[i], s.packetSeq + 1 + i - |s.sent|)
  }

  lemma ModAdd(a: int, b: int, k: int)
    requires a % 0x1_0000 == b % 0x1_0000
    ensures (a + k) % 0x1_0000 == (b + k) % 0x1_0000
  {
  }

  lemma NumbersTransitive(s: State, t: State, u: State)
    requires NextNumbers(s, t) && NextNumbers(t, u)
    ensures NextNumbers(s, u)
  {
    hide PacketHeader;
    ModAdd(t.packetSeq, s.packetSeq + |t.sent| - |s.sent|, |u.sent| - |t.sent|);
    forall i | |s.sent| <= i < |u.sent|
      ensures PacketHeader(u.sent[i], s.packetSeq + 1 + i - |s.sent|)
    {
      if i < |t.sent| {
        assert u.sent[i] == t.sent[i];
      } else {
        ModAdd(t.packetSeq, s.packetSeq + |t.sent| - |s.sent|, 1 + i - |t.sent|);
        SameHeader(u.sent[i], t.packetSeq + 1 + i - |t.sent|, s.packetSeq + 1 + i - |s.sent|);
      }
    }
  }

  lemma SameHeader(packet: Bytes, a: int, b: int)
    requires PacketHeader(packet, a) && a % 0x1_0000 == b % 0x1_0000
    ensures PacketHeader(packet, b)
  {
  }

  lemma PacketHas(n: nat, payload: Bytes)
    ensures PacketHeader(Packet(n, payload), n)
  {
    var b := Packet(n, payload);
    assert b[..6] == BigEndian16(n) + BigEndian16(0) + BigEndian16(1);
    assert b[0] == Uint16(n) / 256 && b[1] == Uint16(n) % 256 && b[2] == 0 && b[3] == 0 && b[4] == 0 && b[5] == 1;
  }

  lemma SendNumbers(s: State, payload: Bytes)
    ensures NextNumbers(s, SendPacket(s, payload))
  {
    hide PacketHeader, Packet;
    PacketHas(Uint16(s.packetSeq + 1), payload);
    SameHeader(Packet(Uint16(s.packetSeq + 1), payload), Uint16(s.packetSeq + 1), s.packetSeq + 1);
  }

  lemma NothingSent(s: State, t: State)
    requires t.sent == s.sent && t.packetSeq == s.packetSeq
    ensures NextNumbers(s, t)
  {
  }

  lemma {:induction false} PayloadsNumbered(s: State, payloads: seq<Bytes>)
    ensures NextNumbers(s, SendPackets(s, payloads))
    decreases |payloads|
  {
    hide NextNumbers, SendPacket;
    if payloads == [] {
      NothingSent(s, s);
    } else {
      SendNumbers(s, payloads[0]);
      PayloadsNumbered(SendPacket(s, payloads[0]), payloads[1..]);
      NumbersTransitive(s, SendPacket(s, payloads[0]), SendPackets(s, payloads));
    }
  }

  lemma {:induction false} RecordSends(s: State, ops: seq<Operation>)
    requires Headed(ops)
    ensures Record(s, ops).sent == s.sent && Record(s, ops).packetSeq == s.packetSeq
  {
    hide WithSequence;
    if ops != [] {
      RecordSends(s, ops[..|ops| - 1]);
    }
  }

  lemma BatchNumbered(s: State, ops: seq<Operation>)
    requires Headed(ops)
    ensures NextNumbers(s, SendBatchSpec(s, ops).0)
  {
    hide NextNumbers, Record, Encode, PackFrom, SendPackets, FirstOversized, Payloads;
    var k := FirstOversized(ops);
    RecordSends(s, ops[..k]);
    RecordSends(s, ops);
    NothingSent(s, s);
    NothingSent(s, Record(s, ops[..k]));
    NothingSent(s, Record(s, ops));
    PayloadsNumbered(Record(s, ops), Payloads(PackFrom([], Encode(s, ops))));
    NumbersTransitive(s, Record(s, ops), SendPackets(Record(s, ops), Payloads(PackFrom([], Encode(s, ops)))));
  }

  lemma ResendNumbered(s: State, now: int, nack: Nack)
    ensures NextNumbers(s, ResendSpec(s, now, nack).0)
  {
    hide NextNumbers, PackFrom, SendPackets, Payloads, Completion, SendPacket, Resolve, Available;
    var (from, to) := Resolve(s.opSeq, nack.from, nack.to);
    var last := Min(to, s.opSeq);
    var (t, outcome) := ResendSpec(s, now, nack);
    NothingSent(s, s);
    if from in s.history && ShouldReplaceWithSnapshot(from, to, s.opSeq) {
      var u := SendPacket(s, Completion(s.opSeq, nack.to));
      SendNumbers(s, Completion(s.opSeq, nack.to));
      NothingSent(u, ResetStorm(u, now));
      NumbersTransitive(s, u, ResetStorm(u, now));
    } else if from <= last && from in s.history {
      ReplayNumbered(s, now, nack, Charge(last - from + 1), Available(s.history, from, last));
    }
  }

  lemma ReplayNumbered(s: State, now: int, nack: Nack, charge: nat, replay: seq<Bytes>)
    ensures var s1 := RecordResend(s, now, charge).0;
      NextNumbers(s, s1) && NextNumbers(s, SendPacket(SendOperations(s1, replay), Completion(s.opSeq, nack.to)))
  {
    var s1 := RecordResend(s, now, charge).0;
    NothingSent(s, s1);
    hide NextNumbers, PackFrom, SendPackets, Payloads, Completion, SendPacket, RecordResend;
    var u := SendOperations(s1, replay);
    PayloadsNumbered(s1, Payloads(PackFrom([], replay)));
    SendNumbers(u, Completion(s.opSeq, nack.to));
    NumbersTransitive(s, s1, u);
    NumbersTransitive(s, u, SendPacket(u, Completion(s.opSeq, nack.to)));
  }

  lemma StepNumbered(y: System, e: Event)
    requires Enabled(y, e)
    ensures NextNumbers(y.state, Step(y, e).state)
  {
    hide NextNumbers, SendBatchSpec, ResendSpec, Issues, FirstOversized;
    match e
    case SendEvent(ops) => BatchNumbered(y.state, ops);
    case ServeEvent(now) =>
      var s := y.state.(pending := None);
      NothingSent(y.state, s);
      ResendNumbered(s, now, y.state.pending.value);
      NumbersTransitive(y.state, s, ResendSpec(s, now, y.state.pending.value).0);
    case _ => NothingSent(y.state, Step(y, e).state);
  }

  /** On every run the datagrams, batches, replays and completions alike, carry consecutive packet numbers
      modulo 65536, each in the fixed header. */
  lemma {:induction false} PacketsNumbered(x: System, events: seq<Event>, y: System)
    requires Reaches(x, events, y)
    ensures NextNumbers(x.state, y.state)
    decreases |events|
  {
    hide NextNumbers, Step;
    if events == [] {
      NothingSent(x.state, x.state);
    } else {
      StepNumbered(x, events[0]);
      PacketsNumbered(Step(x, events[0]), events[1..], y);
      NumbersTransitive(x.state, Step(x, events[0]).state, y.state);
    }
  }
}
