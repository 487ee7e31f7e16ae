/** internal/smartcard/atr.go: the Answer To Reset framing of ISO/IEC 7816-3 section 8.2. */
module AnswerToReset {
  import opened Geometry
  import opened Operations

  datatype Atr = Atr(raw: seq<Byte>, direct: bool, protocols: seq<int>, historical: seq<Byte>)

  datatype Parse = NeedMore | Invalid | Parsed(atr: Atr, length: nat)

  const MAX_ATR: nat := 33
  const LAST_GROUP: nat := 7

  // ---------- what ParseATR computes ----------

  /** Where the interface bytes end and what their TD bytes announced. */
  datatype Interface = Cut | TooMany | Complete(end: nat, protocols: seq<int>, nonT0: bool)

  /** An indicator: the high four bits of T0 or of a TD byte. */
  type Nibble = y: int | 0 <= y < 16

  // The four bits of an indicator, from the least significant.
  predicate HasTA(y: Nibble) { y in {1, 3, 5, 7, 9, 11, 13, 15} }

  predicate HasTB(y: Nibble) { y in {2, 3, 6, 7, 10, 11, 14, 15} }

  predicate HasTC(y: Nibble) { 4 <= y < 8 || 12 <= y }

  predicate HasTD(y: Nibble) { 8 <= y }

  function One(bit: bool): nat { if bit then 1 else 0 }

  /** How many of TA, TB, TC the indicator announces. */
  function Announced(y: Nibble): (n: nat)
    ensures n <= 3
  {
    if y in {0, 8} then 0 else if y in {7, 15} then 3 else if y in {1, 2, 4, 9, 10, 12} then 1 else 2
  }

  lemma NibbleBits(y: Nibble)
    ensures One(HasTA(y)) == y % 2 && One(HasTB(y)) == y / 2 % 2 && One(HasTC(y)) == y / 4 % 2
    ensures One(HasTD(y)) == y / 8 % 2 && Announced(y) == One(HasTA(y)) + One(HasTB(y)) + One(HasTC(y))
    ensures y == One(HasTA(y)) + 2 * One(HasTB(y)) + 4 * One(HasTC(y)) + 8 * One(HasTD(y))
  {
  }

  function AddProtocol(protocols: seq<int>, p: int): seq<int> {
    if p in protocols then protocols else protocols + [p]
  }

  /** The position in the interface bytes: the next byte, the indicator in force, the group's number, the
      protocols announced so far and whether one of them was not T=0. */
  datatype Reader = Reader(offset: nat, y: Nibble, group: nat, protocols: seq<int>, nonT0: bool)

  function NextByte(r: Reader): nat { r.offset + Announced(r.y) }

  /** Past a group's bytes and the TD byte that follows them. */
  function AfterTd(r: Reader, td: Byte): (s: Reader)
    ensures s.group == r.group + 1 && s.offset == NextByte(r) + 1
  {
    Reader(NextByte(r) + 1, td / 16, r.group + 1, AddProtocol(r.protocols, td % 16), r.nonT0 || td % 16 != 0)
  }

  function Groups(data: seq<Byte>, r: Reader): Interface
    decreases LAST_GROUP + 1 - r.group
  {
    if r.group > LAST_GROUP then TooMany
    else if NextByte(r) > |data| then Cut
    else if !HasTD(r.y) then Complete(NextByte(r), r.protocols, r.nonT0)
    else if NextByte(r) >= |data| then Cut
    else Groups(data, AfterTd(r, data[NextByte(r)]))
  }

  function Start(t0: Byte): Reader { Reader(2, t0 / 16, 0, [], false) }

  /** Go's a ^ b. */
  function Xor(a: Byte, b: Byte): Byte {
    Assemble(k => 0 <= k < 8 && Bit(a, k) != Bit(b, k))
  }

  function Checksum(s: seq<Byte>): Byte {
    if s == [] then 0 else Xor(Checksum(s[..|s| - 1]), s[|s| - 1])
  }

  function ParseSpec(data: seq<Byte>): (r: Parse)
    ensures r.Parsed? ==> 2 <= r.length <= |data|
  {
    if |data| < 2 then NeedMore
    else if data[0] != 0x3B && data[0] != 0x3F then Invalid
    else
      match Groups(data, Start(data[1]))
      case Cut => NeedMore
      case TooMany => Invalid
      case Complete(end, protocols, nonT0) =>
        var total := end + data[1] % 16 + if nonT0 then 1 else 0;
        if total > MAX_ATR then Invalid
        else if |data| < total then NeedMore
        else if nonT0 && Checksum(data[1..total]) != 0 then Invalid
        else
          GroupsEnd(data, Start(data[1]));
          Parsed(Atr(data[..total], data[0] == 0x3B, if protocols == [] then [0] else protocols,
                     data[end..end + data[1] % 16]), total)
  }

  lemma {:induction false} GroupsEnd(data: seq<Byte>, r: Reader)
    ensures var g := Groups(data, r); g.Complete? ==> r.offset <= g.end <= |data|
    decreases LAST_GROUP + 1 - r.group
  {
    hide AfterTd, Announced;
    if r.group <= LAST_GROUP && NextByte(r) < |data| && HasTD(r.y) {
      GroupsEnd(data, AfterTd(r, data[NextByte(r)]));
    }
  }

  method ParseAtr(data: seq<Byte>) returns (r: Parse)
    ensures r == ParseSpec(data)
  {
    hide Groups, Checksum, Xor, AfterTd, Announced, HasTD;
    if |data| < 2 {
      return NeedMore;
    }
    if data[0] != 0x3B && data[0] != 0x3F {
      return Invalid;
    }
    var historicalLength := data[1] % 16;
    var interface := ReadInterface(data);
    match interface {
      case Cut => return NeedMore;
      case TooMany => return Invalid;
      case Complete(_, _, _) =>
    }
    GroupsEnd(data, Start(data[1]));
    var total := interface.end + historicalLength;
    if interface.nonT0 {
      total := total + 1;
    }
    if total > MAX_ATR {
      return Invalid;
    }
    if |data| < total {
      return NeedMore;
    }
    if interface.nonT0 {
      var checksum := XorBytes(data[1..total]);
      if checksum != 0 {
        return Invalid;
      }
    }
    var protocols := if |interface.protocols| == 0 then [0] else interface.protocols;
    return Parsed(Atr(data[..total], data[0] == 0x3B, protocols,
                      data[interface.end..interface.end + historicalLength]), total);
  }

  /** The loop over the interface byte groups. */
  method ReadInterface(data: seq<Byte>) returns (r: Interface)
    requires |data| >= 2
    ensures r == Groups(data, Start(data[1]))
  {
    hide Announced, HasTA, HasTB, HasTC, HasTD;
    var y: Nibble := data[1] / 16;
    var offset := 2;
    var protocols: seq<int> := [];
    var nonT0 := false;
    var group := 0;
    while true
      invariant 0 <= group <= LAST_GROUP + 1 && offset <= |data|
      invariant Groups(data, Reader(offset, y, group, protocols, nonT0)) == Groups(data, Start(data[1]))
      decreases LAST_GROUP + 1 - group
    {
      if group > LAST_GROUP {
        return TooMany;
      }
      var cut, next := SkipAnnounced(data, offset, y);
      if cut {
        return Cut;
      }
      offset := next;
      NibbleBits(y);
      if y / 8 % 2 == 0 {
        return Complete(offset, protocols, nonT0);
      }
      if offset >= |data| {
        return Cut;
      }
      var td := data[offset];
      offset := offset + 1;
      protocols := AddProtocol(protocols, td % 16);
      if td % 16 != 0 {
        nonT0 := true;
      }
      y := td / 16;
      group := group + 1;
    }
  }

  /** The loop over the TA, TB, TC bits of one group. */
  method SkipAnnounced(data: seq<Byte>, offset: nat, y: Nibble) returns (cut: bool, next: nat)
    requires offset <= |data|
    ensures cut <==> offset + Announced(y) > |data|
    ensures !cut ==> next == offset + Announced(y)
  {
    NibbleBits(y);
    hide HasTA, HasTB, HasTC, HasTD;
    next := offset;
    var bit, mask := 0, 1;
    while mask <= 4
      invariant (bit == 0 && mask == 1) || (bit == 1 && mask == 2) || (bit == 2 && mask == 4) || (bit == 3 && mask == 8)
      invariant next == offset + (if bit > 0 then y % 2 else 0) + (if bit > 1 then y / 2 % 2 else 0)
                        + (if bit > 2 then y / 4 % 2 else 0)
      invariant next == offset || next <= |data|
      decreases 8 - mask
    {
      if y / mask % 2 == 1 {
        if next >= |data| {
          return true, next;
        }
        next := next + 1;
      }
      bit, mask := bit + 1, mask * 2;
    }
    return false, next;
  }

  method XorBytes(s: seq<Byte>) returns (checksum: Byte)
    ensures checksum == Checksum(s)
  {
    checksum := 0;
    var i := 0;
    while i < |s|
      invariant 0 <= i <= |s| && checksum == Checksum(s[..i])
    {
      assert s[..i + 1][..i] == s[..i];
      checksum := Xor(checksum, s[i]);
      i := i + 1;
    }
    assert s[..i] == s;
  }

  // ---------- prefixes and extensions ----------

  /** Reading a prefix gives the same interface if it reaches the end, and asks for more if not. */
  lemma {:induction false} GroupsPrefix(data: seq<Byte>, k: nat, r: Reader)
    requires k <= |data| && Groups(data, r).Complete?
    ensures var g := Groups(data, r); Groups(data[..k], r) == if g.end <= k then g else Cut
    decreases LAST_GROUP + 1 - r.group
  {
    hide AfterTd, Announced, HasTD;
    if HasTD(r.y) {
      var s := AfterTd(r, data[NextByte(r)]);
      GroupsEnd(data, s);
      if NextByte(r) < k {
        assert data[..k][NextByte(r)] == data[NextByte(r)];
        GroupsPrefix(data, k, s);
      }
    }
  }

  /** A longer input reads the same interface. */
  lemma {:induction false} GroupsExtend(data: seq<Byte>, more: seq<Byte>, r: Reader)
    requires !Groups(data, r).Cut?
    ensures Groups(data + more, r) == Groups(data, r)
    decreases LAST_GROUP + 1 - r.group
  {
    hide AfterTd, Announced, HasTD;
    if r.group <= LAST_GROUP && HasTD(r.y) {
      assert (data + more)[NextByte(r)] == data[NextByte(r)];
      GroupsExtend(data, more, AfterTd(r, data[NextByte(r)]));
    }
  }

  /** An answer once given, good or bad, is given for every longer input. */
  lemma ParseIsStable(data: seq<Byte>, more: seq<Byte>)
    requires ParseSpec(data) != NeedMore
    ensures ParseSpec(data + more) == ParseSpec(data)
  {
    hide Groups, Start, Checksum;
    var d := data + more;
    assert d[0] == data[0] && d[1] == data[1];
    if data[0] == 0x3B || data[0] == 0x3F {
      GroupsExtend(data, more, Start(data[1]));
      var g := Groups(data, Start(data[1]));
      if g.Complete? {
        GroupsEnd(data, Start(data[1]));
        GroupsEnd(d, Start(data[1]));
        var total := g.end + data[1] % 16 + if g.nonT0 then 1 else 0;
        if total <= |data| {
          assert d[..total] == data[..total] && d[1..total] == data[1..total];
          assert d[g.end..g.end + data[1] % 16] == data[g.end..g.end + data[1] % 16];
        }
      }
    }
  }

  /** Prefix-free: every shorter prefix of an answer asks for more. */
  lemma ParseIsPrefixFree(data: seq<Byte>, k: nat)
    requires ParseSpec(data).Parsed? && k < ParseSpec(data).length
    ensures ParseSpec(data[..k]) == NeedMore
  {
    hide Groups, Start, Checksum;
    if k >= 2 {
      assert data[..k][0] == data[0] && data[..k][1] == data[1];
      GroupsPrefix(data, k, Start(data[1]));
    }
  }

  // ---------- printing ----------

  /** The interface bytes of one group. */
  datatype Group = Group(ta: Option<Byte>, tb: Option<Byte>, tc: Option<Byte>)

  /** A group announced by a TD byte with its protocol. */
  datatype Link = Link(protocol: int, group: Group)

  function Present(b: Option<Byte>): nat { if b.Some? then 1 else 0 }

  function Shown(b: Option<Byte>): seq<Byte> { if b.Some? then [b.value] else [] }

  /** The indicator nibble of a group, with or without a TD byte to follow. */
  function Indicator4(g: Group, more: bool): (y: Nibble)
    ensures Announced(y) == |Shown(g.ta) + Shown(g.tb) + Shown(g.tc)| && (HasTD(y) <==> more)
  {
    Present(g.ta) + 2 * Present(g.tb) + 4 * Present(g.tc) + if more then 8 else 0
  }

  function PrintGroups(g: Group, links: seq<Link>): seq<Byte>
    requires forall i :: 0 <= i < |links| ==> 0 <= links[i].protocol < 16
    decreases |links|
  {
    Shown(g.ta) + Shown(g.tb) + Shown(g.tc)
    + if links == [] then []
      else [TdByte(links[0], |links| > 1)] + PrintGroups(links[0].group, links[1..])
  }

  function AddAll(protocols: seq<int>, links: seq<Link>): seq<int>
    decreases |links|
  {
    if links == [] then protocols else AddAll(AddProtocol(protocols, links[0].protocol), links[1..])
  }

  predicate AnyNonT0(links: seq<Link>)
    decreases |links|
  {
    links != [] && (links[0].protocol != 0 || AnyNonT0(links[1..]))
  }

  /** T0, the interface bytes and the historical bytes. */
  function PrintedBytes(g: Group, links: seq<Link>, historical: seq<Byte>): seq<Byte>
    requires |historical| < 16 && forall i :: 0 <= i < |links| ==> 0 <= links[i].protocol < 16
  {
    [16 * Indicator4(g, links != []) + |historical|] + PrintGroups(g, links) + historical
  }

  /** An ATR from its parts; TCK follows when a protocol other than T=0 is announced. */
  function Print(direct: bool, g: Group, links: seq<Link>, historical: seq<Byte>): seq<Byte>
    requires |historical| < 16 && forall i :: 0 <= i < |links| ==> 0 <= links[i].protocol < 16
  {
    var body := PrintedBytes(g, links, historical);
    [if direct then 0x3B else 0x3F] + body + if AnyNonT0(links) then [Checksum(body)] else []
  }

  function TdByte(l: Link, more: bool): Byte
    requires 0 <= l.protocol < 16
  {
    16 * Indicator4(l.group, more) + l.protocol
  }

  lemma AfterTdByte(r: Reader, l: Link, more: bool)
    requires 0 <= l.protocol < 16
    ensures AfterTd(r, TdByte(l, more))
            == Reader(NextByte(r) + 1, Indicator4(l.group, more), r.group + 1, AddProtocol(r.protocols, l.protocol),
                      r.nonT0 || l.protocol != 0)
  {
    hide Indicator4;
  }

  lemma {:induction false} GroupsPrint(before: seq<Byte>, g: Group, links: seq<Link>, after: seq<Byte>, r: Reader)
    requires forall i :: 0 <= i < |links| ==> 0 <= links[i].protocol < 16
    requires r.group <= LAST_GROUP && r.offset == |before| && r.y == Indicator4(g, links != [])
    ensures Groups(before + PrintGroups(g, links) + after, r) == if r.group + |links| > LAST_GROUP then TooMany
      else Complete(|before + PrintGroups(g, links)|, AddAll(r.protocols, links), r.nonT0 || AnyNonT0(links))
    decreases |links|
  {
    hide Shown, Announced, HasTD, Indicator4, AfterTd, AddProtocol;
    var shown := Shown(g.ta) + Shown(g.tb) + Shown(g.tc);
    if links == [] {
      assert PrintGroups(g, links) == shown;
    } else {
      var td := TdByte(links[0], |links| > 1);
      var rest := PrintGroups(links[0].group, links[1..]);
      var data := before + PrintGroups(g, links) + after;
      assert data == (before + shown + [td]) + rest + after;
      assert data[NextByte(r)] == td;
      AfterTdByte(r, links[0], |links| > 1);
      if r.group < LAST_GROUP {
        GroupsPrint(before + shown + [td], links[0].group, links[1..], after, AfterTd(r, td));
      }
    }
  }

  lemma {:induction false} ProtocolsGrow(protocols: seq<int>, links: seq<Link>)
    ensures AddAll(protocols, links) == [] <==> protocols == [] && links == []
    decreases |links|
  {
    if links != [] {
      ProtocolsGrow(AddProtocol(protocols, links[0].protocol), links[1..]);
    }
  }

  lemma Nibbles(high: nat, low: nat)
    requires low < 16
    ensures (16 * high + low) / 16 == high && (16 * high + low) % 16 == low
  {
  }

  /** Where the parts of a print lie. */
  lemma PartsOfPrint(first: Byte, second: Byte, groups: seq<Byte>, historical: seq<Byte>, trailer: seq<Byte>)
    ensures var data, end := [first] + ([second] + groups + historical) + trailer, 2 + |groups|;
      && data[1] == second && data == data[..2] + groups + (historical + trailer) && |data[..2] + groups| == end
      && data[end..end + |historical|] == historical && data[..|data|] == data
      && data[1..|data|] == [second] + groups + historical + trailer
  {
  }

  /** Whatever follows the historical bytes, the interface bytes are read as they were printed. */
  lemma GroupsOfPrint(first: Byte, g: Group, links: seq<Link>, historical: seq<Byte>, trailer: seq<Byte>)
    requires |historical| < 16 && forall i :: 0 <= i < |links| ==> 0 <= links[i].protocol < 16
    ensures var body, end := PrintedBytes(g, links, historical), 2 + |PrintGroups(g, links)|;
      var data := [first] + body + trailer;
      && |data| == end + |historical| + |trailer| && data[1] % 16 == |historical|
      && Groups(data, Start(data[1]))
         == (if |links| > 7 then TooMany else Complete(end, AddAll([], links), AnyNonT0(links)))
      && data[end..end + |historical|] == historical && data[..|data|] == data && data[1..|data|] == body + trailer
  {
    hide Indicator4, PrintGroups, Groups, AnyNonT0, AddAll;
    var y, groups := Indicator4(g, links != []), PrintGroups(g, links);
    var data := [first] + PrintedBytes(g, links, historical) + trailer;
    PartsOfPrint(first, 16 * y + |historical|, groups, historical, trailer);
    Nibbles(y, |historical|);
    GroupsPrint(data[..2], g, links, historical + trailer, Start(data[1]));
  }

  lemma TrailerCancels(body: seq<Byte>)
    ensures Checksum(body + [Checksum(body)]) == 0
  {
  }

  /** Round trip: a printed ATR within 8 groups and 33 bytes is parsed back into its parts, and any other is
      refused. */
  lemma PrintedIsParsed(direct: bool, g: Group, links: seq<Link>, historical: seq<Byte>)
    requires |historical| < 16 && forall i :: 0 <= i < |links| ==> 0 <= links[i].protocol < 16
    ensures var data := Print(direct, g, links, historical);
      ParseSpec(data) == if |links| > 7 || |data| > 33 then Invalid
        else Parsed(Atr(data, direct, if links == [] then [0] else AddAll([], links), historical), |data|)
  {
    hide Indicator4, PrintGroups, Checksum, Xor, Groups, AnyNonT0, AddAll, PrintedBytes;
    var data := Print(direct, g, links, historical);
    var body := PrintedBytes(g, links, historical);
    GroupsOfPrint(data[0], g, links, historical, if AnyNonT0(links) then [Checksum(body)] else []);
    ProtocolsGrow([], links);
    TrailerCancels(body);
  }

  /** An ATR that is going to be too long is refused once its interface bytes are there. */
  lemma TooLongIsRefusedEarly(direct: bool, g: Group, links: seq<Link>, historical: seq<Byte>, k: nat)
    requires |historical| < 16 && |links| <= 7 && forall i :: 0 <= i < |links| ==> 0 <= links[i].protocol < 16
    requires 33 < |Print(direct, g, links, historical)|
    requires 2 + |PrintGroups(g, links)| <= k <= |Print(direct, g, links, historical)|
    ensures ParseSpec(Print(direct, g, links, historical)[..k]) == Invalid
  {
    hide Indicator4, PrintGroups, Checksum, Xor, Groups, AnyNonT0, AddAll;
    var all, y, groups := Print(direct, g, links, historical), Indicator4(g, links != []), PrintGroups(g, links);
    var data, end := all[..k], 2 + |groups|;
    Nibbles(y, |historical|);
    assert data == data[..2] + groups + data[end..];
    GroupsPrint(data[..2], g, links, data[end..], Start(data[1]));
  }

  /** With any other TCK the answer is refused. */
  lemma WrongCheckIsRefused(direct: bool, g: Group, links: seq<Link>, historical: seq<Byte>, tck: Byte)
    requires |historical| < 16 && |links| <= 7 && forall i :: 0 <= i < |links| ==> 0 <= links[i].protocol < 16
    requires exists i :: 0 <= i < |links| && links[i].protocol != 0
    requires var data := Print(direct, g, links, historical); |data| <= 33 && tck != data[|data| - 1]
    ensures var data := Print(direct, g, links, historical); ParseSpec(data[..|data| - 1] + [tck]) == Invalid
  {
    hide Indicator4, PrintGroups, Checksum, Xor, Groups, AnyNonT0, AddAll, PrintedBytes;
    AnyNonT0Exists(links);
    var body, right := PrintedBytes(g, links, historical), Print(direct, g, links, historical);
    assert right == [right[0]] + body + [Checksum(body)];
    assert right[..|right| - 1] == [right[0]] + body;
    GroupsOfPrint(right[0], g, links, historical, [tck]);
    if Checksum(body + [tck]) == 0 {
      TrailerForced(body, tck);
    }
  }

  lemma {:induction false} AnyNonT0Exists(links: seq<Link>)
    ensures AnyNonT0(links) <==> exists i :: 0 <= i < |links| && links[i].protocol != 0
    decreases |links|
  {
    if links != [] {
      AnyNonT0Exists(links[1..]);
      assert forall i :: 0 < i < |links| ==> links[1..][i - 1] == links[i];
    }
  }

  // ---------- every answer is a printed one ----------

  lemma Halves(b: nat)
    ensures b == 2 * (b / 2) + b % 2 && b / 2 / 2 == b / 4
  {
  }

  lemma Quarters(b: nat)
    ensures b / 4 / 2 == b / 8 && b / 8 / 2 == b / 16
  {
  }

  lemma LowBits(b: nat)
    ensures b == 16 * (b / 16) + 8 * (b / 8 % 2) + 4 * (b / 4 % 2) + 2 * (b / 2 % 2) + b % 2
  {
    Halves(b);
    Quarters(b);
    Halves(b / 2);
    Halves(b / 4);
    Halves(b / 8);
  }

  lemma HighBits(b: nat, c: nat)
    requires c == b / 16
    ensures c / 8 == b / 128 && c / 4 == b / 64 && c / 2 == b / 32
  {
  }

  lemma BitSum(b: Byte)
    ensures b == 128 * (b / 128 % 2) + 64 * (b / 64 % 2) + 32 * (b / 32 % 2) + 16 * (b / 16 % 2)
                 + 8 * (b / 8 % 2) + 4 * (b / 4 % 2) + 2 * (b / 2 % 2) + b % 2
  {
    var c := b / 16;
    HighBits(b, c);
    LowBits(b);
    LowBits(c);
    assert c / 16 == 0;
  }

  /** The value of bit k. */
  function BitValue(b: Byte, k: nat): (v: nat)
    requires k < 8
    ensures v == if Bit(b, k) then 1 else 0
  {
    if Bit(b, k) then 1 else 0
  }

  lemma BitValues(b: Byte)
    ensures b == 128 * BitValue(b, 0) + 64 * BitValue(b, 1) + 32 * BitValue(b, 2) + 16 * BitValue(b, 3)
                 + 8 * BitValue(b, 4) + 4 * BitValue(b, 5) + 2 * BitValue(b, 6) + BitValue(b, 7)
  {
    BitSum(b);
    assert BitValue(b, 0) == b / 128 % 2 && BitValue(b, 1) == b / 64 % 2;
    assert BitValue(b, 2) == b / 32 % 2 && BitValue(b, 3) == b / 16 % 2;
    assert BitValue(b, 4) == b / 8 % 2 && BitValue(b, 5) == b / 4 % 2;
    assert BitValue(b, 6) == b / 2 % 2 && BitValue(b, 7) == b % 2;
  }

  /** A byte is determined by its bits. */
  lemma SameBits(a: Byte, b: Byte)
    requires forall k: nat :: k < 8 ==> Bit(a, k) == Bit(b, k)
    ensures a == b
  {
    BitValues(a);
    BitValues(b);
    hide Bit;
    assert forall k: nat :: k < 8 ==> BitValue(a, k) == BitValue(b, k);
  }

  lemma XorZero(a: Byte, b: Byte)
    requires Xor(a, b) == 0
    ensures a == b
  {
    var f := (k: int) => 0 <= k < 8 && Bit(a, k) != Bit(b, k);
    forall k: nat | k < 8
      ensures Bit(a, k) == Bit(b, k)
    {
      AssembleBit(f, k);
    }
    SameBits(a, b);
  }

  /** The interface bytes at the position, each present when its bit is one. */
  function GroupAt(data: seq<Byte>, offset: nat, a: nat, b: nat, c: nat): Group
    requires a < 2 && b < 2 && c < 2 && offset + a + b + c <= |data|
  {
    Group(if a == 1 then Some(data[offset]) else None,
          if b == 1 then Some(data[offset + a]) else None,
          if c == 1 then Some(data[offset + a + b]) else None)
  }

  lemma GroupAtShows(data: seq<Byte>, offset: nat, a: nat, b: nat, c: nat, more: bool)
    requires a < 2 && b < 2 && c < 2 && offset + a + b + c <= |data|
    ensures var g := GroupAt(data, offset, a, b, c);
      && Shown(g.ta) + Shown(g.tb) + Shown(g.tc) == data[offset..offset + a + b + c]
      && Indicator4(g, more) == a + 2 * b + 4 * c + if more then 8 else 0
  {
  }

  function TakeGroup(data: seq<Byte>, offset: nat, y: Nibble): Group
    requires offset + Announced(y) <= |data|
  {
    GroupAt(data, offset, One(HasTA(y)), One(HasTB(y)), One(HasTC(y)))
  }

  lemma TakeGroupShows(data: seq<Byte>, offset: nat, y: Nibble)
    requires offset + Announced(y) <= |data|
    ensures var g := TakeGroup(data, offset, y);
      && Shown(g.ta) + Shown(g.tb) + Shown(g.tc) == data[offset..offset + Announced(y)]
      && Indicator4(g, HasTD(y)) == y
  {
    hide GroupAt, Shown, Indicator4, HasTA, HasTB, HasTC;
    NibbleBits(y);
    GroupAtShows(data, offset, One(HasTA(y)), One(HasTB(y)), One(HasTC(y)), HasTD(y));
  }

  lemma SliceAround(data: seq<Byte>, from: nat, at: nat, to: nat)
    requires from <= at < to <= |data|
    ensures data[from..to] == data[from..at] + [data[at]] + data[at + 1..to]
  {
  }

  /** The interface bytes that were read are the print of some groups. */
  lemma {:induction false} GroupsReadPrinted(data: seq<Byte>, r: Reader) returns (g: Group, links: seq<Link>)
    requires Groups(data, r).Complete?
    ensures r.group + |links| <= LAST_GROUP && r.y == Indicator4(g, links != [])
    ensures forall i :: 0 <= i < |links| ==> 0 <= links[i].protocol < 16
    ensures var c := Groups(data, r);
      && r.offset <= c.end <= |data| && data[r.offset..c.end] == PrintGroups(g, links)
      && c.protocols == AddAll(r.protocols, links) && c.nonT0 == (r.nonT0 || AnyNonT0(links))
    decreases LAST_GROUP + 1 - r.group
  {
    hide Announced, HasTD, Indicator4, AddProtocol, Shown, TakeGroup;
    GroupsEnd(data, r);
    g := TakeGroup(data, r.offset, r.y);
    TakeGroupShows(data, r.offset, r.y);
    links := [];
    if HasTD(r.y) {
      var td := data[NextByte(r)];
      var s := AfterTd(r, td);
      var g1, rest := GroupsReadPrinted(data, s);
      links := [Link(td % 16, g1)] + rest;
      assert links[1..] == rest;
      assert TdByte(links[0], |links| > 1) == td;
      GroupsEnd(data, s);
      SliceAround(data, r.offset, NextByte(r), Groups(data, r).end);
    }
  }

  /** The parser accepts printed ATRs only: what it takes from any input is the print of its parts. */
  lemma ParsedIsPrinted(data: seq<Byte>) returns (g: Group, links: seq<Link>)
    requires ParseSpec(data).Parsed?
    ensures forall i :: 0 <= i < |links| ==> 0 <= links[i].protocol < 16
    ensures |links| <= 7 && |ParseSpec(data).atr.historical| < 16 && ParseSpec(data).length <= 33
    ensures var a := ParseSpec(data).atr;
      a.raw == data[..ParseSpec(data).length] == Print(a.direct, g, links, a.historical)
  {
    hide Groups, Checksum, PrintGroups, Indicator4, AnyNonT0, AddAll, Print;
    g, links := GroupsReadPrinted(data, Start(data[1]));
    var a, c, n := ParseSpec(data).atr, Groups(data, Start(data[1])), ParseSpec(data).length;
    var trailer := if AnyNonT0(links) then [data[n - 1]] else [];
    assert data[1] == 16 * Indicator4(g, links != []) + |a.historical|;
    BodySplits(data, c.end, data[1] % 16, n);
    if AnyNonT0(links) {
      TrailerForced([data[1]] + data[2..c.end] + a.historical, data[n - 1]);
    }
    PrintIs(a.direct, g, links, a.historical, data[0], data[1], trailer);
  }

  lemma PrintIs(direct: bool, g: Group, links: seq<Link>, historical: seq<Byte>,
                first: Byte, second: Byte, trailer: seq<Byte>)
    requires |historical| < 16 && forall i :: 0 <= i < |links| ==> 0 <= links[i].protocol < 16
    requires first == if direct then 0x3B else 0x3F
    requires second == 16 * Indicator4(g, links != []) + |historical|
    requires trailer == if AnyNonT0(links) then [Checksum([second] + PrintGroups(g, links) + historical)] else []
    ensures [first] + ([second] + PrintGroups(g, links) + historical + trailer) == Print(direct, g, links, historical)
  {
    hide PrintGroups, Indicator4, Checksum, AnyNonT0;
  }

  lemma BodySplits(data: seq<Byte>, end: nat, k: nat, n: nat)
    requires 2 <= end <= end + k <= n <= |data| && n <= end + k + 1
    ensures var trailer := if n > end + k then [data[n - 1]] else [];
      data[1..n] == [data[1]] + data[2..end] + data[end..end + k] + trailer
    ensures data[..n] == [data[0]] + data[1..n]
  {
  }

  lemma TrailerForced(body: seq<Byte>, tck: Byte)
    requires Checksum(body + [tck]) == 0
    ensures tck == Checksum(body)
  {
    assert (body + [tck])[..|body|] == body;
    XorZero(Checksum(body), tck);
  }

  // ---------- scanning ----------

  /** The answers start at the positions, in order; every place where an answer could be read is one
      of them or lies inside an answer already taken. */
  ghost predicate Leftmost(found: seq<Atr>, positions: seq<nat>, data: seq<Byte>, limit: nat) {
    && |found| == |positions| && limit <= |data|
    && (forall i :: 0 <= i < |found| ==>
          positions[i] + |found[i].raw| <= limit
          && ParseSpec(data[positions[i]..]) == Parsed(found[i], |found[i].raw|))
    && (forall i, j :: 0 <= i < j < |found| ==> positions[i] + |found[i].raw| <= positions[j])
    && (forall o: nat :: o < limit && ParseSpec(data[o..]).Parsed? ==>
          exists i :: 0 <= i < |found| && positions[i] <= o < positions[i] + |found[i].raw|)
  }

  /** FindATRs returns exactly the leftmost non-overlapping answers. */
  method FindAtrs(data: seq<Byte>) returns (found: seq<Atr>, ghost positions: seq<nat>)
    ensures Leftmost(found, positions, data, |data|)
  {
    hide ParseSpec;
    found, positions := [], [];
    var offset := 0;
    while offset < |data|
      invariant 0 <= offset <= |data|
      invariant Leftmost(found, positions, data, offset)
    {
      if data[offset] != 0x3B && data[offset] != 0x3F {
        StartsWrong(data[offset..]);
        LeftmostSkip(found, positions, data, offset);
      } else {
        var r := ParseAtr(data[offset..]);
        if r.Parsed? {
          ParsedLength(data[offset..]);
          LeftmostTake(found, positions, data, offset);
          found, positions := found + [r.atr], positions + [offset];
          offset := offset + r.length - 1;
        } else {
          LeftmostSkip(found, positions, data, offset);
        }
      }
      offset := offset + 1;
    }
  }

  lemma StartsWrong(s: seq<Byte>)
    requires s != [] && s[0] != 0x3B && s[0] != 0x3F
    ensures ParseSpec(s) == if |s| > 1 then Invalid else NeedMore
  {
  }

  lemma ParsedLength(s: seq<Byte>)
    ensures ParseSpec(s).Parsed? ==> 2 <= ParseSpec(s).length <= |s| && |ParseSpec(s).atr.raw| == ParseSpec(s).length
  {
  }

  lemma LeftmostSkip(found: seq<Atr>, positions: seq<nat>, data: seq<Byte>, offset: nat)
    requires Leftmost(found, positions, data, offset) && offset < |data| && !ParseSpec(data[offset..]).Parsed?
    ensures Leftmost(found, positions, data, offset + 1)
  {
    hide ParseSpec;
  }

  lemma LeftmostOrder(found: seq<Atr>, positions: seq<nat>, data: seq<Byte>, offset: nat, atr: Atr)
    requires Leftmost(found, positions, data, offset)
    ensures var found', positions' := found + [atr], positions + [offset];
      forall i, j :: 0 <= i < j < |found'| ==> positions'[i] + |found'[i].raw| <= positions'[j]
  {
    hide ParseSpec;
  }

  lemma LeftmostCovers(found: seq<Atr>, positions: seq<nat>, data: seq<Byte>, offset: nat, atr: Atr)
    requires Leftmost(found, positions, data, offset) && offset + |atr.raw| <= |data|
    ensures var found', positions' := found + [atr], positions + [offset];
      forall o: nat :: o < offset + |atr.raw| && ParseSpec(data[o..]).Parsed? ==>
        exists i :: 0 <= i < |found'| && positions'[i] <= o < positions'[i] + |found'[i].raw|
  {
    hide ParseSpec;
    var found', positions' := found + [atr], positions + [offset];
    forall o: nat | o < offset + |atr.raw| && ParseSpec(data[o..]).Parsed?
      ensures exists i :: 0 <= i < |found'| && positions'[i] <= o < positions'[i] + |found'[i].raw|
    {
      if o < offset {
        var i :| 0 <= i < |found| && positions[i] <= o < positions[i] + |found[i].raw|;
        assert found'[i] == found[i] && positions'[i] == positions[i];
      } else {
        assert found'[|found|] == atr && positions'[|found|] == offset;
      }
    }
  }

  lemma LeftmostTake(found: seq<Atr>, positions: seq<nat>, data: seq<Byte>, offset: nat)
    requires Leftmost(found, positions, data, offset) && offset < |data| && ParseSpec(data[offset..]).Parsed?
    ensures var r := ParseSpec(data[offset..]);
      offset + r.length <= |data| && Leftmost(found + [r.atr], positions + [offset], data, offset + r.length)
  {
    ParsedLength(data[offset..]);
    hide ParseSpec;
    var r := ParseSpec(data[offset..]);
    var found', positions' := found + [r.atr], positions + [offset];
    LeftmostOrder(found, positions, data, offset, r.atr);
    LeftmostCovers(found, positions, data, offset, r.atr);
  }
}
