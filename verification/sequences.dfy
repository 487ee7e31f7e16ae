/** Control sequences as bytes: numbers are written in decimal and read back, and a whole sequence written to
    a terminal between sequences executes its final byte with the numbers. */
module ControlSequences {
  import opened Geometry
  import opened Operations
  import opened TerminalGrid
  import opened TerminalParser
  import opened Utf8

  // ---------- numbers ----------

  function Digit(n: nat): Byte
    requires n < 10
  {
    '0' as int + n
  }

  function Decimal(n: nat): (s: seq<Byte>)
    ensures s != [] && forall b :: b in s ==> '0' as int <= b <= '9' as int
  {
    if n < 10 then [Digit(n)] else Decimal(n / 10) + [Digit(n % 10)]
  }

  function Pow10(k: nat): nat { if k == 0 then 1 else 10 * Pow10(k - 1) }

  lemma {:induction false} DecimalShort(n: nat, k: nat)
    requires k > 0 && n < Pow10(k)
    ensures |Decimal(n)| <= k
    decreases k
  {
    if n >= 10 {
      DecimalShort(n / 10, k - 1);
    }
  }

  lemma Int64Digits(n: nat)
    requires n <= MAX_INT64
    ensures |Decimal(n)| <= 19
  {
    assert Pow10(5) == 100_000;
    assert Pow10(10) == 10_000_000_000;
    assert Pow10(15) == 1_000_000_000_000_000;
    assert Pow10(19) == 10_000_000_000_000_000_000;
    DecimalShort(n, 19);
  }

  /** Reading a number goes on after what was read of it. */
  lemma {:induction false} ParseAppend(s: seq<Byte>, d: nat, start: nat, n: nat)
    requires d < 10 && ParseUint(s, start) == Parsed(n) && 10 * n + d <= MAX_UINT64
    ensures ParseUint(s + [Digit(d)], start) == Parsed(10 * n + d)
    decreases |s|
  {
    if s == [] {
      assert [] + [Digit(d)] == [Digit(d)] && [Digit(d)][1..] == [];
      assert ParseUint([], 10 * n + d) == Parsed(10 * n + d);
    } else {
      assert (s + [Digit(d)])[0] == s[0] && (s + [Digit(d)])[1..] == s[1..] + [Digit(d)];
      ParseAppend(s[1..], d, 10 * start + s[0] - '0' as int, n);
    }
  }

  lemma {:induction false} ParseDecimal(n: nat)
    requires n <= MAX_INT64
    ensures ParseUint(Decimal(n), 0) == Parsed(n)
    decreases n
  {
    if n < 10 {
      assert [Digit(n)][1..] == [];
      assert ParseUint([], n) == Parsed(n);
    } else {
      ParseDecimal(n / 10);
      ParseAppend(Decimal(n / 10), n % 10, 0, n / 10);
    }
  }

  lemma AtoiDecimal(n: nat)
    requires n <= MAX_INT64
    ensures Atoi(Decimal(n)) == n
  {
    hide Decimal, ParseUint;
    ParseDecimal(n);
    assert Decimal(n)[0] in Decimal(n);
  }

  // ---------- parameters ----------

  predicate Numbers(ps: seq<nat>) {
    forall p :: p in ps ==> p <= MAX_INT64
  }

  /** The numbers with semicolons between them. */
  function Joined(ps: seq<nat>): seq<Byte>
    decreases |ps|
  {
    if ps == [] then []
    else if |ps| == 1 then Decimal(ps[0])
    else Decimal(ps[0]) + [';' as int] + Joined(ps[1..])
  }

  lemma TailIn<T>(s: seq<T>)
    requires s != []
    ensures s[0] in s && forall x :: x in s[1..] ==> x in s
  {
  }

  lemma {:induction false} SplitNumber(s: seq<Byte>, rest: seq<Byte>)
    requires forall b :: b in s ==> '0' as int <= b <= '9' as int
    ensures Split(s) == [s]
    ensures Split(s + [';' as int] + rest) == [s] + Split(rest)
    decreases |s|
  {
    if s == [] {
      assert [] + [';' as int] + rest == [';' as int] + rest;
      assert ([';' as int] + rest)[1..] == rest;
    } else {
      TailIn(s);
      SplitNumber(s[1..], rest);
      assert (s + [';' as int] + rest)[1..] == s[1..] + [';' as int] + rest;
      assert [s[0]] + s[1..] == s;
    }
  }

  lemma {:induction false} SplitJoined(ps: seq<nat>)
    requires ps != []
    ensures |Split(Joined(ps))| == |ps|
    ensures forall i :: 0 <= i < |ps| ==> Split(Joined(ps))[i] == Decimal(ps[i])
    decreases |ps|
  {
    hide Split, Decimal;
    if |ps| == 1 {
      SplitNumber(Decimal(ps[0]), []);
    } else {
      SplitNumber(Decimal(ps[0]), Joined(ps[1..]));
      SplitJoined(ps[1..]);
    }
  }

  lemma JoinedStarts(ps: seq<nat>)
    requires ps != []
    ensures Joined(ps) != [] && '0' as int <= Joined(ps)[0] <= '9' as int
    ensures TrimPrefix(Joined(ps)) == Joined(ps)
  {
    hide Decimal;
    assert Decimal(ps[0])[0] in Decimal(ps[0]);
    assert Joined(ps)[0] == Decimal(ps[0])[0];
  }

  /** The numbers are read back. */
  lemma ParsesBack(ps: seq<nat>)
    requires Numbers(ps)
    ensures ParseParams(Joined(ps)) == ps
  {
    hide Joined, Split, Atoi, Decimal;
    if ps == [] {
      JoinedNothing();
    } else {
      JoinedStarts(ps);
      SplitJoined(ps);
      forall i | 0 <= i < |ps|
        ensures Atoi(Split(Joined(ps))[i]) == ps[i]
      {
        assert ps[i] in ps;
        AtoiDecimal(ps[i]);
      }
    }
  }

  lemma JoinedNothing()
    ensures Joined([]) == [] && TrimPrefix([]) == []
  {
  }

  lemma {:induction false} JoinedBytes(ps: seq<nat>)
    ensures forall b :: b in Joined(ps) ==> 0x20 <= b < 0x40
    decreases |ps|
  {
    hide Decimal;
    if |ps| > 1 {
      JoinedBytes(ps[1..]);
    }
  }

  lemma {:induction false} JoinedShort(ps: seq<nat>)
    requires Numbers(ps) && |ps| <= 6
    ensures |Joined(ps)| <= 20 * |ps|
    decreases |ps|
  {
    hide Decimal;
    if ps != [] {
      TailIn(ps);
      Int64Digits(ps[0]);
      if |ps| > 1 {
        JoinedShort(ps[1..]);
      }
    }
  }

  // ---------- whole sequences ----------

  /** The terminal is between sequences and characters. */
  ghost predicate Settled(t: Terminal) {
    Valid(t) && t.state == 0 && t.pending == [] && t.csi == []
  }

  /** ESC [ numbers final. */
  function Csi(ps: seq<nat>, final: char): seq<Byte>
    requires 0x40 <= final as int <= 0x7E
  {
    [0x1B, '[' as int] + Joined(ps) + [final as int]
  }

  /** The bytes leave v, up to the rows marked dirty, and the terminal is settled again. */
  ghost predicate Leaves(t: Terminal, bytes: seq<Byte>, v: Terminal)
    requires Settled(t)
  {
    Settled(Write(t, bytes)) && Write(t, bytes).(dirty := v.dirty) == v
  }

  lemma WriteSettled(t: Terminal, bytes: seq<Byte>)
    requires Settled(t)
    ensures Write(t, bytes) == Feed(t, bytes)
  {
    assert [] + bytes == bytes && t.(pending := []) == t;
  }

  lemma {:induction false} FeedParameters(t: Terminal, part: seq<Byte>, final: Byte)
    requires Valid(t) && t.state == 2 && t.pending == [] && |t.csi| + |part| <= 128
    requires (forall b :: b in part ==> 0x20 <= b < 0x40) && 0x40 <= final <= 0x7E
    ensures Feed(t, part + [final]) == ExecuteCsi(t.(csi := t.csi + part), final).(state := 0, csi := [])
    decreases |part|
  {
    hide ExecuteCsi, Feed, Tracked;
    var all := part + [final];
    FeedSequence(t, all);
    if part == [] {
      assert all[1..] == [] && t.csi + [] == t.csi;
      FeedNothing(ByteInSequence(t, final));
    } else {
      TailIn(part);
      assert all[0] == part[0] && all[1..] == part[1..] + [final];
      var s := t.(csi := t.csi + [part[0]]);
      assert ByteInSequence(t, part[0]) == s;
      FeedParameters(s, part[1..], final);
      assert s.csi + part[1..] == t.csi + part;
    }
  }

  lemma Introduce(t: Terminal, part: seq<Byte>)
    requires Settled(t)
    ensures var u := t.(state := 2, csi := []);
      Valid(u) && Feed(t, [0x1B, '[' as int] + part) == Feed(u, part)
  {
    hide Feed, Tracked;
    var all := [0x1B, '[' as int] + part;
    FeedText(t, all);
    var escape := t.(state := 1);
    assert TextStep(t, all) == (escape, 1);
    assert all[1..] == ['[' as int] + part && all[1..][1..] == part;
    FeedSequence(escape, all[1..]);
    assert ByteInSequence(escape, '[' as int) == t.(state := 2, csi := []);
  }

  /** A sequence with up to six numbers executes its final byte with them. */
  lemma CsiExecutes(t: Terminal, ps: seq<nat>, final: char)
    requires Settled(t) && Numbers(ps) && |ps| <= 6 && 0x40 <= final as int <= 0x7E
    ensures var s := t.(state := 2, csi := Joined(ps));
      && InBounds(s) && ParseParams(s.csi) == ps
      && Write(t, Csi(ps, final)) == ExecuteCsi(s, final as int).(state := 0, csi := [])
  {
    hide ExecuteCsi, Feed, Tracked, Joined, ParseParams, Write;
    var bytes := Csi(ps, final);
    WriteSettled(t, bytes);
    JoinedShort(ps);
    JoinedBytes(ps);
    ParsesBack(ps);
    assert bytes == [0x1B, '[' as int] + (Joined(ps) + [final as int]);
    Introduce(t, Joined(ps) + [final as int]);
    FeedParameters(t.(state := 2, csi := []), Joined(ps), final as int);
    assert [] + Joined(ps) == Joined(ps);
  }

  /** ESC and one final byte. */
  lemma EscapeExecutes(t: Terminal, final: char)
    requires Settled(t) && final as int < 256 && final !in {'[', ']', '(', ')', '*', '+'}
    ensures Write(t, [0x1B, final as int]) == EscapeAction(t.(state := 1), final as int).(state := 0)
  {
    hide Feed, Tracked, EscapeAction, Write;
    var bytes := [0x1B, final as int];
    WriteSettled(t, bytes);
    FeedText(t, bytes);
    var escape := t.(state := 1);
    assert TextStep(t, bytes) == (escape, 1);
    assert bytes[1..] == [final as int] && bytes[1..][1..] == [];
    FeedSequence(escape, bytes[1..]);
    FeedNothing(ByteInSequence(escape, final as int));
  }

  lemma ControlExecutes(t: Terminal, b: Byte)
    requires Settled(t) && ((b < 0x20 && b != 0x1B) || b == 0x7F)
    ensures Write(t, [b]) == Control(t, b)
  {
    hide Feed, Tracked, Control, Write;
    WriteSettled(t, [b]);
    FeedText(t, [b]);
    assert TextStep(t, [b]) == (Control(t, b), 1) && [b][1..] == [];
    FeedNothing(Control(t, b));
  }

  /** The bytes of a character print it. */
  lemma CharacterPrints(t: Terminal, r: int)
    requires Settled(t) && ScalarValue(r) && r >= 0x20 && r != 0x7F
    ensures Write(t, Encode(r)) == PutRune(t, r)
  {
    hide Feed, Tracked, PutRune, Write, FullRune, DecodeRune;
    WriteSettled(t, Encode(r));
    if r < 0x80 {
      FeedText(t, [r]);
      assert TextStep(t, [r]) == (PutRune(t, r), 1) && [r][1..] == [];
      FeedNothing(PutRune(t, r));
    } else {
      DecodeEncode(r, []);
      assert Encode(r) + [] == Encode(r);
      FeedCharacter(t, Encode(r), r);
    }
  }
  // ---------- what is skipped ----------

  /** The text of an operating system command: neither BEL nor ESC, but ESC followed by anything but a backslash
      belongs to it, even by BEL or another ESC. */
  ghost predicate CommandText(s: seq<Byte>)
    decreases |s|
  {
    || s == []
    || (s[0] != 0x07 && s[0] != 0x1B && CommandText(s[1..]))
    || (|s| > 1 && s[0] == 0x1B && s[1] != '\\' as int && CommandText(s[2..]))
  }

  /** Inside a command, its text changes nothing and its end does nothing but end it. */
  lemma {:induction false} FeedCommand(t: Terminal, text: seq<Byte>, end: seq<Byte>)
    requires Valid(t) && t.state == 3 && t.pending == [] && CommandText(text)
    requires end == [] || end == [0x07] || end == [0x1B, '\\' as int]
    ensures Feed(t, text + end) == if end == [] then t else t.(state := 0)
    decreases |text|
  {
    hide Feed, Tracked, Escape, ExecuteCsi;
    var all := text + end;
    if text == [] {
      assert all == end;
      FeedEnd(t, end);
    } else if text[0] != 0x07 && text[0] != 0x1B {
      TailIn(text);
      assert all[0] == text[0] && all[1..] == text[1..] + end;
      FeedSequence(t, all);
      FeedCommand(t, text[1..], end);
    } else {
      assert all[0] == text[0] && all[1..][0] == text[1] && all[1..][1..] == text[2..] + end;
      FeedSequence(t, all);
      FeedSequence(t.(state := 4), all[1..]);
      FeedCommand(t, text[2..], end);
    }
  }

  lemma FeedEnd(t: Terminal, end: seq<Byte>)
    requires Valid(t) && t.state == 3 && t.pending == []
    requires end == [] || end == [0x07] || end == [0x1B, '\\' as int]
    ensures Feed(t, end) == if end == [] then t else t.(state := 0)
  {
    hide Feed, Tracked, Escape, ExecuteCsi;
    if end == [] {
      FeedNothing(t);
    } else {
      FeedSequence(t, end);
      if |end| == 1 {
        assert end[1..] == [];
      } else {
        assert end[1..] == ['\\' as int] && end[1..][1..] == [];
        FeedSequence(t.(state := 4), end[1..]);
      }
      FeedNothing(t.(state := 0));
    }
  }

  /** ESC ] text, ended by BEL or by ESC \, leaves the terminal as it was, and does not end before that. */
  lemma CommandSkipped(t: Terminal, text: seq<Byte>, end: seq<Byte>)
    requires Settled(t) && CommandText(text) && (end == [0x07] || end == [0x1B, '\\' as int])
    ensures Write(t, [0x1B, ']' as int] + text + end) == t
    ensures Write(t, [0x1B, ']' as int] + text) == t.(state := 3)
  {
    hide Feed, Tracked, Write, CommandText, ExecuteCsi;
    FeedCommand(t.(state := 3), text, end);
    FeedCommand(t.(state := 3), text, []);
    assert text + [] == text;
    assert [0x1B, ']' as int] + text + end == [0x1B, ']' as int] + (text + end);
    Announce(t, ']', text);
    Announce(t, ']', text + end);
  }

  /** ESC and a byte that opens a command or a character set. */
  lemma Announce(t: Terminal, opener: char, rest: seq<Byte>)
    requires Settled(t) && opener in {']', '(', ')', '*', '+'}
    ensures var u := t.(state := if opener == ']' then 3 else 5);
      Valid(u) && Write(t, [0x1B, opener as int] + rest) == Feed(u, rest)
  {
    hide Feed, Tracked, Write, ExecuteCsi;
    var all := [0x1B, opener as int] + rest;
    WriteSettled(t, all);
    FeedText(t, all);
    var escape := t.(state := 1);
    assert TextStep(t, all) == (escape, 1);
    assert all[1..] == [opener as int] + rest && all[1..][1..] == rest;
    FeedSequence(escape, all[1..]);
  }

  /** A character set selection takes exactly one more byte, whatever it is. */
  lemma CharacterSetSkipped(t: Terminal, opener: char, b: Byte)
    requires Settled(t) && opener in {'(', ')', '*', '+'}
    ensures Write(t, [0x1B, opener as int, b]) == t
  {
    hide Feed, Tracked, Write, ExecuteCsi;
    assert [0x1B, opener as int, b] == [0x1B, opener as int] + [b];
    Announce(t, opener, [b]);
    FeedSequence(t.(state := 5), [b]);
    assert [b][1..] == [];
    FeedNothing(t);
  }

  /** Of the bytes between ESC [ and the final byte only the first 128 matter. */
  lemma LongSequenceCut(t: Terminal, part: seq<Byte>, final: Byte)
    requires Settled(t) && |part| > 128 && (forall b :: b in part ==> 0x20 <= b < 0x40) && 0x40 <= final <= 0x7E
    ensures Write(t, [0x1B, '[' as int] + part + [final]) == Write(t, [0x1B, '[' as int] + part[..128] + [final])
  {
    hide Feed, Tracked, Write, ExecuteCsi;
    var kept := part[..128];
    WriteSettled(t, [0x1B, '[' as int] + part + [final]);
    WriteSettled(t, [0x1B, '[' as int] + kept + [final]);
    assert [0x1B, '[' as int] + part + [final] == [0x1B, '[' as int] + (part + [final]);
    assert [0x1B, '[' as int] + kept + [final] == [0x1B, '[' as int] + (kept + [final]);
    Introduce(t, part + [final]);
    Introduce(t, kept + [final]);
    assert forall b :: b in kept ==> b in part;
    FeedParameters(t.(state := 2, csi := []), kept, final);
    FeedLong(t.(state := 2, csi := []), part, final);
    assert [] + kept == kept;
  }

  lemma {:induction false} FeedLong(t: Terminal, part: seq<Byte>, final: Byte)
    requires Valid(t) && t.state == 2 && t.pending == [] && |t.csi| <= 128 <= |t.csi| + |part|
    requires (forall b :: b in part ==> 0x20 <= b < 0x40) && 0x40 <= final <= 0x7E
    ensures Feed(t, part + [final])
      == ExecuteCsi(t.(csi := t.csi + part[..128 - |t.csi|]), final).(state := 0, csi := [])
    decreases |part|
  {
    hide ExecuteCsi, Feed, Tracked;
    var all := part + [final];
    FeedSequence(t, all);
    if part == [] {
      assert all[1..] == [] && t.csi + part[..0] == t.csi;
      FeedNothing(ByteInSequence(t, final));
    } else {
      TailIn(part);
      assert all[0] == part[0] && all[1..] == part[1..] + [final];
      var s := if |t.csi| < 128 then t.(csi := t.csi + [part[0]]) else t;
      assert ByteInSequence(t, part[0]) == s;
      FeedLong(s, part[1..], final);
      assert s.csi + part[1..][..128 - |s.csi|] == t.csi + part[..128 - |t.csi|];
    }
  }
}
