/** The byte-driven parser of internal/sshclient/terminal.go: Write, escape sequences, CSI parameters,
    colours. */
module TerminalParser {
  import opened Geometry
  import opened Operations
  import opened TerminalGrid
  import opened Utf8

  // ---------- CSI parameters ----------

  const MAX_INT64 := 0x7FFF_FFFF_FFFF_FFFF
  const MAX_UINT64 := 0xFFFF_FFFF_FFFF_FFFF
  const MAX_CSI: nat := 128

  /** Go's int arithmetic wraps at 64 bits. */
  function Int64(n: int): int {
    (n + 0x8000_0000_0000_0000) % 0x1_0000_0000_0000_0000 - 0x8000_0000_0000_0000
  }

  function TrimPrefix(s: seq<Byte>): seq<Byte> {
    if s != [] && s[0] in {'?' as int, '>' as int, '<' as int, '!' as int} then TrimPrefix(s[1..]) else s
  }

  function Split(s: seq<Byte>): (parts: seq<seq<Byte>>)
    ensures parts != []
  {
    if s == [] then [[]]
    else
      var rest := Split(s[1..]);
      if s[0] == ';' as int then [[]] + rest else [[s[0]] + rest[0]] + rest[1..]
  }

  datatype Unsigned = Parsed(n: nat) | TooBig | NoNumber

  /** strconv.ParseUint in base 10, continuing from n. */
  function ParseUint(s: seq<Byte>, n: nat): Unsigned {
    if s == [] then Parsed(n)
    else if !('0' as int <= s[0] <= '9' as int) then NoNumber
    else if n > MAX_UINT64 / 10 then TooBig
    else
      var next := 10 * n + s[0] - '0' as int;
      if next > MAX_UINT64 then TooBig else ParseUint(s[1..], next)
  }

  /** strconv.Atoi with its error dropped: 0 for what is no number, saturation for what is too big. */
  function Atoi(s: seq<Byte>): (n: int)
    ensures -MAX_INT64 - 1 <= n <= MAX_INT64
  {
    var negative := s != [] && s[0] == '-' as int;
    var digits := if s != [] && s[0] in {'-' as int, '+' as int} then s[1..] else s;
    if digits == [] then 0
    else
      match ParseUint(digits, 0)
      case NoNumber => 0
      case TooBig => if negative then -MAX_INT64 - 1 else MAX_INT64
      case Parsed(n) => if negative then Max(0 - n, -MAX_INT64 - 1) else Min(n, MAX_INT64)
  }

  function ParseParams(csi: seq<Byte>): seq<int> {
    var value := TrimPrefix(csi);
    if value == [] then []
    else
      var parts := Split(value);
      seq(|parts|, i requires 0 <= i < |parts| => Atoi(parts[i]))
  }

  function Param(params: seq<int>, index: nat, fallback: int): int {
    if index >= |params| || params[index] == 0 then fallback else params[index]
  }

  // ---------- colours ----------

  const PALETTE: seq<(int, int, int)> := [
    (0, 0, 0), (205, 49, 49), (13, 188, 121), (229, 229, 16),
    (36, 114, 200), (188, 63, 188), (17, 168, 205), (229, 229, 229),
    (102, 102, 102), (241, 76, 76), (35, 209, 139), (245, 245, 67),
    (59, 142, 234), (214, 112, 214), (41, 184, 219), (255, 255, 255)]

  function Square(n: int): (q: int)
    ensures q >= 0
  {
    n * n
  }

  function ColourDistance(c: (int, int, int), p: (int, int, int)): (d: int)
    ensures d >= 0
  {
    Square(c.0 - p.0) + Square(c.1 - p.1) + Square(c.2 - p.2)
  }

  /** The first palette entry among the first n that is nearest to the colour. */
  function NearestAmong(c: (int, int, int), n: nat): (best: nat)
    requires 1 <= n <= |PALETTE|
    ensures best < n
    ensures forall i :: 0 <= i < n ==> ColourDistance(c, PALETTE[best]) <= ColourDistance(c, PALETTE[i])
    ensures forall i :: 0 <= i < best ==> ColourDistance(c, PALETTE[best]) < ColourDistance(c, PALETTE[i])
  {
    if n == 1 then 0
    else
      var best := NearestAmong(c, n - 1);
      if ColourDistance(c, PALETTE[n - 1]) < ColourDistance(c, PALETTE[best]) then n - 1 else best
  }

  function NearestPalette(c: (int, int, int)): int { NearestAmong(c, |PALETTE|) }

  function ClampByte(n: int): int { Min(Max(n, 0), 255) }

  function XtermColour(n: int): (int, int, int) {
    var index := Min(Max(n, 0), 255);
    if index < 16 then PALETTE[index]
    else if index < 232 then
      var levels := [0, 95, 135, 175, 215, 255];
      (levels[(index - 16) / 36], levels[(index - 16) / 6 % 6], levels[(index - 16) % 6])
    else
      var gray := 8 + (index - 232) * 10;
      (gray, gray, gray)
  }

  /** A colour after 38 or 48, and how many parameters it takes. */
  function ExtendedColour(params: seq<int>): Option<(int, nat)> {
    if |params| >= 2 && params[0] == 5 then Some((NearestPalette(XtermColour(params[1])), 2))
    else if |params| >= 4 && params[0] == 2 then
      Some((NearestPalette((ClampByte(params[1]), ClampByte(params[2]), ClampByte(params[3]))), 4))
    else None
  }

  /** One colour or attribute parameter that stands alone. */
  function SgrOne(t: Terminal, value: int): Terminal {
    if value == 0 then t.(fg := 7, bg := 0, bold := false, inverse := false)
    else if value == 1 then t.(bold := true)
    else if value == 22 then t.(bold := false)
    else if value == 7 then t.(inverse := true)
    else if value == 27 then t.(inverse := false)
    else if 30 <= value <= 37 then t.(fg := value - 30)
    else if value == 39 then t.(fg := 7)
    else if 40 <= value <= 47 then t.(bg := value - 40)
    else if value == 49 then t.(bg := 0)
    else if 90 <= value <= 97 then t.(fg := value - 90 + 8)
    else if 100 <= value <= 107 then t.(bg := value - 100 + 8)
    else t
  }

  /** The parameters from `index` on. */
  function SgrFrom(t: Terminal, params: seq<int>, index: nat): (r: Terminal)
    ensures r == t.(fg := r.fg, bg := r.bg, bold := r.bold, inverse := r.inverse)
    decreases |params| - index
  {
    if index >= |params| then t
    else if params[index] == 38 || params[index] == 48 then
      match ExtendedColour(params[index + 1..])
      case None => SgrFrom(t, params, index + 1)
      case Some(c) =>
        SgrFrom(if params[index] == 38 then t.(fg := c.0) else t.(bg := c.0), params, index + 1 + c.1)
    else SgrFrom(SgrOne(t, params[index]), params, index + 1)
  }

  function Sgr(t: Terminal, params: seq<int>): (r: Terminal)
    requires InBounds(t)
    ensures Sound(t, r)
  {
    SgrFrom(t, if params == [] then [0] else params, 0)
  }

  // ---------- CSI sequences ----------

  datatype LineOperation = ScrollsUp | ScrollsDown | InsertsLine | DeletesLine

  function OneLine(t: Terminal, op: LineOperation): (r: Terminal)
    requires InBounds(t)
    ensures Sound(t, r)
  {
    match op
    case ScrollsUp => ScrollUp(t)
    case ScrollsDown => ScrollDown(t)
    case InsertsLine => InsertLine(t)
    case DeletesLine => DeleteLine(t)
  }

  /** The operation n times; not at all for a negative count. */
  function Lines(t: Terminal, op: LineOperation, n: int): (r: Terminal)
    requires InBounds(t)
    ensures Sound(t, r)
    decreases n
  {
    SoundReflexive(t);
    if n <= 0 then t
    else
      var before := Lines(t, op, n - 1);
      SoundTransitive(t, before, OneLine(before, op));
      OneLine(before, op)
  }

  function SaveCursor(t: Terminal): (r: Terminal)
    requires InBounds(t)
    ensures Sound(t, r)
  {
    t.(savedX := t.cursorX, savedY := t.cursorY)
  }

  function SetMargins(t: Terminal, top: int, bottom: int): (r: Terminal)
    requires InBounds(t)
    ensures Sound(t, r)
  {
    SoundReflexive(t);
    if top >= 0 && bottom < t.rows && top < bottom then
      MoveCursor(t.(scrollTop := top, scrollBottom := bottom), 0, 0)
    else t
  }

  function ExecuteCsi(t: Terminal, final: Byte): (r: Terminal)
    requires InBounds(t)
    ensures Sound(t, r)
  {
    var params := ParseParams(t.csi);
    var p := Param(params, 0, 1);
    var f := final as char;
    SoundReflexive(t);
    if f == 'A' then MoveCursor(t, Int64(t.cursorY - p), t.cursorX)
    else if f == 'B' || f == 'e' then MoveCursor(t, Int64(t.cursorY + p), t.cursorX)
    else if f == 'C' || f == 'a' then MoveCursor(t, t.cursorY, Int64(t.cursorX + p))
    else if f == 'D' then MoveCursor(t, t.cursorY, Int64(t.cursorX - p))
    else if f == 'E' then MoveCursor(t, Int64(t.cursorY + p), 0)
    else if f == 'F' then MoveCursor(t, Int64(t.cursorY - p), 0)
    else if f == 'G' || f == '`' then MoveCursor(t, t.cursorY, Int64(p - 1))
    else if f == 'H' || f == 'f' then MoveCursor(t, Int64(p - 1), Int64(Param(params, 1, 1) - 1))
    else if f == 'd' then MoveCursor(t, Int64(p - 1), t.cursorX)
    else if f == 'J' then EraseDisplay(t, Param(params, 0, 0))
    else if f == 'K' then EraseLine(t, Param(params, 0, 0))
    else if f == 'm' then Sgr(t, params)
    else if f == 's' then SaveCursor(t)
    else if f == 'u' then MoveCursor(t, t.savedY, t.savedX)
    else if f == 'r' then SetMargins(t, Int64(p - 1), Int64(Param(params, 1, t.rows) - 1))
    else if f == 'S' then Lines(t, ScrollsUp, p)
    else if f == 'T' then Lines(t, ScrollsDown, p)
    else if f == '@' then InsertChars(t, p)
    else if f == 'P' then DeleteChars(t, p)
    else if f == 'X' then EraseChars(t, p)
    else if f == 'L' then Lines(t, InsertsLine, p)
    else if f == 'M' then Lines(t, DeletesLine, p)
    else t
  }

  // ---------- escape sequences ----------

  /** What an escape's final byte does to the grid. */
  function EscapeAction(t: Terminal, b: Byte): (r: Terminal)
    requires InBounds(t)
    ensures Sound(t, r)
  {
    SoundReflexive(t);
    var c := b as char;
    if c == '7' then SaveCursor(t)
    else if c == '8' then MoveCursor(t, t.savedY, t.savedX)
    else if c == 'D' then LineFeed(t, t.cursorX)
    else if c == 'E' then LineFeed(t, 0)
    else if c == 'M' then ReverseIndex(t)
    else if c == 'c' then Reset(t)
    else t
  }

  function Escape(t: Terminal, b: Byte): (r: Terminal)
    requires InBounds(t)
    ensures InBounds(r) && Tracked(t, r)
  {
    var c := b as char;
    if c == '[' then t.(state := 2, csi := [])
    else if c == ']' then t.(state := 3)
    else if c in {'(', ')', '*', '+'} then t.(state := 5)
    else EscapeAction(t, b).(state := 0)
  }

  // ---------- Write ----------

  /** Bounds of the parser and of the grid. */
  ghost predicate Valid(t: Terminal) {
    && InBounds(t) && t.state <= 5 && |t.csi| <= MAX_CSI
    && |t.pending| <= 3
    && (t.pending != [] ==> t.state == 0 && t.pending[0] >= 0x80 && !FullRune(t.pending))
  }

  /** Valid steps that track their changes and keep the sizes. */
  ghost predicate Step(t: Terminal, r: Terminal) {
    Valid(t) && Valid(r) && Tracked(t, r) && r.cols == t.cols && r.rows == t.rows && r.marks == t.marks
  }

  /** One byte in a state other than plain text. */
  function ByteInSequence(t: Terminal, b: Byte): (r: Terminal)
    requires Valid(t) && t.pending == [] && t.state != 0
    ensures Step(t, r) && r.pending == []
  {
    match t.state
    case 1 => Escape(t, b)
    case 2 =>
      if 0x40 <= b <= 0x7E then ExecuteCsi(t, b).(state := 0, csi := [])
      else if |t.csi| < MAX_CSI then t.(csi := t.csi + [b])
      else t
    case 3 => if b == 0x07 then t.(state := 0) else if b == 0x1B then t.(state := 4) else t
    case 4 => if b == '\\' as int then t.(state := 0) else t.(state := 3)
    case _ => t.(state := 0)
  }

  /** Plain text: the first character of the data, and the bytes it takes; nothing if it is incomplete. */
  function TextStep(t: Terminal, data: seq<Byte>): (r: (Terminal, nat))
    requires Valid(t) && t.pending == [] && t.state == 0 && data != []
    ensures Step(t, r.0) && r.0.pending == [] && r.1 <= |data|
    ensures r.1 == 0 <==> data[0] >= 0x80 && !FullRune(data)
    ensures r.1 == 0 ==> r.0 == t
  {
    SoundReflexive(t);
    var b := data[0];
    if b == 0x1B then (t.(state := 1), 1)
    else if b < 0x20 || b == 0x7F then (Control(t, b), 1)
    else if b < 0x80 then (PutRune(t, b), 1)
    else if !FullRune(data) then (t, 0)
    else
      var (r, size) := DecodeRune(data);
      (PutRune(t, r), size)
  }

  /** The loop of Write on the joined data. */
  function Feed(t: Terminal, data: seq<Byte>): (r: Terminal)
    requires Valid(t) && t.pending == []
    ensures Step(t, r)
    decreases |data|
  {
    SoundReflexive(t);
    if data == [] then t
    else if t.state != 0 then
      var s := ByteInSequence(t, data[0]);
      var r := Feed(s, data[1..]);
      StepTransitive(t, s, r);
      r
    else
      var (s, n) := TextStep(t, data);
      if n == 0 then
        IncompleteIsShort(data);
        t.(pending := data)
      else
        var r := Feed(s, data[n..]);
        StepTransitive(t, s, r);
        r
  }

  /** Feed, one turn of the loop at a time. */
  lemma FeedText(t: Terminal, data: seq<Byte>)
    requires Valid(t) && t.pending == [] && t.state == 0 && data != []
    ensures var (s, n) := TextStep(t, data);
      if n == 0 then s == t && Feed(t, data) == t.(pending := data) && Valid(t.(pending := data))
      else Feed(t, data) == Feed(s, data[n..])
  {
    hide TextStep, FullRune;
    IncompleteIsShortIf(data);
  }

  lemma IncompleteIsShortIf(data: seq<Byte>)
    ensures !FullRune(data) ==> |data| <= 3
  {
  }

  lemma FeedSequence(t: Terminal, data: seq<Byte>)
    requires Valid(t) && t.pending == [] && t.state != 0 && data != []
    ensures Feed(t, data) == Feed(ByteInSequence(t, data[0]), data[1..])
  {
    hide ByteInSequence;
  }

  lemma FeedNothing(t: Terminal)
    requires Valid(t)
    ensures t.pending == [] ==> Feed(t, []) == t
  {
  }

  lemma StepTransitive(a: Terminal, b: Terminal, c: Terminal)
    requires Step(a, b) && Step(b, c)
    ensures Step(a, c)
  {
  }

  /** Write: the bytes of an incomplete character come before the new ones. */
  function Write(t: Terminal, p: seq<Byte>): (r: Terminal)
    requires Valid(t)
    ensures Step(t, r)
  {
    Feed(t.(pending := []), t.pending + p)
  }

  // ---------- chunking ----------

  /** Whatever the first part leaves incomplete, the second part completes as if they were one. */
  lemma {:induction false} FeedSplit(t: Terminal, a: seq<Byte>, b: seq<Byte>)
    requires Valid(t) && t.pending == []
    ensures Feed(t, a + b) == Write(Feed(t, a), b)
    decreases |a|
  {
    if a == [] {
      assert [] + b == b;
    } else if t.state != 0 {
      assert (a + b)[0] == a[0] && (a + b)[1..] == a[1..] + b;
      FeedSplit(ByteInSequence(t, a[0]), a[1..], b);
    } else if a[0] >= 0x80 && !FullRune(a) {
      IncompleteIsShort(a);
      assert Feed(t, a) == t.(pending := a);
      assert t.(pending := a).(pending := []) == t;
    } else {
      TextStable(t, a, b);
      var (s, n) := TextStep(t, a);
      assert (a + b)[n..] == a[n..] + b;
      FeedSplit(s, a[n..], b);
    }
  }

  lemma TextStable(t: Terminal, a: seq<Byte>, b: seq<Byte>)
    requires Valid(t) && t.pending == [] && t.state == 0 && a != []
    requires a[0] < 0x80 || FullRune(a)
    ensures TextStep(t, a + b) == TextStep(t, a)
  {
    assert (a + b)[0] == a[0];
    if a[0] >= 0x80 {
      FullRuneStable(a, b);
    }
  }

  /** Chunking does not matter: writing p and then q reaches the same terminal as writing p+q, from
      every valid state and wherever the bytes are cut. */
  lemma ChunkingInvisible(t: Terminal, p: seq<Byte>, q: seq<Byte>)
    requires Valid(t)
    ensures Write(Write(t, p), q) == Write(t, p + q)
  {
    hide Feed, Tracked, FullRune;
    FeedSplit(t.(pending := []), t.pending + p, q);
    assert t.pending + (p + q) == (t.pending + p) + q;
  }

  /** All the chunks, in order. */
  function WriteAll(t: Terminal, chunks: seq<seq<Byte>>): (r: Terminal)
    requires Valid(t)
    ensures Step(t, r)
    decreases |chunks|
  {
    if chunks == [] then Write(t, [])
    else
      StepTransitive(t, Write(t, chunks[0]), WriteAll(Write(t, chunks[0]), chunks[1..]));
      WriteAll(Write(t, chunks[0]), chunks[1..])
  }

  function Concat(chunks: seq<seq<Byte>>): seq<Byte> {
    if chunks == [] then [] else chunks[0] + Concat(chunks[1..])
  }

  lemma {:induction false} ChunksInvisible(t: Terminal, chunks: seq<seq<Byte>>)
    requires Valid(t)
    ensures WriteAll(t, chunks) == Write(t, Concat(chunks))
    decreases |chunks|
  {
    if chunks != [] {
      ChunksInvisible(Write(t, chunks[0]), chunks[1..]);
      ChunkingInvisible(t, chunks[0], Concat(chunks[1..]));
    }
  }

  lemma FeedCharacter(t: Terminal, e: seq<Byte>, r: int)
    requires Valid(t) && t.pending == [] && t.state == 0
    requires e != [] && e[0] >= 0x80 && FullRune(e) && DecodeRune(e) == (r, |e|)
    ensures Feed(t, e) == PutRune(t, r)
  {
    hide PutRune, FullRune, DecodeRune, Tracked;
    assert TextStep(t, e) == (PutRune(t, r), |e|);
    assert e[|e|..] == [];
  }

  /** A character's encoding prints that character, even when it is cut in two. */
  lemma SplitCharacterPrints(t: Terminal, r: int, cut: nat)
    requires Valid(t) && t.pending == [] && t.state == 0 && ScalarValue(r) && r >= 0x80
    requires cut <= |Encode(r)|
    ensures Write(Write(t, Encode(r)[..cut]), Encode(r)[cut..]) == PutRune(t, r)
  {
    hide PutRune, FullRune, DecodeRune, Feed, Tracked;
    var e := Encode(r);
    ChunkingInvisible(t, e[..cut], e[cut..]);
    assert e[..cut] + e[cut..] == e && [] + e == e;
    DecodeEncode(r, []);
    assert e + [] == e;
    FeedCharacter(t, e, r);
    assert t.(pending := []) == t;
  }
}
