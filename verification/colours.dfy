/** What the bytes of ESC [ ... m select: colours, bright colours, the nearest of extended colours, attributes. */
module TerminalColours {
  import opened Geometry
  import opened Operations
  import opened TerminalGrid
  import opened TerminalParser
  import opened ControlSequences
  import opened TerminalEffects

  // ---------- colours and attributes ----------

  /** ESC [ 30+k m and its relatives select one of eight colours, ESC [ 90+k m a bright one; 39 and 49 the
      defaults. */
  lemma SelectsColour(t: Terminal, k: nat)
    requires Settled(t) && k < 8
    ensures Leaves(t, Csi([30 + k], 'm'), t.(fg := k)) && Leaves(t, Csi([40 + k], 'm'), t.(bg := k))
    ensures Leaves(t, Csi([90 + k], 'm'), t.(fg := 8 + k)) && Leaves(t, Csi([100 + k], 'm'), t.(bg := 8 + k))
    ensures Leaves(t, Csi([39], 'm'), t.(fg := 7)) && Leaves(t, Csi([49], 'm'), t.(bg := 0))
  {
    hide ParseParams, Joined, Leaves, Csi;
    ByAttribute(t, 30 + k, t.(fg := k));
    ByAttribute(t, 40 + k, t.(bg := k));
    ByAttribute(t, 90 + k, t.(fg := 8 + k));
    ByAttribute(t, 100 + k, t.(bg := 8 + k));
    ByAttribute(t, 39, t.(fg := 7));
    ByAttribute(t, 49, t.(bg := 0));
  }

  lemma ByAttribute(t: Terminal, p: nat, v: Terminal)
    requires Settled(t) && p <= 0x7FFF_FFFF_FFFF_FFFF && p != 38 && p != 48
    requires SgrOne(t, p).(dirty := v.dirty) == v
    ensures Leaves(t, Csi([p], 'm'), v)
  {
    hide ParseParams, Joined, Leaves, Csi, SgrOne, SgrFrom, ExecuteCsi;
    var s := t.(state := 2, csi := Joined([p]));
    SgrFrame(t, p);
    SgrFrame(s, p);
    SgrFields(t, s, p);
    SgrSingle(s, p);
    if ParseParams(s.csi) == [p] {
      ExecutesAttributes(s, [p]);
    }
    ByCsi(t, [p], 'm', v);
  }

  lemma ExecutesAttributes(s: Terminal, ps: seq<int>)
    requires InBounds(s) && ParseParams(s.csi) == ps
    ensures ExecuteCsi(s, 'm' as int) == SgrFrom(s, if ps == [] then [0] else ps, 0)
  {
    hide ParseParams, SgrFrom;
  }

  lemma SgrSingle(s: Terminal, p: int)
    requires p != 38 && p != 48
    ensures SgrFrom(s, [p], 0) == SgrOne(s, p)
  {
    hide SgrOne;
    assert SgrFrom(SgrOne(s, p), [p], 1) == SgrOne(s, p);
  }

  /** An attribute touches the colours and flags only, and does not look at the parser. */
  lemma SgrFrame(t: Terminal, p: int)
    ensures var r := SgrOne(t, p); r == t.(fg := r.fg, bg := r.bg, bold := r.bold, inverse := r.inverse)
  {
  }

  lemma SgrFields(t: Terminal, s: Terminal, p: int)
    requires s.fg == t.fg && s.bg == t.bg && s.bold == t.bold && s.inverse == t.inverse
    ensures SgrOne(s, p).fg == SgrOne(t, p).fg && SgrOne(s, p).bg == SgrOne(t, p).bg
    ensures SgrOne(s, p).bold == SgrOne(t, p).bold && SgrOne(s, p).inverse == SgrOne(t, p).inverse
  {
  }

  /** 1 and 22 switch bold, 7 and 27 inverse; 0, and a sequence without numbers, restore the defaults. */
  lemma SelectsAttribute(t: Terminal)
    requires Settled(t)
    ensures Leaves(t, Csi([1], 'm'), t.(bold := true)) && Leaves(t, Csi([22], 'm'), t.(bold := false))
    ensures Leaves(t, Csi([7], 'm'), t.(inverse := true)) && Leaves(t, Csi([27], 'm'), t.(inverse := false))
    ensures Leaves(t, Csi([0], 'm'), t.(fg := 7, bg := 0, bold := false, inverse := false))
    ensures Leaves(t, Csi([], 'm'), t.(fg := 7, bg := 0, bold := false, inverse := false))
  {
    hide ParseParams, Joined, Leaves, Csi;
    ByAttribute(t, 1, t.(bold := true));
    ByAttribute(t, 22, t.(bold := false));
    ByAttribute(t, 7, t.(inverse := true));
    ByAttribute(t, 27, t.(inverse := false));
    var plain := t.(fg := 7, bg := 0, bold := false, inverse := false);
    ByAttribute(t, 0, plain);
    var s := t.(state := 2, csi := Joined([]));
    SgrSingle(s, 0);
    ByCsi(t, [], 'm', plain);
  }

  /** Other numbers change nothing. */
  lemma OtherAttributes(t: Terminal, p: nat)
    requires Settled(t) && p <= 0x7FFF_FFFF_FFFF_FFFF && p !in {0, 1, 7, 22, 27, 38, 39, 48, 49}
    requires !(30 <= p < 38) && !(40 <= p < 48) && !(90 <= p < 98) && !(100 <= p < 108)
    ensures Leaves(t, Csi([p], 'm'), t)
  {
    hide ParseParams, Joined, Leaves, Csi;
    ByAttribute(t, p, t);
  }

  // ---------- extended colours ----------

  /** Colour i is the first of the sixteen at least distance from the colour asked for. */
  predicate Nearest(i: nat, r: int, g: int, b: int) {
    i < 16 && forall j :: 0 <= j < 16 ==>
      Distance(i, r, g, b) <= Distance(j, r, g, b) && (j < i ==> Distance(i, r, g, b) < Distance(j, r, g, b))
  }

  function Distance(i: nat, r: int, g: int, b: int): int
    requires i < 16
  {
    (r - PALETTE[i].0) * (r - PALETTE[i].0) + (g - PALETTE[i].1) * (g - PALETTE[i].1)
    + (b - PALETTE[i].2) * (b - PALETTE[i].2)
  }

  lemma NearestIs(r: int, g: int, b: int)
    ensures 0 <= NearestPalette((r, g, b)) && Nearest(NearestPalette((r, g, b)), r, g, b)
  {
    var best := NearestAmong((r, g, b), 16);
    forall j | 0 <= j < 16
      ensures Distance(j, r, g, b) == ColourDistance((r, g, b), PALETTE[j])
    {
      SquareSign(r, PALETTE[j].0);
      SquareSign(g, PALETTE[j].1);
      SquareSign(b, PALETTE[j].2);
    }
  }

  lemma SquareSign(a: int, b: int)
    ensures Square(a - b) == (a - b) * (a - b)
  {
  }

  /** ESC [ 38 ; 2 ; r ; g ; b m and 48: the first of the sixteen colours that is nearest to the one asked for,
      each part at most 255. */
  lemma SelectsTrueColour(t: Terminal, r: nat, g: nat, b: nat) returns (i: nat)
    requires Settled(t) && Parameters([38, 2, r, g, b])
    ensures Nearest(i, Min(r, 255), Min(g, 255), Min(b, 255))
    ensures Leaves(t, Csi([38, 2, r, g, b], 'm'), t.(fg := i)) && Leaves(t, Csi([48, 2, r, g, b], 'm'), t.(bg := i))
  {
    hide ParseParams, Joined, Leaves, Csi, NearestPalette;
    NearestIs(Min(r, 255), Min(g, 255), Min(b, 255));
    i := NearestPalette((Min(r, 255), Min(g, 255), Min(b, 255)));
    assert [38] + [2, r, g, b] == [38, 2, r, g, b] && [48] + [2, r, g, b] == [48, 2, r, g, b];
    TrueColour(r, g, b);
    ByExtended(t, [2, r, g, b], i);
  }

  lemma TrueColour(r: nat, g: nat, b: nat)
    ensures ExtendedColour([2, r, g, b]) == Some((NearestPalette((Min(r, 255), Min(g, 255), Min(b, 255))), 4))
  {
    hide NearestPalette;
  }

  /** An extended colour that takes all the numbers behind it. */
  lemma ByExtended(t: Terminal, rest: seq<nat>, i: nat)
    requires Settled(t) && |rest| <= 5 && Parameters([38] + rest) && ExtendedColour(rest) == Some((i, |rest|))
    ensures Parameters([48] + rest)
    ensures Leaves(t, Csi([38] + rest, 'm'), t.(fg := i)) && Leaves(t, Csi([48] + rest, 'm'), t.(bg := i))
  {
    hide ParseParams, Joined, Leaves, Csi, ExtendedColour, ExecuteCsi;
    forall p | p in [48] + rest
      ensures p <= 0x7FFF_FFFF_FFFF_FFFF
    {
      if p != 48 {
        assert p in [38] + rest;
      }
    }
    ExtendedStep(t, rest, i, true);
    ExtendedStep(t, rest, i, false);
  }

  lemma ExtendedStep(t: Terminal, rest: seq<nat>, i: nat, foreground: bool)
    requires Settled(t) && |rest| <= 5 && ExtendedColour(rest) == Some((i, |rest|))
    requires Parameters([if foreground then 38 else 48] + rest)
    ensures Leaves(t, Csi([if foreground then 38 else 48] + rest, 'm'), if foreground then t.(fg := i) else t.(bg := i))
  {
    hide ParseParams, Joined, Leaves, Csi, ExtendedColour, SgrFrom, ExecuteCsi;
    var ps := [if foreground then 38 else 48] + rest;
    var s := t.(state := 2, csi := Joined(ps));
    SgrExtended(s, ps, i);
    if ParseParams(s.csi) == ps {
      ExecutesAttributes(s, ps);
    }
    ByCsi(t, ps, 'm', if foreground then t.(fg := i) else t.(bg := i));
  }

  lemma SgrExtended(s: Terminal, ps: seq<int>, i: int)
    requires ps != [] && (ps[0] == 38 || ps[0] == 48) && ExtendedColour(ps[1..]) == Some((i, |ps| - 1))
    ensures SgrFrom(s, ps, 0) == if ps[0] == 38 then s.(fg := i) else s.(bg := i)
  {
    hide ExtendedColour;
    assert SgrFrom(if ps[0] == 38 then s.(fg := i) else s.(bg := i), ps, |ps|)
           == if ps[0] == 38 then s.(fg := i) else s.(bg := i);
  }

  /** The six levels of the colour cube. */
  function Level(k: nat): int { if k == 0 then 0 else 55 + 40 * k }

  /** The colours behind the 256 numbers: the sixteen themselves, a cube of six levels, and 24 greys. */
  predicate Indexed(n: nat, r: int, g: int, b: int) {
    if n < 16 then PALETTE[n] == (r, g, b)
    else if n < 232 then
      exists x: nat, y: nat, z: nat {:trigger Level(x), Level(y), Level(z)} ::
        x < 6 && y < 6 && z < 6 && n == 16 + 36 * x + 6 * y + z && (r, g, b) == (Level(x), Level(y), Level(z))
    else n < 256 && r == g == b == 8 + 10 * (n - 232)
  }

  lemma XtermIsIndexed(n: nat)
    requires n < 256
    ensures var c := XtermColour(n); Indexed(n, c.0, c.1, c.2)
  {
    if 16 <= n < 232 {
      CubeColour(n, (n - 16) / 36, (n - 16) / 6 % 6, (n - 16) % 6);
    }
  }

  lemma CubeDigits(k: nat, x: nat, y: nat, z: nat)
    requires k < 216 && x == k / 36 && y == k / 6 % 6 && z == k % 6
    ensures x < 6 && y < 6 && z < 6 && k == 36 * x + 6 * y + z
  {
    var q := k / 6;
    assert k == 6 * q + z && q == 6 * (q / 6) + y;
    assert q / 6 == x;
  }

  lemma CubeLevels(n: nat)
    requires 16 <= n < 232
    ensures (n - 16) / 36 < 6 && (n - 16) / 6 % 6 < 6 && (n - 16) % 6 < 6
    ensures var levels: seq<int> := [0, 95, 135, 175, 215, 255];
      XtermColour(n) == (levels[(n - 16) / 36], levels[(n - 16) / 6 % 6], levels[(n - 16) % 6])
  {
  }

  lemma CubeColour(n: nat, x: nat, y: nat, z: nat)
    requires 16 <= n < 232 && x == (n - 16) / 36 && y == (n - 16) / 6 % 6 && z == (n - 16) % 6
    ensures XtermColour(n) == (Level(x), Level(y), Level(z)) && Indexed(n, Level(x), Level(y), Level(z))
  {
    hide Level, Indexed, XtermColour;
    CubeLevels(n);
    CubeDigits(n - 16, x, y, z);
    LevelsAre(x);
    LevelsAre(y);
    LevelsAre(z);
    CubeIndexed(n, x, y, z);
  }

  lemma CubeIndexed(n: nat, x: nat, y: nat, z: nat)
    requires x < 6 && y < 6 && z < 6 && n == 16 + 36 * x + 6 * y + z
    ensures Indexed(n, Level(x), Level(y), Level(z))
  {
    hide Level;
  }

  lemma LevelsAre(k: nat)
    requires k < 6
    ensures [0, 95, 135, 175, 215, 255][k] == Level(k)
  {
  }

  /** ESC [ 38 ; 5 ; n m and 48: the nearest of the sixteen colours to colour n of 256; numbers above 255 count
      as 255. */
  lemma SelectsIndexed(t: Terminal, n: nat) returns (i: nat, r: int, g: int, b: int)
    requires Settled(t) && n <= 0x7FFF_FFFF_FFFF_FFFF
    ensures Indexed(Min(n, 255), r, g, b) && Nearest(i, r, g, b)
    ensures Leaves(t, Csi([38, 5, n], 'm'), t.(fg := i)) && Leaves(t, Csi([48, 5, n], 'm'), t.(bg := i))
  {
    hide ParseParams, Joined, Leaves, Csi, NearestPalette, XtermColour, Indexed, Nearest;
    var c := XtermColour(Min(n, 255));
    r, g, b := c.0, c.1, c.2;
    XtermIsIndexed(Min(n, 255));
    NearestIs(r, g, b);
    i := NearestPalette(c);
    assert [38] + [5, n] == [38, 5, n] && [48] + [5, n] == [48, 5, n];
    IndexedColour(n);
    ByExtended(t, [5, n], i);
  }

  lemma IndexedColour(n: nat)
    ensures ExtendedColour([5, n]) == Some((NearestPalette(XtermColour(Min(n, 255))), 2))
  {
    hide NearestPalette;
    assert XtermColour(n) == XtermColour(Min(n, 255));
  }

  /** The first sixteen of the 256 are the sixteen colours themselves. */
  lemma SixteenThemselves(n: nat, i: nat)
    requires n < 16 && Nearest(i, PALETTE[n].0, PALETTE[n].1, PALETTE[n].2)
    ensures i == n
  {
    var c := PALETTE[n];
    assert Distance(n, c.0, c.1, c.2) == 0;
    var x, y, z := c.0 - PALETTE[i].0, c.1 - PALETTE[i].1, c.2 - PALETTE[i].2;
    SumOfSquares(x, y, z);
    assert PALETTE[i] == PALETTE[n];
  }

  lemma SumOfSquares(x: int, y: int, z: int)
    requires x * x + y * y + z * z <= 0
    ensures x == 0 && y == 0 && z == 0
  {
  }

  // ---------- several attributes ----------

  lemma {:induction false} SgrAppend(t: Terminal, ps: seq<int>, p: int, index: nat)
    requires index <= |ps| && forall q :: q in ps ==> q != 38 && q != 48
    ensures SgrFrom(t, ps + [p], index) == SgrFrom(SgrFrom(t, ps, index), [p], 0)
    decreases |ps| - index
  {
    hide SgrOne, ExtendedColour;
    if index == |ps| {
      SgrLast(t, ps, p);
    } else {
      assert (ps + [p])[index] == ps[index] && ps[index] in ps;
      SgrAppend(SgrOne(t, ps[index]), ps, p, index + 1);
    }
  }

  /** The last number stands alone. */
  lemma SgrLast(t: Terminal, ps: seq<int>, p: int)
    ensures SgrFrom(t, ps + [p], |ps|) == SgrFrom(t, [p], 0)
  {
    hide SgrOne;
    assert (ps + [p])[|ps|] == p && (ps + [p])[|ps| + 1..] == [] && [p][1..] == [];
    assert ExtendedColour([]) == None;
    var u := if p == 38 || p == 48 then t else SgrOne(t, p);
    assert SgrFrom(u, ps + [p], |ps| + 1) == u == SgrFrom(u, [p], 1);
  }

  /** Numbers in one sequence work as in sequences one after the other, from left to right. */
  lemma AttributesInOrder(t: Terminal, ps: seq<nat>, p: nat)
    requires Settled(t) && ps != [] && Parameters(ps + [p]) && forall q :: q in ps ==> q != 38 && q != 48
    ensures Parameters(ps) && Settled(Write(t, Csi(ps, 'm')))
    ensures Write(t, Csi(ps + [p], 'm')) == Write(Write(t, Csi(ps, 'm')), Csi([p], 'm'))
  {
    hide ParseParams, Joined, Csi, SgrFrom, ExecuteCsi, Write;
    assert p in ps + [p];
    forall q | q in ps
      ensures q <= 0x7FFF_FFFF_FFFF_FFFF
    {
      assert q in ps + [p];
    }
    assert Parameters([p]);
    CsiExecutes(t, ps + [p], 'm');
    CsiExecutes(t, ps, 'm');
    var u := Write(t, Csi(ps, 'm'));
    var s, whole, last := t.(state := 2, csi := Joined(ps)), t.(state := 2, csi := Joined(ps + [p])), [p];
    ExecutesAttributes(s, ps);
    ExecutesAttributes(whole, ps + [p]);
    assert Step(t, u) && u == SgrFrom(s, ps, 0).(state := 0, csi := []);
    CsiExecutes(u, last, 'm');
    ExecutesAttributes(u.(state := 2, csi := Joined(last)), last);
    SgrAppend(t, ps, p, 0);
    SgrIgnoresParser(t, s, ps, 0);
    SgrIgnoresParser(t, whole, ps + [p], 0);
    SgrIgnoresParser(SgrFrom(t, ps, 0), u.(state := 2, csi := Joined(last)), last, 0);
  }

  lemma {:induction false} SgrIgnoresParser(t: Terminal, s: Terminal, ps: seq<int>, index: nat)
    requires index <= |ps| && s.(state := t.state, csi := t.csi) == t
    ensures SgrFrom(s, ps, index).(state := t.state, csi := t.csi) == SgrFrom(t, ps, index)
    decreases |ps| - index
  {
    hide SgrOne, ExtendedColour;
    if index < |ps| {
      if ps[index] == 38 || ps[index] == 48 {
        match ExtendedColour(ps[index + 1..])
        case None => SgrIgnoresParser(t, s, ps, index + 1);
        case Some(c) =>
          if index + 1 + c.1 <= |ps| {
            if ps[index] == 38 {
              SgrIgnoresParser(t.(fg := c.0), s.(fg := c.0), ps, index + 1 + c.1);
            } else {
              SgrIgnoresParser(t.(bg := c.0), s.(bg := c.0), ps, index + 1 + c.1);
            }
          }
      } else {
        SgrFrame(t, ps[index]);
        SgrFrame(s, ps[index]);
        SgrFields(t, s, ps[index]);
        SgrIgnoresParser(SgrOne(t, ps[index]), SgrOne(s, ps[index]), ps, index + 1);
      }
    }
  }
}
