/** Loss and recovery on the display: what the datagrams of a batch draw, and when a replay of a part of
    it restores the screen that a lossless delivery would have drawn. */
module Recovery {
  import opened Geometry
  import opened Operations
  import opened Tiling
  import opened Encoder
  import opened Packing
  import opened Transport
  import opened History

  // ---------- the operations inside a datagram stream ----------

  /** Cuts a byte stream into operations; None if it is not a whole number of them. */
  function Split(stream: Bytes): Option<seq<Bytes>>
    decreases |stream|
  {
    if stream == [] then Some([])
    else if |stream| < 12 || AnnouncedLength(stream) > |stream| then None
    else
      match Split(stream[AnnouncedLength(stream)..])
      case None => None
      case Some(rest) => Some([stream[..AnnouncedLength(stream)]] + rest)
  }

  lemma AnnouncedPrefix(b: Bytes, rest: Bytes)
    requires |b| >= 12
    ensures AnnouncedLength(b + rest) == AnnouncedLength(b)
  {
    assert U16(b + rest, 8) == U16(b, 8) && U16(b + rest, 10) == U16(b, 10);
  }

  /** Concatenated operations are recovered one by one. */
  lemma {:induction false} SplitJoin(ops: seq<Bytes>)
    requires forall op :: op in ops ==> SelfDelimiting(op)
    ensures Split(Join(ops)) == Some(ops)
    decreases |ops|
  {
    hide AnnouncedLength;
    if ops != [] {
      var op, rest := ops[0], Join(ops[1..]);
      assert op in ops;
      JoinFront(ops);
      AnnouncedPrefix(op, rest);
      SplitJoin(ops[1..]);
      assert (op + rest)[..|op|] == op && (op + rest)[|op|..] == rest;
      assert ops == [op] + ops[1..];
    }
  }

  // ---------- what a list of operations does, traced pixel by pixel ----------

  ghost predicate SameScreen(a: Screen, b: Screen) {
    forall x, y :: a(x, y) == b(x, y)
  }

  /** Where a pixel's colour comes from: the screen before the operations, or one of them. */
  datatype Trace = FromScreen(x: int, y: int) | Painted(colour: Rgb)

  function TraceOf(ops: seq<Operation>, x: int, y: int): Trace
    decreases |ops|
  {
    if ops == [] then FromScreen(x, y)
    else
      var init, b := ops[..|ops| - 1], ops[|ops| - 1].bytes;
      if IsPaint(b) && Target(b).Contains(x, y) then Painted(PaintColour(b, x, y))
      else if IsCopy(b) && Target(b).Contains(x, y) then
        TraceOf(init, x - Target(b).minX + U16(b, 12), y - Target(b).minY + U16(b, 14))
      else TraceOf(init, x, y)
  }

  function Seen(t: Trace, s: Screen): Rgb {
    match t case FromScreen(x, y) => s(x, y) case Painted(c) => c
  }

  /** Drawing shows each pixel's trace. */
  lemma {:induction false} TraceApplied(ops: seq<Operation>, s: Screen, x: int, y: int)
    ensures ApplyAll(ops, s)(x, y) == Seen(TraceOf(ops, x, y), s)
    decreases |ops|
  {
    hide IsPaint, IsCopy, Target, PaintColour, U16;
    if ops == [] {
      NoOperations(s);
    } else {
      hide ApplyAll;
      var init, last := ops[..|ops| - 1], ops[|ops| - 1];
      assert ops == init + [last];
      ApplyAllConcat(init, [last], s);
      SingleOperation(last, ApplyAll(init, s));
      TraceApplied(init, s, x, y);
      var b := last.bytes;
      if !IsPaint(b) && IsCopy(b) && Target(b).Contains(x, y) {
        TraceApplied(init, s, x - Target(b).minX + U16(b, 12), y - Target(b).minY + U16(b, 14));
      }
    }
  }

  /** The trace through operations drawn before. */
  function Onward(before: seq<Operation>, t: Trace): Trace {
    match t case FromScreen(x, y) => TraceOf(before, x, y) case Painted(_) => t
  }

  lemma {:induction false} TraceConcat(a: seq<Operation>, b: seq<Operation>, x: int, y: int)
    ensures TraceOf(a + b, x, y) == Onward(a, TraceOf(b, x, y))
    decreases |b|
  {
    hide IsPaint, IsCopy, Target, PaintColour, U16;
    if b == [] {
      assert a + b == a;
    } else {
      var init, last := b[..|b| - 1], b[|b| - 1].bytes;
      assert (a + b)[..|a + b| - 1] == a + init;
      TraceConcat(a, init, x, y);
      TraceConcat(a, init, x - Target(last).minX + U16(last, 12), y - Target(last).minY + U16(last, 14));
    }
  }

  /** The two lists draw the same on every screen. */
  ghost predicate SameEffect(a: seq<Operation>, b: seq<Operation>) {
    forall s: Screen :: SameScreen(ApplyAll(a, s), ApplyAll(b, s))
  }

  ghost predicate SameTraces(a: seq<Operation>, b: seq<Operation>) {
    forall x, y :: TraceOf(a, x, y) == TraceOf(b, x, y)
  }

  /** Two different traces are told apart by some screen. */
  lemma TracesDiffer(t: Trace, u: Trace) returns (s: Screen)
    requires t != u
    ensures Seen(t, s) != Seen(u, s)
  {
    var white, black := Rgb(255, 255, 255), Rgb(0, 0, 0);
    match (t, u)
    case (FromScreen(x, y), FromScreen(_, _)) => s := (i, j) => if i == x && j == y then white else black;
    case (FromScreen(_, _), Painted(c)) => s := (_, _) => if c == white then black else white;
    case (Painted(c), FromScreen(_, _)) => s := (_, _) => if c == white then black else white;
    case (Painted(_), Painted(_)) => s := (_, _) => white;
  }

  /** Two lists draw the same on every screen exactly when their traces agree. */
  lemma SameTracesExact(a: seq<Operation>, b: seq<Operation>)
    ensures SameTraces(a, b) <==> SameEffect(a, b)
  {
    hide ApplyAll, TraceOf;
    if SameTraces(a, b) {
      forall s: Screen, x, y
        ensures ApplyAll(a, s)(x, y) == ApplyAll(b, s)(x, y)
      {
        TraceApplied(a, s, x, y);
        TraceApplied(b, s, x, y);
      }
    } else {
      var x, y :| TraceOf(a, x, y) != TraceOf(b, x, y);
      var s := TracesDiffer(TraceOf(a, x, y), TraceOf(b, x, y));
      TraceApplied(a, s, x, y);
      TraceApplied(b, s, x, y);
      assert !SameScreen(ApplyAll(a, s), ApplyAll(b, s));
    }
  }

  // ---------- numbering ----------

  /** Equal but for the sequence number. */
  predicate Renumbered(a: Bytes, b: Bytes) {
    |a| == |b| >= 12 && a[..2] == b[..2] && a[4..] == b[4..]
  }

  lemma RenumberedByte(a: Bytes, b: Bytes, i: int)
    requires Renumbered(a, b) && i != 2 && i != 3
    ensures At(a, i) == At(b, i)
  {
    if 0 <= i < 2 {
      assert a[..2][i] == b[..2][i];
    } else if 4 <= i < |a| {
      assert a[4..][i - 4] == b[4..][i - 4];
    }
  }

  lemma RenumberedBytes(a: Bytes, b: Bytes)
    requires Renumbered(a, b)
    ensures a[0] == b[0] && forall i: int :: i >= 4 ==> At(a, i) == At(b, i)
  {
    RenumberedByte(a, b, 0);
    forall i: int | i >= 4
      ensures At(a, i) == At(b, i)
    {
      RenumberedByte(a, b, i);
    }
  }

  lemma RenumberedHeader(a: Bytes, b: Bytes)
    requires Renumbered(a, b)
    ensures a[0] == b[0] && Target(a) == Target(b) && PlaneStride(a) == PlaneStride(b)
    ensures U16(a, 8) == U16(b, 8) && U16(a, 10) == U16(b, 10) && U16(a, 12) == U16(b, 12) && U16(a, 14) == U16(b, 14)
  {
    RenumberedBytes(a, b);
  }

  lemma RenumberedKind(a: Bytes, b: Bytes)
    requires Renumbered(a, b)
    ensures IsPaint(a) == IsPaint(b) && IsCopy(a) == IsCopy(b) && SelfDelimiting(a) == SelfDelimiting(b)
  {
    RenumberedHeader(a, b);
    hide Rows, Round4, U16, PlaneStride;
  }

  lemma RenumberedColour(a: Bytes, b: Bytes, x: int, y: int)
    requires Renumbered(a, b) && IsPaint(a) && IsPaint(b) && Target(b).Contains(x, y)
    ensures PaintColour(a, x, y) == PaintColour(b, x, y)
  {
    RenumberedHeader(a, b);
    RenumberedBytes(a, b);
    RowsMono(0, y - Target(b).minY, PlaneStride(b));
    RowsMono(0, y - Target(b).minY, Round4(3 * U16(b, 8)));
    hide Target, U16, Round4, PlaneStride, Renumbered;
  }

  /** The operations some byte strings stand for. */
  function Decoded(bytes: seq<Bytes>): seq<Operation> {
    seq(|bytes|, i requires 0 <= i < |bytes| => Operation(bytes[i], true))
  }

  ghost predicate AllRenumbered(coded: seq<Bytes>, ops: seq<Operation>) {
    |coded| == |ops| && forall i :: 0 <= i < |ops| ==> Renumbered(coded[i], ops[i].bytes)
  }

  /** Giving operations their sequence numbers does not change what they draw. */
  lemma {:induction false} NumberingDrawsSame(coded: seq<Bytes>, ops: seq<Operation>, x: int, y: int)
    requires AllRenumbered(coded, ops)
    ensures TraceOf(Decoded(coded), x, y) == TraceOf(ops, x, y)
    decreases |ops|
  {
    hide Renumbered, IsPaint, IsCopy, Target, PaintColour, U16;
    if ops != [] {
      var n := |ops| - 1;
      var a, b := coded[n], ops[n].bytes;
      assert Decoded(coded)[..n] == Decoded(coded[..n]);
      RenumberedHeader(a, b);
      RenumberedKind(a, b);
      if IsPaint(b) && Target(b).Contains(x, y) {
        RenumberedColour(a, b, x, y);
      }
      NumberingDrawsSame(coded[..n], ops[..n], x, y);
      NumberingDrawsSame(coded[..n], ops[..n], x - Target(b).minX + U16(b, 12), y - Target(b).minY + U16(b, 14));
    }
  }

  lemma {:induction false} EncodeRenumbers(s: State, ops: seq<Operation>)
    requires Headed(ops)
    ensures AllRenumbered(Encode(s, ops), ops)
    decreases |ops|
  {
    hide WithSequence, Record;
    if ops != [] {
      EncodeRenumbers(s, ops[..|ops| - 1]);
    }
  }

  // ---------- drawing some operations twice ----------

  predicate Touches(op: Operation, x: int, y: int) {
    (IsPaint(op.bytes) || IsCopy(op.bytes)) && Target(op.bytes).Contains(x, y)
  }

  /** The pixels a copy reads. */
  function SourceOf(b: Bytes): Rect {
    Target(b).Add(U16(b, 12) - U16(b, 4), U16(b, 14) - U16(b, 6))
  }

  /** No copy of the batch reads a pixel that the batch writes. */
  ghost predicate Independent(ops: seq<Operation>) {
    forall op, other, x, y {:trigger op in ops, Touches(other, x, y)} ::
      op in ops && other in ops && IsCopy(op.bytes) && SourceOf(op.bytes).Contains(x, y) ==> !Touches(other, x, y)
  }

  ghost predicate Untouched(ops: seq<Operation>, x: int, y: int) {
    forall op :: op in ops ==> !Touches(op, x, y)
  }

  /** Every operation of the part belongs to the batch. */
  ghost predicate PartOf(part: seq<Operation>, all: seq<Operation>) {
    forall op :: op in part ==> op in all
  }

  /** A part of an independent batch takes nothing from the pixels that the batch writes. */
  lemma {:induction false} PartTrace(part: seq<Operation>, all: seq<Operation>, x: int, y: int)
    requires Independent(all) && PartOf(part, all)
    ensures var t := TraceOf(part, x, y);
      if Untouched(part, x, y) then t == FromScreen(x, y) else t.Painted? || Untouched(all, t.x, t.y)
    decreases |part|
  {
    if part != [] {
      var init, last := part[..|part| - 1], part[|part| - 1];
      assert last in part;
      var b := last.bytes;
      if IsCopy(b) && Target(b).Contains(x, y) {
        CopySourceUntouched(last, all, x, y);
        hide Touches, IsPaint, IsCopy, Target, PaintColour, U16, Independent;
        PartTrace(init, all, x - Target(b).minX + U16(b, 12), y - Target(b).minY + U16(b, 14));
      } else {
        hide IsPaint, IsCopy, Target, PaintColour, U16, Independent;
        PartTrace(init, all, x, y);
      }
    }
  }

  lemma CopySourceUntouched(op: Operation, all: seq<Operation>, x: int, y: int)
    requires Independent(all) && op in all && IsCopy(op.bytes) && Target(op.bytes).Contains(x, y)
    ensures !IsPaint(op.bytes)
    ensures Untouched(all, x - Target(op.bytes).minX + U16(op.bytes, 12), y - Target(op.bytes).minY + U16(op.bytes, 14))
  {
    hide WellFormed, PaintColour;
    var t := Target(op.bytes);
    assert SourceOf(op.bytes).Contains(x - t.minX + U16(op.bytes, 12), y - t.minY + U16(op.bytes, 14));
  }

  /** A pixel that the part writes does not depend on what was drawn before, any other only on that. */
  lemma Settled(before: seq<Operation>, part: seq<Operation>, all: seq<Operation>, x: int, y: int)
    requires Independent(all) && PartOf(before, all) && PartOf(part, all)
    ensures TraceOf(before + part, x, y) == if Untouched(part, x, y) then TraceOf(before, x, y) else TraceOf(part, x, y)
  {
    hide TraceOf, Touches, Independent;
    TraceConcat(before, part, x, y);
    PartTrace(part, all, x, y);
    var t := TraceOf(part, x, y);
    if t.FromScreen? && !Untouched(part, x, y) {
      PartTrace(before, all, t.x, t.y);
    }
  }

  /** Whatever operations of the batch were drawn before, in whatever order and number, drawing the
      whole batch leaves the screen that the batch alone would have left. */
  lemma RedrawRestores(all: seq<Operation>, drawn: seq<Operation>, screen: Screen)
    requires Independent(all) && PartOf(drawn, all)
    ensures SameScreen(ApplyAll(drawn + all, screen), ApplyAll(all, screen))
  {
    hide TraceOf, Touches, Independent, ApplyAll;
    forall x, y
      ensures TraceOf(drawn + all, x, y) == TraceOf(all, x, y)
    {
      Settled(drawn, all, all, x, y);
      PartTrace(all, all, x, y);
      PartTrace(drawn, all, x, y);
    }
    SameTracesExact(drawn + all, all);
  }

  // ---------- drawing a part of the batch late ----------

  /** On every pixel that ops[i..j] and a later operation both write, both leave the same. */
  ghost predicate LaterAgrees(ops: seq<Operation>, i: nat, j: nat)
    requires i <= j <= |ops|
  {
    forall x, y :: !Untouched(ops[i..j], x, y) && !Untouched(ops[j..], x, y) ==>
      TraceOf(ops[i..j], x, y) == TraceOf(ops[j..], x, y)
  }

  /** No pixel is written both by ops[i..j] and by a later operation. */
  ghost predicate LaterApart(ops: seq<Operation>, i: nat, j: nat)
    requires i <= j <= |ops|
  {
    forall x, y :: Untouched(ops[i..j], x, y) || Untouched(ops[j..], x, y)
  }

  lemma Pieces(ops: seq<Operation>, i: nat, j: nat)
    requires i <= j <= |ops|
    ensures ops == ops[..i] + ops[i..j] + ops[j..]
    ensures PartOf(ops[..i], ops) && PartOf(ops[i..j], ops) && PartOf(ops[j..], ops)
  {
  }

  /** A pixel's trace when ops[i..j] comes last and when it comes in its place. */
  lemma LateTrace(ops: seq<Operation>, i: nat, j: nat, part: seq<Operation>, x: int, y: int)
    requires Independent(ops) && i <= j <= |ops| && PartOf(part, ops[i..j])
    ensures TraceOf(ops[..i] + part + ops[j..] + ops[i..j], x, y) == TraceOf(ops, x, y)
            <==> (!Untouched(ops[i..j], x, y) && !Untouched(ops[j..], x, y) ==>
                    TraceOf(ops[i..j], x, y) == TraceOf(ops[j..], x, y))
  {
    hide TraceOf, Touches, Independent;
    var pre, range, later := ops[..i], ops[i..j], ops[j..];
    Pieces(ops, i, j);
    Settled(pre + part + later, range, ops, x, y);
    Settled(pre + part, later, ops, x, y);
    Settled(pre, part, ops, x, y);
    Settled(pre + range, later, ops, x, y);
    Settled(pre, range, ops, x, y);
  }

  /** The exact condition: with some of ops[i..j] lost, drawing ops[i..j] after everything else gives the
      screen of the batch, whatever it was before, if and only if later operations agree with them. */
  lemma LateExact(ops: seq<Operation>, i: nat, j: nat, part: seq<Operation>)
    requires Independent(ops) && i <= j <= |ops| && PartOf(part, ops[i..j])
    ensures SameTraces(ops[..i] + part + ops[j..] + ops[i..j], ops) <==> LaterAgrees(ops, i, j)
  {
    hide TraceOf, Touches, Independent;
    forall x, y
      ensures TraceOf(ops[..i] + part + ops[j..] + ops[i..j], x, y) == TraceOf(ops, x, y)
              <==> (!Untouched(ops[i..j], x, y) && !Untouched(ops[j..], x, y) ==>
                      TraceOf(ops[i..j], x, y) == TraceOf(ops[j..], x, y))
    {
      LateTrace(ops, i, j, part, x, y);
    }
  }

  /** An operation that fills the pixel (0, 0). */
  function FillOrigin(colour: Rgb): Operation {
    Operation([OP_FILL, 0, 0, 0, 0, 0, 0, 0, 0, 1, 0, 1, 255, colour.b, colour.g, colour.r], true)
  }

  /** The condition is needed: red and then blue on one pixel, with the red operation lost and replayed
      after the blue one, leaves red. */
  lemma LateReplayOverpaints(screen: Screen) returns (ops: seq<Operation>)
    ensures ops == [FillOrigin(Rgb(255, 0, 0)), FillOrigin(Rgb(0, 0, 255))]
    ensures Independent(ops) && (forall op :: op in ops ==> Transmittable(op)) && !LaterAgrees(ops, 0, 1)
    ensures ApplyAll(ops, screen)(0, 0) == Rgb(0, 0, 255)
    ensures ApplyAll([ops[1]] + ops[0..1], screen)(0, 0) == Rgb(255, 0, 0)
  {
    var red, blue := FillOrigin(Rgb(255, 0, 0)), FillOrigin(Rgb(0, 0, 255));
    ops := [red, blue];
    FillOriginFacts(Rgb(255, 0, 0));
    FillOriginFacts(Rgb(0, 0, 255));
    hide FillOrigin, Target, PaintColour, WellFormed, ApplyAll, TraceOf;
    assert [red, blue] == [red] + [blue] && [blue] + [red] == [ops[1]] + ops[0..1];
    LastPaints([red], blue);
    LastPaints([blue], red);
    LastPaints([], red);
    LastPaints([], blue);
    assert [] + [red] == [red] == ops[0..1] && [] + [blue] == [blue] == ops[1..];
    hide Independent, LaterAgrees, Transmittable, IsCopy, IsPaint;
    TraceApplied([red] + [blue], screen, 0, 0);
    TraceApplied([blue] + [red], screen, 0, 0);
    PaintsIndependent(red, blue);
    SecondDisagrees(red, blue);
  }

  lemma PaintsIndependent(a: Operation, b: Operation)
    requires !IsCopy(a.bytes) && !IsCopy(b.bytes)
    ensures Independent([a, b])
  {
  }

  lemma SecondDisagrees(a: Operation, b: Operation)
    requires Touches(a, 0, 0) && Touches(b, 0, 0) && TraceOf([a], 0, 0) != TraceOf([b], 0, 0)
    ensures !LaterAgrees([a, b], 0, 1)
  {
    hide TraceOf, Touches;
    var ops := [a, b];
    assert ops[0..1] == [a] && ops[1..] == [b] && a in ops[0..1] && b in ops[1..];
  }

  lemma FillOriginFacts(colour: Rgb)
    ensures var b := FillOrigin(colour).bytes;
      && Transmittable(FillOrigin(colour)) && IsPaint(b) && !IsCopy(b) && Target(b) == Rect(0, 0, 1, 1)
      && PaintColour(b, 0, 0) == colour
  {
  }

  lemma LastPaints(before: seq<Operation>, op: Operation)
    requires IsPaint(op.bytes) && Target(op.bytes).Contains(0, 0)
    ensures TraceOf(before + [op], 0, 0) == Painted(PaintColour(op.bytes, 0, 0))
  {
    assert (before + [op])[..|before|] == before;
  }

  lemma {:induction false} StrokeOfTouch(ops: seq<Operation>, k: nat, x: int, y: int)
    requires k < |ops| && Touches(ops[k], x, y) && IsPaint(ops[k].bytes)
    ensures |Strokes(ops, x, y)| > |Strokes(ops[..k], x, y)|
    decreases |ops|
  {
    hide IsPaint, Target, PaintColour, IsCopy;
    if k < |ops| - 1 {
      StrokeOfTouch(ops[..|ops| - 1], k, x, y);
      assert ops[..|ops| - 1][..k] == ops[..k];
    }
  }

  /** Operations that paint every pixel once are independent, and any range of them is apart from what follows. */
  lemma PaintedOnce(ops: seq<Operation>, region: Rect, colour: Screen, i: nat, j: nat)
    requires Paints(ops, region, colour) && i <= j <= |ops|
    ensures Independent(ops) && LaterApart(ops, i, j)
  {
    hide Strokes, Target, PaintColour, WellFormed, SelfDelimiting;
    forall x, y
      ensures Untouched(ops[i..j], x, y) || Untouched(ops[j..], x, y)
    {
      if !Untouched(ops[i..j], x, y) && !Untouched(ops[j..], x, y) {
        var a := TouchAt(ops[i..j], x, y);
        var b := TouchAt(ops[j..], x, y);
        TwoStrokes(ops, i + a, j + b, x, y);
      }
    }
  }

  lemma TouchAt(ops: seq<Operation>, x: int, y: int) returns (k: nat)
    requires !Untouched(ops, x, y)
    ensures k < |ops| && Touches(ops[k], x, y)
  {
    var op :| op in ops && Touches(op, x, y);
    k :| k < |ops| && ops[k] == op;
  }

  lemma TwoStrokes(ops: seq<Operation>, a: nat, b: nat, x: int, y: int)
    requires a < b < |ops| && Touches(ops[a], x, y) && Touches(ops[b], x, y)
    requires IsPaint(ops[a].bytes) && IsPaint(ops[b].bytes)
    ensures |Strokes(ops, x, y)| >= 2
  {
    hide Strokes, Touches, IsPaint;
    StrokeOfTouch(ops, b, x, y);
    StrokeOfTouch(ops[..b], a, x, y);
  }

  /** Independence matters: a copy can be drawn twice without harm exactly when it moves nothing or reads
      no pixel that it writes. */
  lemma CopyTwiceExact(op: Operation)
    requires IsCopy(op.bytes)
    ensures SameEffect([op, op], [op]) <==> SourceOf(op.bytes) == Target(op.bytes) || Independent([op])
  {
    hide SameEffect, Independent, SourceOf, Target, IsCopy;
    if SourceOf(op.bytes) == Target(op.bytes) {
      StillCopyTwice(op);
    } else if Independent([op]) {
      IndependentTwice(op);
    } else {
      OverlappingTwice(op);
    }
  }

  lemma StillCopyTwice(op: Operation)
    requires IsCopy(op.bytes) && SourceOf(op.bytes) == Target(op.bytes)
    ensures SameEffect([op, op], [op])
  {
    hide ApplyAll, WellFormed, U16;
    forall s: Screen
      ensures SameScreen(ApplyAll([op, op], s), ApplyAll([op], s))
    {
      TwiceApplied(op, s);
    }
  }

  lemma IndependentTwice(op: Operation)
    requires Independent([op])
    ensures SameEffect([op, op], [op])
  {
    hide ApplyAll, Independent, SameScreen;
    forall s: Screen
      ensures SameScreen(ApplyAll([op, op], s), ApplyAll([op], s))
    {
      assert [op] + [op] == [op, op];
      RedrawRestores([op], [op], s);
    }
  }

  lemma OverlappingTwice(op: Operation)
    requires IsCopy(op.bytes) && SourceOf(op.bytes) != Target(op.bytes) && !Independent([op])
    ensures !SameEffect([op, op], [op])
  {
    hide ApplyAll, WellFormed, U16, SourceOf, Target;
    var x, y := ReadAndWritten(op);
    var s := CopyTwiceDiffers(op, x, y);
    assert !SameScreen(ApplyAll([op, op], s), ApplyAll([op], s));
  }

  lemma ReadAndWritten(op: Operation) returns (x: int, y: int)
    requires !Independent([op])
    ensures SourceOf(op.bytes).Contains(x, y) && Touches(op, x, y)
  {
    hide Touches, IsCopy, SourceOf;
    assert forall o :: o in [op] ==> o == op;
    var o, other, a, b :|
      o in [op] && other in [op] && IsCopy(o.bytes) && SourceOf(o.bytes).Contains(a, b) && Touches(other, a, b);
    x, y := a, b;
  }

  lemma TwiceApplied(op: Operation, s: Screen)
    ensures ApplyAll([op, op], s) == Apply(op, Apply(op, s)) && ApplyAll([op], s) == Apply(op, s)
  {
    assert [op] + [op] == [op, op];
    ApplyAllConcat([op], [op], s);
    SingleOperation(op, s);
    SingleOperation(op, Apply(op, s));
  }

  /** A screen on which the second copy of (x, y) carries a third pixel along. */
  lemma CopyTwiceDiffers(op: Operation, x: int, y: int) returns (s: Screen)
    requires IsCopy(op.bytes) && SourceOf(op.bytes) != Target(op.bytes)
    requires SourceOf(op.bytes).Contains(x, y) && Touches(op, x, y)
    ensures !SameScreen(ApplyAll([op, op], s), ApplyAll([op], s))
  {
    var dx, dy := U16(op.bytes, 12) - U16(op.bytes, 4), U16(op.bytes, 14) - U16(op.bytes, 6);
    assert dx != 0 || dy != 0;
    s := (i: int, j: int) => if i == x && j == y then Rgb(255, 0, 0) else Rgb(0, 0, 0);
    hide WellFormed, U16;
    TwiceApplied(op, s);
    assert Target(op.bytes).Contains(x - dx, y - dy);
    assert Apply(op, s)(x - dx, y - dy) == s(x, y);
    assert Apply(op, Apply(op, s))(x - dx, y - dy) == Apply(op, s)(x, y) == s(x + dx, y + dy);
  }

  // ---------- batches ----------

  /** Operations that fit their datagrams and can be cut out of a stream. */
  ghost predicate Ready(ops: seq<Operation>) {
    Travels(ops) && forall op :: op in ops ==> SelfDelimiting(op.bytes)
  }

  lemma TransmittableReady(ops: seq<Operation>)
    requires forall op :: op in ops ==> Transmittable(op)
    ensures Ready(ops)
  {
    hide AnnouncedLength;
  }

  lemma EncodedDelimited(s: State, ops: seq<Operation>)
    requires Ready(ops)
    ensures forall b :: b in Encode(s, ops) ==> SelfDelimiting(b)
  {
    EncodeRenumbers(s, ops);
    hide Encode, SelfDelimiting, Renumbered, Record;
    forall b | b in Encode(s, ops)
      ensures SelfDelimiting(b)
    {
      var i :| 0 <= i < |Encode(s, ops)| && Encode(s, ops)[i] == b;
      assert ops[i] in ops;
      RenumberedKind(b, ops[i].bytes);
    }
  }

  /** What a terminal draws from the packets of `sent` from the given one on. */
  ghost function DrawnFrom(sent: seq<Bytes>, from: nat): Option<seq<Operation>>
    requires from <= |sent|
  {
    match Split(Carried(sent, from))
    case None => None
    case Some(operations) => Some(Decoded(operations))
  }

  /** The packets from the given one on are understood, and draw on every screen what the operations do. */
  ghost predicate Draws(sent: seq<Bytes>, from: nat, ops: seq<Operation>) {
    from <= |sent| && DrawnFrom(sent, from).Some? && SameTraces(DrawnFrom(sent, from).value, ops)
  }

  lemma CodedDraws(sent: seq<Bytes>, from: nat, s: State, ops: seq<Operation>)
    requires Ready(ops) && from <= |sent| && Carried(sent, from) == Join(Encode(s, ops))
    ensures Draws(sent, from, ops)
  {
    hide Carried, TraceOf, Encode, SelfDelimiting;
    EncodedDelimited(s, ops);
    SplitJoin(Encode(s, ops));
    EncodeRenumbers(s, ops);
    forall x, y
      ensures TraceOf(Decoded(Encode(s, ops)), x, y) == TraceOf(ops, x, y)
    {
      NumberingDrawsSame(Encode(s, ops), ops, x, y);
    }
  }

  /** The datagrams of a batch are understood: cut into operations and drawn, they have exactly the
      effect of the batch. */
  lemma BatchDraws(s: State, ops: seq<Operation>)
    requires HistoryOk(s) && !s.closed && Ready(ops) && Headroom(s.opSeq + |ops|)
    ensures var (t, ok) := SendBatchSpec(s, ops);
      ok && HistoryOk(t) && !t.closed && s.sent <= t.sent && t.opSeq == s.opSeq + Increments(ops)
      && Draws(t.sent, |s.sent|, ops)
  {
    hide HistoryOk, Record, Encode, PackFrom, SendPackets, Carried, Draws, SendBatchSpec, SelfDelimiting;
    RecordKeeps(s, ops, None);
    PackFromIsPacking([], Encode(s, ops));
    assert [] + Encode(s, ops) == Encode(s, ops);
    SendBatchDelivers(s, ops, PackFrom([], Encode(s, ops)));
    SendBatchOpen(s, ops);
    CodedDraws(SendBatchSpec(s, ops).0.sent, |s.sent|, s, ops);
  }

  lemma SendBatchOpen(s: State, ops: seq<Operation>)
    requires HistoryOk(s) && Travels(ops) && Headroom(s.opSeq + |ops|)
    ensures SendBatchSpec(s, ops).0.closed == s.closed
  {
    hide HistoryOk, Record, Encode, PackFrom, SendPackets, FirstOversized, Payloads;
    NoneOversized(ops);
    assert ops[..|ops|] == ops;
    RecordKeeps(s, ops, None);
    SendPacketsFrame(Record(s, ops), Payloads(PackFrom([], Encode(s, ops))));
  }

  /** From image to pixels: what the encoder paints is what the terminal shows after the datagrams of
      its operations were cut, decoded and drawn, and nothing else changes. */
  lemma PaintingArrives(s: State, ops: seq<Operation>, region: Rect, colour: Screen, screen: Screen)
    requires HistoryOk(s) && !s.closed && Paints(ops, region, colour) && Headroom(s.opSeq + |ops|)
    ensures var (t, ok) := SendBatchSpec(s, ops);
      && ok && |s.sent| <= |t.sent| && DrawnFrom(t.sent, |s.sent|).Some?
      && forall x, y :: ApplyAll(DrawnFrom(t.sent, |s.sent|).value, screen)(x, y)
                        == if region.Contains(x, y) then colour(x, y) else screen(x, y)
  {
    PaintsTransmittable(ops, region, colour);
    TransmittableReady(ops);
    hide HistoryOk, Paints, Headroom, DrawnFrom, ApplyAll, SendBatchSpec, Encode, Ready;
    BatchDraws(s, ops);
    PaintsShows(ops, region, colour, screen);
    DrawnScreen(SendBatchSpec(s, ops).0.sent, |s.sent|, ops, screen);
  }

  lemma DrawnScreen(sent: seq<Bytes>, from: nat, ops: seq<Operation>, screen: Screen)
    requires Draws(sent, from, ops)
    ensures SameScreen(ApplyAll(DrawnFrom(sent, from).value, screen), ApplyAll(ops, screen))
  {
    hide DrawnFrom, ApplyAll, TraceOf;
    SameTracesExact(DrawnFrom(sent, from).value, ops);
  }

  // ---------- recovery ----------

  lemma {:induction false} AllIncrement(s: State, ops: seq<Operation>)
    requires HistoryOk(s) && Travels(ops) && (forall op :: op in ops ==> op.increment) && Headroom(s.opSeq + |ops|)
    ensures HistoryOk(Record(s, ops)) && Record(s, ops).opSeq == s.opSeq + |ops| && Increments(ops) == |ops|
    ensures |Record(s, ops).history| >= Min(|ops|, 8192)
    decreases |ops|
  {
    hide HistoryOk, RecordOne, WithSequence;
    if ops != [] {
      assert ops[|ops| - 1] in ops;
      AllIncrement(s, ops[..|ops| - 1]);
      RecordOneKeeps(Record(s, ops[..|ops| - 1]), ops[|ops| - 1]);
    }
  }

  lemma HistoryReaches(s: State, k: nat)
    requires HistoryOk(s)
    ensures k in s.history <==> s.opSeq - |s.history| < k <= s.opSeq
  {
  }

  /** Every operation of a batch that numbers and is still remembered stands in the history under its
      number, as it was sent. */
  lemma BatchRemembered(s: State, ops: seq<Operation>, i: nat)
    requires HistoryOk(s) && Travels(ops) && Headroom(s.opSeq + |ops|) && i < |ops| && ops[i].increment
    ensures var k := s.opSeq + Increments(ops[..i + 1]);
      k > s.opSeq && (k in Record(s, ops).history ==> Record(s, ops).history[k] == Encode(s, ops)[i])
  {
    hide HistoryOk, Record, Encode, Issues, Travels;
    RecordKeeps(s, ops, None);
    IssuedAsSent(s, ops, None, i);
  }

  /** The history entries of ops[i..j], for a batch in which every operation numbers. */
  lemma RangeEntries(s: State, ops: seq<Operation>, i: nat, j: nat)
    requires HistoryOk(s) && Travels(ops) && (forall op :: op in ops ==> op.increment) && Headroom(s.opSeq + |ops|)
    requires i <= j <= |ops| <= i + 8192
    ensures var t, first := Record(s, ops), s.opSeq + 1 + i;
      && (forall k: nat :: first <= k <= s.opSeq + j ==> k in t.history)
      && Entries(t.history, first, s.opSeq + j) == Encode(s, ops)[i..j]
  {
    hide HistoryOk, Record, Encode, Entries, Headroom, Travels, HoldsFrom;
    TravelsInit(ops);
    AllIncrement(s, ops);
    NewestPresent(Record(s, ops), s.opSeq + 1 + i);
    AllRemembered(s, ops);
    EntriesAre(Record(s, ops).history, s.opSeq + 1, Encode(s, ops), i, j);
  }

  /** What the history holds of the numbers from `base` on is the coded operations in order. */
  ghost predicate HoldsFrom(history: map<nat, Bytes>, base: nat, coded: seq<Bytes>) {
    forall k: nat :: base <= k < base + |coded| && k in history ==> history[k] == coded[k - base]
  }

  lemma AllRemembered(s: State, ops: seq<Operation>)
    requires HistoryOk(s) && Travels(ops) && (forall op :: op in ops ==> op.increment) && Headroom(s.opSeq + |ops|)
    ensures HoldsFrom(Record(s, ops).history, s.opSeq + 1, Encode(s, ops))
  {
    hide HistoryOk, Record, Encode, Headroom, Travels;
    TravelsInit(ops);
    var h, base, coded := Record(s, ops).history, s.opSeq + 1, Encode(s, ops);
    forall k: nat | base <= k < base + |ops| && k in h
      ensures h[k] == coded[k - base]
    {
      RememberedAt(s, ops, k - base);
    }
  }

  lemma RememberedAt(s: State, ops: seq<Operation>, i: nat)
    requires HistoryOk(s) && Travels(ops) && (forall op :: op in ops ==> op.increment) && Headroom(s.opSeq + |ops|)
    requires i < |ops|
    ensures var k := s.opSeq + 1 + i;
      k in Record(s, ops).history ==> Record(s, ops).history[k] == Encode(s, ops)[i]
  {
    hide HistoryOk, Record, Encode, Headroom;
    BatchRemembered(s, ops, i);
    AllCount(ops[..i + 1]);
  }

  lemma {:induction false} AllCount(ops: seq<Operation>)
    requires forall op :: op in ops ==> op.increment
    ensures Increments(ops) == |ops|
    decreases |ops|
  {
    if ops != [] {
      AllCount(ops[..|ops| - 1]);
    }
  }

  lemma NewestPresent(t: State, first: nat)
    requires HistoryOk(t) && first + |t.history| > t.opSeq
    ensures forall k: nat :: first <= k <= t.opSeq ==> k in t.history
  {
  }

  lemma EntriesAre(history: map<nat, Bytes>, base: nat, coded: seq<Bytes>, i: nat, j: nat)
    requires i <= j <= |coded| && HoldsFrom(history, base, coded)
    requires forall k: nat :: base + i <= k < base + j ==> k in history
    ensures Entries(history, base + i, base + j - 1) == coded[i..j]
  {
  }

  /** The NACK names the numbers a..b by their low 16 bits, or all from a on. */
  predicate Names(nack: Nack, a: nat, b: nat, opSeq: nat) {
    nack.from % 0x1_0000 == a % 0x1_0000
    && if nack.to == 0x00FF_FFFF then b == opSeq else nack.to % 0x1_0000 == b % 0x1_0000
  }

  lemma NamedRange(t: State, nack: Nack, a: nat, b: nat)
    requires HistoryOk(t) && Headroom(t.opSeq) && Names(nack, a, b, t.opSeq)
    requires a <= b && a in t.history && b in t.history
    ensures Resolve(t.opSeq, nack.from, nack.to) == (a, b)
  {
    if nack.to == NACK_OPEN_ENDED {
      HistoryReaches(t, a);
      hide HistoryOk;
      ExtendRecovers(a, nack.from, t.opSeq);
    } else {
      NackFindsRange(t, a, b, nack.from, nack.to);
    }
  }

  /** A request for at most 512 remembered operations is replayed, unless the breaker fires. */
  lemma RangeReplayed(t: State, now: int, nack: Nack, a: nat, b: nat)
    requires HistoryOk(t) && !t.closed && a <= b <= t.opSeq && (forall k: nat :: a <= k <= b ==> k in t.history)
    requires Resolve(t.opSeq, nack.from, nack.to) == (a, b)
    requires b - a < 512 && Room(t, now, b - a + 1)
    ensures ResendSpec(t, now, nack).1.Replayed?
  {
    hide Resolve, Completion, PackFrom, SendPackets, Available, RecordResend, Room;
    assert a in t.history;
    RoomExact(t, now, b - a + 1);
  }

  /** The state after a batch, as far as a replay of a part of it is concerned. */
  lemma BatchSent(s: State, ops: seq<Operation>)
    requires HistoryOk(s) && !s.closed && Travels(ops) && Headroom(s.opSeq + |ops|)
    ensures var t := SendBatchSpec(s, ops).0;
      && HistoryOk(t) && !t.closed && t.opSeq == Record(s, ops).opSeq && t.history == Record(s, ops).history
      && t.windowStart == s.windowStart && t.windowCount == s.windowCount && t.windowOps == s.windowOps
  {
    hide HistoryOk, Record, Encode, PackFrom, SendPackets, Payloads, FirstOversized, Headroom;
    NoneOversized(ops);
    RecordKeeps(s, ops, None);
    SendPacketsFrame(Record(s, ops), Payloads(PackFrom([], Encode(s, ops))));
    SameHistoryOk(Record(s, ops), SendBatchSpec(s, ops).0);
  }

  /** Sending a batch leaves the breaker as it is. */
  lemma BatchRoom(s: State, ops: seq<Operation>, now: int, n: nat)
    requires HistoryOk(s) && !s.closed && Travels(ops) && Headroom(s.opSeq + |ops|)
    ensures Room(SendBatchSpec(s, ops).0, now, n) <==> Room(s, now, n)
  {
    hide HistoryOk, SendBatchSpec, Record;
    BatchSent(s, ops);
  }

  lemma SameHistoryOk(s: State, t: State)
    requires HistoryOk(s) && s.opSeq == t.opSeq && s.history == t.history
    ensures HistoryOk(t)
  {
  }

  /** After the operations `drawn`, drawing what stands between packet `from` and the last packet gives on
      every screen what drawing `ops` gives. */
  ghost predicate Restores(sent: seq<Bytes>, from: nat, drawn: seq<Operation>, ops: seq<Operation>) {
    from < |sent| && DrawnFrom(sent[..|sent| - 1], from).Some?
    && SameEffect(drawn + DrawnFrom(sent[..|sent| - 1], from).value, ops)
  }

  lemma RestoresExact(sent: seq<Bytes>, from: nat, drawn: seq<Operation>, range: seq<Operation>, ops: seq<Operation>)
    requires from < |sent| && Draws(sent[..|sent| - 1], from, range)
    ensures Restores(sent, from, drawn, ops) <==> SameTraces(drawn + range, ops)
  {
    hide DrawnFrom, ApplyAll, TraceOf, SameTraces, SameEffect;
    var replay := DrawnFrom(sent[..|sent| - 1], from).value;
    SameTracesExact(drawn + replay, ops);
    SameTracesAfter(drawn, replay, range, ops);
  }

  lemma SameTracesAfter(drawn: seq<Operation>, a: seq<Operation>, b: seq<Operation>, ops: seq<Operation>)
    requires SameTraces(a, b)
    ensures SameTraces(drawn + a, ops) <==> SameTraces(drawn + b, ops)
  {
    hide TraceOf;
    forall x, y
      ensures TraceOf(drawn + a, x, y) == TraceOf(drawn + b, x, y)
    {
      TraceConcat(drawn, a, x, y);
      TraceConcat(drawn, b, x, y);
    }
  }

  /** The replay of ops[i..j] draws ops[i..j]. */
  lemma ReplayDraws(u: seq<Bytes>, from: nat, s: State, ops: seq<Operation>, i: nat, j: nat)
    requires from < |u| && Ready(ops) && i <= j <= |ops|
    requires Carried(u[..|u| - 1], from) == Join(Encode(s, ops)[i..j])
    ensures Draws(u[..|u| - 1], from, ops[i..j])
  {
    hide Carried, TraceOf, Encode, SelfDelimiting, Renumbered;
    EncodedDelimited(s, ops);
    SplitJoin(Encode(s, ops)[i..j]);
    EncodeRenumbers(s, ops);
    forall x, y
      ensures TraceOf(Decoded(Encode(s, ops)[i..j]), x, y) == TraceOf(ops[i..j], x, y)
    {
      NumberingDrawsSame(Encode(s, ops)[i..j], ops[i..j], x, y);
    }
  }

  /** The situation of a loss: ops[i..j], at most 512 operations that are all still remembered, is asked
      for again right after the batch, by numbers that may have wrapped, and the breaker has room. */
  ghost predicate Asked(s: State, ops: seq<Operation>, i: nat, j: nat, now: int, nack: Nack) {
    && HistoryOk(s) && !s.closed && (forall op :: op in ops ==> Transmittable(op)) && Headroom(s.opSeq + |ops|)
    && i < j <= |ops| <= i + 8192 && j - i <= 512
    && Names(nack, s.opSeq + 1 + i, s.opSeq + j, s.opSeq + |ops|)
    && Room(s, now, j - i)
  }

  /** After the batch the range is in the history. */
  lemma RangeThere(s: State, ops: seq<Operation>, i: nat, j: nat)
    requires HistoryOk(s) && !s.closed && (forall op :: op in ops ==> Transmittable(op)) && Headroom(s.opSeq + |ops|)
    requires i < j <= |ops| <= i + 8192
    ensures Headed(ops)
    ensures var t, a, b := SendBatchSpec(s, ops).0, s.opSeq + 1 + i, s.opSeq + j;
      && HistoryOk(t) && !t.closed && t.opSeq == s.opSeq + |ops|
      && (forall k: nat :: a <= k <= b ==> k in t.history) && Entries(t.history, a, b) == Encode(s, ops)[i..j]
  {
    TransmittableReady(ops);
    AllNumbered(ops);
    hide HistoryOk, Record, Encode, Entries, Transmittable, SendBatchSpec, Headroom;
    BatchSent(s, ops);
    AllIncrement(s, ops);
    RangeEntries(s, ops, i, j);
  }

  /** The range that was asked for is replayed from the history. */
  lemma AskedReplayed(s: State, ops: seq<Operation>, i: nat, j: nat, now: int, nack: Nack)
    requires Asked(s, ops, i, j, now, nack)
    ensures var t := SendBatchSpec(s, ops).0;
      Resolve(t.opSeq, nack.from, nack.to) == (s.opSeq + 1 + i, s.opSeq + j) && ResendSpec(t, now, nack).1.Replayed?
  {
    hide HistoryOk, Encode, Resolve, Entries, Transmittable, Names, SendBatchSpec, ResendSpec, RecordResend;
    RangeThere(s, ops, i, j);
    var t := SendBatchSpec(s, ops).0;
    NamedRange(t, nack, s.opSeq + 1 + i, s.opSeq + j);
    TransmittableReady(ops);
    BatchRoom(s, ops, now, j - i);
    RangeReplayed(t, now, nack, s.opSeq + 1 + i, s.opSeq + j);
  }

  /** Its replay draws it. */
  lemma AskedDraws(s: State, ops: seq<Operation>, i: nat, j: nat, now: int, nack: Nack)
    requires Asked(s, ops, i, j, now, nack)
    ensures var t := SendBatchSpec(s, ops).0;
      var u := ResendSpec(t, now, nack).0;
      |t.sent| < |u.sent| && Draws(u.sent[..|u.sent| - 1], |t.sent|, ops[i..j])
  {
    hide HistoryOk, Encode, Resolve, Entries, Carried, Transmittable, Names, SendBatchSpec, ResendSpec, RecordResend,
         Draws;
    hide Completion, Packet, Ready;
    TransmittableReady(ops);
    RangeThere(s, ops, i, j);
    AskedReplayed(s, ops, i, j, now, nack);
    var t := SendBatchSpec(s, ops).0;
    ReplayCarries(t, now, nack);
    ReplayDraws(ResendSpec(t, now, nack).0.sent, |t.sent|, s, ops, i, j);
  }

  lemma AllNumbered(ops: seq<Operation>)
    requires forall op :: op in ops ==> Transmittable(op)
    ensures forall op :: op in ops ==> op.increment
  {
  }

  /** Recovery, for every batch, every range of it, and whatever was drawn: the replay restores every
      screen if and only if the drawn operations followed by the range trace each pixel as the batch does. */
  lemma LossRecovered(s: State, ops: seq<Operation>, i: nat, j: nat, now: int, nack: Nack, drawn: seq<Operation>)
    requires Asked(s, ops, i, j, now, nack)
    ensures var t := SendBatchSpec(s, ops).0;
      Restores(ResendSpec(t, now, nack).0.sent, |t.sent|, drawn, ops) <==> SameTraces(drawn + ops[i..j], ops)
  {
    hide SendBatchSpec, ResendSpec, RecordResend, Draws, Restores, SameTraces, Names, HistoryOk;
    AskedDraws(s, ops, i, j, now, nack);
    var t := SendBatchSpec(s, ops).0;
    RestoresExact(ResendSpec(t, now, nack).0.sent, |t.sent|, drawn, ops[i..j], ops);
  }

  /** When the terminal lost some of ops[i..j] and asks for just that range, it recovers if and only if
      later operations leave the same on every pixel that they share with the range. */
  lemma RangeRecovered(s: State, ops: seq<Operation>, i: nat, j: nat, now: int, nack: Nack, part: seq<Operation>)
    requires Asked(s, ops, i, j, now, nack) && Independent(ops) && PartOf(part, ops[i..j])
    ensures var t := SendBatchSpec(s, ops).0;
      Restores(ResendSpec(t, now, nack).0.sent, |t.sent|, ops[..i] + part + ops[j..], ops) <==> LaterAgrees(ops, i, j)
  {
    hide SendBatchSpec, ResendSpec, Restores, LaterAgrees, SameTraces, Independent, HistoryOk;
    LossRecovered(s, ops, i, j, now, nack, ops[..i] + part + ops[j..]);
    LateExact(ops, i, j, part);
  }

  /** Pictures always recover: when every pixel is painted once, any part of the batch that was lost comes
      back with any range that contains it. */
  lemma PaintingRecovers(s: State, ops: seq<Operation>, i: nat, j: nat, now: int, nack: Nack, part: seq<Operation>,
                         region: Rect, colour: Screen)
    requires Asked(s, ops, i, j, now, nack) && Paints(ops, region, colour) && PartOf(part, ops[i..j])
    ensures var t := SendBatchSpec(s, ops).0;
      Restores(ResendSpec(t, now, nack).0.sent, |t.sent|, ops[..i] + part + ops[j..], ops)
  {
    PaintedOnce(ops, region, colour, i, j);
    hide Paints, SendBatchSpec, ResendSpec, Restores, Independent, TraceOf, Touches;
    RangeRecovered(s, ops, i, j, now, nack, part);
  }
}
