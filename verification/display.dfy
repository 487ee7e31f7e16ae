/** ShowImage and ShowImageRegions of internal/display/render.go on a client, and the OnFrame callback of
    internal/server/server.go: what the terminal shows after it cut and drew their datagrams. */
module Display {
  import opened Geometry
  import opened Operations
  import opened Tiling
  import opened Encoder
  import opened Regions
  import opened Packing
  import opened Transport
  import opened History
  import opened Recovery
  import opened Coalescer
  import opened DisplayDelivery

  // ---------- batches one after the other ----------

  /** From s to t the client sent datagrams that draw the operations, one number for each. */
  ghost predicate Extended(s: State, t: State, ops: seq<Operation>) {
    && HistoryOk(t) && t.closed == s.closed && s.sent <= t.sent
    && t.opSeq == s.opSeq + |ops| && Draws(t.sent, |s.sent|, ops)
  }

  lemma {:induction false} SplitConcat(a: Bytes, b: Bytes)
    requires Split(a).Some? && Split(b).Some?
    ensures Split(a + b) == Some(Split(a).value + Split(b).value)
    decreases |a|
  {
    hide AnnouncedLength;
    if a == [] {
      var none: seq<Bytes> := [];
      assert a + b == b && none + Split(b).value == Split(b).value;
    } else {
      AnnouncedPrefix(a, b);
      var n := AnnouncedLength(a);
      assert (a + b)[..n] == a[..n] && (a + b)[n..] == a[n..] + b;
      SplitConcat(a[n..], b);
      var rest, more := Split(a[n..]).value, Split(b).value;
      assert ([a[..n]] + rest) + more == [a[..n]] + (rest + more);
    }
  }

  lemma DecodedConcat(a: seq<Bytes>, b: seq<Bytes>)
    ensures Decoded(a + b) == Decoded(a) + Decoded(b)
  {
  }

  lemma DrawsConcat(sent: seq<Bytes>, from: nat, mid: nat, a: seq<Operation>, b: seq<Operation>)
    requires from <= mid <= |sent| && Draws(sent[..mid], from, a) && Draws(sent, mid, b)
    ensures Draws(sent, from, a + b)
  {
    hide Carried, TraceOf, Split;
    CarriedSplit(sent, from, mid);
    SplitConcat(Carried(sent[..mid], from), Carried(sent, mid));
    var p, q := Split(Carried(sent[..mid], from)).value, Split(Carried(sent, mid)).value;
    DecodedConcat(p, q);
    forall x, y
      ensures TraceOf(Decoded(p) + Decoded(q), x, y) == TraceOf(a + b, x, y)
    {
      TraceConcat(Decoded(p), Decoded(q), x, y);
      TraceConcat(a, b, x, y);
    }
  }

  lemma ExtendedConcat(s: State, t: State, u: State, a: seq<Operation>, b: seq<Operation>)
    requires Extended(s, t, a) && Extended(t, u, b)
    ensures Extended(s, u, a + b)
  {
    hide HistoryOk, Draws;
    assert u.sent[..|t.sent|] == t.sent;
    DrawsConcat(u.sent, |s.sent|, |t.sent|, a, b);
  }

  lemma FlushExtended(s: State, t: State, ops: seq<Operation>)
    requires Extended(s, t, ops)
    ensures Extended(s, t.(history := map[]), ops)
  {
    hide Draws;
  }

  /** A batch is accepted exactly by an open client, which stays open. */
  lemma BatchAccepted(s: State, ops: seq<Operation>)
    requires Travels(ops)
    ensures SendBatchSpec(s, ops).1 == !s.closed && SendBatchSpec(s, ops).0.closed == s.closed
    ensures s.closed ==> SendBatchSpec(s, ops).0 == s
  {
    hide Record, Encode, PackFrom, SendPackets, FirstOversized, Payloads;
    NoneOversized(ops);
    RecordOpen(s, ops);
    SendPacketsFrame(Record(s, ops), Payloads(PackFrom([], Encode(s, ops))));
  }

  lemma {:induction false} RecordOpen(s: State, ops: seq<Operation>)
    requires Headed(ops)
    ensures Record(s, ops).closed == s.closed
    decreases |ops|
  {
    hide WithSequence;
    if ops != [] {
      RecordOpen(s, ops[..|ops| - 1]);
    }
  }

  lemma BatchExtends(s: State, ops: seq<Operation>)
    requires HistoryOk(s) && !s.closed && (forall op :: op in ops ==> Transmittable(op)) && Headroom(s.opSeq + |ops|)
    ensures Headed(ops) && Extended(s, SendBatchSpec(s, ops).0, ops)
  {
    hide HistoryOk, SendBatchSpec, Draws, Transmittable;
    TransmittableReady(ops);
    AllNumbered(ops);
    AllCount(ops);
    BatchDraws(s, ops);
  }

  /** The operations were sent, if the sequence numbers did not run out. */
  ghost predicate SentAll(s: State, t: State, ops: seq<Operation>) {
    HistoryOk(s) && Headroom(s.opSeq + |ops|) ==> Extended(s, t, ops)
  }

  /** Client.SendBatch with operations that can all be sent. */
  method SendReady(c: Client, ops: seq<Operation>) returns (ok: bool)
    requires forall op :: op in ops ==> Transmittable(op)
    modifies c
    ensures ok == !old(c.closed) && c.closed == old(c.closed) && (!ok ==> c.View() == old(c.View()))
    ensures ok ==> SentAll(old(c.View()), c.View(), ops)
  {
    hide HistoryOk, SendBatchSpec, Draws, Transmittable, Extended, Headroom;
    TransmittableReady(ops);
    ghost var s := c.View();
    BatchAccepted(s, ops);
    ok := c.SendBatch(ops);
    if ok && HistoryOk(s) && Headroom(s.opSeq + |ops|) {
      BatchExtends(s, ops);
    }
  }

  // ---------- ShowImage and ShowImageRegions ----------

  lemma SentTwo(s: State, t: State, u: State, a: seq<Operation>, b: seq<Operation>)
    requires SentAll(s, t, a) && SentAll(t, u, b)
    ensures SentAll(s, u, a + b)
  {
    hide HistoryOk, Draws;
    if HistoryOk(s) && Headroom(s.opSeq + |a + b|) {
      ExtendedConcat(s, t, u, a, b);
    }
  }

  lemma SentFlush(s: State, t: State, ops: seq<Operation>)
    requires SentAll(s, t, ops)
    ensures SentAll(s, t.(history := map[]), ops)
  {
    hide HistoryOk, Draws, Extended;
    if HistoryOk(s) && Headroom(s.opSeq + |ops|) {
      FlushExtended(s, t, ops);
    }
  }

  /** Sets up the screen, forgets what was sent before, and sends the whole picture. */
  method ShowImage(c: Client, screenWidth: int, screenHeight: int, img: Image)
    returns (ok: bool, ghost ops: seq<Operation>)
    requires screenWidth < 0x1_0000 && screenHeight < 0x1_0000
    modifies c
    ensures ok <==> !old(c.closed) && 1 <= screenWidth && 1 <= screenHeight && !img.bounds.Empty()
    ensures c.closed == old(c.closed) && (!ok ==> c.View() == old(c.View()))
    ensures ok ==> SentAll(old(c.View()), c.View(), ops)
    ensures ok ==> forall s: Screen :: Shows(ApplyAll(ops, s), Colour(img), img.bounds, screenWidth, screenHeight)
  {
    hide HistoryOk, SendBatchSpec, Draws, Transmittable, SentAll, Shows, ApplyAll;
    ops := [];
    var setup, picture := ImageOperations(screenWidth, screenHeight, img);
    if picture.Err? {
      return false, ops;
    }
    ok := SendReady(c, setup);
    if !ok {
      return;
    }
    ghost var s, t := old(c.View()), c.View();
    c.FlushHistory();
    SentFlush(s, t, setup);
    ghost var flushed := c.View();
    ok := SendReady(c, picture.value);
    ops := setup + picture.value;
    SentTwo(s, flushed, c.View(), setup, picture.value);
  }

  /** Sends the operations of one ordered frame update. */
  method ShowImageRegions(c: Client, screenWidth: int, screenHeight: int, img: Image, updates: seq<RegionUpdate>)
    returns (ok: bool, ghost ops: seq<Operation>)
    requires screenWidth < 0x1_0000 && screenHeight < 0x1_0000
    modifies c
    ensures ok <==> !old(c.closed) && 1 <= screenWidth && 1 <= screenHeight && !img.bounds.Empty()
    ensures c.closed == old(c.closed) && (!ok ==> c.View() == old(c.View()))
    ensures ok ==> SentAll(old(c.View()), c.View(), ops)
    ensures ok ==> Redraws(ops, updates, img, Visible(img.bounds, screenWidth, screenHeight),
                           OffsetX(img.bounds, screenWidth), OffsetY(img.bounds, screenHeight))
  {
    hide HistoryOk, SendBatchSpec, Draws, Transmittable, SentAll, Redraws, ApplyAll;
    ops := [];
    var r := RegionOperations(screenWidth, screenHeight, img, updates);
    if r.Err? {
      return false, ops;
    }
    ops := r.value;
    ok := SendReady(c, r.value);
  }

  // ---------- OnFrame ----------

  lemma {:induction false} DrawsNothingMore(ops: seq<Operation>, op: Operation, s: Screen)
    requires DrawsNothing(op)
    ensures SameScreen(ApplyAll(ops + [op], s), ApplyAll(ops, s))
  {
    ApplyAllConcat(ops, [op], s);
    DrawNothing([op], ApplyAll(ops, s));
  }

  /** The callback that draws a delivery: a full frame the first time and after a resize, with the cursor
      behind it, and otherwise the list of updates. */
  method OnFrame(c: Client, d: Delivery, viewWidth: nat, viewHeight: nat, firstFrame: bool, interactive: bool)
    returns (ok: bool, ghost ops: seq<Operation>)
    requires FrameBounds(d.snapshot.bounds) && viewWidth < 0x1_0000 && viewHeight < 0x1_0000
    modifies c
    ensures ok == !old(c.closed)
    ensures ok ==> SentAll(old(c.View()), c.View(), ops)
    ensures ok && (firstFrame ==> d.resized) ==>
              forall before: Screen :: Delivered(d, viewWidth, viewHeight, before, ApplyAll(ops, before))
  {
    hide HistoryOk, SendBatchSpec, Draws, Transmittable, SentAll, Shows, ApplyAll, Delivered, Redraws, DrawsNothing;
    var w, h := ScreenWidth(d.snapshot.bounds, viewWidth), ScreenHeight(d.snapshot.bounds, viewHeight);
    if firstFrame || d.resized {
      var cursor := Cursor(interactive);
      ok, ops := ShowImage(c, w, h, d.snapshot);
      if !ok {
        return;
      }
      ghost var full, shown := ops, c.View();
      ok := SendReady(c, [cursor]);
      SentTwo(old(c.View()), shown, c.View(), full, [cursor]);
      ops := full + [cursor];
      FullDelivered(d, viewWidth, viewHeight, full, cursor);
    } else {
      ok, ops := ShowImageRegions(c, w, h, d.snapshot, d.changed);
      if ok {
        PartDelivered(d, viewWidth, viewHeight, ops);
      }
    }
  }

  method Cursor(interactive: bool) returns (op: Operation)
    ensures DrawsNothing(op) && Transmittable(op)
  {
    hide DrawsNothing, SelfDelimiting;
    if interactive {
      op := LocalCursor();
    } else {
      op := InvisibleCursor();
    }
  }

  lemma FullDelivered(d: Delivery, viewWidth: nat, viewHeight: nat, full: seq<Operation>, cursor: Operation)
    requires DrawsNothing(cursor)
    requires forall s: Screen :: Shows(ApplyAll(full, s), Colour(d.snapshot), d.snapshot.bounds,
               ScreenWidth(d.snapshot.bounds, viewWidth), ScreenHeight(d.snapshot.bounds, viewHeight))
    ensures d.resized ==>
              forall before: Screen :: Delivered(d, viewWidth, viewHeight, before, ApplyAll(full + [cursor], before))
  {
    hide ApplyAll, DrawsNothing, ScreenWidth, ScreenHeight, OffsetX, OffsetY, Visible, Colour;
    if d.resized {
      forall before: Screen
        ensures Delivered(d, viewWidth, viewHeight, before, ApplyAll(full + [cursor], before))
      {
        DrawsNothingMore(full, cursor, before);
      }
    }
  }

  lemma PartDelivered(d: Delivery, viewWidth: nat, viewHeight: nat, ops: seq<Operation>)
    requires !d.resized
    requires var w, h := ScreenWidth(d.snapshot.bounds, viewWidth), ScreenHeight(d.snapshot.bounds, viewHeight);
      Redraws(ops, d.changed, d.snapshot, Visible(d.snapshot.bounds, w, h),
              OffsetX(d.snapshot.bounds, w), OffsetY(d.snapshot.bounds, h))
    ensures forall before: Screen :: Delivered(d, viewWidth, viewHeight, before, ApplyAll(ops, before))
  {
    hide ApplyAll, RedrawAll, ScreenWidth, ScreenHeight, OffsetX, OffsetY, Visible, Colour;
  }

  /** The screen that a delivery leaves depends on what is drawn only through its pixels. */
  lemma DeliveredSame(d: Delivery, viewWidth: nat, viewHeight: nat, before: Screen, a: Screen, b: Screen)
    requires Delivered(d, viewWidth, viewHeight, before, a) && SameScreen(a, b)
    ensures Delivered(d, viewWidth, viewHeight, before, b)
  {
    hide RedrawAll, ScreenWidth, ScreenHeight, OffsetX, OffsetY, Visible;
  }

  /** End to end: the datagrams that OnFrame sends for a delivery, cut, decoded and drawn, leave on every
      screen what the delivery is to leave. */
  method DrawDelivery(c: Client, d: Delivery, viewWidth: nat, viewHeight: nat, firstFrame: bool, interactive: bool)
    returns (ok: bool, ghost ops: seq<Operation>)
    requires FrameBounds(d.snapshot.bounds) && viewWidth < 0x1_0000 && viewHeight < 0x1_0000
    requires HistoryOk(c.View()) && (firstFrame ==> d.resized)
    modifies c
    ensures ok == !old(c.closed)
    ensures ok && Headroom(old(c.opSeq) + |ops|) ==>
              && HistoryOk(c.View()) && |old(c.sent)| <= |c.sent| && DrawnFrom(c.sent, |old(c.sent)|).Some?
              && forall before: Screen ::
                   Delivered(d, viewWidth, viewHeight, before, ApplyAll(DrawnFrom(c.sent, |old(c.sent)|).value, before))
  {
    hide HistoryOk, ApplyAll, Delivered, DrawnFrom, SameTraces;
    ok, ops := OnFrame(c, d, viewWidth, viewHeight, firstFrame, interactive);
    if ok && Headroom(old(c.opSeq) + |ops|) {
      ghost var from, sent := |old(c.sent)|, c.sent;
      forall before: Screen
        ensures Delivered(d, viewWidth, viewHeight, before, ApplyAll(DrawnFrom(sent, from).value, before))
      {
        DrawnScreen(sent, from, ops, before);
        DeliveredSame(d, viewWidth, viewHeight, before, ApplyAll(ops, before),
                      ApplyAll(DrawnFrom(sent, from).value, before));
      }
    }
  }
}
