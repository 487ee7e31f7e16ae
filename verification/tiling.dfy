/** bestTileSize of internal/display/render.go: the search for a tile shape, and its optimality. */
module Tiling {
  import opened Geometry
  import opened Operations

  const MAX_DATAGRAM_SIZE := 1448
  const PACKET_HEADER_SIZE := 16
  const MAX_RGB_PAYLOAD: nat := MAX_DATAGRAM_SIZE - PACKET_HEADER_SIZE - 12

  /** The number of w by h tiles that cover a width by height rectangle. */
  function TileCount(width: nat, height: nat, w: nat, h: nat): nat
    requires w > 0 && h > 0
  {
    DivideCeil(width, w) * DivideCeil(height, h)
  }

  predicate FitsPayload(w: nat, h: nat) {
    Round4(3 * w) * h <= 1420
  }

  /** The rows of w pixels that one payload holds: at least one, at most the height. */
  function TallestTile(height: nat, w: nat): nat
    requires w > 0
  {
    Min(height, Max(1, MAX_RGB_PAYLOAD / Round4(3 * w)))
  }

  lemma QuotientBound(a: nat, d: nat, q: nat)
    requires d > 0
    ensures d * q <= a <==> q <= a / d
  {
    MulMono(q, a / d, d);
    MulMono(a / d + 1, q, d);
  }

  lemma DivideCeilAntitone(n: nat, a: nat, b: nat)
    requires 0 < a <= b
    ensures DivideCeil(n, b) <= DivideCeil(n, a)
  {
    var q := DivideCeil(n, a);
    assert n <= q * a by { QuotientBound(n + a - 1, a, q + 1); assert a * (q + 1) == q * a + a; }
    assert q * a <= q * b by { MulMono(a, b, q); }
    QuotientBound(n + b - 1, b, q + 1);
    assert b * (q + 1) == q * b + b;
  }

  /** Among the heights a payload allows for width w, the tallest needs the fewest tiles. */
  lemma TallestIsBest(width: nat, height: nat, w: nat, h: nat)
    requires width > 0 && height > 0 && w > 0 && h > 0 && FitsPayload(w, h)
    ensures w <= MAX_RGB_PAYLOAD / 3
    ensures FitsPayload(w, TallestTile(height, w)) && 0 < TallestTile(height, w)
    ensures TileCount(width, height, w, TallestTile(height, w)) <= TileCount(width, height, w, h)
  {
    var d, t := Round4(3 * w), TallestTile(height, w);
    QuotientBound(MAX_RGB_PAYLOAD, d, h);
    QuotientBound(MAX_RGB_PAYLOAD, d, t);
    MulMono(1, h, d);
    if h <= t {
      DivideCeilAntitone(height, h, t);
    } else {
      assert t == height && DivideCeil(height, t) == 1 by { DivMod(1, height, height - 1); }
      assert DivideCeil(height, h) >= 1 by { QuotientBound(height + h - 1, h, 1); }
    }
    MulMono(DivideCeil(height, t), DivideCeil(height, h), DivideCeil(width, w));
  }

  lemma WidestFits(height: nat, w: nat)
    requires 0 < height && 0 < w <= MAX_RGB_PAYLOAD / 3
    ensures 0 < TallestTile(height, w) && FitsPayload(w, TallestTile(height, w))
  {
  }

  /** (w, h) needs the fewest tiles among the payload-sized uniform tilings of width below `bound`, and
      is the widest of those that need as few. */
  ghost predicate BestBelow(width: nat, height: nat, w: nat, h: nat, bound: nat) {
    w > 0 && h > 0 &&
    forall w': nat, h': nat :: 0 < w' < bound && 0 < h' && FitsPayload(w', h') ==>
      TileCount(width, height, w, h) <= TileCount(width, height, w', h')
      && (TileCount(width, height, w, h) == TileCount(width, height, w', h') ==> w' <= w)
  }

  /** No payload-sized uniform tiling needs fewer tiles. */
  ghost predicate Minimal(width: nat, height: nat, w: nat, h: nat) {
    w > 0 && h > 0
    && forall w': nat, h': nat :: 0 < w' && 0 < h' && FitsPayload(w', h') ==>
         TileCount(width, height, w, h) <= TileCount(width, height, w', h')
  }

  /** Tiles wider than the picture need no fewer than tiles as wide as it. */
  lemma WiderIsNoBetter(width: nat, height: nat, w: nat, h: nat)
    requires width > 0 && height > 0 && w > width && h > 0 && FitsPayload(w, h)
    ensures FitsPayload(width, h) && TileCount(width, height, width, h) <= TileCount(width, height, w, h)
  {
    MulMono(Round4(3 * width), Round4(3 * w), h);
    DivMod(1, width, width - 1);
    QuotientBound(width + w - 1, w, 1);
    MulMono(1, DivideCeil(width, w), DivideCeil(height, h));
  }

  lemma BestIsMinimal(width: nat, height: nat, w: nat, h: nat)
    requires width > 0 && height > 0 && BestBelow(width, height, w, h, width + 1)
    ensures Minimal(width, height, w, h)
  {
    hide FitsPayload, TileCount;
    forall w': nat, h': nat | 0 < w' && 0 < h' && FitsPayload(w', h')
      ensures TileCount(width, height, w, h) <= TileCount(width, height, w', h')
    {
      if w' > width {
        WiderIsNoBetter(width, height, w', h');
      }
    }
  }

  /** i tiles of a size, side by side, reach up to `at`, each of them needed. */
  ghost predicate Tiled(size: nat, tile: nat, i: nat, at: nat) {
    at == Min(i * tile, size) && (i > 0 ==> (i - 1) * tile < size)
  }

  lemma TiledNext(size: nat, tile: nat, i: nat, at: nat)
    requires tile > 0 && Tiled(size, tile, i, at) && at < size
    ensures Tiled(size, tile, i + 1, at + Min(tile, size - at))
  {
    assert (i + 1) * tile == i * tile + tile;
  }

  lemma TiledAll(size: nat, tile: nat, i: nat, at: nat)
    requires size > 0 && tile > 0 && Tiled(size, tile, i, at) && at >= size
    ensures i == DivideCeil(size, tile)
  {
    assert i > 0;
    assert (i - 1) * tile == i * tile - tile && (i + 1) * tile == i * tile + tile;
    QuotientBound(size + tile - 1, tile, i);
    QuotientBound(size + tile - 1, tile, i + 1);
    assert tile * i == i * tile && tile * (i + 1) == (i + 1) * tile;
  }

  method BestTileSize(width: nat, height: nat) returns (w: nat, h: nat)
    requires width > 0 && height > 0
    ensures 0 < w <= width && 0 < h <= height && FitsPayload(w, h)
    ensures width < 1024 ==> Minimal(width, height, w, h) && BestBelow(width, height, w, h, width + 1)
    ensures width >= 1024 ==> forall w': nat, h': nat :: 0 < w' && 0 < h' && FitsPayload(w', h') ==> w' <= w
  {
    hide Round4;
    if width < 1024 {
      w, h := 1, 1;
      WidestFits(1, 1);
      var best := width * height;
      DivMod(width, 1, 0);
      DivMod(height, 1, 0);
      assert best == TileCount(width, height, 1, 1);
      var maxWidth := Min(width, MAX_RGB_PAYLOAD / 3);
      var candidate := 1;
      while candidate <= maxWidth
        invariant 1 <= candidate <= maxWidth + 1
        invariant 0 < w <= width && 0 < h <= height && FitsPayload(w, h)
        invariant best == TileCount(width, height, w, h)
        invariant BestBelow(width, height, w, h, candidate)
      {
        WidestFits(height, candidate);
        var tall := TallestTile(height, candidate);
        var packets := DivideCeil(width, candidate) * DivideCeil(height, tall);
        forall h': nat | 0 < h' && FitsPayload(candidate, h')
          ensures packets <= TileCount(width, height, candidate, h')
        {
          TallestIsBest(width, height, candidate, h');
        }
        if packets < best || (packets == best && candidate > w) {
          w, h, best := candidate, tall, packets;
        }
        candidate := candidate + 1;
      }
      forall w': nat, h': nat | 0 < w' <= width && 0 < h' && FitsPayload(w', h')
        ensures w' < candidate
      {
        TallestIsBest(width, height, w', h');
      }
      BestIsMinimal(width, height, w, h);
    } else {
      w := Min(width, MAX_RGB_PAYLOAD / 3);
      h := TallestTile(height, w);
      WidestFits(height, w);
      forall w': nat, h': nat | 0 < w' && 0 < h' && FitsPayload(w', h')
        ensures w' <= w
      {
        TallestIsBest(width, height, w', h');
      }
    }
  }
}
