/** internal/display/operation.go: byte encoding of the ALP drawing operations, together with
    the decoder that says what each byte string draws. The methods fill byte buffers in place as the
    source does; their contracts are stated through the decoder only. */
module Operations {
  import opened Geometry

  type Byte = b: int | 0 <= b < 256

  datatype Rgba = Rgba(r: Byte, g: Byte, b: Byte, a: Byte)
  datatype Rgb = Rgb(r: Byte, g: Byte, b: Byte)

  function Opaque(c: Rgba): Rgb { Rgb(c.r, c.g, c.b) }

  /** An image: its bounds and the 8-bit colour rgbaAt reads at each point. */
  datatype Image = Image(bounds: Rect, at: (int, int) -> Rgba)

  /** One ALP display operation; the first 12 bytes are its header. */
  datatype Operation = Operation(bytes: seq<Byte>, increment: bool)

  const OP_RESEND_DONE: Byte := 0xAC
  const OP_FILL: Byte := 0xA2
  const OP_COPY: Byte := 0xA4
  const OP_BITMAP: Byte := 0xA5
  const OP_BITMAP_RGB: Byte := 0xA6
  const OP_BOUNDS: Byte := 0xA8
  const OP_CURSOR: Byte := 0xA9
  const OP_PAD: Byte := 0xAF

  function Round4(n: nat): (r: nat)
    ensures n <= r < n + 4 && r % 4 == 0
  {
    (n + 3) / 4 * 4
  }

  // ---------- the decoder: what a byte string draws ----------

  /** Go's uint16 conversion keeps the low 16 bits. */
  function Uint16(v: int): (u: nat)
    ensures u < 0x1_0000
  {
    v % 0x1_0000
  }

  /** Byte i of a buffer, zero outside it. */
  function At(b: seq<Byte>, i: int): Byte {
    if 0 <= i < |b| then b[i] else 0
  }

  /** Big-endian 16-bit field. */
  function U16(b: seq<Byte>, i: int): nat {
    At(b, i) * 256 + At(b, i + 1)
  }

  /** Bit k of a byte, counted from the most significant bit. */
  predicate Bit(b: Byte, k: nat)
    requires k < 8
  {
    if k == 0 then b / 128 % 2 == 1 else if k == 1 then b / 64 % 2 == 1
    else if k == 2 then b / 32 % 2 == 1 else if k == 3 then b / 16 % 2 == 1
    else if k == 4 then b / 8 % 2 == 1 else if k == 5 then b / 4 % 2 == 1
    else if k == 6 then b / 2 % 2 == 1 else b % 2 == 1
  }

  function Target(b: seq<Byte>): Rect {
    Rect(U16(b, 4), U16(b, 6), U16(b, 4) + U16(b, 8), U16(b, 6) + U16(b, 10))
  }

  /** A colour field 0,B,G,R (a fill stores 0xFF in the first byte). */
  function ColourField(b: seq<Byte>, i: int): Rgb {
    Rgb(At(b, i + 3), At(b, i + 2), At(b, i + 1))
  }

  /** A packed B,G,R pixel. */
  function PixelField(b: seq<Byte>, i: int): Rgb {
    Rgb(At(b, i + 2), At(b, i + 1), At(b, i))
  }

  function PlaneStride(b: seq<Byte>): nat { (U16(b, 8) + 7) / 8 }

  /** The size of n rows, and so the offset of row n. */
  function Rows(n: int, stride: int): int { n * stride }

  lemma MulMono(x: int, y: int, d: nat)
    ensures x <= y ==> x * d <= y * d
  {
  }

  lemma RowsStep(n: nat, stride: nat)
    ensures Rows(0, stride) == 0 && Rows(n + 1, stride) == Rows(n, stride) + stride
  {
  }

  lemma RowsMono(n: nat, m: nat, stride: nat)
    requires n <= m
    ensures 0 <= Rows(n, stride) <= Rows(m, stride)
  {
    MulMono(0, n, stride);
    MulMono(n, m, stride);
  }

  /** The byte string has the length its opcode and geometry call for. The decoder reads the numbers of the
      protocol: 0xA2 fills, 0xA4 copies, 0xA5 and 0xA6 draw one-bit and full-colour bitmaps. */
  predicate WellFormed(b: seq<Byte>) {
    |b| >= 12 &&
    var w, h := U16(b, 8), U16(b, 10);
    if b[0] == 0xA2 || b[0] == 0xA4 then |b| == 16
    else if b[0] == 0xA5 then |b| == 20 + Round4(Rows(h, PlaneStride(b)))
    else if b[0] == 0xA6 then |b| == 12 + Rows(h, Round4(3 * w))
    else true
  }

  /** The length an operation announces in its first twelve bytes. */
  function AnnouncedLength(b: seq<Byte>): (n: nat)
    requires |b| >= 12
    ensures n >= 12
  {
    var w, h := U16(b, 8), U16(b, 10);
    RowsMono(0, h, PlaneStride(b));
    RowsMono(0, h, Round4(3 * w));
    if b[0] == 0xA2 || b[0] == 0xA4 then 16
    else if b[0] == 0xA5 then 20 + Round4(Rows(h, PlaneStride(b)))
    else if b[0] == 0xA6 then 12 + Rows(h, Round4(3 * w))
    else if b[0] == 0xAF then 24
    else if b[0] == 0xA9 then 84
    else 20
  }

  /** The operation is as long as it announces, so that a stream of such operations can be cut. */
  predicate SelfDelimiting(b: seq<Byte>) {
    |b| >= 12 && |b| == AnnouncedLength(b)
  }

  predicate IsPaint(b: seq<Byte>) {
    WellFormed(b) && b[0] in {0xA2, 0xA5, 0xA6}
  }

  predicate IsCopy(b: seq<Byte>) {
    WellFormed(b) && b[0] == 0xA4
  }

  lemma DrawingDelimited(b: seq<Byte>)
    requires IsPaint(b) || IsCopy(b)
    ensures SelfDelimiting(b)
  {
  }

  /** The colour a painting operation gives to a point of its target. */
  function PaintColour(b: seq<Byte>, x: int, y: int): Rgb
    requires IsPaint(b)
  {
    var col, row := x - Target(b).minX, y - Target(b).minY;
    if b[0] == 0xA2 then ColourField(b, 12)
    else if b[0] == 0xA5 then
      if Bit(At(b, 20 + Rows(row, PlaneStride(b)) + col / 8), col % 8) then ColourField(b, 16) else ColourField(b, 12)
    else PixelField(b, 12 + Rows(row, Round4(3 * U16(b, 8))) + 3 * col)
  }

  /** What the operation puts on the point (x, y), if it paints it. */
  function Stroke(op: Operation, x: int, y: int): Option<Rgb> {
    if IsPaint(op.bytes) && Target(op.bytes).Contains(x, y) then Some(PaintColour(op.bytes, x, y)) else None
  }

  type Screen = (int, int) -> Rgb

  /** The terminal's effect of one operation on its framebuffer. */
  function Apply(op: Operation, s: Screen): Screen {
    var b := op.bytes;
    (x: int, y: int) =>
      if IsPaint(b) && Target(b).Contains(x, y) then PaintColour(b, x, y)
      else if IsCopy(b) && Target(b).Contains(x, y) then
        s(x - Target(b).minX + U16(b, 12), y - Target(b).minY + U16(b, 14))
      else s(x, y)
  }

  function ApplyAll(ops: seq<Operation>, s: Screen): Screen
    decreases |ops|
  {
    if ops == [] then s else ApplyAll(ops[1..], Apply(ops[0], s))
  }

  lemma {:induction false} ApplyAllConcat(a: seq<Operation>, b: seq<Operation>, s: Screen)
    ensures ApplyAll(a + b, s) == ApplyAll(b, ApplyAll(a, s))
    decreases |a|
  {
    if a == [] {
      assert a + b == b;
    } else {
      assert (a + b)[0] == a[0] && (a + b)[1..] == a[1..] + b;
      ApplyAllConcat(a[1..], b, Apply(a[0], s));
    }
  }

  // ---------- the encoders ----------

  /** Geometry the 16-bit header fields can express. */
  predicate Fits(x: int, y: int, w: int, h: int) {
    0 <= x < 0x1_0000 && 0 <= y < 0x1_0000 && 0 <= w < 0x1_0000 && 0 <= h < 0x1_0000
  }

  /** The header of a buffer says what its arguments were, up to 16 bits. */
  ghost predicate Header(b: seq<Byte>, code: Byte, x: int, y: int, w: int, h: int) {
    |b| >= 12 && b[0] == code &&
    U16(b, 4) == Uint16(x) && U16(b, 6) == Uint16(y) && U16(b, 8) == Uint16(w) && U16(b, 10) == Uint16(h)
  }

  lemma Uint16Exact(v: int)
    ensures Uint16(v) == v <==> 0 <= v < 0x1_0000
  {
  }

  /** The decoded target is the requested rectangle exactly when the request fits in 16 bits. */
  lemma HeaderExact(b: seq<Byte>, code: Byte, x: int, y: int, w: int, h: int)
    requires Header(b, code, x, y, w, h)
    ensures Target(b) == Rect(x, y, x + w, y + h) <==> Fits(x, y, w, h)
  {
    Uint16Exact(x);
    Uint16Exact(y);
    Uint16Exact(w);
    Uint16Exact(h);
    hide Uint16, U16;
  }

  method PutUint16(b: array<Byte>, i: nat, v: int)
    requires i + 1 < b.Length
    modifies b
    ensures U16(b[..], i) == Uint16(v)
    ensures forall k :: 0 <= k < b.Length && k != i && k != i + 1 ==> b[k] == old(b[k])
  {
    b[i] := Uint16(v) / 256;
    b[i + 1] := Uint16(v) % 256;
  }

  method NewOperation(code: Byte, x: int, y: int, w: int, h: int, payload: nat) returns (b: array<Byte>)
    ensures fresh(b) && b.Length == 12 + payload
    ensures Header(b[..], code, x, y, w, h)
    ensures forall k :: 12 <= k < b.Length ==> b[k] == 0
    ensures b[1] == b[2] == b[3] == 0
  {
    b := new Byte[12 + payload](_ => 0);
    b[0] := code;
    PutUint16(b, 4, x);
    PutUint16(b, 6, y);
    PutUint16(b, 8, w);
    PutUint16(b, 10, h);
  }

  lemma HeaderKept(b: seq<Byte>, b': seq<Byte>, code: Byte, x: int, y: int, w: int, h: int)
    requires Header(b, code, x, y, w, h)
    requires 12 <= |b'| && forall i :: 0 <= i < 12 ==> b'[i] == b[i]
    ensures Header(b', code, x, y, w, h)
  {
  }

  /** The image's colours, moved by (dx, dy). */
  function Shifted(img: Image, dx: int, dy: int): Screen {
    (x: int, y: int) => Opaque(img.at(x - dx, y - dy))
  }

  /** The operation paints exactly the rectangle `region`, with the colours of `colour`. */
  ghost predicate PaintsOne(op: Operation, region: Rect, colour: Screen) {
    op.increment &&
    forall x, y :: Stroke(op, x, y) == if region.Contains(x, y) then Some(colour(x, y)) else None
  }

  method Fill(x: int, y: int, w: int, h: int, c: Rgba) returns (op: Operation)
    ensures |op.bytes| == 16 && op.increment && SelfDelimiting(op.bytes)
    ensures op.bytes[1] == op.bytes[2] == op.bytes[3] == 0 && op.bytes[12] == 0xFF
    ensures Fits(x, y, w, h) ==> PaintsOne(op, Rect(x, y, x + w, y + h), (_, _) => Opaque(c))
  {
    var b := NewOperation(OP_FILL, x, y, w, h, 4);
    b[12] := 0xFF;
    b[13] := c.b;
    b[14] := c.g;
    b[15] := c.r;
    HeaderExact(b[..], OP_FILL, x, y, w, h);
    op := Operation(b[..], true);
  }

  /** Operations that set up the screen and draw nothing. */
  predicate DrawsNothing(op: Operation) {
    !IsPaint(op.bytes) && !IsCopy(op.bytes)
  }

  method Bounds(w: int, h: int) returns (op: Operation)
    ensures |op.bytes| == 20 && op.increment && DrawsNothing(op) && SelfDelimiting(op.bytes)
    ensures Header(op.bytes, 0xA8, 0, 0, w, h) && U16(op.bytes, 12) == U16(op.bytes, 14) == 0
    ensures op.bytes[1] == op.bytes[2] == op.bytes[3] == 0
    ensures U16(op.bytes, 16) == Uint16(w) && U16(op.bytes, 18) == Uint16(h)
  {
    var b := NewOperation(OP_BOUNDS, 0, 0, w, h, 8);
    ghost var header := b[..];
    PutUint16(b, 12, 0);
    PutUint16(b, 14, 0);
    PutUint16(b, 16, w);
    PutUint16(b, 18, h);
    HeaderKept(header, b[..], OP_BOUNDS, 0, 0, w, h);
    op := Operation(b[..], true);
  }

  method InvisibleCursor() returns (op: Operation)
    ensures |op.bytes| == 84 && op.increment && DrawsNothing(op) && SelfDelimiting(op.bytes)
    ensures Header(op.bytes, 0xA9, 1, 1, 16, 16) && op.bytes[1] == op.bytes[2] == op.bytes[3] == 0
    ensures op.bytes[12] == op.bytes[16] == 0
    ensures ColourField(op.bytes, 12) == Rgb(0, 0, 0) && ColourField(op.bytes, 16) == Rgb(255, 255, 255)
    ensures forall i :: 20 <= i < 84 ==> op.bytes[i] == 0
  {
    var b := NewOperation(OP_CURSOR, 1, 1, 16, 16, 72);
    ghost var header := b[..];
    b[17] := 0xFF;
    b[18] := 0xFF;
    b[19] := 0xFF;
    HeaderKept(header, b[..], OP_CURSOR, 1, 1, 16, 16);
    op := Operation(b[..], true);
  }

  const CURSOR_BITMAP: seq<Byte> := [
    0x00, 0x00, 0x70, 0x0E, 0x78, 0x1E, 0x7C, 0x3E,
    0x3E, 0x7C, 0x1F, 0xF8, 0x0F, 0xF0, 0x07, 0xE0,
    0x07, 0xE0, 0x0F, 0xF0, 0x1F, 0xF8, 0x3E, 0x7C,
    0x7C, 0x3E, 0x78, 0x1E, 0x70, 0x0E, 0x00, 0x00]

  const CURSOR_MASK: seq<Byte> := [
    0xF0, 0x0F, 0xF8, 0x1F, 0xFC, 0x3F, 0xFE, 0x7F,
    0x7F, 0xFE, 0x3F, 0xFC, 0x1F, 0xF8, 0x0F, 0xF0,
    0x0F, 0xF0, 0x1F, 0xF8, 0x3F, 0xFC, 0x7F, 0xFE,
    0xFE, 0x7F, 0xFC, 0x3F, 0xF8, 0x1F, 0xF0, 0x0F]

  /** Go's copy(b[at:at+len(data)], data). */
  method CopyBytes(b: array<Byte>, at: nat, data: seq<Byte>)
    requires at + |data| <= b.Length
    modifies b
    ensures b[at..at + |data|] == data
    ensures forall k :: 0 <= k < b.Length && !(at <= k < at + |data|) ==> b[k] == old(b[k])
  {
    var i := 0;
    while i < |data|
      invariant 0 <= i <= |data| && b[at..at + i] == data[..i]
      invariant forall k :: 0 <= k < b.Length && !(at <= k < at + i) ==> b[k] == old(b[k])
    {
      b[at + i] := data[i];
      i := i + 1;
    }
  }

  method LocalCursor() returns (op: Operation)
    ensures |op.bytes| == 84 && op.increment && DrawsNothing(op) && SelfDelimiting(op.bytes)
    ensures Header(op.bytes, 0xA9, 7, 7, 16, 16) && op.bytes[1] == op.bytes[2] == op.bytes[3] == 0
    ensures op.bytes[12] == op.bytes[16] == 0
    ensures ColourField(op.bytes, 12) == Rgb(0, 0, 0) && ColourField(op.bytes, 16) == Rgb(255, 200, 0)
    ensures op.bytes[20..52] == CURSOR_BITMAP && op.bytes[52..84] == CURSOR_MASK
  {
    var b := NewOperation(OP_CURSOR, 7, 7, 16, 16, 72);
    ghost var header := b[..];
    b[18] := 200;
    b[19] := 255;
    CopyBytes(b, 20, CURSOR_BITMAP);
    ghost var bitmap := b[20..52];
    CopyBytes(b, 52, CURSOR_MASK);
    assert b[20..52] == bitmap;
    HeaderKept(header, b[..], OP_CURSOR, 7, 7, 16, 16);
    op := Operation(b[..], true);
  }

  method Copy(x: int, y: int, w: int, h: int, sourceX: int, sourceY: int) returns (op: Operation)
    ensures |op.bytes| == 16 && op.increment && IsCopy(op.bytes)
    ensures op.bytes[1] == op.bytes[2] == op.bytes[3] == 0
    ensures Fits(x, y, w, h) ==> Target(op.bytes) == Rect(x, y, x + w, y + h)
    ensures U16(op.bytes, 12) == Uint16(sourceX) && U16(op.bytes, 14) == Uint16(sourceY)
  {
    var b := NewOperation(OP_COPY, x, y, w, h, 4);
    PutUint16(b, 12, sourceX);
    PutUint16(b, 14, sourceY);
    HeaderExact(b[..], OP_COPY, x, y, w, h);
    op := Operation(b[..], true);
  }

  // ---------- RGB bitmaps ----------

  lemma DivMod(k: nat, d: nat, r: nat)
    requires r < d
    ensures (k * d + r) / d == k && (k * d + r) % d == r
  {
    var q := (k * d + r) / d;
    MulMono(q + 1, k, d);
    MulMono(k + 1, q, d);
  }

  /** Byte i of the packed rows: three bytes B,G,R a pixel, zeros up to the stride. */
  function RowByte(img: Image, rect: Rect, stride: nat, i: nat): Byte
    requires stride > 0
  {
    var row, off := i / stride, i % stride;
    var c := img.at(rect.minX + off / 3, rect.minY + row);
    if off >= 3 * rect.Dx() then 0 else if off % 3 == 0 then c.b else if off % 3 == 1 then c.g else c.r
  }

  lemma RowPadding(img: Image, rect: Rect, stride: nat, row: nat)
    requires 0 <= 3 * rect.Dx() <= stride && stride > 0
    ensures forall i: nat {:trigger RowByte(img, rect, stride, i)} ::
              Rows(row, stride) + 3 * rect.Dx() <= i < Rows(row + 1, stride) ==> RowByte(img, rect, stride, i) == 0
  {
    forall i: nat | Rows(row, stride) + 3 * rect.Dx() <= i < Rows(row + 1, stride)
      ensures i / stride == row && i % stride == i - Rows(row, stride)
    {
      DivMod(row, stride, i - Rows(row, stride));
    }
  }

  lemma PixelBytes(img: Image, rect: Rect, stride: nat, row: nat, x: nat)
    requires x < rect.Dx() && 3 * rect.Dx() <= stride
    ensures var c, i := img.at(rect.minX + x, rect.minY + row), Rows(row, stride) + 3 * x;
      RowByte(img, rect, stride, i) == c.b && RowByte(img, rect, stride, i + 1) == c.g
      && RowByte(img, rect, stride, i + 2) == c.r
  {
    DivMod(row, stride, 3 * x);
    DivMod(row, stride, 3 * x + 1);
    DivMod(row, stride, 3 * x + 2);
  }

  method PutPixel(b: array<Byte>, pos: nat, c: Rgba)
    requires pos + 2 < b.Length
    modifies b
    ensures b[pos] == c.b && b[pos + 1] == c.g && b[pos + 2] == c.r
    ensures forall k :: 0 <= k < b.Length && !(pos <= k < pos + 3) ==> b[k] == old(b[k])
  {
    b[pos] := c.b;
    b[pos + 1] := c.g;
    b[pos + 2] := c.r;
  }

  /** One row of BitmapRGB: the inner loop, writing from rowStart on. */
  method PackRgbRow(b: array<Byte>, img: Image, rect: Rect, stride: nat, row: nat, rowStart: nat)
    requires !rect.Empty() && stride == Round4(3 * rect.Dx())
    requires 12 <= rowStart == 12 + Rows(row, stride) && rowStart + stride <= b.Length
    requires forall i :: rowStart <= i < b.Length ==> b[i] == 0
    modifies b
    ensures forall i :: 0 <= i < b.Length && (i < rowStart || rowStart + stride <= i) ==> b[i] == old(b[i])
    ensures forall i :: rowStart <= i < rowStart + stride ==> b[i] == RowByte(img, rect, stride, i - 12)
  {
    hide RowByte, Rows;
    var pos := rowStart;
    var x := 0;
    while x < rect.Dx()
      invariant 0 <= x <= rect.Dx()
      invariant pos == rowStart + 3 * x
      invariant forall i :: 0 <= i < b.Length && (i < rowStart || pos <= i) ==> b[i] == old(b[i])
      invariant forall i :: rowStart <= i < pos ==> b[i] == RowByte(img, rect, stride, i - 12)
    {
      var c := img.at(rect.minX + x, rect.minY + row);
      PixelBytes(img, rect, stride, row, x);
      PutPixel(b, pos, c);
      pos := pos + 3;
      x := x + 1;
    }
    RowsStep(row, stride);
    RowPadding(img, rect, stride, row);
  }

  /** The outer loop of BitmapRGB. */
  method PackRgbRows(b: array<Byte>, img: Image, rect: Rect, stride: nat)
    requires !rect.Empty() && stride == Round4(3 * rect.Dx()) && b.Length == 12 + Rows(rect.Dy(), stride)
    requires forall i :: 12 <= i < b.Length ==> b[i] == 0
    modifies b
    ensures forall i :: 0 <= i < 12 ==> b[i] == old(b[i])
    ensures forall i :: 12 <= i < b.Length ==> b[i] == RowByte(img, rect, stride, i - 12)
  {
    hide RowByte, Rows;
    RowsStep(0, stride);
    RowsMono(0, rect.Dy(), stride);
    var pos := 12;
    var y := rect.minY;
    while y < rect.maxY
      invariant rect.minY <= y <= rect.maxY
      invariant pos == 12 + Rows(y - rect.minY, stride)
      invariant forall i :: 0 <= i < 12 ==> b[i] == old(b[i])
      invariant forall i :: 12 <= i < b.Length ==> b[i] == if i < pos then RowByte(img, rect, stride, i - 12) else 0
    {
      RowsStep(y - rect.minY, stride);
      RowsMono(y - rect.minY + 1, rect.Dy(), stride);
      RowsMono(0, y - rect.minY, stride);
      PackRgbRow(b, img, rect, stride, y - rect.minY, pos);
      pos := pos + stride;
      y := y + 1;
    }
  }

  method BitmapRGB(img: Image, rect: Rect, dst: Point) returns (r: Result<Operation>)
    ensures r.Ok? <==> !rect.Empty() && rect.In(img.bounds)
    ensures r.Ok? ==> |r.value.bytes| == 12 + Rows(rect.Dy(), Round4(3 * rect.Dx()))
    ensures r.Ok? && Fits(dst.x, dst.y, rect.Dx(), rect.Dy()) ==>
              PaintsOne(r.value, Rect(dst.x, dst.y, dst.x + rect.Dx(), dst.y + rect.Dy()),
                        Shifted(img, dst.x - rect.minX, dst.y - rect.minY))
  {
    if rect.Empty() || !rect.In(img.bounds) {
      return Err("bitmap rectangle is outside image bounds");
    }
    hide RowByte, IsPaint, PaintColour, Rows, Round4, Shifted;
    var stride := Round4(3 * rect.Dx());
    RowsStep(0, stride);
    RowsMono(0, rect.Dy(), stride);
    var b := NewOperation(OP_BITMAP_RGB, dst.x, dst.y, rect.Dx(), rect.Dy(), Rows(rect.Dy(), stride));
    ghost var header := b[..];
    PackRgbRows(b, img, rect, stride);
    HeaderKept(header, b[..], OP_BITMAP_RGB, dst.x, dst.y, rect.Dx(), rect.Dy());
    BitmapRgbDecodes(b[..], img, rect, dst);
    return Ok(Operation(b[..], true));
  }

  lemma RgbPixelDecodes(b: seq<Byte>, img: Image, rect: Rect, stride: nat, col: nat, row: nat)
    requires col < rect.Dx() && row < rect.Dy()
    requires stride == Round4(3 * rect.Dx()) && |b| == 12 + Rows(rect.Dy(), stride)
    requires forall i :: 12 <= i < |b| ==> b[i] == RowByte(img, rect, stride, i - 12)
    ensures PixelField(b, 12 + Rows(row, stride) + 3 * col) == Opaque(img.at(rect.minX + col, rect.minY + row))
  {
    RowsStep(row, stride);
    RowsMono(row + 1, rect.Dy(), stride);
    PixelBytes(img, rect, stride, row, col);
  }

  lemma BitmapRgbDecodes(b: seq<Byte>, img: Image, rect: Rect, dst: Point)
    requires !rect.Empty()
    requires Header(b, OP_BITMAP_RGB, dst.x, dst.y, rect.Dx(), rect.Dy())
    requires |b| == 12 + Rows(rect.Dy(), Round4(3 * rect.Dx()))
    requires forall i :: 12 <= i < |b| ==> b[i] == RowByte(img, rect, Round4(3 * rect.Dx()), i - 12)
    ensures Fits(dst.x, dst.y, rect.Dx(), rect.Dy()) ==>
              PaintsOne(Operation(b, true), Rect(dst.x, dst.y, dst.x + rect.Dx(), dst.y + rect.Dy()),
                        Shifted(img, dst.x - rect.minX, dst.y - rect.minY))
  {
    if Fits(dst.x, dst.y, rect.Dx(), rect.Dy()) {
      HeaderExact(b, OP_BITMAP_RGB, dst.x, dst.y, rect.Dx(), rect.Dy());
      assert U16(b, 8) == rect.Dx() && U16(b, 10) == rect.Dy();
      assert IsPaint(b);
      forall x, y | Target(b).Contains(x, y)
        ensures PaintColour(b, x, y) == Shifted(img, dst.x - rect.minX, dst.y - rect.minY)(x, y)
      {
        RgbPixelDecodes(b, img, rect, Round4(3 * rect.Dx()), x - dst.x, y - dst.y);
      }
    }
  }

  // ---------- two-colour bitmaps ----------

  /** The byte whose bit k, counted from the most significant, is f(k). */
  function Assemble(f: int -> bool): Byte {
    (if f(0) then 128 else 0) + (if f(1) then 64 else 0) + (if f(2) then 32 else 0) + (if f(3) then 16 else 0)
    + (if f(4) then 8 else 0) + (if f(5) then 4 else 0) + (if f(6) then 2 else 0) + (if f(7) then 1 else 0)
  }

  lemma FourBits(n: nat, a: nat, b: nat, c: nat, d: nat)
    requires a <= 1 && b <= 1 && c <= 1 && d <= 1 && n == 8 * a + 4 * b + 2 * c + d
    ensures n / 8 % 2 == a && n / 4 % 2 == b && n / 2 % 2 == c && n % 2 == d
  {
  }

  lemma HighNibble(n: nat, high: nat, low: nat)
    requires low < 16 && n == 16 * high + low
    ensures n / 128 == high / 8 && n / 64 == high / 4 && n / 32 == high / 2 && n / 16 == high
  {
  }

  lemma Parity(m: nat, q: nat)
    ensures (2 * m + q) % 2 == q % 2
  {
  }

  lemma LowQuotients(n: nat, high: nat, low: nat)
    requires low < 16 && n == 16 * high + low
    ensures n / 8 == 2 * high + low / 8 && n / 4 == 4 * high + low / 4 && n / 2 == 8 * high + low / 2
  {
  }

  lemma LowNibble(n: nat, high: nat, low: nat)
    requires low < 16 && n == 16 * high + low
    ensures n / 8 % 2 == low / 8 % 2 && n / 4 % 2 == low / 4 % 2 && n / 2 % 2 == low / 2 % 2 && n % 2 == low % 2
  {
    LowQuotients(n, high, low);
    Parity(high, low / 8);
    Parity(2 * high, low / 4);
    Parity(4 * high, low / 2);
    Parity(8 * high, low);
  }

  lemma EightBits(n: nat, a: nat, b: nat, c: nat, d: nat, e: nat, g: nat, h: nat, i: nat)
    requires a <= 1 && b <= 1 && c <= 1 && d <= 1 && e <= 1 && g <= 1 && h <= 1 && i <= 1
    requires n == 128 * a + 64 * b + 32 * c + 16 * d + 8 * e + 4 * g + 2 * h + i
    ensures n / 128 % 2 == a && n / 64 % 2 == b && n / 32 % 2 == c && n / 16 % 2 == d
    ensures n / 8 % 2 == e && n / 4 % 2 == g && n / 2 % 2 == h && n % 2 == i
  {
    var high, low := 8 * a + 4 * b + 2 * c + d, 8 * e + 4 * g + 2 * h + i;
    HighNibble(n, high, low);
    LowNibble(n, high, low);
    FourBits(high, a, b, c, d);
    FourBits(low, e, g, h, i);
  }

  function Indicator(f: bool): nat { if f then 1 else 0 }

  lemma AssembleBit(f: int -> bool, k: nat)
    requires k < 8
    ensures Bit(Assemble(f), k) <==> f(k)
  {
    EightBits(Assemble(f), Indicator(f(0)), Indicator(f(1)), Indicator(f(2)), Indicator(f(3)),
              Indicator(f(4)), Indicator(f(5)), Indicator(f(6)), Indicator(f(7)));
    if k < 4 {
      assert k == 0 || k == 1 || k == 2 || k == 3;
    } else {
      assert k == 4 || k == 5 || k == 6 || k == 7;
    }
  }

  /** Go's b | 1<<(7-k), bit by bit. */
  function SetBit(b: Byte, k: nat): Byte {
    Assemble(j => j == k || (0 <= j < 8 && Bit(b, j)))
  }

  /** The pixel of column 8*bc+k was processed (it lies below `limit`) and has colour c1. */
  predicate Flag(img: Image, rect: Rect, c1: Rgba, row: int, bc: int, limit: int, k: int) {
    8 * bc + k < limit && img.at(rect.minX + 8 * bc + k, rect.minY + row) == c1
  }

  /** Plane byte bc of a row after its columns below `limit` were processed. */
  function PlaneByte(img: Image, rect: Rect, c1: Rgba, row: int, bc: int, limit: int): Byte {
    Assemble(k => Flag(img, rect, c1, row, bc, limit, k))
  }

  lemma AssembleExtensional(f: int -> bool, g: int -> bool)
    requires forall k :: 0 <= k < 8 ==> f(k) == g(k)
    ensures Assemble(f) == Assemble(g)
  {
  }

  /** Setting the bit of column `x` extends the processed columns by one. */
  lemma PlaneStep(img: Image, rect: Rect, c1: Rgba, row: int, x: nat)
    ensures PlaneByte(img, rect, c1, row, x / 8, x + 1) ==
              var before := PlaneByte(img, rect, c1, row, x / 8, x);
              if img.at(rect.minX + x, rect.minY + row) == c1 then SetBit(before, x % 8) else before
  {
    var f := (k: int) => Flag(img, rect, c1, row, x / 8, x, k);
    var g := (k: int) => Flag(img, rect, c1, row, x / 8, x + 1, k);
    assert forall k :: 0 <= k < 8 && k != x % 8 ==> f(k) == g(k);
    assert !f(x % 8) && (g(x % 8) <==> img.at(rect.minX + x, rect.minY + row) == c1);
    if img.at(rect.minX + x, rect.minY + row) == c1 {
      var b := Assemble(f);
      var s := (j: int) => j == x % 8 || (0 <= j < 8 && Bit(b, j));
      forall k | 0 <= k < 8
        ensures s(k) == g(k)
      {
        AssembleBit(f, k);
      }
      AssembleExtensional(s, g);
    } else {
      AssembleExtensional(f, g);
    }
  }

  lemma PlaneByteLimit(img: Image, rect: Rect, c1: Rgba, row: int, bc: int, limit: int, limit': int)
    requires limit == limit' || (8 * bc + 8 <= limit && 8 * bc + 8 <= limit')
                             || (limit <= 8 * bc && limit' <= 8 * bc)
    ensures PlaneByte(img, rect, c1, row, bc, limit) == PlaneByte(img, rect, c1, row, bc, limit')
  {
    AssembleExtensional(k => Flag(img, rect, c1, row, bc, limit, k), k => Flag(img, rect, c1, row, bc, limit', k));
  }

  lemma EmptyPlaneByte(img: Image, rect: Rect, c1: Rgba, row: int, bc: int, limit: int)
    requires limit <= 8 * bc
    ensures PlaneByte(img, rect, c1, row, bc, limit) == 0
  {
  }

  /** Byte i of the finished plane, and of its padding. */
  function PlaneAt(img: Image, rect: Rect, c1: Rgba, stride: nat, i: nat): Byte
    requires stride > 0
  {
    if i / stride < rect.Dy() then PlaneByte(img, rect, c1, i / stride, i % stride, rect.Dx()) else 0
  }

  /** A row of the finished plane, byte by byte. */
  lemma PlaneRow(img: Image, rect: Rect, c1: Rgba, stride: nat, row: nat, bc: nat)
    requires row < rect.Dy() && bc < stride
    ensures PlaneAt(img, rect, c1, stride, Rows(row, stride) + bc) == PlaneByte(img, rect, c1, row, bc, rect.Dx())
  {
    DivMod(row, stride, bc);
  }

  /** Processing column x changes plane byte x/8 and no other. */
  lemma PlaneOthers(img: Image, rect: Rect, c1: Rgba, row: int, x: nat)
    ensures forall bc: nat :: bc != x / 8 ==>
              PlaneByte(img, rect, c1, row, bc, x + 1) == PlaneByte(img, rect, c1, row, bc, x)
  {
    forall bc: nat | bc != x / 8
      ensures PlaneByte(img, rect, c1, row, bc, x + 1) == PlaneByte(img, rect, c1, row, bc, x)
    {
      PlaneByteLimit(img, rect, c1, row, bc, x + 1, x);
    }
  }

  /** One row of BitmapBiColor: the inner loop, setting bits from byte `start` on. */
  method PackPlaneRow(b: array<Byte>, img: Image, rect: Rect, c1: Rgba, stride: nat, row: nat, start: nat)
    requires !rect.Empty() && stride == (rect.Dx() + 7) / 8 && row < rect.Dy()
    requires 20 <= start == 20 + Rows(row, stride) && start + stride <= b.Length
    requires forall i :: start <= i < b.Length ==> b[i] == 0
    modifies b
    ensures forall i :: 0 <= i < b.Length && (i < start || start + stride <= i) ==> b[i] == old(b[i])
    ensures forall i :: start <= i < start + stride ==> b[i] == PlaneAt(img, rect, c1, stride, i - 20)
  {
    hide SetBit, PlaneByte, PlaneAt;
    forall i: nat
      ensures PlaneByte(img, rect, c1, row, i, 0) == 0
    {
      EmptyPlaneByte(img, rect, c1, row, i, 0);
    }
    var x := 0;
    while x < rect.Dx()
      invariant 0 <= x <= rect.Dx()
      invariant forall i :: 0 <= i < b.Length && (i < start || start + stride <= i) ==> b[i] == old(b[i])
      invariant forall i :: start <= i < start + stride ==> b[i] == PlaneByte(img, rect, c1, row, i - start, x)
    {
      PlaneStep(img, rect, c1, row, x);
      PlaneOthers(img, rect, c1, row, x);
      if img.at(rect.minX + x, rect.minY + row) == c1 {
        b[start + x / 8] := SetBit(b[start + x / 8], x % 8);
      }
      x := x + 1;
    }
    forall i | start <= i < start + stride
      ensures b[i] == PlaneAt(img, rect, c1, stride, i - 20)
    {
      PlaneRow(img, rect, c1, stride, row, i - start);
    }
  }

  method SetOperationColour(b: array<Byte>, i: nat, c: Rgba)
    requires i + 3 < b.Length
    modifies b
    ensures ColourField(b[..], i) == Opaque(c)
    ensures forall k :: 0 <= k < b.Length && !(i <= k < i + 4) ==> b[k] == old(b[k])
  {
    b[i] := 0;
    b[i + 1] := c.b;
    b[i + 2] := c.g;
    b[i + 3] := c.r;
  }

  /** Every pixel of the rectangle has one of the two colours. */
  ghost predicate TwoColoured(img: Image, rect: Rect, c0: Rgba, c1: Rgba) {
    forall x, y :: rect.Contains(x, y) ==> img.at(x, y) == c0 || img.at(x, y) == c1
  }

  /** The outer loop of BitmapBiColor. */
  method PackPlane(b: array<Byte>, img: Image, rect: Rect, c1: Rgba, stride: nat)
    requires !rect.Empty() && stride == (rect.Dx() + 7) / 8 && 20 + Rows(rect.Dy(), stride) <= b.Length
    requires forall i :: 20 <= i < b.Length ==> b[i] == 0
    modifies b
    ensures forall i :: 0 <= i < 20 ==> b[i] == old(b[i])
    ensures forall i :: 20 <= i < 20 + Rows(rect.Dy(), stride) ==> b[i] == PlaneAt(img, rect, c1, stride, i - 20)
  {
    hide PlaneAt, Rows;
    RowsStep(0, stride);
    RowsMono(0, rect.Dy(), stride);
    var y := rect.minY;
    var row := 20;
    while y < rect.maxY
      invariant rect.minY <= y <= rect.maxY
      invariant row == 20 + Rows(y - rect.minY, stride)
      invariant forall i :: 0 <= i < 20 ==> b[i] == old(b[i])
      invariant forall i :: 20 <= i < b.Length ==>
                              b[i] == if i < row then PlaneAt(img, rect, c1, stride, i - 20) else 0
    {
      RowsStep(y - rect.minY, stride);
      RowsMono(y - rect.minY + 1, rect.Dy(), stride);
      RowsMono(0, y - rect.minY, stride);
      PackPlaneRow(b, img, rect, c1, stride, y - rect.minY, row);
      y := y + 1;
      row := row + stride;
    }
  }

  method BitmapBiColor(img: Image, rect: Rect, dst: Point, c0: Rgba, c1: Rgba) returns (r: Result<Operation>)
    ensures r.Ok? <==> !rect.Empty() && rect.In(img.bounds)
    ensures r.Ok? ==> |r.value.bytes| == 20 + Round4(Rows(rect.Dy(), (rect.Dx() + 7) / 8))
    ensures r.Ok? && Fits(dst.x, dst.y, rect.Dx(), rect.Dy()) && TwoColoured(img, rect, c0, c1) ==>
              PaintsOne(r.value, Rect(dst.x, dst.y, dst.x + rect.Dx(), dst.y + rect.Dy()),
                        Shifted(img, dst.x - rect.minX, dst.y - rect.minY))
  {
    if rect.Empty() || !rect.In(img.bounds) {
      return Err("bitmap rectangle is outside image bounds");
    }
    hide PlaneAt, IsPaint, PaintColour, Rows, Shifted;
    var stride := (rect.Dx() + 7) / 8;
    RowsStep(0, stride);
    RowsMono(0, rect.Dy(), stride);
    var b := NewOperation(OP_BITMAP, dst.x, dst.y, rect.Dx(), rect.Dy(), 8 + Round4(Rows(rect.Dy(), stride)));
    ghost var header := b[..];
    SetOperationColour(b, 12, c0);
    SetOperationColour(b, 16, c1);
    ghost var colours := b[..];
    PackPlane(b, img, rect, c1, stride);
    HeaderKept(header, b[..], OP_BITMAP, dst.x, dst.y, rect.Dx(), rect.Dy());
    assert ColourField(b[..], 12) == ColourField(colours, 12) && ColourField(b[..], 16) == ColourField(colours, 16);
    BiColourDecodes(b[..], img, rect, dst, c0, c1);
    return Ok(Operation(b[..], true));
  }

  lemma PlanePixelDecodes(b: seq<Byte>, img: Image, rect: Rect, stride: nat, c1: Rgba, col: nat, row: nat)
    requires col < rect.Dx() && row < rect.Dy()
    requires stride == (rect.Dx() + 7) / 8 && |b| >= 20 + Rows(rect.Dy(), stride)
    requires forall i :: 20 <= i < 20 + Rows(rect.Dy(), stride) ==> b[i] == PlaneAt(img, rect, c1, stride, i - 20)
    ensures Bit(At(b, 20 + Rows(row, stride) + col / 8), col % 8) <==> img.at(rect.minX + col, rect.minY + row) == c1
  {
    RowsStep(row, stride);
    RowsMono(row + 1, rect.Dy(), stride);
    DivMod(row, stride, col / 8);
    AssembleBit(k => Flag(img, rect, c1, row, col / 8, rect.Dx(), k), col % 8);
  }

  lemma BiColourDecodes(b: seq<Byte>, img: Image, rect: Rect, dst: Point, c0: Rgba, c1: Rgba)
    requires !rect.Empty()
    requires Header(b, OP_BITMAP, dst.x, dst.y, rect.Dx(), rect.Dy())
    requires |b| == 20 + Round4(Rows(rect.Dy(), (rect.Dx() + 7) / 8))
    requires ColourField(b, 12) == Opaque(c0) && ColourField(b, 16) == Opaque(c1)
    requires forall i :: 20 <= i < 20 + Rows(rect.Dy(), (rect.Dx() + 7) / 8) ==>
                           b[i] == PlaneAt(img, rect, c1, (rect.Dx() + 7) / 8, i - 20)
    ensures Fits(dst.x, dst.y, rect.Dx(), rect.Dy()) && TwoColoured(img, rect, c0, c1) ==>
              PaintsOne(Operation(b, true), Rect(dst.x, dst.y, dst.x + rect.Dx(), dst.y + rect.Dy()),
                        Shifted(img, dst.x - rect.minX, dst.y - rect.minY))
  {
    if Fits(dst.x, dst.y, rect.Dx(), rect.Dy()) && TwoColoured(img, rect, c0, c1) {
      HeaderExact(b, OP_BITMAP, dst.x, dst.y, rect.Dx(), rect.Dy());
      assert U16(b, 8) == rect.Dx() && U16(b, 10) == rect.Dy();
      assert IsPaint(b);
      forall x, y | Target(b).Contains(x, y)
        ensures PaintColour(b, x, y) == Shifted(img, dst.x - rect.minX, dst.y - rect.minY)(x, y)
      {
        PlanePixelDecodes(b, img, rect, (rect.Dx() + 7) / 8, c1, x - dst.x, y - dst.y);
        assert rect.Contains(x - dst.x + rect.minX, y - dst.y + rect.minY);
      }
    }
  }
}
