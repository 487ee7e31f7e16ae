/** Integer rectangles with the conventions of Go's package image: Max is exclusive,
    and an empty intersection is the zero rectangle. */
module Geometry {

  datatype Option<+T> = None | Some(value: T)

  datatype Result<+T> = Ok(value: T) | Err(message: string)

  function Min(a: int, b: int): (m: int)
    ensures m <= a && m <= b && (m == a || m == b)
  {
    if a <= b then a else b
  }

  function Max(a: int, b: int): (m: int)
    ensures a <= m && b <= m && (m == a || m == b)
  {
    if a <= b then b else a
  }

  /** The quotient rounded up. */
  function DivideCeil(value: nat, divisor: nat): nat
    requires divisor > 0
  {
    (value + divisor - 1) / divisor
  }

  datatype Point = Point(x: int, y: int)

  datatype Rect = Rect(minX: int, minY: int, maxX: int, maxY: int) {

    function Dx(): int { maxX - minX }

    function Dy(): int { maxY - minY }

    predicate Empty() { minX >= maxX || minY >= maxY }

    predicate Contains(x: int, y: int) { minX <= x < maxX && minY <= y < maxY }

    function Intersect(s: Rect): (r: Rect)
      ensures forall x, y :: r.Contains(x, y) <==> Contains(x, y) && s.Contains(x, y)
    {
      var c := Rect(Max(minX, s.minX), Max(minY, s.minY), Min(maxX, s.maxX), Min(maxY, s.maxY));
      if c.Empty() then Rect(0, 0, 0, 0) else c
    }

    /** The smallest rectangle containing both; an empty operand is ignored. */
    function Union(s: Rect): (r: Rect)
      ensures forall x, y :: Contains(x, y) || s.Contains(x, y) ==> r.Contains(x, y)
    {
      if Empty() then s
      else if s.Empty() then this
      else Rect(Min(minX, s.minX), Min(minY, s.minY), Max(maxX, s.maxX), Max(maxY, s.maxY))
    }

    predicate In(s: Rect) {
      Empty() || (s.minX <= minX && maxX <= s.maxX && s.minY <= minY && maxY <= s.maxY)
    }

    predicate Overlaps(s: Rect) {
      !Empty() && !s.Empty() && minX < s.maxX && s.minX < maxX && minY < s.maxY && s.minY < maxY
    }

    /** Grows the rectangle by n on every side (Inset(-n) in Go, for n >= 0). */
    function Grow(n: nat): Rect {
      if Dx() < -2 * n || Dy() < -2 * n then Rect(0, 0, 0, 0)
      else Rect(minX - n, minY - n, maxX + n, maxY + n)
    }

    function Add(dx: int, dy: int): (r: Rect)
      ensures forall x, y :: r.Contains(x, y) <==> Contains(x - dx, y - dy)
    {
      Rect(minX + dx, minY + dy, maxX + dx, maxY + dy)
    }
  }
}
