/**
  Store-plane geometry: integer points (every layout constant of the store is an
  integer), real points for sampled positions and curve control points, and
  axis-aligned rectangles with inclusive bounds.
*/
module Geometry {

  datatype Point = Point(x: int, y: int)

  datatype RPoint = RPoint(x: real, y: real)

  /** An axis-aligned rectangle `{x, y, width, height}`. */
  datatype Rect = Rect(x: int, y: int, width: int, height: int) {
    predicate WellFormed() { width >= 0 && height >= 0 }
    function Right(): int { x + width }
    function Bottom(): int { y + height }
  }

  function ToReal(p: Point): RPoint {
    RPoint(p.x as real, p.y as real)
  }

  function Abs(n: int): (r: nat)
    ensures r == n || r == -n
  {
    if n < 0 then -n else n
  }

  function Max(a: int, b: int): int { if a < b then b else a }
  function Min(a: int, b: int): int { if a < b then a else b }

  function RAbs(r: real): (a: real)
    ensures a >= 0.0 && (a == r || a == -r)
  {
    if r < 0.0 then -r else r
  }

  function RMax(a: real, b: real): real { if a < b then b else a }
  function RMin(a: real, b: real): real { if a < b then a else b }

  /** The inclusive rectangle test `x >= r.x && x <= r.x + r.width && y >= r.y && y <= r.y + r.height`. */
  predicate InRect(r: Rect, x: real, y: real) {
    r.x as real <= x <= r.Right() as real && r.y as real <= y <= r.Bottom() as real
  }

  /** The same test for an integer point. */
  predicate ContainsPoint(r: Rect, p: Point) {
    InRect(r, p.x as real, p.y as real)
  }

}
