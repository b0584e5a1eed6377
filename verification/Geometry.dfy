/** Exact integer plane geometry: points, slope comparison, the orientation test,
    and lines y = (dy * x + c) / dx given by integer coefficients with dx > 0. */
module Geometry {

  datatype Point = Point(x: int, y: int)

  /** The vector between two points, compared as a slope by cross-multiplication. */
  datatype Slope = Slope(dx: int, dy: int) {
    predicate Less(that: Slope) { dy * that.dx < dx * that.dy }
    predicate Greater(that: Slope) { dy * that.dx > dx * that.dy }
  }

  function Minus(p: Point, q: Point): Slope { Slope(p.x - q.x, p.y - q.y) }

  function Cross(o: Point, a: Point, b: Point): int {
    Minus(a, o).dx * Minus(b, o).dy - Minus(a, o).dy * Minus(b, o).dx
  }

  datatype Line = Line(dx: int, dy: int, c: int)

  /** Positive when the line passes above the point, zero on it, negative below
      (for dx > 0, scaled by dx). Linear in the line and affine in the point. */
  function Height(g: Line, p: Point): int { g.dy * p.x + g.c - g.dx * p.y }

  function Through(p: Point, q: Point): Line {
    var d := Minus(q, p);
    Line(d.dx, d.dy, d.dx * p.y - d.dy * p.x)
  }

  lemma HeightIsCross(p: Point, q: Point, z: Point)
    ensures Height(Through(p, q), z) == -Cross(p, q, z)
  {}

  /** The one polynomial identity behind every argument below: how the height of g
      at u follows from its heights at l and q and the orientation of the three. */
  lemma Interpolate(g: Line, l: Point, q: Point, u: Point)
    ensures (q.x - l.x) * Height(g, u)
         == (q.x - u.x) * Height(g, l) + (u.x - l.x) * Height(g, q) - g.dx * Cross(l, q, u)
  {}

  lemma FourPointIdentities(a: Point, b: Point, c: Point, d: Point)
    ensures (c.x - b.x) * Cross(a, b, d) == (d.x - b.x) * Cross(a, b, c) + (b.x - a.x) * Cross(b, c, d)
    ensures (c.x - b.x) * Cross(a, c, d) == (d.x - c.x) * Cross(a, b, c) + (c.x - a.x) * Cross(b, c, d)
  {}

  lemma FanIdentity(o: Point, u: Point, v: Point, w: Point)
    ensures (u.x - o.x) * Cross(o, v, w) == (v.x - o.x) * Cross(o, u, w) - (w.x - o.x) * Cross(o, u, v)
  {}

  /** Cyclic rotation keeps the orientation, a swap negates it. */
  lemma CrossSymmetry(a: Point, b: Point, c: Point)
    ensures Cross(a, b, c) == Cross(b, c, a) == Cross(c, a, b)
    ensures Cross(a, c, b) == -Cross(a, b, c)
  {}
}
