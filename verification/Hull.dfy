/** The two partial hulls of the streaming fit, treated alike: sign s = 1 reads a
    chain as points a line must pass above, s = -1 as points it must pass below. */
module Hull {
  import opened Geometry

  /** Every point of pts is on the s side of g. */
  ghost predicate Clears(s: int, g: Line, pts: seq<Point>) {
    forall i :: 0 <= i < |pts| ==> s * Height(g, pts[i]) >= 0
  }

  /** The line from p to q respects every lower point (s = 1 for near = lower) and
      every upper one. */
  ghost predicate Fits(s: int, p: Point, q: Point, near: seq<Point>, far: seq<Point>) {
    && p.x < q.x
    && (forall i :: 0 <= i < |near| ==> s * Cross(p, q, near[i]) <= 0)
    && (forall i :: 0 <= i < |far| ==> s * Cross(p, q, far[i]) >= 0)
  }

  /** Increasing in x and strictly bending to one side, for every triple. */
  ghost predicate Chain(s: int, c: seq<Point>) {
    && (forall i, j :: 0 <= i < j < |c| ==> c[i].x < c[j].x)
    && (forall i, j, k :: 0 <= i < j < k < |c| ==> s * Cross(c[i], c[j], c[k]) < 0)
  }

  /** A line that clears the two chains clears every point seen so far. */
  ghost predicate Complete(s: int, near: seq<Point>, far: seq<Point>, nearChain: seq<Point>, farChain: seq<Point>) {
    forall g: Line :: g.dx > 0 && Clears(s, g, nearChain) && Clears(-s, g, farChain)
                      ==> Clears(s, g, near) && Clears(-s, g, far)
  }

  lemma MirrorComplete(s: int, near: seq<Point>, far: seq<Point>, nearChain: seq<Point>, farChain: seq<Point>)
    requires Complete(s, near, far, nearChain, farChain)
    ensures Complete(-s, far, near, farChain, nearChain)
  {
    assert -(-s) == s;
  }

  lemma MirrorFits(s: int, p: Point, q: Point, near: seq<Point>, far: seq<Point>)
    requires Fits(s, p, q, near, far)
    ensures Fits(-s, p, q, far, near)
  {
    forall i | 0 <= i < |far| ensures -s * Cross(p, q, far[i]) <= 0 { assert s * Cross(p, q, far[i]) >= 0; }
    forall i | 0 <= i < |near| ensures -s * Cross(p, q, near[i]) >= 0 { assert s * Cross(p, q, near[i]) <= 0; }
  }

  lemma MulSign(k: int, v: int)
    requires k > 0
    ensures k * v <= 0 <==> v <= 0
    ensures k * v < 0 <==> v < 0
  {}

  /** The sign of v when a positive multiple of it is a sum of two signed products. */
  lemma SumSign(k: int, v: int, p: int, a: int, q: int, b: int)
    requires k > 0 && k * v == p * a + q * b
    requires p >= 0 && q >= 0 && a <= 0 && b <= 0
    ensures v <= 0
    ensures (p > 0 && a < 0) || (q > 0 && b < 0) ==> v < 0
  {
    assert p * a <= 0 && q * b <= 0;
    if p > 0 && a < 0 { MulSign(p, a); }
    if q > 0 && b < 0 { MulSign(q, b); }
    MulSign(k, v);
  }

  lemma MulNonNeg(a: int, b: int)
    requires a >= 0 && b >= 0
    ensures a * b >= 0
  {}

  /** A sign factor distributes over a sum of products. */
  lemma ScaleSum(s: int, k: int, v: int, p: int, a: int, q: int, b: int, d: int, c: int)
    requires s == 1 || s == -1
    requires k * v == p * a + q * b - d * c
    ensures k * (s * v) == p * (s * a) + q * (s * b) - d * (s * c)
  {
    if s == -1 {
      assert k * -v == -(k * v) && p * -a == -(p * a) && q * -b == -(q * b) && d * -c == -(d * c);
    }
  }

  lemma FourPoints(s: int, a: Point, b: Point, c: Point, d: Point)
    requires s == 1 || s == -1
    requires a.x < b.x < c.x < d.x
    requires s * Cross(a, b, c) < 0 && s * Cross(b, c, d) <= 0
    ensures s * Cross(a, b, d) < 0
    ensures s * Cross(a, c, d) <= 0 && (s * Cross(b, c, d) < 0 ==> s * Cross(a, c, d) < 0)
  {
    hide Cross;
    FourPointIdentities(a, b, c, d);
    var abc, bcd := Cross(a, b, c), Cross(b, c, d);
    ScaleSum(s, c.x - b.x, Cross(a, b, d), d.x - b.x, abc, b.x - a.x, bcd, 0, 0);
    ScaleSum(s, c.x - b.x, Cross(a, c, d), d.x - c.x, abc, c.x - a.x, bcd, 0, 0);
    SumSign(c.x - b.x, s * Cross(a, b, d), d.x - b.x, s * abc, b.x - a.x, s * bcd);
    SumSign(c.x - b.x, s * Cross(a, c, d), d.x - c.x, s * abc, c.x - a.x, s * bcd);
  }

  lemma LastEdge(s: int, c: seq<Point>, p: Point, i: nat)
    requires s == 1 || s == -1
    requires Chain(s, c) && i < |c| - 1 && c[|c| - 1].x < p.x
    requires s * Cross(c[|c| - 2], c[|c| - 1], p) < 0
    ensures s * Cross(c[i], c[|c| - 1], p) < 0
  {
    hide Cross;
    if i < |c| - 2 { FourPoints(s, c[i], c[|c| - 2], c[|c| - 1], p); }
  }

  /** Appending a point that turns the right way keeps the whole chain bent. */
  lemma Push(s: int, c: seq<Point>, p: Point)
    requires s == 1 || s == -1
    requires Chain(s, c) && |c| > 0 && c[|c| - 1].x < p.x
    requires |c| >= 2 ==> s * Cross(c[|c| - 2], c[|c| - 1], p) < 0
    ensures Chain(s, c + [p])
  {
    hide Cross;
    var n := |c|;
    var d := c + [p];
    forall i, j | 0 <= i < j < n ensures s * Cross(c[i], c[j], p) < 0 {
      LastEdge(s, c, p, i);
      if j < n - 1 {
        LastEdge(s, c, p, j);
        FourPoints(s, c[i], c[j], c[n - 1], p);
      }
    }
    forall i, j, k | 0 <= i < j < k < |d| ensures s * Cross(d[i], d[j], d[k]) < 0 {
      if k < n {
        assert s * Cross(c[i], c[j], c[k]) < 0;
      }
    }
  }

  lemma FanSign(s: int, o: Point, u: Point, q: Point, w: Point)
    requires s == 1 || s == -1
    requires o.x < u.x && o.x < q.x && o.x < w.x
    requires s * Cross(o, u, q) > 0 && s * Cross(o, u, w) <= 0
    ensures s * Cross(o, q, w) <= 0
  {
    hide Cross;
    FanIdentity(o, u, q, w);
    var ouw, ouq := s * Cross(o, u, w), s * Cross(o, u, q);
    ScaleSum(s, u.x - o.x, Cross(o, q, w), q.x - o.x, Cross(o, u, w), 0, 0, w.x - o.x, Cross(o, u, q));
    assert (w.x - o.x) * -ouq == -((w.x - o.x) * ouq);
    SumSign(u.x - o.x, s * Cross(o, q, w), q.x - o.x, ouw, w.x - o.x, -ouq);
  }

  /** The tangent from q: a chain point whose neighbours are both on the right side
      of the line to q has the whole chain on that side. */
  lemma Tangent(s: int, c: seq<Point>, m: nat, q: Point)
    requires s == 1 || s == -1
    requires Chain(s, c) && m < |c| && c[m].x < q.x
    requires m > 0 ==> s * Cross(c[m - 1], c[m], q) <= 0
    requires m + 1 < |c| ==> s * Cross(c[m], c[m + 1], q) > 0
    ensures forall k :: 0 <= k < |c| ==> s * Cross(c[m], q, c[k]) <= 0
  {
    forall k | 0 <= k < |c| ensures s * Cross(c[m], q, c[k]) <= 0 {
      TangentAt(s, c, m, q, k);
    }
  }

  lemma TangentAt(s: int, c: seq<Point>, m: nat, q: Point, k: nat)
    requires s == 1 || s == -1
    requires Chain(s, c) && m < |c| && c[m].x < q.x && k < |c|
    requires m > 0 ==> s * Cross(c[m - 1], c[m], q) <= 0
    requires m + 1 < |c| ==> s * Cross(c[m], c[m + 1], q) > 0
    ensures s * Cross(c[m], q, c[k]) <= 0
  {
    CrossSymmetry(c[k], c[m], q);
    if k < m {
      hide Cross;
      if k < m - 1 { FourPoints(s, c[k], c[m - 1], c[m], q); }
    } else if k > m {
      hide Cross;
      FanSign(s, c[m], c[m + 1], q, c[k]);
    }
  }

  /** A point between l and q that is not beyond the segment l-q asks nothing more of
      a line than l and q do. */
  lemma Between(s: int, g: Line, l: Point, u: Point, q: Point)
    requires s == 1 || s == -1
    requires g.dx > 0 && l.x <= u.x <= q.x && l.x < q.x
    requires s * Height(g, l) >= 0 && s * Height(g, q) >= 0 && s * Cross(l, u, q) >= 0
    ensures s * Height(g, u) >= 0
  {
    hide Cross, Height;
    Interpolate(g, l, q, u);
    CrossSymmetry(l, u, q);
    var a, b, c := Height(g, l), Height(g, q), Cross(l, q, u);
    ScaleSum(s, q.x - l.x, Height(g, u), q.x - u.x, a, u.x - l.x, b, g.dx, c);
    MulNonNeg(q.x - u.x, s * a);
    MulNonNeg(u.x - l.x, s * b);
    MulNonNeg(g.dx, -(s * c));
    MulSign(q.x - l.x, -(s * Height(g, u)));
  }

  /** Outside l..q, a line that crosses l and q from opposite sides stays beyond. */
  lemma Outside(s: int, g: Line, l: Point, q: Point, u: Point)
    requires s == 1 || s == -1
    requires g.dx > 0 && l.x < q.x && (u.x <= l.x || q.x <= u.x)
    requires s * Height(g, l) >= 0 && s * Height(g, q) <= 0
    requires u.x <= l.x ==> s * Cross(l, q, u) <= 0
    requires q.x <= u.x ==> s * Cross(l, q, u) >= 0
    ensures u.x <= l.x ==> s * Height(g, u) >= 0
    ensures q.x <= u.x ==> s * Height(g, u) <= 0
  {
    hide Cross, Height;
    Interpolate(g, l, q, u);
    var a, b, c := s * Height(g, l), s * Height(g, q), s * Cross(l, q, u);
    ScaleSum(s, q.x - l.x, Height(g, u), q.x - u.x, Height(g, l), u.x - l.x, Height(g, q), g.dx, Cross(l, q, u));
    if u.x <= l.x {
      MulNonNeg(q.x - u.x, a);
      MulNonNeg(l.x - u.x, -b);
      MulNonNeg(g.dx, -c);
      MulSign(q.x - l.x, -(s * Height(g, u)));
    }
    if q.x <= u.x {
      MulNonNeg(u.x - q.x, a);
      MulNonNeg(u.x - l.x, -b);
      MulNonNeg(g.dx, c);
      MulSign(q.x - l.x, s * Height(g, u));
    }
  }

  /** Popped points are implied by the ones kept and the new point. */
  lemma {:induction false} PopSound(s: int, g: Line, c: seq<Point>, end: nat, p: Point)
    requires s == 1 || s == -1
    requires g.dx > 0 && 1 <= end <= |c| && s * Height(g, p) >= 0
    requires forall i, j :: 0 <= i < j < |c| ==> c[i].x < c[j].x
    requires forall j :: 0 <= j < |c| ==> c[j].x < p.x
    requires forall j :: end <= j < |c| ==> s * Cross(c[j - 1], c[j], p) >= 0
    requires Clears(s, g, c[..end])
    ensures Clears(s, g, c)
    decreases |c| - end
  {
    if end == |c| {
      assert c[..end] == c;
    } else {
      assert c[..end][end - 1] == c[end - 1];
      Between(s, g, c[end - 1], c[end], p);
      assert c[..end + 1] == c[..end] + [c[end]];
      PopSound(s, g, c, end + 1, p);
    }
  }
}
