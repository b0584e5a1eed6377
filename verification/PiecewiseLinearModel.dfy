/** The streaming fit: points arrive with increasing x, and are accepted for as long as
    one line passes within epsilon of all of them. */
module PiecewiseLinearModel {
  import opened Geometry
  import opened Hull
  import opened HullStep

  /** The largest position a size_t can hold. */
  const MAX_Y: int := 0xFFFF_FFFF_FFFF_FFFF

  /** The ends of the interval a line must hit at p.x; both saturate. */
  function Up(eps: nat, p: Point): Point {
    Point(p.x, if p.y >= MAX_Y - eps then MAX_Y else p.y + eps)
  }

  function Low(eps: nat, p: Point): Point {
    Point(p.x, if p.y <= eps then 0 else p.y - eps)
  }

  function Ups(eps: nat, run: seq<Point>): (r: seq<Point>)
    ensures |r| == |run|
  {
    seq(|run|, i requires 0 <= i < |run| => Up(eps, run[i]))
  }

  function Lows(eps: nat, run: seq<Point>): (r: seq<Point>)
    ensures |r| == |run|
  {
    seq(|run|, i requires 0 <= i < |run| => Low(eps, run[i]))
  }

  predicate IncreasingX(run: seq<Point>) {
    forall i, j :: 0 <= i < j < |run| ==> run[i].x < run[j].x
  }

  predicate InRange(p: Point) { 0 <= p.y <= MAX_Y }

  predicate ValidRun(run: seq<Point>) {
    IncreasingX(run) && forall i :: 0 <= i < |run| ==> InRange(run[i])
  }

  /** The real line y = a*x + b hits the interval of p. */
  ghost predicate Hits(eps: nat, p: Point, a: real, b: real) {
    Low(eps, p).y as real <= a * p.x as real + b <= Up(eps, p).y as real
  }

  ghost predicate Stabs(eps: nat, run: seq<Point>, a: real, b: real) {
    forall i :: 0 <= i < |run| ==> Hits(eps, run[i], a, b)
  }

  /** That is: between the least and the largest position, it passes within epsilon of p. */
  lemma HitsIsNear(eps: nat, p: Point, a: real, b: real)
    requires InRange(p) && eps <= MAX_Y && 0.0 <= a * p.x as real + b <= 18446744073709551615.0
    ensures Hits(eps, p, a, b) <==> -(eps as real) <= a * p.x as real + b - p.y as real <= eps as real
  {
    var h := a * p.x as real + b;
    assert Low(eps, p).y as real == (if p.y <= eps then 0.0 else p.y as real - eps as real);
  }

  /** Some real line is within epsilon of every point of the run. */
  ghost predicate Stabbable(eps: nat, run: seq<Point>) {
    exists a: real, b: real :: Stabs(eps, run, a, b)
  }

  /** Four points describing two lines, 0 to 2 and 1 to 3. */
  datatype Rectangle = Rectangle(p0: Point, p1: Point, p2: Point, p3: Point)

  /** Both lines of the rectangle respect every interval of the run; their ends are
      interval ends. One point only: the first two corners are its interval. */
  ghost predicate RectangleOk(eps: nat, run: seq<Point>, r: Rectangle) {
    if |run| == 1 then r.p0 == Up(eps, run[0]) && r.p1 == Low(eps, run[0])
    else
      && Fits(1, r.p1, r.p3, Lows(eps, run), Ups(eps, run))
      && Fits(1, r.p0, r.p2, Lows(eps, run), Ups(eps, run))
      && r.p0 in Ups(eps, run) && r.p3 in Ups(eps, run)
      && r.p1 in Lows(eps, run) && r.p2 in Lows(eps, run)
  }

  // ---- From integer orientation tests to real lines ----

  lemma RealHeight(p: Point, q: Point, z: Point, a: real, b: real)
    requires p.x < q.x
    requires a * (q.x - p.x) as real == (q.y - p.y) as real
    requires b == p.y as real - a * p.x as real
    ensures (q.x - p.x) as real * (a * z.x as real + b - z.y as real) == (-Cross(p, q, z)) as real
  {
    var dx, dy := (q.x - p.x) as real, (q.y - p.y) as real;
    var u, v := (z.x - p.x) as real, (z.y - p.y) as real;
    calc {
      dx * (a * z.x as real + b - z.y as real);
      dx * (a * u - v);
      (a * dx) * u - dx * v;
      dy * u - dx * v;
      (-Cross(p, q, z)) as real;
    }
  }

  lemma RealSign(k: real, v: real)
    requires k > 0.0
    ensures k * v >= 0.0 <==> v >= 0.0
    ensures k * v > 0.0 <==> v > 0.0
  {}

  lemma RealSide(p: Point, q: Point, z: Point, a: real, b: real)
    requires p.x < q.x
    requires a * (q.x - p.x) as real == (q.y - p.y) as real
    requires b == p.y as real - a * p.x as real
    ensures Cross(p, q, z) <= 0 ==> a * z.x as real + b >= z.y as real
    ensures Cross(p, q, z) >= 0 ==> a * z.x as real + b <= z.y as real
  {
    hide Cross;
    var dx := (q.x - p.x) as real;
    var h := a * z.x as real + b - z.y as real;
    RealHeight(p, q, z, a, b);
    RealSign(dx, h);
    RealSign(dx, -h);
    assert dx * -h == -(dx * h);
  }

  lemma FittingLineStabs(eps: nat, run: seq<Point>, p: Point, q: Point, a: real, b: real)
    requires Fits(1, p, q, Lows(eps, run), Ups(eps, run))
    requires a * (q.x - p.x) as real == (q.y - p.y) as real
    requires b == p.y as real - a * p.x as real
    ensures Stabs(eps, run, a, b)
  {
    hide Cross;
    forall i | 0 <= i < |run| ensures Hits(eps, run[i], a, b) {
      var l, u := Lows(eps, run)[i], Ups(eps, run)[i];
      assert 1 * Cross(p, q, l) <= 0 && 1 * Cross(p, q, u) >= 0;
      RealSide(p, q, l, a, b);
      RealSide(p, q, u, a, b);
    }
  }

  /** The slope of the line through two points. */
  function SlopeOf(p: Point, q: Point): real
    requires p.x != q.x
  {
    (q.y - p.y) as real / (q.x - p.x) as real
  }

  /** Its height at zero. */
  function InterceptOf(p: Point, q: Point): real
    requires p.x != q.x
  {
    p.y as real - SlopeOf(p, q) * p.x as real
  }

  lemma FittingThrough(eps: nat, run: seq<Point>, p: Point, q: Point)
    requires Fits(1, p, q, Lows(eps, run), Ups(eps, run))
    ensures p.x < q.x && Stabs(eps, run, SlopeOf(p, q), InterceptOf(p, q))
  {
    assert p.x < q.x;
    QuotientTimes((q.y - p.y) as real, (q.x - p.x) as real);
    var a, b := SlopeOf(p, q), InterceptOf(p, q);
    assert a * (q.x - p.x) as real == (q.y - p.y) as real;
    hide Fits, Stabs, SlopeOf;
    FittingLineStabs(eps, run, p, q, a, b);
  }

  lemma QuotientTimes(n: real, d: real)
    requires d != 0.0
    ensures n / d * d == n
  {}

  /** Both extreme lines are within epsilon of every point accepted so far. */
  lemma ExtremeLinesStab(eps: nat, run: seq<Point>, r: Rectangle)
    requires |run| >= 2 && RectangleOk(eps, run, r)
    ensures r.p0.x < r.p2.x && r.p1.x < r.p3.x
    ensures Stabs(eps, run, SlopeOf(r.p0, r.p2), InterceptOf(r.p0, r.p2))
    ensures Stabs(eps, run, SlopeOf(r.p1, r.p3), InterceptOf(r.p1, r.p3))
  {
    hide Fits, Stabs, SlopeOf, InterceptOf;
    FittingThrough(eps, run, r.p0, r.p2);
    FittingThrough(eps, run, r.p1, r.p3);
  }

  /** They are extreme: the slope of every line that stabs the run lies between theirs. */
  lemma SlopeRange(eps: nat, run: seq<Point>, r: Rectangle, a: real, b: real)
    requires |run| >= 2 && ValidRun(run) && RectangleOk(eps, run, r) && Stabs(eps, run, a, b)
    ensures r.p0.x < r.p2.x && r.p1.x < r.p3.x
    ensures SlopeOf(r.p0, r.p2) <= a <= SlopeOf(r.p1, r.p3)
  {
    hide Fits, Stabs, SlopeOf, InterceptOf, Ups, Lows;
    FittingThrough(eps, run, r.p0, r.p2);
    FittingThrough(eps, run, r.p1, r.p3);
    EndsHit(eps, run, a, b, r.p0, r.p2);
    EndsHit(eps, run, a, b, r.p3, r.p1);
    SteepEnough(a, b, r.p0, r.p2);
    FlatEnough(a, b, r.p1, r.p3);
  }

  lemma SteepEnough(a: real, b: real, u: Point, l: Point)
    requires u.x < l.x && a * u.x as real + b <= u.y as real && a * l.x as real + b >= l.y as real
    ensures SlopeOf(u, l) <= a
  {
    var dx, dy := (l.x - u.x) as real, (l.y - u.y) as real;
    assert a * dx == a * l.x as real - a * u.x as real;
    QuotientAtMost(dy, dx, a);
  }

  lemma FlatEnough(a: real, b: real, l: Point, u: Point)
    requires l.x < u.x && a * l.x as real + b >= l.y as real && a * u.x as real + b <= u.y as real
    ensures a <= SlopeOf(l, u)
  {
    var dx, dy := (u.x - l.x) as real, (u.y - l.y) as real;
    assert a * dx == a * u.x as real - a * l.x as real;
    QuotientAtLeast(dy, dx, a);
  }

  lemma QuotientAtMost(n: real, d: real, a: real)
    requires d > 0.0 && n <= a * d
    ensures n / d <= a
  {
    var q := n / d;
    assert q * d == n;
    if q > a { assert (q - a) * d > 0.0; }
  }

  lemma QuotientAtLeast(n: real, d: real, a: real)
    requires d > 0.0 && a * d <= n
    ensures a <= n / d
  {
    var q := n / d;
    assert q * d == n;
    if q < a { assert (a - q) * d > 0.0; }
  }

  lemma RectangleStabs(eps: nat, run: seq<Point>, r: Rectangle)
    requires |run| >= 1 && RectangleOk(eps, run, r) && InRange(run[0])
    ensures Stabbable(eps, run)
  {
    hide Cross;
    if |run| == 1 {
      ShortRunStabbable(eps, run);
    } else {
      var p, q := r.p1, r.p3;
      var a := (q.y - p.y) as real / (q.x - p.x) as real;
      FittingLineStabs(eps, run, p, q, a, p.y as real - a * p.x as real);
    }
  }

  lemma ShortRunStabbable(eps: nat, run: seq<Point>)
    requires |run| == 1 && InRange(run[0])
    ensures Stabbable(eps, run)
  {
    var b := run[0].y as real;
    assert Stabs(eps, run, 0.0, b);
  }

  /** Three interval ends that no line can reconcile: under u, over l, under v (or the
      other way round), left to right. */
  lemma NoLine(s: int, u: Point, l: Point, v: Point, a: real, b: real)
    requires s == 1 || s == -1
    requires u.x < l.x < v.x && s * Cross(u, l, v) < 0
    requires s as real * (a * u.x as real + b - u.y as real) <= 0.0
    requires s as real * (a * l.x as real + b - l.y as real) >= 0.0
    ensures s as real * (a * v.x as real + b - v.y as real) > 0.0
  {
    hide Cross;
    var hu, hl, hv := a * u.x as real + b - u.y as real, a * l.x as real + b - l.y as real,
        a * v.x as real + b - v.y as real;
    var dx, dv, du := (l.x - u.x) as real, (v.x - u.x) as real, (v.x - l.x) as real;
    RealInterpolate(u, l, v, a, b);
    if s == 1 {
      RealSign(dv, hl);
      RealSign(du, -hu);
      assert du * -hu == -(du * hu);
      RealSign(dx, hv);
    } else {
      RealSign(dv, -hl);
      RealSign(du, hu);
      assert dv * -hl == -(dv * hl);
      RealSign(dx, -hv);
      assert dx * -hv == -(dx * hv);
    }
  }

  lemma RealInterpolate(u: Point, l: Point, v: Point, a: real, b: real)
    ensures (l.x - u.x) as real * (a * v.x as real + b - v.y as real)
         == (v.x - u.x) as real * (a * l.x as real + b - l.y as real)
          - (v.x - l.x) as real * (a * u.x as real + b - u.y as real) - Cross(u, l, v) as real
  {
    var dl, dv, e := (l.x - u.x) as real, (v.x - u.x) as real, a * u.x as real + b;
    assert a * v.x as real + b == e + a * dv && a * l.x as real + b == e + a * dl;
    assert Cross(u, l, v) as real == dl * (v.y - u.y) as real - (l.y - u.y) as real * dv;
    assert (v.x - l.x) as real == dv - dl;
    RealAlgebra(dl, dv, e, a, u.y as real, l.y as real, v.y as real);
  }

  lemma RealAlgebra(dl: real, dv: real, e: real, a: real, yu: real, yl: real, yv: real)
    ensures dl * (e + a * dv - yv)
         == dv * (e + a * dl - yl) - (dv - dl) * (e - yu) - (dl * (yv - yu) - (yl - yu) * dv)
  {}

  // ---- Rejection ----

  /** The new point is under the lower extreme line or over the upper one: no real line
      stabs the run extended by it. */
  lemma RejectionIsExact(eps: nat, run: seq<Point>, r: Rectangle, p: Point)
    requires |run| >= 2 && RectangleOk(eps, run, r) && IncreasingX(run + [p])
    requires r.p2.x <= run[|run| - 1].x && r.p3.x <= run[|run| - 1].x
    requires Cross(r.p0, r.p2, Up(eps, p)) < 0 || Cross(r.p1, r.p3, Low(eps, p)) > 0
    ensures !Stabbable(eps, run + [p])
  {
    hide *;
    forall a: real, b: real ensures !Stabs(eps, run + [p], a, b) {
      RejectsLine(eps, run, r, p, a, b);
    }
    NoStab(eps, run + [p]);
  }

  lemma NoStab(eps: nat, run: seq<Point>)
    requires forall a: real, b: real :: !Stabs(eps, run, a, b)
    ensures !Stabbable(eps, run)
  {}

  lemma RejectsLine(eps: nat, run: seq<Point>, r: Rectangle, p: Point, a: real, b: real)
    requires |run| >= 2 && RectangleOk(eps, run, r) && IncreasingX(run + [p])
    requires r.p2.x <= run[|run| - 1].x && r.p3.x <= run[|run| - 1].x
    requires Cross(r.p0, r.p2, Up(eps, p)) < 0 || Cross(r.p1, r.p3, Low(eps, p)) > 0
    ensures !Stabs(eps, run + [p], a, b)
  {
    hide Cross, Stabs, Lows, Ups, Hits;
    if Stabs(eps, run + [p], a, b) {
      StabsPrefix(eps, run, p, a, b);
      EndsHit(eps, run, a, b, r.p0, r.p2);
      EndsHit(eps, run, a, b, r.p3, r.p1);
      IntervalHit(eps, p, a, b);
      assert (run + [p])[|run| - 1].x < (run + [p])[|run|].x;
      if Cross(r.p0, r.p2, Up(eps, p)) < 0 {
        NoLine(1, r.p0, r.p2, Up(eps, p), a, b);
      } else {
        NoLine(-1, r.p1, r.p3, Low(eps, p), a, b);
      }
    }
  }

  lemma StabsPrefix(eps: nat, run: seq<Point>, p: Point, a: real, b: real)
    requires Stabs(eps, run + [p], a, b)
    ensures Stabs(eps, run, a, b) && Hits(eps, p, a, b)
  {
    hide Hits;
    assert Hits(eps, (run + [p])[|run|], a, b);
    forall i | 0 <= i < |run| ensures Hits(eps, run[i], a, b) {
      assert Hits(eps, (run + [p])[i], a, b);
    }
  }

  lemma EndsHit(eps: nat, run: seq<Point>, a: real, b: real, u: Point, l: Point)
    requires Stabs(eps, run, a, b)
    requires u in Ups(eps, run) && l in Lows(eps, run)
    ensures a * u.x as real + b <= u.y as real
    ensures a * l.x as real + b >= l.y as real
  {
    hide Hits;
    var i :| 0 <= i < |run| && Ups(eps, run)[i] == u;
    var j :| 0 <= j < |run| && Lows(eps, run)[j] == l;
    assert Hits(eps, run[i], a, b) && Hits(eps, run[j], a, b);
    IntervalHit(eps, run[i], a, b);
    IntervalHit(eps, run[j], a, b);
  }

  lemma IntervalHit(eps: nat, p: Point, a: real, b: real)
    requires Hits(eps, p, a, b)
    ensures a * Up(eps, p).x as real + b <= Up(eps, p).y as real
    ensures a * Low(eps, p).x as real + b >= Low(eps, p).y as real
  {}

  // ---- The tangent scans and the hull pops ----

  lemma SlopeOrderIsTurn(p: Point, b: Point, c: Point)
    ensures Minus(c, p).Greater(Minus(b, p)) <==> Cross(b, c, p) > 0
    ensures Minus(c, p).Less(Minus(b, p)) <==> Cross(b, c, p) < 0
  {}

  /** Least slope from the lower chain to p, stopping at the first increase. */
  method FindMinSlope(lower: seq<Point>, start: nat, p: Point) returns (minI: nat)
    requires start < |lower|
    ensures start <= minI < |lower|
    ensures minI > start ==> Cross(lower[minI - 1], lower[minI], p) <= 0
    ensures minI + 1 < |lower| ==> Cross(lower[minI], lower[minI + 1], p) > 0
  {
    hide Cross;
    var min := Minus(lower[start], p);
    minI := start;
    var i := start + 1;
    while i < |lower|
      invariant minI + 1 == i <= |lower| && start <= minI
      invariant min == Minus(lower[minI], p)
      invariant minI > start ==> Cross(lower[minI - 1], lower[minI], p) <= 0
    {
      var val := Minus(lower[i], p);
      SlopeOrderIsTurn(p, lower[i - 1], lower[i]);
      if val.Greater(min) {
        break;
      }
      min, minI := val, i;
      i := i + 1;
    }
  }

  /** Greatest slope from the upper chain to p, stopping at the first decrease. */
  method FindMaxSlope(upper: seq<Point>, start: nat, p: Point) returns (maxI: nat)
    requires start < |upper|
    ensures start <= maxI < |upper|
    ensures maxI > start ==> Cross(upper[maxI - 1], upper[maxI], p) >= 0
    ensures maxI + 1 < |upper| ==> Cross(upper[maxI], upper[maxI + 1], p) < 0
  {
    hide Cross;
    var max := Minus(upper[start], p);
    maxI := start;
    var i := start + 1;
    while i < |upper|
      invariant maxI + 1 == i <= |upper| && start <= maxI
      invariant max == Minus(upper[maxI], p)
      invariant maxI > start ==> Cross(upper[maxI - 1], upper[maxI], p) >= 0
    {
      var val := Minus(upper[i], p);
      SlopeOrderIsTurn(p, upper[i - 1], upper[i]);
      if val.Less(max) {
        break;
      }
      max, maxI := val, i;
      i := i + 1;
    }
  }

  method PopUpper(upper: seq<Point>, start: nat, p: Point) returns (end: nat)
    requires start < |upper|
    ensures start + 1 <= end <= |upper|
    ensures forall j :: end <= j < |upper| ==> Cross(upper[j - 1], upper[j], p) <= 0
    ensures end >= start + 2 ==> Cross(upper[end - 2], upper[end - 1], p) > 0
  {
    hide Cross;
    end := |upper|;
    while end >= start + 2 && Cross(upper[end - 2], upper[end - 1], p) <= 0
      invariant start + 1 <= end <= |upper|
      invariant forall j :: end <= j < |upper| ==> Cross(upper[j - 1], upper[j], p) <= 0
    {
      end := end - 1;
    }
  }

  method PopLower(lower: seq<Point>, start: nat, p: Point) returns (end: nat)
    requires start < |lower|
    ensures start + 1 <= end <= |lower|
    ensures forall j :: end <= j < |lower| ==> Cross(lower[j - 1], lower[j], p) >= 0
    ensures end >= start + 2 ==> Cross(lower[end - 2], lower[end - 1], p) < 0
  {
    hide Cross;
    end := |lower|;
    while end >= start + 2 && Cross(lower[end - 2], lower[end - 1], p) >= 0
      invariant start + 1 <= end <= |lower|
      invariant forall j :: end <= j < |lower| ==> Cross(lower[j - 1], lower[j], p) >= 0
    {
      end := end - 1;
    }
  }

  // ---- The two halves of a step, on whole chains with start indices ----

  /** The chains from their start indices on, and the rectangle they span. */
  ghost predicate Spans(lows: seq<Point>, ups: seq<Point>, lower: seq<Point>, ls: nat, upper: seq<Point>, us: nat,
      r: Rectangle) {
    && ls < |lower| && us < |upper|
    && HullOk(1, lows, ups, lower[ls..], upper[us..])
    && r == Rectangle(upper[us], lower[ls], lower[|lower| - 1], upper[|upper| - 1])
  }

  lemma UpperHalf(lows: seq<Point>, ups: seq<Point>, lower: seq<Point>, ls: nat, upper: seq<Point>, us: nat,
                  r: Rectangle, p: Point, m: nat, end: nat)
    requires Spans(lows, ups, lower, ls, upper, us, r)
    requires forall z :: z in lows || z in ups ==> z.x < p.x
    requires Cross(r.p0, r.p2, p) >= 0 && Cross(r.p1, r.p3, p) < 0
    requires ls <= m < |lower|
    requires m > ls ==> Cross(lower[m - 1], lower[m], p) <= 0
    requires m + 1 < |lower| ==> Cross(lower[m], lower[m + 1], p) > 0
    requires us + 1 <= end <= |upper|
    requires forall j :: end <= j < |upper| ==> Cross(upper[j - 1], upper[j], p) <= 0
    requires end >= us + 2 ==> Cross(upper[end - 2], upper[end - 1], p) > 0
    ensures Spans(lows, ups + [p], lower, m, upper[..end] + [p], us, Rectangle(r.p0, lower[m], r.p2, p))
  {
    hide Cross, Chain, Fits, Complete;
    var nc, fc := lower[ls..], upper[us..];
    assert nc[m - ls] in lows;
    TakeStep(1, lows, ups, nc, fc, p, m - ls, end - us);
    assert nc[m - ls..] == lower[m..];
    assert fc[..end - us] + [p] == (upper[..end] + [p])[us..];
  }

  lemma LowerHalf(lows: seq<Point>, ups: seq<Point>, lower: seq<Point>, ls: nat, upper: seq<Point>, us: nat,
                  r: Rectangle, p: Point, m: nat, end: nat)
    requires Spans(lows, ups, lower, ls, upper, us, r)
    requires forall z :: z in lows ==> z.x < p.x
    requires Cross(r.p1, r.p3, p) <= 0 && Cross(r.p0, r.p2, p) > 0
    requires us <= m < |upper| && upper[m].x < p.x
    requires m > us ==> Cross(upper[m - 1], upper[m], p) >= 0
    requires m + 1 < |upper| ==> Cross(upper[m], upper[m + 1], p) < 0
    requires ls + 1 <= end <= |lower|
    requires forall j :: end <= j < |lower| ==> Cross(lower[j - 1], lower[j], p) >= 0
    requires end >= ls + 2 ==> Cross(lower[end - 2], lower[end - 1], p) < 0
    ensures Spans(lows + [p], ups, lower[..end] + [p], ls, upper, m, Rectangle(upper[m], r.p1, p, r.p3))
  {
    hide Cross, Chain, Fits, Complete;
    var nc, fc := upper[us..], lower[ls..];
    MirrorHull(1, lows, ups, fc, nc);
    TakeStep(-1, ups, lows, nc, fc, p, m - us, end - ls);
    assert nc[m - us..] == upper[m..];
    assert fc[..end - ls] + [p] == (lower[..end] + [p])[ls..];
    MirrorHull(-1, ups, lows + [p], upper[m..], (lower[..end] + [p])[ls..]);
  }

  lemma UpperSkipped(lows: seq<Point>, ups: seq<Point>, lower: seq<Point>, ls: nat, upper: seq<Point>, us: nat,
                     r: Rectangle, p: Point)
    requires Spans(lows, ups, lower, ls, upper, us, r)
    requires forall z :: z in ups ==> z.x < p.x
    requires Cross(r.p0, r.p2, p) >= 0 && Cross(r.p1, r.p3, p) >= 0
    ensures Spans(lows, ups + [p], lower, ls, upper, us, r)
  {
    hide Cross, Chain, Fits, Complete;
    SkipStep(1, lows, ups, lower[ls..], upper[us..], p);
  }

  lemma LowerSkipped(lows: seq<Point>, ups: seq<Point>, lower: seq<Point>, ls: nat, upper: seq<Point>, us: nat,
                     r: Rectangle, p: Point)
    requires Spans(lows, ups, lower, ls, upper, us, r)
    requires forall z :: z in lows ==> z.x < p.x
    requires Cross(r.p0, r.p2, p) <= 0 && Cross(r.p1, r.p3, p) <= 0
    ensures Spans(lows + [p], ups, lower, ls, upper, us, r)
  {
    hide Cross, Chain, Fits, Complete;
    MirrorHull(1, lows, ups, lower[ls..], upper[us..]);
    SkipStep(-1, ups, lows, upper[us..], lower[ls..], p);
    MirrorHull(-1, ups, lows + [p], upper[us..], lower[ls..]);
  }

  lemma SameAbscissa(p: Point, q: Point, z: Point)
    requires p.x < q.x
    ensures z.x == p.x ==> (Cross(p, q, z) <= 0 <==> z.y <= p.y) && (Cross(p, q, z) >= 0 <==> z.y >= p.y)
    ensures z.x == q.x ==> (Cross(p, q, z) <= 0 <==> z.y <= q.y) && (Cross(p, q, z) >= 0 <==> z.y >= q.y)
  {
    MulSign(q.x - p.x, z.y - p.y);
    MulSign(q.x - p.x, p.y - z.y);
    MulSign(q.x - p.x, z.y - q.y);
    MulSign(q.x - p.x, q.y - z.y);
    if z.x == q.x {
      assert Cross(p, q, z) == (q.x - p.x) * (z.y - q.y);
    }
  }

  lemma FitsTwo(p: Point, q: Point, l0: Point, l1: Point, u0: Point, u1: Point)
    requires l0.x == u0.x == p.x < l1.x == u1.x == q.x
    requires l0.y <= p.y <= u0.y && l1.y <= q.y <= u1.y
    ensures Fits(1, p, q, [l0, l1], [u0, u1])
  {
    hide Cross;
    SameAbscissa(p, q, l0);
    SameAbscissa(p, q, l1);
    SameAbscissa(p, q, u0);
    SameAbscissa(p, q, u1);
  }

  /** The first two points: each chain is both of its interval ends. */
  lemma TwoPoints(l0: Point, l1: Point, u0: Point, u1: Point)
    requires l0.x == u0.x < l1.x == u1.x && l0.y < u0.y && l1.y < u1.y
    ensures Spans([l0, l1], [u0, u1], [l0, l1], 0, [u0, u1], 0, Rectangle(u0, l0, l1, u1))
  {
    hide Cross, Height, Fits;
    var lows, ups := [l0, l1], [u0, u1];
    assert lows[0..] == lows && ups[0..] == ups;
    FitsTwo(l0, u1, l0, l1, u0, u1);
    FitsTwo(u0, l1, l0, l1, u0, u1);
  }

  /** The interval ends of a point to the right of a run. */
  lemma NewEnds(eps: nat, run: seq<Point>, p: Point)
    requires 1 <= eps <= MAX_Y && |run| > 0 && ValidRun(run + [p])
    ensures Up(eps, p).x == Low(eps, p).x == p.x && Low(eps, p).y < Up(eps, p).y
    ensures Lows(eps, run + [p]) == Lows(eps, run) + [Low(eps, p)]
    ensures Ups(eps, run + [p]) == Ups(eps, run) + [Up(eps, p)]
    ensures forall z :: z in Lows(eps, run) || z in Ups(eps, run) ==> z.x <= run[|run| - 1].x < p.x
  {
    hide Stabbable;
    var all := run + [p];
    assert all[|run|] == p && InRange(all[|run|]);
    assert all[|run| - 1].x < all[|run|].x;
    assert forall i :: 0 <= i < |run| - 1 ==> all[i].x < all[|run| - 1].x;
    assert forall i :: 0 <= i < |run| ==> run[i] == all[i];
  }

  lemma SpansRectangle(eps: nat, run: seq<Point>, lower: seq<Point>, ls: nat, upper: seq<Point>, us: nat, r: Rectangle)
    requires |run| >= 2 && Spans(Lows(eps, run), Ups(eps, run), lower, ls, upper, us, r)
    ensures RectangleOk(eps, run, r)
  {
    hide Cross, Chain, Fits, Complete, Lows, Ups;
    var nc, fc := lower[ls..], upper[us..];
    assert nc[0] in Lows(eps, run) && nc[|nc| - 1] in Lows(eps, run);
    assert fc[0] in Ups(eps, run) && fc[|fc| - 1] in Ups(eps, run);
  }

  lemma IntervalOpen(eps: nat, p: Point)
    requires 1 <= eps <= MAX_Y && InRange(p)
    ensures Low(eps, p).y < Up(eps, p).y
  {}

  lemma FirstPoint(eps: nat, p: Point, r: Rectangle)
    requires InRange(p) && r.p0 == Up(eps, p) && r.p1 == Low(eps, p)
    ensures RectangleOk(eps, [p], r) && Stabbable(eps, [p])
  {
    ShortRunStabbable(eps, [p]);
  }

  lemma OnePointCorners(eps: nat, run: seq<Point>, r: Rectangle)
    requires |run| == 1
    ensures RectangleOk(eps, run, r) <==> r.p0 == Up(eps, run[0]) && r.p1 == Low(eps, run[0])
  {}

  lemma SecondPoint(eps: nat, a: Point, p: Point)
    requires 1 <= eps <= MAX_Y && InRange(a) && InRange(p) && a.x < p.x
    ensures Spans(Lows(eps, [a, p]), Ups(eps, [a, p]), [Low(eps, a), Low(eps, p)], 0, [Up(eps, a), Up(eps, p)], 0,
                  Rectangle(Up(eps, a), Low(eps, a), Low(eps, p), Up(eps, p)))
  {
    hide Cross, Spans;
    IntervalOpen(eps, a);
    IntervalOpen(eps, p);
    assert Lows(eps, [a, p]) == [Low(eps, a), Low(eps, p)];
    assert Ups(eps, [a, p]) == [Up(eps, a), Up(eps, p)];
    TwoPoints(Low(eps, a), Low(eps, p), Up(eps, a), Up(eps, p));
  }

  /** The slope comparisons of a step, as orientation tests against the extreme lines. */
  lemma EndSlopes(r: Rectangle, p1: Point, p2: Point)
    ensures Minus(p1, r.p2).Less(Minus(r.p2, r.p0)) <==> Cross(r.p0, r.p2, p1) < 0
    ensures Minus(p2, r.p3).Greater(Minus(r.p3, r.p1)) <==> Cross(r.p1, r.p3, p2) > 0
    ensures Minus(p1, r.p1).Less(Minus(r.p3, r.p1)) <==> Cross(r.p1, r.p3, p1) < 0
    ensures Minus(p2, r.p0).Greater(Minus(r.p2, r.p0)) <==> Cross(r.p0, r.p2, p2) > 0
  {}

  lemma SpansEnds(lows: seq<Point>, ups: seq<Point>, lower: seq<Point>, ls: nat, upper: seq<Point>, us: nat,
      r: Rectangle)
    requires Spans(lows, ups, lower, ls, upper, us, r)
    ensures ls < |lower| && us < |upper|
    ensures r == Rectangle(upper[us], lower[ls], lower[|lower| - 1], upper[|upper| - 1])
    ensures r.p0 in ups && r.p3 in ups && r.p1 in lows && r.p2 in lows
    ensures forall i :: ls <= i < |lower| ==> lower[i] in lows
  {
    hide Cross, Chain, Fits, Complete;
    var nc, fc := lower[ls..], upper[us..];
    forall i | ls <= i < |lower| ensures lower[i] in lows { assert nc[i - ls] in lows; }
    assert fc[0] in ups && fc[|fc| - 1] in ups;
  }

  /** The upper tangent point is never the point just pushed at the same abscissa. */
  lemma StrictlyLeft(lows: seq<Point>, ups: seq<Point>, lower: seq<Point>, ls: nat, upper: seq<Point>, us: nat,
                     r: Rectangle, m: nat, p: Point)
    requires Spans(lows, ups, lower, ls, upper, us, r) && us <= m < |upper|
    requires m > us ==> Cross(upper[m - 1], upper[m], p) >= 0
    requires r.p3.x < p.x || (r.p3.x == p.x && r.p3.y > p.y && us + 1 < |upper|)
    ensures upper[m].x < p.x
  {
    hide Cross, Fits, Complete;
    var c := upper[us..];
    var last := |c| - 1;
    if m - us < last {
      assert c[m - us].x < c[last].x;
    } else if r.p3.x == p.x {
      assert c[last - 1].x < c[last].x;
      SameAbscissa(upper[m - 1], upper[m], p);
    }
  }

  datatype Outcome = Accepted | Rejected | OutOfOrder

  /** The segment handed out for a run: its rectangle and first key. */
  datatype CanonicalSegment = CanonicalSegment(rectangle: Rectangle, first: int)

  /** What a canonical segment must satisfy for the run it stands for. */
  ghost predicate SegmentFits(eps: nat, run: seq<Point>, cs: CanonicalSegment) {
    && |run| > 0
    && cs.first == run[0].x
    && (if |run| == 1 then
          var u, l := Up(eps, run[0]), Low(eps, run[0]);
          cs.rectangle == Rectangle(u, l, u, l)
        else RectangleOk(eps, run, cs.rectangle))
  }

  class OptimalPiecewiseLinearModel {
    const epsilon: nat
    var lower: seq<Point>
    var upper: seq<Point>
    var firstX: int
    var lastX: int
    var lowerStart: nat
    var upperStart: nat
    var pointsInHull: nat
    var rectangle: Rectangle
    /** The run the rectangle describes: the points accepted since the fit last started
        over. After a rejection it is the finished run. */
    ghost var run: seq<Point>

    ghost predicate Valid()
      reads this
    {
      && 1 <= epsilon <= MAX_Y
      && ValidRun(run)
      && (pointsInHull > 0 ==> |run| == pointsInHull && lastX == run[|run| - 1].x)
      && (run != [] ==> firstX == run[0].x && RectangleOk(epsilon, run, rectangle))
      && (pointsInHull == 0 ==> |run| != 1)
      && (pointsInHull == 1 ==>
            lower == [Low(epsilon, run[0])] && upper == [Up(epsilon, run[0])] && lowerStart == upperStart == 0)
      && (pointsInHull >= 2 ==>
            Spans(Lows(epsilon, run), Ups(epsilon, run), lower, lowerStart, upper, upperStart, rectangle))
    }

    constructor (epsilon: nat)
      requires 1 <= epsilon <= MAX_Y
      ensures Valid() && this.epsilon == epsilon && pointsInHull == 0 && run == []
    {
      this.epsilon := epsilon;
      lower, upper, lowerStart, upperStart, pointsInHull := [], [], 0, 0, 0;
      firstX, lastX := 0, 0;
      rectangle := Rectangle(Point(0, 0), Point(0, 0), Point(0, 0), Point(0, 0));
      run := [];
    }

    /** Accepts the point exactly when some real line still stabs every interval. */
    method AddPoint(x: int, y: int) returns (outcome: Outcome)
      requires Valid() && InRange(Point(x, y))
      modifies this
      ensures Valid()
      ensures outcome == OutOfOrder <==> old(pointsInHull) > 0 && x <= old(lastX)
      ensures outcome == OutOfOrder ==>
                run == old(run) && rectangle == old(rectangle) && pointsInHull == old(pointsInHull)
                && firstX == old(firstX) && lastX == old(lastX)
      ensures outcome == Accepted ==>
                && pointsInHull == old(pointsInHull) + 1
                && run == (if old(pointsInHull) == 0 then [] else old(run)) + [Point(x, y)]
                && Stabbable(epsilon, run)
      ensures outcome == Rejected ==>
                && old(pointsInHull) >= 2 && pointsInHull == 0
                && run == old(run) && rectangle == old(rectangle) && firstX == old(firstX)
                && !Stabbable(epsilon, run + [Point(x, y)])
    {
      if pointsInHull > 0 && x <= lastX {
        return OutOfOrder;
      }
      lastX := x;
      var p := Point(x, y);
      if pointsInHull == 0 {
        AddFirst(p);
        outcome := Accepted;
      } else if pointsInHull == 1 {
        AddSecond(p);
        outcome := Accepted;
      } else {
        outcome := AddLater(p);
      }
    }

    method AddFirst(p: Point)
      requires 1 <= epsilon <= MAX_Y && pointsInHull == 0 && InRange(p) && lastX == p.x
      modifies this
      ensures Valid() && pointsInHull == 1 && run == [p] && Stabbable(epsilon, run)
    {
      hide Stabbable;
      var p1, p2 := Up(epsilon, p), Low(epsilon, p);
      firstX := p.x;
      rectangle := rectangle.(p0 := p1, p1 := p2);
      upper, lower := [p1], [p2];
      upperStart, lowerStart := 0, 0;
      pointsInHull := 1;
      run := [p];
      FirstPoint(epsilon, p, rectangle);
    }

    method AddSecond(p: Point)
      requires pointsInHull == 1 && |run| == 1 && ValidRun(run + [p]) && lastX == p.x
      requires 1 <= epsilon <= MAX_Y && firstX == run[0].x && RectangleOk(epsilon, run, rectangle)
      requires lower == [Low(epsilon, run[0])] && upper == [Up(epsilon, run[0])] && lowerStart == upperStart == 0
      modifies this
      ensures Valid() && pointsInHull == 2 && run == old(run) + [p] && Stabbable(epsilon, run)
    {
      hide Cross, Spans, RectangleOk, Stabbable, Up, Low;
      var a := run[0];
      OnePointCorners(epsilon, run, rectangle);
      var p1, p2 := Up(epsilon, p), Low(epsilon, p);
      rectangle := rectangle.(p2 := p2, p3 := p1);
      upper, lower := upper + [p1], lower + [p2];
      pointsInHull := 2;
      run := run + [p];
      assert run == [a, p] && lower == [Low(epsilon, a), p2] && upper == [Up(epsilon, a), p1];
      assert run[0].x < run[1].x && InRange(run[0]) && InRange(run[1]);
      SecondPoint(epsilon, a, p);
      SpansRectangle(epsilon, run, lower, 0, upper, 0, rectangle);
      RectangleStabs(epsilon, run, rectangle);
    }

    method AddLater(p: Point) returns (outcome: Outcome)
      requires pointsInHull >= 2 && |run| == pointsInHull && ValidRun(run + [p]) && ValidRun(run) && lastX == p.x
      requires 1 <= epsilon <= MAX_Y && firstX == run[0].x && RectangleOk(epsilon, run, rectangle)
      requires Spans(Lows(epsilon, run), Ups(epsilon, run), lower, lowerStart, upper, upperStart, rectangle)
      modifies this
      ensures Valid() && outcome != OutOfOrder
      ensures outcome == Accepted ==>
                pointsInHull == old(pointsInHull) + 1 && run == old(run) + [p] && Stabbable(epsilon, run)
      ensures outcome == Rejected ==>
                && pointsInHull == 0
                && run == old(run) && rectangle == old(rectangle) && firstX == old(firstX)
                && !Stabbable(epsilon, run + [p])
    {
      hide Cross, Spans, RectangleOk, Stabbable, Up, Low, Ups, Lows;
      var p1, p2 := Up(epsilon, p), Low(epsilon, p);
      ghost var lows, ups := Lows(epsilon, run), Ups(epsilon, run);
      NewEnds(epsilon, run, p);
      SpansEnds(lows, ups, lower, lowerStart, upper, upperStart, rectangle);
      EndSlopes(rectangle, p1, p2);
      var slope1 := Minus(rectangle.p2, rectangle.p0);
      var slope2 := Minus(rectangle.p3, rectangle.p1);
      var outsideLine1 := Minus(p1, rectangle.p2).Less(slope1);
      var outsideLine2 := Minus(p2, rectangle.p3).Greater(slope2);
      if outsideLine1 || outsideLine2 {
        pointsInHull := 0;
        RejectionIsExact(epsilon, run, rectangle, p);
        return Rejected;
      }
      UpdateUpper(p1, p2, slope2, lows, ups);
      UpdateLower(p1, p2, slope1, lows, ups + [p1]);
      pointsInHull := pointsInHull + 1;
      run := run + [p];
      SpansRectangle(epsilon, run, lower, lowerStart, upper, upperStart, rectangle);
      RectangleStabs(epsilon, run, rectangle);
      return Accepted;
    }

    /** First half of a step: the new upper end p1 may bring the upper line down. */
    method UpdateUpper(p1: Point, p2: Point, slope2: Slope, ghost lows: seq<Point>, ghost ups: seq<Point>)
      requires Spans(lows, ups, lower, lowerStart, upper, upperStart, rectangle)
      requires slope2 == Minus(rectangle.p3, rectangle.p1)
      requires forall z :: z in lows || z in ups ==> z.x < p1.x
      requires p1.x == p2.x && p2.y < p1.y
      requires Cross(rectangle.p0, rectangle.p2, p1) >= 0 && Cross(rectangle.p1, rectangle.p3, p2) <= 0
      modifies `upper, `lowerStart, `rectangle
      ensures Spans(lows, ups + [p1], lower, lowerStart, upper, upperStart, rectangle)
      ensures rectangle.p0 == old(rectangle.p0) && rectangle.p2 == old(rectangle.p2)
      ensures Cross(rectangle.p1, rectangle.p3, p2) <= 0
      ensures rectangle.p3.x < p1.x || (rectangle.p3 == p1 && upperStart + 1 < |upper|)
    {
      hide Cross, Spans;
      EndSlopes(rectangle, p1, p2);
      SpansEnds(lows, ups, lower, lowerStart, upper, upperStart, rectangle);
      if Minus(p1, rectangle.p1).Less(slope2) {
        var minI := FindMinSlope(lower, lowerStart, p1);
        var end := PopUpper(upper, upperStart, p1);
        UpperHalf(lows, ups, lower, lowerStart, upper, upperStart, rectangle, p1, minI, end);
        SameAbscissa(lower[minI], p1, p2);
        rectangle := rectangle.(p1 := lower[minI], p3 := p1);
        lowerStart := minI;
        upper := upper[..end] + [p1];
      } else {
        UpperSkipped(lows, ups, lower, lowerStart, upper, upperStart, rectangle, p1);
      }
    }

    /** Second half: the new lower end p2 may bring the lower line up. */
    method UpdateLower(p1: Point, p2: Point, slope1: Slope, ghost lows: seq<Point>, ghost ups: seq<Point>)
      requires Spans(lows, ups, lower, lowerStart, upper, upperStart, rectangle)
      requires slope1 == Minus(rectangle.p2, rectangle.p0)
      requires forall z :: z in lows ==> z.x < p2.x
      requires p1.x == p2.x && p2.y < p1.y
      requires Cross(rectangle.p1, rectangle.p3, p2) <= 0
      requires rectangle.p3.x < p2.x || (rectangle.p3 == p1 && upperStart + 1 < |upper|)
      modifies `lower, `upperStart, `rectangle
      ensures Spans(lows + [p2], ups, lower, lowerStart, upper, upperStart, rectangle)
    {
      hide Cross, Spans;
      EndSlopes(rectangle, p1, p2);
      SpansEnds(lows, ups, lower, lowerStart, upper, upperStart, rectangle);
      if Minus(p2, rectangle.p0).Greater(slope1) {
        var maxI := FindMaxSlope(upper, upperStart, p2);
        var end := PopLower(lower, lowerStart, p2);
        StrictlyLeft(lows, ups, lower, lowerStart, upper, upperStart, rectangle, maxI, p2);
        LowerHalf(lows, ups, lower, lowerStart, upper, upperStart, rectangle, p2, maxI, end);
        rectangle := rectangle.(p0 := upper[maxI], p2 := p2);
        upperStart := maxI;
        lower := lower[..end] + [p2];
      } else {
        LowerSkipped(lows, ups, lower, lowerStart, upper, upperStart, rectangle, p2);
      }
    }

    method GetSegment() returns (cs: CanonicalSegment)
      requires Valid() && run != []
      ensures SegmentFits(epsilon, run, cs)
    {
      if pointsInHull == 1 {
        cs := CanonicalSegment(Rectangle(rectangle.p0, rectangle.p1, rectangle.p0, rectangle.p1), firstX);
      } else {
        cs := CanonicalSegment(rectangle, firstX);
      }
    }

    method Reset()
      requires Valid()
      modifies this
      ensures Valid() && pointsInHull == 0 && run == []
    {
      pointsInHull := 0;
      lower, upper := [], [];
      run := [];
    }
  }
}
