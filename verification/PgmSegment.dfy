/** From a canonical segment to the stored one: exact slope of the steeper extreme line,
    intercept at the first key rounded to the nearest integer. */
module PgmSegment {
  import opened Geometry
  import opened Hull
  import opened PiecewiseLinearModel

  /** The slope is the rational num / den. */
  datatype Segment = Segment(key: int, num: int, den: int, intercept: int)

  /** Integer division that truncates toward zero. */
  function TruncDiv(a: int, b: int): int
    requires b != 0
  {
    var absA, absB := if a < 0 then -a else a, if b < 0 then -b else b;
    if (a < 0) == (b < 0) then absA / absB else -(absA / absB)
  }

  function OnePoint(r: Rectangle): bool { r.p0 == r.p2 && r.p1 == r.p3 }

  /** The intercept of the line p1-p3 at origin, to the nearest integer. */
  function RoundedIntercept(r: Rectangle, origin: int): int
    requires r.p1.x != r.p3.x
  {
    var slope := Minus(r.p3, r.p1);
    var n := slope.dy * (origin - r.p1.x);
    var d := slope.dx;
    var roundingTerm := TruncDiv((if (n < 0) != (d < 0) then -1 else 1) * d, 2);
    TruncDiv(n + roundingTerm, d) + r.p1.y
  }

  /** The line to store is not vertical. */
  predicate Convertible(cs: CanonicalSegment) {
    OnePoint(cs.rectangle) || cs.rectangle.p1.x != cs.rectangle.p3.x
  }

  function FromCanonical(cs: CanonicalSegment): Segment
    requires Convertible(cs)
  {
    var r := cs.rectangle;
    if OnePoint(r) then Segment(cs.first, 0, 1, TruncDiv(r.p0.y + r.p1.y, 2))
    else Segment(cs.first, r.p3.y - r.p1.y, r.p3.x - r.p1.x, RoundedIntercept(r, cs.first))
  }

  /** The approximate position of k; k is never left of the segment's key. */
  function Position(s: Segment, k: int): int
    requires s.den > 0
  {
    s.num * (k - s.key) / s.den + s.intercept
  }

  /** The stored segment stays within epsilon above and epsilon + 1 below every point of
      its run, and its intercept within epsilon of the first. */
  ghost predicate Models(eps: nat, run: seq<Point>, s: Segment) {
    && |run| > 0 && s.den > 0 && s.num >= 0 && s.key == run[0].x
    && Low(eps, run[0]).y <= s.intercept <= Up(eps, run[0]).y
    && forall i :: 0 <= i < |run| ==> Low(eps, run[i]).y - 1 <= Position(s, run[i].x) <= Up(eps, run[i]).y
  }

  /** The steepest of the real lines that stab the run. */
  ghost predicate IsSteepest(eps: nat, run: seq<Point>, a: real, b: real) {
    Stabs(eps, run, a, b) && forall c: real, d: real :: Stabs(eps, run, c, d) ==> c <= a
  }

  /** i is the integer nearest to v; of two, the lower one. */
  predicate Nearest(i: int, v: real) { -0.5 <= i as real - v < 0.5 }

  /** The height at x of the line of slope a and intercept b. */
  function LineAt(a: real, b: real, x: int): real { a * x as real + b }

  function Slope(s: Segment): real
    requires s.den > 0
  {
    s.num as real / s.den as real
  }

  /** The stored segment is the steepest line of its run, its height at the first key rounded
      to the nearest integer. For a single point it is flat, at the middle of the interval. */
  ghost predicate StoresLine(eps: nat, run: seq<Point>, s: Segment) {
    && |run| > 0 && s.den > 0 && s.key == run[0].x
    && if |run| == 1 then
         s.num == 0 && 2 * s.intercept <= Low(eps, run[0]).y + Up(eps, run[0]).y < 2 * s.intercept + 2
       else
         exists b: real :: StoresSteepest(eps, run, s, b)
  }

  ghost predicate StoresSteepest(eps: nat, run: seq<Point>, s: Segment, b: real)
    requires s.den > 0
  {
    IsSteepest(eps, run, Slope(s), b) && Nearest(s.intercept, LineAt(Slope(s), b, s.key))
  }

  predicate NonDecreasingY(run: seq<Point>) {
    forall i, j :: 0 <= i < j < |run| ==> run[i].y <= run[j].y
  }

  lemma DivMonotone(a: int, b: int, d: int)
    requires d > 0 && a <= b
    ensures a / d <= b / d
  {
    var q, r := a / d, b / d;
    assert d * q <= a && b < d * (r + 1);
    Cancel(d, q, r + 1);
  }

  /** The position is the intercept and the floor of the slope product. */
  lemma PositionIsFloor(s: Segment, k: int)
    requires s.den > 0
    ensures var up := Position(s, k) - s.intercept; s.den * up <= s.num * (k - s.key) < s.den * (up + 1)
  {
    DivBounds(s.num * (k - s.key), s.den);
  }

  lemma PositionMonotone(s: Segment, k: int, l: int)
    requires s.den > 0 && s.num >= 0 && k <= l
    ensures Position(s, k) <= Position(s, l)
  {
    assert s.num * (k - s.key) <= s.num * (l - s.key);
    DivMonotone(s.num * (k - s.key), s.num * (l - s.key), s.den);
  }

  /** The rounded intercept, left of p1, is p1.y minus a rounded quotient. */
  lemma Rounding(r: Rectangle, origin: int) returns (q: int, m: int)
    requires r.p1.x < r.p3.x && r.p1.y <= r.p3.y && origin <= r.p1.x
    ensures m == (r.p3.y - r.p1.y) * (r.p1.x - origin) >= 0
    ensures RoundedIntercept(r, origin) == r.p1.y - q
    ensures var d := r.p3.x - r.p1.x; -d < m - d * q < d
  {
    var d, dy := r.p3.x - r.p1.x, r.p3.y - r.p1.y;
    m := dy * (r.p1.x - origin);
    assert dy * (origin - r.p1.x) == -m;
    MulNonNeg(dy, r.p1.x - origin);
    q := (m + d / 2) / d;
    RoundToNearest(m, d);
  }

  /** i is the integer nearest to the height at o of the line through p and q, the lower one
      of two: said in whole numbers, over the distance of p and q. */
  predicate NearHeight(p: Point, q: Point, o: int, i: int) {
    var d := q.x - p.x;
    d > 0 && -d <= 2 * ((i - p.y) * d - (q.y - p.y) * (o - p.x)) < d
  }

  /** The stored intercept is the integer nearest to the height of the steeper line at the
      run's first key. */
  lemma InterceptIsNearest(eps: nat, run: seq<Point>, r: Rectangle)
    requires |run| > 1 && RectangleOk(eps, run, r) && ValidRun(run) && NonDecreasingY(run)
    ensures r.p1.x < r.p3.x && NearHeight(r.p1, r.p3, run[0].x, RoundedIntercept(r, run[0].x))
  {
    RisingLine(eps, run, r);
    hide RoundedIntercept, RectangleOk, NearHeight;
    NearestAt(r, run[0].x);
  }

  lemma NearestAt(r: Rectangle, o: int)
    requires r.p1.x < r.p3.x && r.p1.y <= r.p3.y && o <= r.p1.x
    ensures NearHeight(r.p1, r.p3, o, RoundedIntercept(r, o))
  {
    var d, dy := r.p3.x - r.p1.x, r.p3.y - r.p1.y;
    var n := dy * (o - r.p1.x);
    MulNonNeg(dy, r.p1.x - o);
    assert n == -(dy * (r.p1.x - o));
    RoundToNearest(-n, d);
    hide TruncDiv;
    var q := (-n + d / 2) / d;
    assert RoundedIntercept(r, o) == r.p1.y - q;
    Negated(q, d);
  }

  lemma Negated(q: int, d: int)
    ensures -q * d == -(d * q)
  {}

  /** So it is the steepest stabbing line that a segment stores. */
  lemma LineStored(eps: nat, run: seq<Point>, cs: CanonicalSegment)
    requires |run| > 1 && SegmentFits(eps, run, cs) && ValidRun(run) && NonDecreasingY(run)
    ensures Convertible(cs) && StoresLine(eps, run, FromCanonical(cs))
  {
    var r := cs.rectangle;
    InterceptIsNearest(eps, run, r);
    SteeperLine(eps, run, r);
    hide RoundedIntercept, RectangleOk, ValidRun, NonDecreasingY, IsSteepest, NearHeight, StoresSteepest;
    var s := FromCanonical(cs);
    SteepestStored(eps, run, r.p1, r.p3, s);
  }

  lemma SteepestStored(eps: nat, run: seq<Point>, p: Point, q: Point, s: Segment)
    requires p.x < q.x && s.num == q.y - p.y && s.den == q.x - p.x
    requires IsSteepest(eps, run, SlopeOf(p, q), InterceptOf(p, q)) && NearHeight(p, q, s.key, s.intercept)
    ensures StoresSteepest(eps, run, s, InterceptOf(p, q))
  {
    NearestHeight(p, q, s.key, s.intercept);
    hide IsSteepest, NearHeight, Nearest, InterceptOf, LineAt;
  }

  lemma SteeperLine(eps: nat, run: seq<Point>, r: Rectangle)
    requires |run| > 1 && RectangleOk(eps, run, r) && ValidRun(run)
    ensures r.p1.x < r.p3.x && IsSteepest(eps, run, SlopeOf(r.p1, r.p3), InterceptOf(r.p1, r.p3))
  {
    ExtremeLinesStab(eps, run, r);
    hide RectangleOk, Stabs, ValidRun, SlopeOf, InterceptOf;
    forall c: real, d: real | Stabs(eps, run, c, d) ensures c <= SlopeOf(r.p1, r.p3) {
      SlopeRange(eps, run, r, c, d);
    }
  }

  /** Nothing of a stored segment is left open: the steepest line is one line. */
  lemma StoredLineUnique(eps: nat, run: seq<Point>, r: Rectangle, s: Segment, t: Segment)
    requires |run| > 1 ==> RectangleOk(eps, run, r) && ValidRun(run)
    requires StoresLine(eps, run, s) && StoresLine(eps, run, t)
    ensures s.key == t.key && Slope(s) == Slope(t) && s.intercept == t.intercept
  {
    if |run| > 1 {
      StoredIs(eps, run, r, s);
      StoredIs(eps, run, r, t);
      hide RectangleOk, ValidRun, StoresLine, SlopeOf, InterceptOf, Slope;
    }
  }

  lemma StoredIs(eps: nat, run: seq<Point>, r: Rectangle, s: Segment)
    requires |run| > 1 && RectangleOk(eps, run, r) && ValidRun(run) && StoresLine(eps, run, s)
    ensures r.p1.x < r.p3.x && Slope(s) == SlopeOf(r.p1, r.p3)
    ensures Nearest(s.intercept, LineAt(SlopeOf(r.p1, r.p3), InterceptOf(r.p1, r.p3), run[0].x))
  {
    hide RectangleOk, ValidRun, IsSteepest, SlopeOf, InterceptOf, Nearest, Slope, LineAt;
    var b :| StoresSteepest(eps, run, s, b);
    OnlySteepest(eps, run, r, Slope(s), b);
  }

  lemma OnlySteepest(eps: nat, run: seq<Point>, r: Rectangle, a: real, b: real)
    requires |run| > 1 && RectangleOk(eps, run, r) && ValidRun(run) && IsSteepest(eps, run, a, b)
    ensures r.p1.x < r.p3.x && a == SlopeOf(r.p1, r.p3) && b == InterceptOf(r.p1, r.p3)
  {
    hide RectangleOk, Stabs, ValidRun, SlopeOf, InterceptOf;
    SteeperLine(eps, run, r);
    CornersHit(eps, run, r, a, b);
    assert Stabs(eps, run, SlopeOf(r.p1, r.p3), InterceptOf(r.p1, r.p3));
    ThroughEnds(r.p1, r.p3, a, b);
  }

  lemma CornersHit(eps: nat, run: seq<Point>, r: Rectangle, a: real, b: real)
    requires |run| > 1 && RectangleOk(eps, run, r) && Stabs(eps, run, a, b)
    ensures a * r.p1.x as real + b >= r.p1.y as real && a * r.p3.x as real + b <= r.p3.y as real
  {
    hide Stabs, Fits, Lows, Ups;
    EndsHit(eps, run, a, b, r.p3, r.p1);
  }

  lemma ThroughEnds(p: Point, q: Point, a: real, b: real)
    requires p.x < q.x && a == SlopeOf(p, q)
    requires a * p.x as real + b >= p.y as real && a * q.x as real + b <= q.y as real
    ensures b == InterceptOf(p, q)
  {
    QuotientTimes((q.y - p.y) as real, (q.x - p.x) as real);
    Spread(a, q.x as real, p.x as real);
  }

  lemma NearestHeight(p: Point, q: Point, o: int, i: int)
    requires p.x < q.x && NearHeight(p, q, o, i)
    ensures Nearest(i, LineAt(SlopeOf(p, q), InterceptOf(p, q), o))
  {
    var d, dy, off, a := q.x - p.x, q.y - p.y, o - p.x, SlopeOf(p, q);
    var e := i as real - (a * o as real + InterceptOf(p, q));
    var gap := (i - p.y) * d - dy * off;
    assert -d <= 2 * gap < d;
    hide NearHeight;
    HeightGap(p, q, o, i);
    hide SlopeOf, InterceptOf;
    HalfBound(e, d, gap);
  }

  lemma HeightGap(p: Point, q: Point, o: int, i: int)
    requires p.x < q.x
    ensures (i as real - (SlopeOf(p, q) * o as real + InterceptOf(p, q))) * (q.x - p.x) as real
         == ((i - p.y) * (q.x - p.x) - (q.y - p.y) * (o - p.x)) as real
  {
    var a := SlopeOf(p, q);
    QuotientTimes((q.y - p.y) as real, (q.x - p.x) as real);
    Spread(a, o as real, p.x as real);
    ScaledGap(i as real - (a * o as real + InterceptOf(p, q)), i - p.y, a, o - p.x, q.x - p.x, q.y - p.y);
  }

  lemma Spread(a: real, o: real, x: real)
    ensures a * (o - x) == a * o - a * x
  {}

  lemma ScaledGap(e: real, i: int, a: real, off: int, d: int, dy: int)
    requires e == i as real - a * off as real && a * d as real == dy as real
    ensures e * d as real == (i * d - dy * off) as real
  {
    assert a * off as real * d as real == a * d as real * off as real;
  }

  lemma HalfBound(e: real, d: int, gap: int)
    requires d > 0 && e * d as real == gap as real && -d <= 2 * gap < d
    ensures -0.5 <= e < 0.5
  {
    RealSign(d as real, e + 0.5);
    RealSign(d as real, 0.5 - e);
  }

  lemma DivBounds(a: int, d: int)
    requires d > 0
    ensures d * (a / d) <= a < d * (a / d) + d
  {}

  lemma TruncNegative(a: int, d: int)
    requires a > 0 && d > 0
    ensures TruncDiv(-a, d) == -(a / d)
  {}

  lemma SmallQuotient(a: int, d: int)
    requires 0 <= a < d
    ensures a / d == 0
  {}

  /** Adding half the divisor toward the sign before truncating rounds to nearest. */
  lemma RoundToNearest(m: int, d: int)
    requires m >= 0 && d > 0
    ensures TruncDiv(-m + TruncDiv((if -m < 0 then -1 else 1) * d, 2), d) == -((m + d / 2) / d)
    ensures var q := (m + d / 2) / d; -d <= 2 * (m - d * q) < d
  {
    var h := d / 2;
    DivBounds(m + h, d);
    if m == 0 {
      SmallQuotient(h, d);
    } else {
      TruncNegative(d, 2);
      hide TruncDiv;
      TruncNegative(m + h, d);
    }
  }

  /** Floor of the slope product plus rounded intercept against an exact bound. */
  lemma PositionBounds(d: int, w: int, f: int, c: int, q: int, m: int, py: int, l: int, u: int)
    requires d > 0 && f == w / d && c == py - q
    requires -d < m - d * q < d
    requires d * l <= d * py + w - m <= d * u
    ensures l - 1 <= f + c <= u
    ensures w == 0 ==> l <= c <= u
  {
    assert d * f <= w < d * f + d;
    var e := m - d * q;
    assert d * (f + c) == d * f + d * py - d * q;
    assert d * (f + c) < d * u + d == d * (u + 1);
    assert d * (f + c) > d * l - 2 * d == d * (l - 2);
    Cancel(d, f + c, u + 1);
    Cancel(d, l - 2, f + c);
    if w == 0 {
      assert f == 0 && d * c > d * l - d == d * (l - 1);
      Cancel(d, l - 1, c);
    }
  }

  lemma Cancel(d: int, a: int, b: int)
    requires d > 0 && d * a < d * b
    ensures a < b
  {}

  /** The steeper line of a fitting rectangle rises, when positions do. */
  lemma RisingLine(eps: nat, run: seq<Point>, r: Rectangle)
    requires |run| > 1 && RectangleOk(eps, run, r) && ValidRun(run) && NonDecreasingY(run)
    ensures r.p1.x < r.p3.x && r.p1.y <= r.p3.y && run[0].x <= r.p1.x
  {
    hide Cross;
    var i :| 0 <= i < |run| && Lows(eps, run)[i] == r.p1;
    var j :| 0 <= j < |run| && Ups(eps, run)[j] == r.p3;
    assert Low(eps, run[i]) == r.p1 && Up(eps, run[j]) == r.p3;
    assert i < j;
    assert r.p1.y <= run[i].y <= run[j].y <= r.p3.y;
  }

  lemma ExactHeight(r: Rectangle, z: Point, origin: int, m: int)
    requires m == (r.p3.y - r.p1.y) * (r.p1.x - origin)
    ensures (r.p3.x - r.p1.x) * r.p1.y + (r.p3.y - r.p1.y) * (z.x - origin) - m
         == (r.p3.x - r.p1.x) * z.y - Cross(r.p1, r.p3, z)
  {}

  lemma SegmentModels(eps: nat, run: seq<Point>, cs: CanonicalSegment)
    requires SegmentFits(eps, run, cs) && ValidRun(run) && NonDecreasingY(run)
    requires 1 <= eps <= MAX_Y
    ensures Convertible(cs)
    ensures Models(eps, run, FromCanonical(cs)) && StoresLine(eps, run, FromCanonical(cs))
  {
    hide Cross;
    var r := cs.rectangle;
    if |run| == 1 {
      OnePointModels(eps, run, cs);
    } else {
      LineStored(eps, run, cs);
      hide StoresLine;
      RisingLine(eps, run, r);
      assert r.p0.x < r.p2.x;
      LineModels(eps, run, r);
    }
  }

  lemma OnePointModels(eps: nat, run: seq<Point>, cs: CanonicalSegment)
    requires |run| == 1 && InRange(run[0]) && SegmentFits(eps, run, cs)
    ensures OnePoint(cs.rectangle) && Models(eps, run, FromCanonical(cs)) && StoresLine(eps, run, FromCanonical(cs))
  {
    var s := FromCanonical(cs);
    assert Position(s, run[0].x) == s.intercept;
  }

  lemma LineModels(eps: nat, run: seq<Point>, r: Rectangle)
    requires |run| > 1 && RectangleOk(eps, run, r)
    requires r.p1.x < r.p3.x && r.p1.y <= r.p3.y && run[0].x <= r.p1.x
    ensures Models(eps, run, Segment(run[0].x, r.p3.y - r.p1.y, r.p3.x - r.p1.x, RoundedIntercept(r, run[0].x)))
  {
    hide Cross, RoundedIntercept;
    var key := run[0].x;
    var d, dy, c := r.p3.x - r.p1.x, r.p3.y - r.p1.y, RoundedIntercept(r, key);
    var q, m := Rounding(r, key);
    forall i | 0 <= i < |run|
      ensures Low(eps, run[i]).y - 1 <= dy * (run[i].x - key) / d + c <= Up(eps, run[i]).y
      ensures i == 0 ==> Low(eps, run[0]).y <= c <= Up(eps, run[0]).y
    {
      var l, u := Lows(eps, run)[i], Ups(eps, run)[i];
      assert 1 * Cross(r.p1, r.p3, l) <= 0 && 1 * Cross(r.p1, r.p3, u) >= 0;
      ExactHeight(r, l, key, m);
      ExactHeight(r, u, key, m);
      var w := dy * (run[i].x - key);
      if i == 0 { assert w == 0; }
      PositionBounds(d, w, w / d, c, q, m, r.p1.y, l.y, u.y);
    }
  }
}
