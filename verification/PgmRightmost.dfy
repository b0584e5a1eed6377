/** Keys for which the segment that answers a query is not the rightmost one with key not
    beyond it, for 64-bit keys and any recursive epsilon. */
module PgmRightmost {
  import opened Geometry
  import opened Hull
  import opened SortedSeq
  import opened PiecewiseLinearModel
  import opened Segmentation
  import opened PgmSegment
  import opened PgmLevel
  import opened PgmIndex

  /** The greatest 64-bit key. */
  const TOP: int := 0xFFFF_FFFF_FFFF_FFFF

  /** One key at the bottom of the key space and three right below the sentinel. */
  const FOUR_KEYS: seq<int> := [0, TOP - 4, TOP - 3, TOP - 2]

  const FOUR_POINTS: seq<Point> :=
      [Point(0, 0), Point(TOP - 4, 1), Point(TOP - 3, 2), Point(TOP - 2, 3), Point(TOP - 1, 4)]

  lemma FourPoints()
    ensures Increasing(FOUR_KEYS) && Points(FOUR_KEYS) == FOUR_POINTS
  {
    var e := FOUR_KEYS;
    FedStep(e, 1);
    FedStep(e, 2);
    FedStep(e, 3);
  }

  // ---- The line of the run ----

  const FOUR_LOWS: seq<Point> :=
      [Point(0, 0), Point(TOP - 4, 0), Point(TOP - 3, 0), Point(TOP - 2, 1), Point(TOP - 1, 2)]

  const FOUR_UPS: seq<Point> :=
      [Point(0, 2), Point(TOP - 4, 3), Point(TOP - 3, 4), Point(TOP - 2, 5), Point(TOP - 1, 6)]

  lemma FourEnds()
    ensures Lows(2, FOUR_POINTS) == FOUR_LOWS && Ups(2, FOUR_POINTS) == FOUR_UPS
  {}

  /** A steep line through two of the last ends passes far below the first one. */
  lemma TooSteep(p: Point, q: Point)
    requires p in FOUR_LOWS && q in FOUR_UPS && p.x < q.x && p != Point(0, 0)
    ensures Cross(p, q, Point(0, 0)) > 0
  {
    var dx, dy := q.x - p.x, q.y - p.y;
    assert 1 <= dx <= 3 && 3 <= dy <= 6;
    assert Cross(p, q, Point(0, 0)) == dy * p.x - dx * p.y;
    assert dx * p.y <= 6;
    assert dy * p.x >= 3 * p.x;
  }

  /** A line from the first lower end to any upper end but the second passes above that. */
  lemma TooHigh(q: Point)
    requires q in FOUR_UPS && 0 < q.x && q != Point(TOP - 4, 3)
    ensures Cross(Point(0, 0), q, Point(TOP - 4, 3)) < 0
  {
    assert Cross(Point(0, 0), q, Point(TOP - 4, 3)) == q.x * 3 - q.y * (TOP - 4);
  }

  /** So only one line can be the steeper one of the fit. */
  lemma SteeperLine(r: Rectangle)
    requires RectangleOk(2, FOUR_POINTS, r)
    ensures r.p1 == Point(0, 0) && r.p3 == Point(TOP - 4, 3)
  {
    FourEnds();
    hide Lows, Ups, Cross;
    assert FOUR_LOWS[0] == Point(0, 0) && FOUR_UPS[1] == Point(TOP - 4, 3);
    assert 1 * Cross(r.p1, r.p3, FOUR_LOWS[0]) <= 0 && 1 * Cross(r.p1, r.p3, FOUR_UPS[1]) >= 0;
    if r.p1 != Point(0, 0) {
      TooSteep(r.p1, r.p3);
    } else if r.p3 != Point(TOP - 4, 3) {
      TooHigh(r.p3);
    }
  }

  const FOUR_LINE: Segment := Segment(0, 3, TOP - 4, 0)

  lemma FourSegment(cs: CanonicalSegment)
    requires SegmentFits(2, FOUR_POINTS, cs)
    ensures Convertible(cs) && FromCanonical(cs) == FOUR_LINE
  {
    hide RectangleOk;
    SteeperLine(cs.rectangle);
    assert TruncDiv(TOP - 4, 2) == (TOP - 4) / 2;
    assert TruncDiv((TOP - 4) / 2, TOP - 4) == 0;
  }

  /** The line falls short of the end, just above the greatest key. */
  lemma FallsShort()
    ensures Position(FOUR_LINE, TOP - 1) == 3
  {
    assert 3 * (TOP - 1) == 3 * (TOP - 4) + 9;
  }

  // ---- The index ----

  ghost predicate OverFour(x: PGMIndex)
    reads x
  {
    x.Built() && x.epsilon == 2 && x.epsilonRecursive > 0 && x.sentinel == TOP && x.keys == FOUR_KEYS
  }

  lemma OneRun(starts: seq<nat>, fits: seq<CanonicalSegment>)
    requires IsSegmentation(2, Points(FOUR_KEYS), starts, fits)
    ensures starts == [0] && |fits| == 1 && SegmentFits(2, FOUR_POINTS, fits[0])
  {
    FourPoints();
    hide Points, Greedy, SegmentFits;
    if |starts| > 1 {
      RunCoversTwoEps(FOUR_KEYS, 2, starts, 0);
    }
    assert FitsAt(2, FOUR_POINTS, starts, fits, 0);
    assert FOUR_POINTS[0..5] == FOUR_POINTS;
  }

  lemma BottomOfFour(x: PGMIndex)
    requires OverFour(x)
    ensures |x.levels| > 0 && x.levels[0].starts == [0]
    ensures x.Segs(0) == [FOUR_LINE, Segment(TOP - 1, 0, 1, 4), Segment(TOP, 0, 1, 4)]
  {
    BottomLevel(x);
    LevelFacts(x, 0);
    assert FittedAt(x.segments, x.levelsOffsets, x.levels, 0, x.epsilon, x.epsilonRecursive);
    hide Stack, IsSegmentation, Points, FromCanonical, Position, SegmentFits, Fitted;
    var level, ss := x.levels[0], x.Segs(0);
    OneRun(level.starts, level.fits);
    FourSegment(level.fits[0]);
    FallsShort();
    assert ss[0] == FOUR_LINE;
    assert ss == [ss[0]] + ss[1..];
  }

  /** A level above indexes the counted segments below, of which there are several. */
  lemma UpperEntries(x: PGMIndex, l: nat)
    requires x.Built() && l + 1 < |x.levels|
    ensures 0 < |x.levels[l].starts| <= |x.Segs(l)|
    ensures 1 < |x.levels[l + 1].entries| == Counted(|x.levels[l].starts|, x.Segs(l), x.sentinel)
  {
    hide LevelOk;
    assert FittedAt(x.segments, x.levelsOffsets, x.levels, l + 1, x.epsilon, x.epsilonRecursive);
    assert StackedOn(x.segments, x.levelsOffsets, x.levels, l, x.sentinel);
  }

  /** Every index over the four keys under epsilon 2 is one level with an end segment; for
      the key just above the greatest one it answers with segment 0, although segment 1 is
      the rightmost one with key not beyond it. */
  lemma RightmostMissed(x: PGMIndex)
    requires OverFour(x)
    ensures x.Height() == 1 && x.SegmentsCount() == 2
    ensures x.segments == [FOUR_LINE, Segment(TOP - 1, 0, 1, 4), Segment(TOP, 0, 1, 4)]
    ensures x.Answers(0, 0, TOP - 1) && !x.ScanEnd(0, 0, TOP - 1) && x.ScanEnd(0, 1, TOP - 1)
  {
    BottomOfFour(x);
    BottomLevel(x);
    LevelFacts(x, 0);
    if |x.levels| > 1 { UpperEntries(x, 0); }
    hide LevelOk, Fitted, TopCount, IsSegmentation;
    SingleLevel(x);
  }

  /** Building that index and asking it for that key. */
  method AskPastGreatest(epsilonRecursive: nat) returns (x: PGMIndex, it: nat)
    requires 0 < epsilonRecursive <= MAX_Y - 7
    ensures OverFour(x) && it == 0 && !x.ScanEnd(0, it, TOP - 1)
  {
    hide Fitted, Stack, LevelOk;
    x := new PGMIndex(2, epsilonRecursive, TOP);
    var ok := x.Build(FOUR_KEYS);
    RightmostMissed(x);
    it := x.SegmentForKey(TOP - 1);
  }
}
