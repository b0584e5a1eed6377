/** make_segmentation: which points a key sequence feeds to the fit, the greedy cut into
    runs, and why no other cut has fewer runs. */
module Segmentation {
  import opened Geometry
  import opened Hull
  import opened SortedSeq
  import opened PiecewiseLinearModel

  // ---- The points fed ----

  /** The points fed for index i: nothing inside a run of duplicates, the key after the
      run at its end when the next key leaves room, the key itself otherwise. */
  function Emit(e: seq<int>, i: nat): seq<Point>
    requires 1 <= i < |e| - 1
  {
    if e[i] == e[i - 1] then
      if e[i] + 1 < e[i + 1] then [Point(e[i] + 1, i)] else []
    else [Point(e[i], i)]
  }

  /** The points fed for the indices below i. */
  function Fed(e: seq<int>, i: nat): seq<Point>
    requires 1 <= i <= |e| && (i < |e| || i == 1)
  {
    if i == 1 then [Point(e[0], 0)] else Fed(e, i - 1) + Emit(e, i - 1)
  }

  lemma FedStep(e: seq<int>, i: nat)
    requires 1 <= i <= |e| && (i < |e| || i == 1)
    ensures Fed(e, i) == if i == 1 then [Point(e[0], 0)] else Fed(e, i - 1) + Emit(e, i - 1)
  {}

  function FedAll(e: seq<int>): seq<Point>
    requires |e| > 0
  {
    var n := |e|;
    if n == 1 then Fed(e, 1)
    else Fed(e, n - 1) + if e[n - 1] != e[n - 2] then [Point(e[n - 1], n - 1)] else []
  }

  function Points(e: seq<int>): (r: seq<Point>)
    requires |e| > 0
  {
    FedAll(e) + [Point(e[|e| - 1] + 1, |e|)]
  }

  /** A fed point's position is its key's rank, or one less just after duplicates. */
  ghost predicate PointOk(e: seq<int>, p: Point)
    requires Sorted(e)
  {
    p.y <= Rank(e, p.x) <= p.y + 1
  }

  /** Keys strictly between two consecutive fed points have ranks between theirs. */
  ghost predicate GapOk(e: seq<int>, p: Point, q: Point)
    requires Sorted(e)
  {
    forall k :: p.x < k < q.x ==> q.y <= Rank(e, k) <= p.y + 1
  }

  ghost predicate FeedOk(e: seq<int>, f: seq<Point>)
    requires Sorted(e)
  {
    && |e| > 0 && |f| > 0 && f[0] == Point(e[0], 0)
    && IncreasingX(f)
    && (forall i, j :: 0 <= i < j < |f| ==> f[i].y <= f[j].y)
    && (forall i :: 0 <= i < |f| ==> 0 <= f[i].y <= |e| && PointOk(e, f[i]))
    && (forall i :: 0 <= i < |f| - 1 ==> GapOk(e, f[i], f[i + 1]))
  }

  lemma FeedOne(e: seq<int>, f: seq<Point>, q: Point)
    requires Sorted(e) && FeedOk(e, f)
    requires f[|f| - 1].x < q.x && f[|f| - 1].y <= q.y <= |e|
    requires PointOk(e, q) && GapOk(e, f[|f| - 1], q)
    ensures FeedOk(e, f + [q])
  {
    hide PointOk, GapOk;
    var g := f + [q];
    forall i | 0 <= i < |g| - 1 ensures GapOk(e, g[i], g[i + 1]) {
      if i < |f| - 1 { assert GapOk(e, f[i], f[i + 1]); }
    }
  }

  /** The last fed point never lags behind the keys, and its position only inside
      duplicates or when no key lies between. */
  ghost predicate LastOk(e: seq<int>, i: nat, p: Point)
    requires 1 <= i <= |e|
  {
    && e[i - 1] <= p.x <= e[i - 1] + 1
    && p.y <= i - 1
    && (i < |e| && p.x == e[i - 1] + 1 ==> p.x < e[i])
    && (i < |e| ==> p.y == i - 1 || e[i] <= e[i - 1] + 1)
  }

  lemma {:induction false} FedOk(e: seq<int>, i: nat)
    requires Sorted(e) && 1 <= i <= |e| && (i < |e| || i == 1)
    ensures |Fed(e, i)| > 0
    ensures FeedOk(e, Fed(e, i)) && LastOk(e, i, Fed(e, i)[|Fed(e, i)| - 1])
  {
    hide FeedOk, LastOk, Emit, Fed;
    FedStep(e, i);
    if i == 1 {
      FirstFed(e);
    } else {
      FedOk(e, i - 1);
      EmitOk(e, i - 1, Fed(e, i - 1));
    }
  }

  lemma FirstFed(e: seq<int>)
    requires Sorted(e) && |e| > 0
    ensures FeedOk(e, [Point(e[0], 0)]) && LastOk(e, 1, Point(e[0], 0))
  {
    RankIs(e, e[0], 0);
  }

  lemma EmitOk(e: seq<int>, j: nat, f: seq<Point>)
    requires Sorted(e) && 1 <= j < |e| - 1
    requires |f| > 0 && FeedOk(e, f) && LastOk(e, j, f[|f| - 1])
    ensures |f + Emit(e, j)| > 0 && FeedOk(e, f + Emit(e, j))
    ensures LastOk(e, j + 1, (f + Emit(e, j))[|f + Emit(e, j)| - 1])
  {
    hide FeedOk, PointOk, GapOk;
    var last := f[|f| - 1];
    if e[j] == e[j - 1] {
      if e[j] + 1 < e[j + 1] {
        SuccessorPoint(e, j, last);
        FeedOne(e, f, Point(e[j] + 1, j));
      } else {
        assert f + Emit(e, j) == f;
      }
    } else {
      KeyPoint(e, j, last);
      FeedOne(e, f, Point(e[j], j));
    }
  }

  /** The key after a run of duplicates may follow the last fed point. */
  lemma SuccessorPoint(e: seq<int>, j: nat, last: Point)
    requires Sorted(e) && 1 <= j < |e| - 1 && e[j] == e[j - 1] && e[j] + 1 < e[j + 1] && LastOk(e, j, last)
    ensures last.x < e[j] + 1 && PointOk(e, Point(e[j] + 1, j)) && GapOk(e, last, Point(e[j] + 1, j))
  {
    RankIs(e, e[j] + 1, j + 1);
  }

  /** A new distinct key may follow the last fed point. */
  lemma KeyPoint(e: seq<int>, j: nat, last: Point)
    requires Sorted(e) && 1 <= j < |e| && e[j - 1] < e[j] && LastOk(e, j, last)
    ensures last.x < e[j] && PointOk(e, Point(e[j], j)) && GapOk(e, last, Point(e[j], j))
  {
    RankIs(e, e[j], j);
    forall k | last.x < k < e[j] ensures j <= Rank(e, k) <= last.y + 1 {
      RankIs(e, k, j);
    }
  }

  lemma {:induction false} FedLength(e: seq<int>, i: nat)
    requires 1 <= i <= |e| && (i < |e| || i == 1)
    ensures |Fed(e, i)| <= i
  {
    if i > 1 { FedLength(e, i - 1); }
  }

  lemma PointsLength(e: seq<int>)
    requires |e| > 0
    ensures 2 <= |Points(e)| <= |e| + 1
  {
    FedLength(e, if |e| == 1 then 1 else |e| - 1);
    FedNonEmpty(e, if |e| == 1 then 1 else |e| - 1);
  }

  lemma {:induction false} FedNonEmpty(e: seq<int>, i: nat)
    requires 1 <= i <= |e| && (i < |e| || i == 1)
    ensures |Fed(e, i)| >= 1
  {
    if i > 1 { FedNonEmpty(e, i - 1); }
  }

  /** Everything the window theorem needs to know about the points fed. */
  lemma PointsOk(e: seq<int>)
    requires Sorted(e) && |e| > 0
    ensures FeedOk(e, Points(e))
    ensures Points(e)[|Points(e)| - 1] == Point(e[|e| - 1] + 1, |e|)
  {
    var n := |e|;
    FedAllOk(e);
    var f := FedAll(e);
    RankIs(e, e[n - 1] + 1, n);
    FeedOne(e, f, Point(e[n - 1] + 1, n));
  }

  lemma FedAllOk(e: seq<int>)
    requires Sorted(e) && |e| > 0
    ensures |FedAll(e)| > 0 && FeedOk(e, FedAll(e))
    ensures FedAll(e)[|FedAll(e)| - 1].x == e[|e| - 1] && FedAll(e)[|FedAll(e)| - 1].y <= |e| - 1
  {
    hide FeedOk, PointOk, GapOk;
    var n := |e|;
    if n == 1 {
      FedOk(e, 1);
    } else {
      FedOk(e, n - 1);
      var f := Fed(e, n - 1);
      if e[n - 1] != e[n - 2] {
        KeyPoint(e, n - 1, f[|f| - 1]);
        FeedOne(e, f, Point(e[n - 1], n - 1));
      } else {
        assert f + [] == f;
      }
    }
  }

  /** The first occurrence of every key is fed at its own position. */
  lemma {:induction false} FirstOccurrenceFed(e: seq<int>, i: nat, a: nat) returns (j: nat)
    requires Sorted(e) && 1 <= i <= |e| && (i < |e| || i == 1)
    requires a < i && (a > 0 ==> e[a - 1] < e[a])
    ensures j < |Fed(e, i)| && Fed(e, i)[j] == Point(e[a], a)
  {
    if a == i - 1 {
      j := |Fed(e, i)| - 1;
    } else {
      j := FirstOccurrenceFed(e, i - 1, a);
    }
  }

  lemma KeyIsFed(e: seq<int>, k: int) returns (j: nat)
    requires Sorted(e) && k in e
    ensures j < |Points(e)| && Points(e)[j] == Point(k, Rank(e, k))
  {
    var n, a := |e|, Rank(e, k);
    var i :| 0 <= i < n && e[i] == k;
    assert a <= i && e[a] == k;
    if n == 1 || a < n - 1 {
      j := FirstOccurrenceFed(e, if n == 1 then 1 else n - 1, a);
    } else {
      j := |Points(e)| - 2;
    }
  }

  /** A point fed for an index below the last is a key's first occurrence, or the gap just
      after a run of duplicates, fed with the index of the run's end. */
  ghost predicate KeyOrGap(e: seq<int>, p: Point) {
    && 0 <= p.y < |e|
    && (if p.x == e[p.y] then p.y > 0 ==> e[p.y - 1] < e[p.y]
        else p.x == e[p.y] + 1 && p.y + 1 < |e| && p.x < e[p.y + 1])
  }

  lemma {:induction false} FedShape(e: seq<int>, i: nat, j: nat)
    requires Sorted(e) && 1 <= i <= |e| && (i < |e| || i == 1) && j < |Fed(e, i)|
    ensures KeyOrGap(e, Fed(e, i)[j])
  {
    if i > 1 && j < |Fed(e, i - 1)| { FedShape(e, i - 1, j); }
  }

  lemma KeyOrGapRank(e: seq<int>, p: Point)
    requires Sorted(e) && KeyOrGap(e, p)
    ensures if p.x in e then p.y == Rank(e, p.x) else p.y + 1 == Rank(e, p.x)
  {
    if p.x == e[p.y] {
      RankIs(e, p.x, p.y);
    } else {
      RankIs(e, p.x, p.y + 1);
      assert forall i :: 0 <= i < |e| ==> if i <= p.y then e[i] <= e[p.y] else e[i] >= e[p.y + 1];
    }
  }

  /** A fed point's position is its rank exactly when its key is present or it is the last
      one; a point just after a run of duplicates is fed one less than its rank. */
  lemma PointRank(e: seq<int>, j: nat)
    requires Sorted(e) && |e| > 0 && j < |Points(e)|
    ensures var p := Points(e)[j];
            && (p.y == Rank(e, p.x) <==> p.x in e || j == |Points(e)| - 1)
            && (p.y != Rank(e, p.x) ==> p.y + 1 == Rank(e, p.x))
  {
    var n := |e|;
    if j == |Points(e)| - 1 {
      RankIs(e, e[n - 1] + 1, n);
    } else {
      var p := Points(e)[j];
      assert KeyOrGap(e, p) by {
        if j < |Fed(e, if n == 1 then 1 else n - 1)| { FedShape(e, if n == 1 then 1 else n - 1, j); }
      }
      KeyOrGapRank(e, p);
    }
  }

  /** Keys 5, 5, 9 feed 6 with position 1, although two keys lie below it. */
  lemma GapPointLags()
    ensures Points([5, 5, 9]) == [Point(5, 0), Point(6, 1), Point(9, 2), Point(10, 3)]
    ensures Sorted([5, 5, 9]) && Rank([5, 5, 9], 6) == 2
  {
    var e := [5, 5, 9];
    FedStep(e, 1);
    FedStep(e, 2);
    RankIs(e, 6, 2);
  }

  /** Distinct keys are all fed at their own positions. */
  lemma {:induction false} DistinctFed(e: seq<int>, i: nat)
    requires Increasing(e) && 1 <= i <= |e| && (i < |e| || i == 1)
    ensures |Fed(e, i)| == i && forall j :: 0 <= j < i ==> Fed(e, i)[j] == Point(e[j], j)
  {
    if i > 1 { DistinctFed(e, i - 1); }
  }

  lemma DistinctPoints(e: seq<int>)
    requires Increasing(e) && |e| > 0
    ensures |Points(e)| == |e| + 1
    ensures forall j :: 0 <= j < |e| ==> Points(e)[j] == Point(e[j], j)
  {
    DistinctFed(e, if |e| == 1 then 1 else |e| - 1);
  }

  // ---- The greedy cut ----

  /** Where run i of a cut at the given start indices ends. */
  function RunEnd(n: nat, starts: seq<nat>, i: nat): nat
    requires i < |starts|
  {
    if i + 1 < |starts| then starts[i + 1] else n
  }

  /** Start indices cutting n points into nonempty runs. */
  predicate IsCut(n: nat, starts: seq<nat>) {
    && |starts| > 0 && starts[0] == 0
    && (forall i, j :: 0 <= i < j < |starts| ==> starts[i] < starts[j])
    && (forall i :: 0 <= i < |starts| ==> starts[i] < n)
  }

  lemma {:induction false} CutLength(n: nat, starts: seq<nat>, i: nat)
    requires IsCut(n, starts) && i < |starts|
    ensures i <= starts[i] < n
  {
    if i > 0 { CutLength(n, starts, i - 1); }
  }

  lemma CutBounds(n: nat, starts: seq<nat>, i: nat)
    requires IsCut(n, starts) && i < |starts|
    ensures starts[i] < RunEnd(n, starts, i) <= n
  {}

  ghost predicate RunFits(eps: nat, p: seq<Point>, from: int, to: int, cs: CanonicalSegment) {
    0 <= from <= to <= |p| && SegmentFits(eps, p[from..to], cs)
  }

  /** The run from..to could not have taken the point at to. */
  ghost predicate Tight(eps: nat, p: seq<Point>, from: int, to: int) {
    0 <= from <= to < |p| && !Stabbable(eps, p[from..to + 1])
  }

  ghost predicate RunStabbable(eps: nat, p: seq<Point>, from: int, to: int) {
    0 <= from <= to <= |p| && Stabbable(eps, p[from..to])
  }

  ghost predicate FitsAt(eps: nat, p: seq<Point>, starts: seq<nat>, segs: seq<CanonicalSegment>, i: nat)
    requires i < |starts| && i < |segs|
  {
    RunFits(eps, p, starts[i], RunEnd(|p|, starts, i), segs[i])
  }

  ghost predicate TightAt(eps: nat, p: seq<Point>, starts: seq<nat>, i: nat)
    requires i + 1 < |starts|
  {
    Tight(eps, p, starts[i], starts[i + 1])
  }

  ghost predicate StabbableAt(eps: nat, p: seq<Point>, starts: seq<nat>, i: nat)
    requires i < |starts|
  {
    RunStabbable(eps, p, starts[i], RunEnd(|p|, starts, i))
  }

  ghost predicate Segments(eps: nat, p: seq<Point>, starts: seq<nat>, segs: seq<CanonicalSegment>) {
    |segs| <= |starts| && forall i :: 0 <= i < |segs| ==> FitsAt(eps, p, starts, segs, i)
  }

  /** No run could have been one point longer. */
  ghost predicate Greedy(eps: nat, p: seq<Point>, starts: seq<nat>) {
    forall i :: 0 <= i < |starts| - 1 ==> TightAt(eps, p, starts, i)
  }

  ghost predicate AllStabbable(eps: nat, p: seq<Point>, starts: seq<nat>) {
    forall i :: 0 <= i < |starts| ==> StabbableAt(eps, p, starts, i)
  }

  lemma SubRunStabbable(eps: nat, p: seq<Point>, from: int, i: int, j: int, to: int)
    requires RunStabbable(eps, p, from, to) && from <= i <= j <= to
    ensures RunStabbable(eps, p, i, j)
  {
    hide Hits;
    var a, b :| Stabs(eps, p[from..to], a, b);
    forall k | 0 <= k < j - i ensures Hits(eps, p[i..j][k], a, b) {
      assert p[i..j][k] == p[from..to][i - from + k];
    }
    assert Stabs(eps, p[i..j], a, b);
  }

  /** The greedy cut stays ahead of any other cut into stabbable runs. */
  lemma {:induction false} GreedyStaysAhead(eps: nat, p: seq<Point>, greedy: seq<nat>, other: seq<nat>, i: nat)
    requires IsCut(|p|, greedy) && Greedy(eps, p, greedy)
    requires IsCut(|p|, other) && AllStabbable(eps, p, other)
    requires i < |greedy| && i < |other|
    ensures other[i] <= greedy[i]
  {
    hide Stabbable;
    if i > 0 {
      GreedyStaysAhead(eps, p, greedy, other, i - 1);
      assert TightAt(eps, p, greedy, i - 1);
      assert StabbableAt(eps, p, other, i - 1);
      if other[i] > greedy[i] {
        SubRunStabbable(eps, p, other[i - 1], greedy[i - 1], greedy[i] + 1, other[i]);
      }
    }
  }

  /** No partition into stabbable runs has fewer runs than the greedy one. */
  lemma GreedyIsMinimal(eps: nat, p: seq<Point>, greedy: seq<nat>, other: seq<nat>)
    requires IsCut(|p|, greedy) && Greedy(eps, p, greedy)
    requires IsCut(|p|, other) && AllStabbable(eps, p, other)
    ensures |greedy| <= |other|
  {
    hide Stabbable;
    var last := |other| - 1;
    assert StabbableAt(eps, p, other, last);
    if |other| < |greedy| {
      GreedyStaysAhead(eps, p, greedy, other, last);
      assert TightAt(eps, p, greedy, last);
      SubRunStabbable(eps, p, other[last], greedy[last], greedy[last + 1] + 1, |p|);
    }
  }

  // ---- Levels shrink ----

  /** A horizontal line stabs 2 * eps + 1 consecutive positions. */
  lemma ConsecutiveStabbable(eps: nat, run: seq<Point>)
    requires 1 <= eps <= MAX_Y && 0 < |run| <= 2 * eps + 1
    requires forall i :: 0 <= i < |run| ==> InRange(run[i]) && run[i].y == run[0].y + i
    ensures Stabbable(eps, run)
  {
    var h := if run[0].y + eps <= MAX_Y then run[0].y + eps else MAX_Y;
    forall i | 0 <= i < |run| ensures Hits(eps, run[i], 0.0, h as real) {}
    assert Stabs(eps, run, 0.0, h as real);
  }

  /** With distinct keys every run but the last covers at least 2 * eps + 1 points. */
  lemma RunCoversTwoEps(e: seq<int>, eps: nat, starts: seq<nat>, i: nat)
    requires Increasing(e) && 0 < |e| <= MAX_Y && 1 <= eps <= MAX_Y
    requires IsCut(|Points(e)|, starts) && Greedy(eps, Points(e), starts) && i + 1 < |starts|
    ensures starts[i + 1] - starts[i] >= 2 * eps + 1
  {
    DistinctPoints(e);
    hide Stabbable, Points;
    var p := Points(e);
    assert TightAt(eps, p, starts, i);
    var run := p[starts[i]..starts[i + 1] + 1];
    if |run| <= 2 * eps + 1 {
      PositionsConsecutive(e, starts[i], starts[i + 1] + 1);
      ConsecutiveStabbable(eps, run);
    }
  }

  lemma PositionsConsecutive(e: seq<int>, from: nat, to: nat)
    requires Increasing(e) && 0 < |e| <= MAX_Y && from < to <= |Points(e)|
    ensures var run := Points(e)[from..to];
            forall i :: 0 <= i < |run| ==> InRange(run[i]) && run[i].y == run[0].y + i
  {
    DistinctPoints(e);
    PointsOk(e);
    hide Points, FeedOk;
  }

  lemma {:induction false} RunsCover(e: seq<int>, eps: nat, starts: seq<nat>, i: nat)
    requires Increasing(e) && 0 < |e| <= MAX_Y && 1 <= eps <= MAX_Y
    requires IsCut(|Points(e)|, starts) && Greedy(eps, Points(e), starts) && i < |starts|
    ensures i * (2 * eps + 1) <= starts[i]
  {
    hide Greedy, Points;
    if i > 0 {
      RunsCover(e, eps, starts, i - 1);
      RunCoversTwoEps(e, eps, starts, i - 1);
      assert i * (2 * eps + 1) == (i - 1) * (2 * eps + 1) + (2 * eps + 1);
    }
  }

  lemma LastStart(e: seq<int>, starts: seq<nat>)
    requires Increasing(e) && |e| > 0 && IsCut(|Points(e)|, starts)
    ensures |starts| > 0 && starts[|starts| - 1] <= |e|
  {
    DistinctPoints(e);
    hide Points;
  }

  /** A level over more than one distinct key has fewer segments than keys. */
  lemma LevelShrinks(e: seq<int>, eps: nat, starts: seq<nat>)
    requires Increasing(e) && 1 < |e| <= MAX_Y && 1 <= eps <= MAX_Y
    requires IsCut(|Points(e)|, starts) && Greedy(eps, Points(e), starts)
    ensures (|starts| - 1) * (2 * eps + 1) <= |e|
    ensures |starts| < |e|
  {
    var c := |starts|;
    LastStart(e, starts);
    RunsCover(e, eps, starts, c - 1);
    hide *;
    FewRuns(c - 1, 2 * eps + 1, |e|);
  }

  lemma FewRuns(runs: nat, width: nat, n: nat)
    requires runs * width <= n && width >= 3 && n > 1
    ensures runs + 1 < n
  {
    if runs + 1 >= n {
      assert runs * width == runs * 3 + runs * (width - 3);
      MulNonNeg(runs, width - 3);
    }
  }

  // ---- make_segmentation ----

  /** Midway through feeding: fed points cut at starts, the last run still open in opt. */
  ghost predicate Feeding(opt: OptimalPiecewiseLinearModel, fed: seq<Point>, starts: seq<nat>,
      segs: seq<CanonicalSegment>)
    reads opt
  {
    && opt.Valid() && opt.pointsInHull > 0
    && IsCut(|fed|, starts) && |starts| == |segs| + 1
    && Segments(opt.epsilon, fed, starts, segs)
    && Greedy(opt.epsilon, fed, starts)
    && opt.run == fed[starts[|segs|]..] && Stabbable(opt.epsilon, opt.run)
  }

  /** The add_point closure: on a rejection the finished segment goes out and the point
      starts the next run. */
  method Feed(opt: OptimalPiecewiseLinearModel, x: int, y: int, segs: seq<CanonicalSegment>,
              ghost fed: seq<Point>, ghost starts: seq<nat>)
      returns (out: seq<CanonicalSegment>, ghost newStarts: seq<nat>)
    requires Feeding(opt, fed, starts, segs)
    requires fed[|fed| - 1].x < x && InRange(Point(x, y))
    modifies opt
    ensures Feeding(opt, fed + [Point(x, y)], newStarts, out)
  {
    hide Stabbable, SegmentFits, RectangleOk, Spans, InRange, Up, Low, Segments, Greedy;
    ghost var q := Point(x, y);
    ghost var oldRun := opt.run;
    assert fed[|fed| - 1] == oldRun[|oldRun| - 1];
    var outcome := opt.AddPoint(x, y);
    out, newStarts := segs, starts;
    if outcome == Rejected {
      var cs := opt.GetSegment();
      out := out + [cs];
      newStarts := starts + [|fed|];
      var again := opt.AddPoint(x, y);
      assert again == Accepted;
      CutHere(opt.epsilon, fed, starts, segs, q, cs);
    } else {
      GrowLast(opt.epsilon, fed, starts, segs, q);
    }
  }

  lemma RunGrow(eps: nat, p: seq<Point>, q: Point, from: int, to: int)
    ensures forall cs :: RunFits(eps, p, from, to, cs) ==> RunFits(eps, p + [q], from, to, cs)
    ensures Tight(eps, p, from, to) ==> Tight(eps, p + [q], from, to)
  {
    hide Stabbable, SegmentFits;
    if 0 <= from <= to <= |p| {
      assert (p + [q])[from..to] == p[from..to];
      if to < |p| { assert (p + [q])[from..to + 1] == p[from..to + 1]; }
    }
  }

  lemma GrowLast(eps: nat, fed: seq<Point>, starts: seq<nat>, segs: seq<CanonicalSegment>, q: Point)
    requires IsCut(|fed|, starts) && |starts| == |segs| + 1
    requires Segments(eps, fed, starts, segs) && Greedy(eps, fed, starts)
    ensures IsCut(|fed + [q]|, starts)
    ensures Segments(eps, fed + [q], starts, segs) && Greedy(eps, fed + [q], starts)
    ensures (fed + [q])[starts[|segs|]..] == fed[starts[|segs|]..] + [q]
  {
    hide RunFits, Tight;
    forall i | 0 <= i < |segs|
      ensures FitsAt(eps, fed + [q], starts, segs, i) && TightAt(eps, fed + [q], starts, i)
    {
      assert FitsAt(eps, fed, starts, segs, i) && TightAt(eps, fed, starts, i);
      RunGrow(eps, fed, q, starts[i], starts[i + 1]);
    }
  }

  lemma CutAtEnd(n: nat, starts: seq<nat>)
    requires IsCut(n, starts)
    ensures IsCut(n + 1, starts + [n])
  {}

  lemma FinishedRun(eps: nat, fed: seq<Point>, from: nat, q: Point, cs: CanonicalSegment)
    requires from <= |fed|
    requires SegmentFits(eps, fed[from..], cs) && !Stabbable(eps, fed[from..] + [q])
    ensures RunFits(eps, fed + [q], from, |fed|, cs) && Tight(eps, fed + [q], from, |fed|)
    ensures (fed + [q])[|fed|..] == [q]
  {
    hide Stabbable, SegmentFits;
    assert (fed + [q])[from..|fed|] == fed[from..];
    assert (fed + [q])[from..|fed| + 1] == fed[from..] + [q];
  }

  lemma CutHere(eps: nat, fed: seq<Point>, starts: seq<nat>, segs: seq<CanonicalSegment>, q: Point,
      cs: CanonicalSegment)
    requires IsCut(|fed|, starts) && |starts| == |segs| + 1
    requires Segments(eps, fed, starts, segs) && Greedy(eps, fed, starts)
    requires SegmentFits(eps, fed[starts[|segs|]..], cs)
    requires !Stabbable(eps, fed[starts[|segs|]..] + [q])
    ensures IsCut(|fed + [q]|, starts + [|fed|])
    ensures Segments(eps, fed + [q], starts + [|fed|], segs + [cs]) && Greedy(eps, fed + [q], starts + [|fed|])
    ensures (fed + [q])[|fed|..] == [q]
  {
    hide RunFits, Tight, Stabbable, SegmentFits;
    var f, ss, gs, n := fed + [q], starts + [|fed|], segs + [cs], |segs|;
    CutAtEnd(|fed|, starts);
    GrowLast(eps, fed, starts, segs, q);
    FinishedRun(eps, fed, starts[n], q, cs);
    forall i | 0 <= i < |gs| ensures FitsAt(eps, f, ss, gs, i) && TightAt(eps, f, ss, i) {
      if i < n { assert FitsAt(eps, f, starts, segs, i) && TightAt(eps, f, starts, i); }
    }
  }

  /** What make_segmentation promises about the points it was fed. */
  ghost predicate IsSegmentation(eps: nat, p: seq<Point>, starts: seq<nat>, segs: seq<CanonicalSegment>) {
    && IsCut(|p|, starts) && |starts| == |segs|
    && Segments(eps, p, starts, segs) && Greedy(eps, p, starts)
  }

  lemma SegmentsStabbable(eps: nat, p: seq<Point>, starts: seq<nat>, segs: seq<CanonicalSegment>)
    requires IsSegmentation(eps, p, starts, segs)
    requires forall i :: 0 <= i < |p| ==> InRange(p[i])
    ensures AllStabbable(eps, p, starts)
  {
    hide RectangleOk, Stabbable;
    forall i | 0 <= i < |starts| ensures StabbableAt(eps, p, starts, i) {
      assert FitsAt(eps, p, starts, segs, i);
      var run := p[starts[i]..RunEnd(|p|, starts, i)];
      FittedStabbable(eps, run, segs[i]);
    }
  }

  lemma FittedStabbable(eps: nat, run: seq<Point>, cs: CanonicalSegment)
    requires SegmentFits(eps, run, cs) && InRange(run[0])
    ensures Stabbable(eps, run)
  {
    hide Stabbable;
    if |run| == 1 {
      ShortRunStabbable(eps, run);
    } else {
      RectangleStabs(eps, run, cs.rectangle);
    }
  }

  method StartFit(eps: nat, x: int) returns (opt: OptimalPiecewiseLinearModel)
    requires 1 <= eps <= MAX_Y
    ensures fresh(opt) && opt.epsilon == eps
    ensures Feeding(opt, [Point(x, 0)], [0], [])
  {
    hide Stabbable;
    opt := new OptimalPiecewiseLinearModel(eps);
    var first := opt.AddPoint(x, 0);
    assert [Point(x, 0)][0..] == [Point(x, 0)];
  }

  /** The sequential cut of a sorted key sequence, one segment per run. */
  method MakeSegmentation(e: seq<int>, eps: nat) returns (segs: seq<CanonicalSegment>, ghost starts: seq<nat>)
    requires Sorted(e) && 0 < |e| <= MAX_Y && 1 <= eps <= MAX_Y
    ensures IsSegmentation(eps, Points(e), starts, segs)
    ensures FewestRuns(eps, Points(e), |segs|)
  {
    hide Stabbable, SegmentFits, FeedOk, LastOk, Feeding, Emit, Fed, FedAll, Points, IsSegmentation, FewestRuns;
    var n := |e|;
    var opt := StartFit(eps, e[0]);
    segs, starts := [], [0];
    ghost var fed := [Point(e[0], 0)];
    FedStep(e, 1);
    var i := 1;
    while i < n - 1
      invariant 1 <= i <= n && (i < n || i == 1) && fresh(opt) && opt.epsilon == eps
      invariant fed == Fed(e, i)
      invariant Feeding(opt, fed, starts, segs)
    {
      FedEnds(e, i);
      if e[i] == e[i - 1] {
        if e[i] + 1 < e[i + 1] {
          segs, starts := Feed(opt, e[i] + 1, i, segs, fed, starts);
        }
      } else {
        segs, starts := Feed(opt, e[i], i, segs, fed, starts);
      }
      Emitted(e, i, fed);
      FedStep(e, i + 1);
      fed := fed + Emit(e, i);
      i := i + 1;
    }
    FedEnds(e, i);
    FedAllOk(e);
    FedEnd(e);
    if n >= 2 && e[n - 1] != e[n - 2] {
      segs, starts := Feed(opt, e[n - 1], n - 1, segs, fed, starts);
      fed := fed + [Point(e[n - 1], n - 1)];
    }
    segs, starts := Feed(opt, e[n - 1] + 1, n, segs, fed, starts);
    fed := fed + [Point(e[n - 1] + 1, n)];
    segs := Finish(opt, segs, fed, starts);
    SegmentationIsMinimal(e, eps, starts, segs);
  }

  /** No partition of the points into stabbable runs has fewer than `count` runs, and one
      has exactly that many. */
  ghost predicate FewestRuns(eps: nat, p: seq<Point>, count: nat) {
    && (exists starts :: IsCut(|p|, starts) && AllStabbable(eps, p, starts) && |starts| == count)
    && (forall other :: IsCut(|p|, other) && AllStabbable(eps, p, other) ==> count <= |other|)
  }

  lemma SegmentationIsMinimal(e: seq<int>, eps: nat, starts: seq<nat>, segs: seq<CanonicalSegment>)
    requires Sorted(e) && 0 < |e| <= MAX_Y && IsSegmentation(eps, Points(e), starts, segs)
    ensures FewestRuns(eps, Points(e), |segs|)
  {
    var p := Points(e);
    PointsOk(e);
    hide Points, Segments, Greedy, AllStabbable;
    SegmentsStabbable(eps, p, starts, segs);
    forall other | IsCut(|p|, other) && AllStabbable(eps, p, other) ensures |segs| <= |other| {
      GreedyIsMinimal(eps, p, starts, other);
    }
  }

  lemma FedEnd(e: seq<int>)
    requires |e| > 0
    ensures var n := |e|;
            FedAll(e) == if n >= 2 && e[n - 1] != e[n - 2] then Fed(e, n - 1) + [Point(e[n - 1], n - 1)]
                         else Fed(e, if n == 1 then 1 else n - 1)
    ensures Points(e) == FedAll(e) + [Point(e[|e| - 1] + 1, |e|)]
  {
    hide Fed;
    if |e| >= 2 { assert Fed(e, |e| - 1) + [] == Fed(e, |e| - 1); }
  }

  lemma Emitted(e: seq<int>, i: nat, fed: seq<Point>)
    requires 1 <= i < |e| - 1
    ensures fed + Emit(e, i) ==
            if e[i] == e[i - 1] then (if e[i] + 1 < e[i + 1] then fed + [Point(e[i] + 1, i)] else fed)
                                else fed + [Point(e[i], i)]
  {}

  method Finish(opt: OptimalPiecewiseLinearModel, segs: seq<CanonicalSegment>, ghost fed: seq<Point>,
      ghost starts: seq<nat>)
      returns (out: seq<CanonicalSegment>)
    requires Feeding(opt, fed, starts, segs)
    ensures IsSegmentation(opt.epsilon, fed, starts, out)
  {
    hide Stabbable, SegmentFits;
    var cs := opt.GetSegment();
    LastSegment(opt.epsilon, fed, starts, segs, cs);
    out := segs + [cs];
  }

  lemma FedEnds(e: seq<int>, i: nat)
    requires Sorted(e) && 1 <= i <= |e| && (i < |e| || i == 1)
    ensures |Fed(e, i)| > 0 && forall j :: 0 <= j < |Fed(e, i)| ==> 0 <= Fed(e, i)[j].y <= |e|
    ensures var last := Fed(e, i)[|Fed(e, i)| - 1].x;
            i < |e| ==> (e[i] != e[i - 1] ==> last < e[i]) && last < e[i] + 1
  {
    FedOk(e, i);
  }

  lemma LastSegment(eps: nat, fed: seq<Point>, starts: seq<nat>, segs: seq<CanonicalSegment>, cs: CanonicalSegment)
    requires IsCut(|fed|, starts) && |starts| == |segs| + 1
    requires Segments(eps, fed, starts, segs) && Greedy(eps, fed, starts)
    requires SegmentFits(eps, fed[starts[|segs|]..], cs)
    ensures IsSegmentation(eps, fed, starts, segs + [cs])
  {
    hide SegmentFits, Tight;
    var gs := segs + [cs];
    assert fed[starts[|segs|]..|fed|] == fed[starts[|segs|]..];
    forall i | 0 <= i < |gs| ensures FitsAt(eps, fed, starts, gs, i) {
      if i < |segs| { assert FitsAt(eps, fed, starts, segs, i); }
    }
  }
}
