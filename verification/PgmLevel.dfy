/** One level of the index: what its segments predict about the keys they were built on. */
module PgmLevel {
  import opened Geometry
  import opened SortedSeq
  import opened PiecewiseLinearModel
  import opened Segmentation
  import opened PgmSegment

  function Min(a: int, b: int): int { if a <= b then a else b }

  function SubEps(x: int, eps: nat): int { if x <= eps then 0 else x - eps }

  function AddEps(x: int, eps: nat, size: int): int { if x + eps + 2 >= size then size else x + eps + 2 }

  /** A window around a position holds what is from epsilon below it to epsilon + 1 above. */
  lemma InWindow(pos: int, eps: nat, size: int, p: int)
    requires 0 <= p < size
    ensures SubEps(pos, eps) <= p < AddEps(pos, eps, size) <==> pos - eps <= p <= pos + eps + 1
  {}

  /** The segments of a level over entries e: one per run, then either the last run's
      segment doubles as the sentinel, or an end segment (when the last line falls short
      of the last position) and a sentinel segment follow. */
  ghost predicate LevelOk(e: seq<int>, eps: nat, starts: seq<nat>, segs: seq<Segment>, last: int, sentinel: int) {
    && Sorted(e) && 0 < |e| && 1 <= eps && |e| + eps <= MAX_Y
    && EntriesOk(e, last, sentinel)
    && IsCut(|Points(e)|, starts)
    && |starts| <= |segs|
    && (forall i :: 0 <= i < |starts| ==> RunModelled(e, eps, starts, segs, i))
    && (forall i :: 0 <= i < |segs| ==> segs[i].den > 0)
    && (forall i :: 0 <= i < |starts| - 1 ==> segs[i].key <= last)
    && Tail(|e|, |starts|, segs, last, sentinel)
    && (HasEnd(|starts|, segs) ==> segs[|starts| - 1].key <= e[|e| - 1])
  }

  /** At most the last entry lies past the greatest key of the data, and then all are
      distinct. */
  ghost predicate EntriesOk(e: seq<int>, last: int, sentinel: int)
    requires |e| > 0
  {
    && last < sentinel && e[|e| - 1] < sentinel
    && (|e| > 1 ==> e[|e| - 2] <= last)
    && (e[|e| - 1] <= last || Increasing(e))
  }

  ghost predicate RunModelled(e: seq<int>, eps: nat, starts: seq<nat>, segs: seq<Segment>, i: nat)
    requires |e| > 0 && i < |starts| && i < |segs|
  {
    var p := Points(e);
    && starts[i] < RunEnd(|p|, starts, i) <= |p|
    && Models(eps, p[starts[i]..RunEnd(|p|, starts, i)], segs[i])
  }

  ghost predicate Tail(n: nat, c: nat, segs: seq<Segment>, last: int, sentinel: int)
    requires 0 < c <= |segs| && forall i :: 0 <= i < |segs| ==> segs[i].den > 0
  {
    segs[c..] == TailAfter(n, segs[c - 1], last, sentinel)
  }

  /** What follows the last run's segment in a level over n entries. */
  function TailAfter(n: nat, back: Segment, last: int, sentinel: int): seq<Segment>
    requires back.den > 0
  {
    if back.key == sentinel then []
    else if Position(back, sentinel - 1) < n then [Segment(last + 1, 0, 1, n), Segment(sentinel, 0, 1, n)]
    else [Segment(sentinel, 0, 1, n)]
  }

  /** How many of the segments the level above indexes. */
  function Counted(c: nat, segs: seq<Segment>, sentinel: int): int
    requires 0 < c <= |segs|
  {
    if segs[c - 1].key == sentinel then c - 1 else c
  }

  ghost predicate HasEnd(c: nat, segs: seq<Segment>) { |segs| == c + 2 }

  /** t answers for k: its key is not beyond k and the next one is; the last run's
      segment may also answer for keys the end segment covers. */
  ghost predicate Responsible(c: nat, segs: seq<Segment>, t: int, k: int) {
    && 0 <= t < |segs| - 1
    && segs[t].key <= k
    && (k < segs[t + 1].key || (t == c - 1 && HasEnd(c, segs)))
  }

  /** t is the segment a left-to-right scan stops at: its key is not beyond k, the next
      one is, and the end segment is reached only past the last run's key. */
  ghost predicate Rightmost(c: nat, segs: seq<Segment>, t: int, k: int) {
    && 0 <= t < |segs| - 1
    && segs[t].key <= k < segs[t + 1].key
    && (c > 0 && t == c ==> segs[c - 1].key <= k)
  }

  /** The clamped prediction. */
  function Predict(segs: seq<Segment>, t: int, k: int): int
    requires 0 <= t < |segs| - 1 && segs[t].den > 0
  {
    Min(Position(segs[t], k), segs[t + 1].intercept)
  }

  // ---- The keys of a level ----

  lemma RunKey(e: seq<int>, eps: nat, starts: seq<nat>, segs: seq<Segment>, last: int, sentinel: int, i: nat)
    requires LevelOk(e, eps, starts, segs, last, sentinel) && i < |starts|
    ensures starts[i] < |Points(e)| && segs[i].key == Points(e)[starts[i]].x
    ensures e[0] <= segs[i].key <= e[|e| - 1] + 1
  {
    hide FeedOk;
    assert RunModelled(e, eps, starts, segs, i);
    PointsOk(e);
    FeedBounds(e, starts[i]);
  }

  lemma FeedBounds(e: seq<int>, j: nat)
    requires Sorted(e) && |e| > 0 && FeedOk(e, Points(e)) && j < |Points(e)|
    requires Points(e)[|Points(e)| - 1] == Point(e[|e| - 1] + 1, |e|)
    ensures e[0] <= Points(e)[j].x <= e[|e| - 1] + 1
  {
    hide PointOk, GapOk, Points;
    var p := Points(e);
    if j > 0 { assert p[0].x < p[j].x; }
    if j < |p| - 1 { assert p[j].x < p[|p| - 1].x; }
  }

  lemma RunKeysIncrease(e: seq<int>, eps: nat, starts: seq<nat>, segs: seq<Segment>, last: int, sentinel: int, i: nat,
      j: nat)
    requires LevelOk(e, eps, starts, segs, last, sentinel) && i < j < |starts|
    ensures segs[i].key < segs[j].key
  {
    RunKey(e, eps, starts, segs, last, sentinel, i);
    RunKey(e, eps, starts, segs, last, sentinel, j);
    PointsOk(e);
    hide PointOk, GapOk, Points, LevelOk;
    assert starts[i] < starts[j];
  }

  lemma EndSegment(e: seq<int>, eps: nat, starts: seq<nat>, segs: seq<Segment>, last: int, sentinel: int)
    requires LevelOk(e, eps, starts, segs, last, sentinel) && HasEnd(|starts|, segs)
    ensures segs[|starts|] == Segment(last + 1, 0, 1, |e|)
    ensures segs[|starts| + 1] == Segment(sentinel, 0, 1, |e|)
  {
    var c := |starts|;
    assert segs[c..][0] == segs[c] && segs[c..][1] == segs[c + 1];
  }

  /** What a level ends with: nothing after a run's segment at the sentinel; else a sentinel
      segment, after an end segment exactly when the last line does not reach the last
      position before the sentinel. */
  lemma LevelTail(e: seq<int>, eps: nat, starts: seq<nat>, segs: seq<Segment>, last: int, sentinel: int)
    requires LevelOk(e, eps, starts, segs, last, sentinel)
    ensures var c, n := |starts|, |e|;
            && 0 < c <= |segs|
            && var back := segs[c - 1];
               && back.den > 0
               && (back.key == sentinel <==> |segs| == c)
               && (back.key != sentinel ==>
                     && segs[|segs| - 1] == Segment(sentinel, 0, 1, n)
                     && (Position(back, sentinel - 1) >= n <==> |segs| == c + 1)
                     && (Position(back, sentinel - 1) < n <==> |segs| == c + 2)
                     && (|segs| == c + 2 ==> segs[c] == Segment(last + 1, 0, 1, n)))
  {
    hide Position, Points;
    var c := |starts|;
    assert |segs| == c + |segs[c..]|;
    assert forall i :: c <= i < |segs| ==> segs[i] == segs[c..][i - c];
  }

  /** The keys of the runs increase from the first entry on; the last key is the sentinel. */
  lemma LevelKeys(e: seq<int>, eps: nat, starts: seq<nat>, segs: seq<Segment>, last: int, sentinel: int)
    requires LevelOk(e, eps, starts, segs, last, sentinel)
    ensures |segs| >= 2 && segs[0].key == e[0] && segs[|segs| - 1].key == sentinel
    ensures forall i, j :: 0 <= i < j < |starts| ==> segs[i].key < segs[j].key
    ensures |starts| <= |segs| <= |starts| + 2
    ensures 1 <= Counted(|starts|, segs, sentinel)
    ensures forall i :: 0 <= i < Counted(|starts|, segs, sentinel) ==> segs[i].key < sentinel
    ensures |segs| == |starts| <==> segs[|starts| - 1].key == sentinel
  {
    var c := |starts|;
    RunKey(e, eps, starts, segs, last, sentinel, 0);
    PointsOk(e);
    assert segs[0].key == e[0] < sentinel;
    assert |segs| == c + |segs[c..]|;
    assert |segs| > c ==> segs[|segs| - 1] == segs[c..][|segs| - 1 - c];
    hide Points, FeedOk;
    forall i, j | 0 <= i < j < c ensures segs[i].key < segs[j].key {
      RunKeysIncrease(e, eps, starts, segs, last, sentinel, i, j);
    }
    RunKey(e, eps, starts, segs, last, sentinel, c - 1);
  }

  ghost predicate SortedKeys(segs: seq<Segment>, lo: nat, hi: nat)
    requires lo <= hi <= |segs|
  {
    forall i, j :: lo <= i < j < hi ==> segs[i].key <= segs[j].key
  }

  lemma SortedPrefix(segs: seq<Segment>, to: nat)
    requires to <= |segs| && SortedKeys(segs, 0, |segs|)
    ensures SortedKeys(segs, 0, to)
  {}

  lemma LevelEnds(e: seq<int>, eps: nat, starts: seq<nat>, segs: seq<Segment>, last: int, sentinel: int)
    requires LevelOk(e, eps, starts, segs, last, sentinel)
    ensures |segs| >= 2 && segs[0].key == e[0] && segs[|segs| - 1].key == sentinel
  {
    LevelKeys(e, eps, starts, segs, last, sentinel);
  }

  /** Where no entry lies past the data, the level's keys never decrease. */
  lemma BottomKeysSorted(e: seq<int>, eps: nat, starts: seq<nat>, segs: seq<Segment>, last: int, sentinel: int)
    requires LevelOk(e, eps, starts, segs, last, sentinel) && e[|e| - 1] <= last
    ensures SortedKeys(segs, 0, |segs|)
  {
    var c := |starts|;
    LevelKeys(e, eps, starts, segs, last, sentinel);
    RunKey(e, eps, starts, segs, last, sentinel, c - 1);
    if HasEnd(c, segs) { EndSegment(e, eps, starts, segs, last, sentinel); }
    hide LevelOk;
  }

  // ---- The prediction theorem ----

  /** The last fed point not right of k. */
  lemma LastPointAt(p: seq<Point>, k: int) returns (j: nat)
    requires |p| > 0 && IncreasingX(p) && p[0].x <= k
    ensures j < |p| && p[j].x <= k && (j + 1 < |p| ==> k < p[j + 1].x)
  {
    j := |p| - 1;
    while p[j].x > k
      invariant j < |p| && (j + 1 < |p| ==> k < p[j + 1].x)
    {
      j := j - 1;
    }
  }

  /** Ranks around a query, from the last fed point at or left of it. */
  lemma RankNearPoint(e: seq<int>, k: int, j: nat)
    requires Sorted(e) && |e| > 0 && j < |Points(e)| && Points(e)[j].x <= k
    requires j + 1 < |Points(e)| ==> k < Points(e)[j + 1].x
    ensures Rank(e, k) <= Points(e)[j].y + 1
    ensures k == Points(e)[j].x ==> Points(e)[j].y <= Rank(e, k)
    ensures k > Points(e)[j].x && j + 1 < |Points(e)| ==> Points(e)[j + 1].y <= Rank(e, k)
    ensures j + 1 == |Points(e)| ==> Rank(e, k) == |e|
  {
    PointsOk(e);
    hide Points;
    var p := Points(e);
    assert PointOk(e, p[j]);
    if j + 1 < |p| {
      assert GapOk(e, p[j], p[j + 1]);
    } else {
      RankIs(e, k, |e|);
    }
  }

  lemma PositionAtKey(s: Segment)
    requires s.den > 0
    ensures Position(s, s.key) == s.intercept
  {
    assert s.num * (s.key - s.key) == 0;
    SmallQuotient(0, s.den);
  }

  /** Inside a run, the unclamped position around a query. */
  lemma RunPosition(eps: nat, p: seq<Point>, from: nat, to: nat, s: Segment, j: nat, k: int)
    requires from <= j < to <= |p| && Models(eps, p[from..to], s)
    requires p[from].x <= p[j].x <= k && (j + 1 < to ==> k < p[j + 1].x)
    ensures p[j].y - eps - 1 <= Position(s, k)
    ensures k == p[j].x ==> Position(s, k) <= p[j].y + eps
    ensures j + 1 < to ==> Position(s, k) <= p[j + 1].y + eps
    ensures p[from].y - eps <= s.intercept <= p[from].y + eps
    ensures p[from].y >= 0 ==> Position(s, k) >= 0
  {
    PositionAtKey(s);
    hide Position;
    var run := p[from..to];
    assert run[j - from] == p[j] && run[0] == p[from];
    PositionMonotone(s, p[j].x, k);
    if p[from].x <= k { PositionMonotone(s, p[from].x, k); }
    if j + 1 < to {
      assert run[j + 1 - from] == p[j + 1];
      PositionMonotone(s, k, p[j + 1].x);
    }
  }

  lemma InRun(p: seq<Point>, starts: seq<nat>, t: nat, j: nat, k: int)
    requires IncreasingX(p) && IsCut(|p|, starts) && t < |starts| && j < |p|
    requires p[starts[t]].x <= k && (t + 1 < |starts| ==> k < p[starts[t + 1]].x)
    requires p[j].x <= k && (j + 1 < |p| ==> k < p[j + 1].x)
    ensures starts[t] <= j < RunEnd(|p|, starts, t) <= |p|
  {
    var atStart := p[starts[t]].x;
    var atNext := if j + 1 < |p| then p[j + 1].x else k;
    var atEnd := if t + 1 < |starts| then p[starts[t + 1]].x else k;
    var atJ := p[j].x;
  }

  lemma NextIntercept(e: seq<int>, eps: nat, starts: seq<nat>, segs: seq<Segment>, last: int, sentinel: int, t: nat)
    requires LevelOk(e, eps, starts, segs, last, sentinel) && t < |starts| && t + 1 < |segs|
    ensures segs[t + 1].intercept >= 0
    ensures t + 1 < |starts| ==> starts[t + 1] < |Points(e)|
    ensures t + 1 < |starts| ==>
              Points(e)[starts[t + 1]].y - eps <= segs[t + 1].intercept <= Points(e)[starts[t + 1]].y + eps
    ensures t + 1 == |starts| ==> segs[t + 1].intercept == |e|
  {
    hide Points, Position;
    var c, p := |starts|, Points(e);
    if t + 1 < c {
      assert RunModelled(e, eps, starts, segs, t + 1);
      var run := p[starts[t + 1]..RunEnd(|p|, starts, t + 1)];
      assert run[0] == p[starts[t + 1]];
      PointsOk(e);
      assert p[starts[t + 1]].y >= 0;
    } else {
      assert segs[c..][0] == segs[c];
    }
  }

  lemma RunPrediction(e: seq<int>, eps: nat, starts: seq<nat>, segs: seq<Segment>, last: int, sentinel: int, t: int,
      k: int, j: nat)
    requires LevelOk(e, eps, starts, segs, last, sentinel)
    requires k < sentinel && Responsible(|starts|, segs, t, k) && t < |starts|
    requires j < |Points(e)| && Points(e)[j].x <= k && (j + 1 < |Points(e)| ==> k < Points(e)[j + 1].x)
    requires k == Points(e)[j].x ==> Points(e)[j].y <= Rank(e, k)
    requires k > Points(e)[j].x && j + 1 < |Points(e)| ==> Points(e)[j + 1].y <= Rank(e, k)
    requires j + 1 == |Points(e)| ==> Rank(e, k) == |e|
    ensures Points(e)[j].y - eps - 1 <= Predict(segs, t, k) <= Rank(e, k) + eps && Predict(segs, t, k) >= 0
  {
    hide Points, PointOk, GapOk, Position, FeedOk, RunModelled;
    PointsOk(e);
    RunKey(e, eps, starts, segs, last, sentinel, t);
    if t + 1 < |starts| { RunKey(e, eps, starts, segs, last, sentinel, t + 1); }
    NextIntercept(e, eps, starts, segs, last, sentinel, t);
    var p := Points(e);
    assert RunModelled(e, eps, starts, segs, t);
    FeedOrder(e, starts[t], j);
    InRun(p, starts, t, j, k);
    hide LevelOk, IsCut;
    InRunPosition(e, eps, starts, segs, t, j, k);
    if t + 1 < |starts| { FeedOrder(e, j, starts[t + 1]); }
  }

  lemma FeedOrder(e: seq<int>, i: nat, j: nat)
    requires Sorted(e) && |e| > 0 && i < |Points(e)| && j < |Points(e)|
    ensures IncreasingX(Points(e)) && 0 <= Points(e)[i].y <= |e|
    ensures i <= j ==> Points(e)[i].y <= Points(e)[j].y && Points(e)[i].x <= Points(e)[j].x
  {
    PointsOk(e);
    hide Points;
  }

  lemma InRunPosition(e: seq<int>, eps: nat, starts: seq<nat>, segs: seq<Segment>, t: nat, j: nat, k: int)
    requires Sorted(e) && |e| > 0 && t < |starts| && t < |segs| && RunModelled(e, eps, starts, segs, t)
    requires starts[t] <= j < RunEnd(|Points(e)|, starts, t)
    requires Points(e)[j].x <= k && (j + 1 < |Points(e)| ==> k < Points(e)[j + 1].x)
    ensures Points(e)[j].y - eps - 1 <= Position(segs[t], k) && Position(segs[t], k) >= 0
    ensures k == Points(e)[j].x ==> Position(segs[t], k) <= Points(e)[j].y + eps
    ensures j + 1 < RunEnd(|Points(e)|, starts, t) ==> Position(segs[t], k) <= Points(e)[j + 1].y + eps
  {
    hide Points, Position, Models;
    FeedOrder(e, starts[t], j);
    RunPosition(eps, Points(e), starts[t], RunEnd(|Points(e)|, starts, t), segs[t], j, k);
  }

  lemma EndPrediction(e: seq<int>, eps: nat, starts: seq<nat>, segs: seq<Segment>, last: int, sentinel: int, t: int,
      k: int, j: nat)
    requires LevelOk(e, eps, starts, segs, last, sentinel)
    requires k < sentinel && Responsible(|starts|, segs, t, k) && |starts| <= t && |segs| <= |starts| + 2
    requires j < |Points(e)|
    ensures Points(e)[j].y - eps - 1 <= Predict(segs, t, k) <= Rank(e, k) + eps && Predict(segs, t, k) >= 0
  {
    var c, n := |starts|, |e|;
    EndSegment(e, eps, starts, segs, last, sentinel);
    PositionFlat(segs[c], k);
    assert Predict(segs, t, k) == n;
    PointsOk(e);
    assert 0 <= Points(e)[j].y <= n;
    if e[n - 1] < k {
      RankIs(e, k, n);
    } else {
      RankIs(e, k, n - 1);
    }
  }

  lemma PositionFlat(s: Segment, k: int)
    requires s.num == 0 && s.den == 1
    ensures Position(s, k) == s.intercept
  {
    assert s.num * (k - s.key) == 0;
  }

  /** The clamped prediction of the responsible segment undershoots the last fed point by
      at most epsilon + 1 and overshoots the rank by at most epsilon. */
  lemma PredictionNearRank(e: seq<int>, eps: nat, starts: seq<nat>, segs: seq<Segment>, last: int, sentinel: int,
      t: int, k: int, j: nat)
    requires LevelOk(e, eps, starts, segs, last, sentinel)
    requires e[0] <= k < sentinel && Responsible(|starts|, segs, t, k)
    requires j < |Points(e)| && Points(e)[j].x <= k && (j + 1 < |Points(e)| ==> k < Points(e)[j + 1].x)
    ensures Points(e)[j].y - eps - 1 <= Predict(segs, t, k) <= Rank(e, k) + eps
    ensures Predict(segs, t, k) >= 0
  {
    LevelKeys(e, eps, starts, segs, last, sentinel);
    RankNearPoint(e, k, j);
    hide LevelOk, Points, Predict, Rank;
    if t < |starts| {
      RunPrediction(e, eps, starts, segs, last, sentinel, t, k, j);
    } else {
      EndPrediction(e, eps, starts, segs, last, sentinel, t, k, j);
    }
  }

  /** Lower-bound search inside the window finds the rank over all entries. */
  lemma WindowHolds(e: seq<int>, eps: nat, starts: seq<nat>, segs: seq<Segment>, last: int, sentinel: int, t: int,
      k: int)
    requires LevelOk(e, eps, starts, segs, last, sentinel)
    requires e[0] <= k < sentinel && Responsible(|starts|, segs, t, k)
    ensures var pos := Predict(segs, t, k);
            && 0 <= SubEps(pos, eps) <= Rank(e, k) <= AddEps(pos, eps, |e|) <= |e|
            && AddEps(pos, eps, |e|) - SubEps(pos, eps) <= 2 * eps + 2
  {
    PointsOk(e);
    var j := LastPointAt(Points(e), k);
    PredictionNearRank(e, eps, starts, segs, last, sentinel, t, k, j);
    RankNearPoint(e, k, j);
  }

  /** For a key that is present even the unclamped position of its segment is close. */
  lemma PresentKeyWindow(e: seq<int>, eps: nat, starts: seq<nat>, segs: seq<Segment>, last: int, sentinel: int, t: int,
      k: int)
    requires LevelOk(e, eps, starts, segs, last, sentinel) && e[|e| - 1] <= last
    requires k in e && Rightmost(|starts|, segs, t, k)
    ensures segs[t].den > 0
    ensures var pos := Position(segs[t], k); 0 <= pos && pos - eps <= Rank(e, k) <= pos + eps + 1
  {
    hide Points, PointOk, GapOk, Position, RunModelled, FeedOk, Tail;
    var j := KeyIsFed(e, k);
    PresentNotEnd(e, eps, starts, segs, last, sentinel, t, k);
    RunKey(e, eps, starts, segs, last, sentinel, t);
    if t + 1 < |starts| { RunKey(e, eps, starts, segs, last, sentinel, t + 1); }
    assert RunModelled(e, eps, starts, segs, t);
    FeedOrder(e, j, j);
    hide LevelOk;
    JustThere(Points(e), j, k);
    InRun(Points(e), starts, t, j, k);
    InRunPosition(e, eps, starts, segs, t, j, k);
  }

  lemma JustThere(p: seq<Point>, j: nat, k: int)
    requires IncreasingX(p) && j < |p| && p[j].x == k
    ensures j + 1 < |p| ==> k < p[j + 1].x
  {}

  lemma PresentNotEnd(e: seq<int>, eps: nat, starts: seq<nat>, segs: seq<Segment>, last: int, sentinel: int, t: int,
      k: int)
    requires LevelOk(e, eps, starts, segs, last, sentinel) && e[|e| - 1] <= last
    requires k in e && Rightmost(|starts|, segs, t, k)
    ensures t < |starts|
  {
    LevelKeys(e, eps, starts, segs, last, sentinel);
    if HasEnd(|starts|, segs) { EndSegment(e, eps, starts, segs, last, sentinel); }
    hide RunModelled, Tail, Position;
  }

  // ---- From one level down to the next ----

  /** The entries of a level are the keys of the counted segments below it. */
  ghost predicate Indexes(e: seq<int>, c: nat, low: seq<Segment>, sentinel: int) {
    && 0 < c <= |low|
    && |e| == Counted(c, low, sentinel)
    && forall i :: 0 <= i < |e| ==> e[i] == low[i].key
  }

  lemma RightmostExists(e: seq<int>, eps: nat, starts: seq<nat>, segs: seq<Segment>, last: int, sentinel: int, k: int)
      returns (t: nat)
    requires LevelOk(e, eps, starts, segs, last, sentinel) && e[0] <= k < sentinel
    ensures Rightmost(|starts|, segs, t, k)
  {
    LevelKeys(e, eps, starts, segs, last, sentinel);
    hide LevelOk;
    t := 0;
    while segs[t + 1].key <= k
      invariant t < |segs| - 1 && segs[t].key <= k
      invariant t == |starts| ==> segs[t - 1].key <= k
      decreases |segs| - t
    {
      t := t + 1;
    }
  }

  lemma RightmostIsResponsible(c: nat, segs: seq<Segment>, t: int, k: int)
    requires Rightmost(c, segs, t, k)
    ensures Responsible(c, segs, t, k)
  {}

  /** Everything from the first segment to the target has a key not beyond k. */
  lemma KeysToTarget(e: seq<int>, eps: nat, starts: seq<nat>, segs: seq<Segment>, last: int, sentinel: int, t: int,
      k: int)
    requires LevelOk(e, eps, starts, segs, last, sentinel) && Rightmost(|starts|, segs, t, k)
    ensures forall i :: 0 <= i <= t ==> segs[i].key <= k
  {
    LevelKeys(e, eps, starts, segs, last, sentinel);
    hide LevelOk;
  }

  /** The prediction one level up, reduced by EpsilonRecursive + 1, is at or left of the
      target. */
  lemma DescentStart(le: seq<int>, leps: nat, lstarts: seq<nat>, low: seq<Segment>,
                     e: seq<int>, eps: nat, starts: seq<nat>, segs: seq<Segment>, last: int, sentinel: int,
                     t: int, k: int, target: int)
    requires LevelOk(le, leps, lstarts, low, last, sentinel) && Indexes(e, |lstarts|, low, sentinel)
    requires LevelOk(e, eps, starts, segs, last, sentinel)
    requires e[0] <= k < sentinel && Responsible(|starts|, segs, t, k) && Rightmost(|lstarts|, low, target, k)
    ensures SubEps(Predict(segs, t, k), eps + 1) <= target
  {
    LevelKeys(le, leps, lstarts, low, last, sentinel);
    PointsOk(e);
    var j := LastPointAt(Points(e), k);
    PredictionNearRank(e, eps, starts, segs, last, sentinel, t, k, j);
    hide LevelOk, Predict, Points, Responsible;
    RankBelowTarget(e, |lstarts|, low, target, k);
  }

  /** Increased by EpsilonRecursive + 2 it lies right of the target, unless the target is
      an end segment and the query is the very key of the last run before it. */
  lemma DescentEnd(le: seq<int>, leps: nat, lstarts: seq<nat>, low: seq<Segment>,
                   e: seq<int>, eps: nat, starts: seq<nat>, segs: seq<Segment>, last: int, sentinel: int,
                   t: int, k: int, target: int)
    requires LevelOk(le, leps, lstarts, low, last, sentinel) && Indexes(e, |lstarts|, low, sentinel)
    requires LevelOk(e, eps, starts, segs, last, sentinel)
    requires e[0] <= k < sentinel && Responsible(|starts|, segs, t, k) && Rightmost(|lstarts|, low, target, k)
    ensures target <= Predict(segs, t, k) + eps + 2
    ensures target < AddEps(Predict(segs, t, k), eps, |low| - 1)
            || (target == |lstarts| && HasEnd(|lstarts|, low) && k == low[target - 1].key)
  {
    hide LevelOk, Predict, Points, Rank, Position, FeedOk;
    EntryPoints(le, leps, lstarts, low, last, sentinel, e);
    var j := LastPointAt(Points(e), k);
    PredictionNearRank(e, eps, starts, segs, last, sentinel, t, k, j);
    hide Responsible, Increasing;
    LastPointPosition(e, |lstarts|, low, target, k, j, sentinel);
  }

  /** The entries of a level are distinct, so each is fed at its own position. */
  lemma EntryPoints(le: seq<int>, leps: nat, lstarts: seq<nat>, low: seq<Segment>, last: int, sentinel: int,
      e: seq<int>)
    requires LevelOk(le, leps, lstarts, low, last, sentinel) && Indexes(e, |lstarts|, low, sentinel)
    ensures |low| <= |lstarts| + 2 && (|low| == |lstarts| <==> low[|lstarts| - 1].key == sentinel)
    ensures |e| > 0 && Increasing(e) && |Points(e)| == |e| + 1 && IncreasingX(Points(e))
    ensures forall i :: 0 <= i < |e| ==> Points(e)[i] == Point(e[i], i)
    ensures Points(e)[|e|] == Point(e[|e| - 1] + 1, |e|)
  {
    LevelKeys(le, leps, lstarts, low, last, sentinel);
    hide LevelOk;
    assert Increasing(e);
    PointsOk(e);
    DistinctPoints(e);
    hide Points, PointOk, GapOk;
  }

  /** The last fed point not right of k is at the target's own position or beyond. */
  lemma LastPointPosition(e: seq<int>, c: nat, low: seq<Segment>, target: int, k: int, j: nat, sentinel: int)
    requires Indexes(e, c, low, sentinel) && Increasing(e) && Rightmost(c, low, target, k) && |low| <= c + 2
    requires |low| == c <==> low[c - 1].key == sentinel
    requires |Points(e)| == |e| + 1 && forall i :: 0 <= i < |e| ==> Points(e)[i] == Point(e[i], i)
    requires Points(e)[|e|] == Point(e[|e| - 1] + 1, |e|)
    requires j < |Points(e)| && Points(e)[j].x <= k && (j + 1 < |Points(e)| ==> k < Points(e)[j + 1].x)
    ensures Points(e)[j].y >= target
            || (target == c && |low| == c + 2 && k == low[c - 1].key && Points(e)[j].y == target - 1)
  {
    hide Points;
    var m := |e|;
    if target < m {
      var reached := e[if j < target then j + 1 else target];
    } else {
      assert target == c == m && e[m - 1] == low[c - 1].key;
    }
  }

  lemma RankBelowTarget(e: seq<int>, c: nat, low: seq<Segment>, target: int, k: int)
    requires Sorted(e) && |e| <= c <= |low| && forall i :: 0 <= i < |e| ==> e[i] == low[i].key
    requires forall i, j :: 0 <= i < j < c ==> low[i].key < low[j].key
    requires Rightmost(c, low, target, k)
    ensures Rank(e, k) <= target + 1
  {
    var r := Rank(e, k);
    if r > 0 {
      var below := e[r - 1];
      var above := low[target + 1].key;
    }
  }

  /** A binary search from at or left of the target to right of it, or up to an end
      segment that is the target, stops next to a segment that answers for k; next to the
      target itself where keys are sorted. */
  lemma BinaryStop(c: nat, low: seq<Segment>, target: int, k: int, lo: int, hi: int, r: int)
    requires 0 < c <= |low| <= c + 2 && k < low[|low| - 1].key && Rightmost(c, low, target, k)
    requires forall i, j :: 0 <= i < j < c ==> low[i].key < low[j].key
    requires forall i :: 0 <= i <= target ==> low[i].key <= k
    requires 0 <= lo <= target && lo <= r <= hi <= |low| - 1
    requires target < hi || (lo < target == hi == c && HasEnd(c, low))
    requires r > lo ==> low[r - 1].key <= k
    requires r < hi ==> k < low[r].key
    ensures r > lo && Responsible(c, low, r - 1, k)
    ensures SortedKeys(low, 0, |low|) && target < hi ==> r - 1 == target
  {}
}
