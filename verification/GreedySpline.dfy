/** The greedy choice of spline points: a segment grows key by key until interpolation to
    the next key would err by more than the bound, then the index steps back by one and a
    new segment starts there. */
module GreedySpline {
  import opened SortedSeq

  datatype SplinePoint = SplinePoint(key: int, pos: nat)

  /** The position predicted for key j on the segment from `from` to `to`. */
  function Predicted(keys: seq<int>, from: nat, to: nat, j: nat): real
    requires from < |keys| && to < |keys| && j < |keys| && keys[from] != keys[to]
  {
    from as real + (keys[j] - keys[from]) as real / (keys[to] - keys[from]) as real * (to - from) as real
  }

  function Abs(x: real): real { if x < 0.0 then -x else x }

  /** The test the code makes: the prediction for key j errs by more than the bound. Between
      equal end keys the quotient is not a number, and a comparison with it is false. */
  predicate Misses(keys: seq<int>, from: nat, to: nat, error: nat, j: nat)
    requires from < |keys| && to < |keys| && j < |keys|
  {
    keys[from] != keys[to] && Abs(Predicted(keys, from, to, j) - j as real) > error as real
  }

  /** Key j lies within the error bound of the line from key `from` to key `to`: said in whole
      numbers, over the distance of the two keys. */
  predicate Within(keys: seq<int>, from: nat, to: nat, error: nat, j: nat)
    requires from < |keys| && to < |keys| && j < |keys|
  {
    var run := keys[to] - keys[from];
    -(error * run) <= (keys[j] - keys[from]) * (to - from) - (j - from) * run <= error * run
  }

  /** The test signals exactly the keys out of bounds, equal end keys included. */
  lemma TestIsExact(keys: seq<int>, from: nat, to: nat, error: nat, j: nat)
    requires Sorted(keys) && from < j <= to < |keys|
    ensures Misses(keys, from, to, error, j) <==> !Within(keys, from, to, error, j)
  {
    var run, rise, up, k := keys[to] - keys[from], to - from, keys[j] - keys[from], j - from;
    assert 0 <= up <= run;
    if run != 0 {
      var s := up as real / run as real;
      var e := Predicted(keys, from, to, j) - j as real;
      assert e == s * rise as real - k as real;
      hide Predicted, Abs;
      ScaledError(s, up, run, rise, k);
      BoundScales(e, error, run, up * rise - k * run);
    }
  }

  lemma ScaledError(s: real, up: int, run: int, rise: int, k: int)
    requires run > 0 && s == up as real / run as real
    ensures (s * rise as real - k as real) * run as real == (up * rise - k * run) as real
  {
    assert s * run as real == up as real;
    assert s * rise as real * run as real == s * run as real * rise as real;
  }

  lemma BoundScales(e: real, bound: int, run: int, gap: int)
    requires run > 0 && e * run as real == gap as real
    ensures Abs(e) > bound as real <==> gap > bound * run || gap < -(bound * run)
  {
    SignScales(e - bound as real, run as real);
    SignScales(-(e + bound as real), run as real);
    assert (bound * run) as real == bound as real * run as real;
  }

  lemma SignScales(a: real, b: real)
    requires b > 0.0
    ensures a > 0.0 <==> a * b > 0.0
  {}

  /** Every key of the segment is within the error bound. */
  predicate SegmentFits(keys: seq<int>, from: nat, to: nat, error: nat) {
    && from <= to < |keys|
    && forall j :: from < j <= to ==> Within(keys, from, to, error, j)
  }

  /** A segment of one step always passes the test: this is why stepping back makes progress. */
  lemma OneStepFits(keys: seq<int>, from: nat, error: nat)
    requires from + 1 < |keys| && Sorted(keys)
    ensures SegmentFits(keys, from, from + 1, error) && !Misses(keys, from, from + 1, error, from + 1)
  {
    TestIsExact(keys, from, from + 1, error, from + 1);
  }

  /** A segment fits at each of the ends it grew through. */
  ghost predicate Grows(keys: seq<int>, from: nat, to: nat, error: nat) {
    forall c :: from < c <= to ==> SegmentFits(keys, from, c, error)
  }

  /** Points stand for keys in order; each segment fits at every end up to its own, and each
      but the last would not if it took one key more. */
  ghost predicate GreedyAt(keys: seq<int>, points: seq<SplinePoint>, error: nat, i: int) {
    && 0 <= i && i + 1 < |points|
    && points[i].pos < points[i + 1].pos
    && Grows(keys, points[i].pos, points[i + 1].pos, error)
    && (i + 2 < |points| ==> !SegmentFits(keys, points[i].pos, points[i + 1].pos + 1, error))
  }

  ghost predicate GreedyPoints(keys: seq<int>, points: seq<SplinePoint>, error: nat) {
    && |points| > 0 && points[0].pos == 0
    && (forall i :: 0 <= i < |points| ==> points[i].pos < |keys| && points[i].key == keys[points[i].pos])
    && (forall i :: 0 <= i < |points| - 1 ==> GreedyAt(keys, points, error, i))
  }

  /** Whether the segment can be extended to key i: all keys since its start are tried. */
  method CanExtend(keys: seq<int>, last: nat, i: nat, error: nat) returns (canExtend: bool)
    requires Sorted(keys) && last < i < |keys|
    ensures canExtend <==> SegmentFits(keys, last, i, error)
  {
    hide Within, Misses, Sorted;
    var j := last + 1;
    while j <= i
      invariant last < j <= i + 1
      invariant forall l :: last < l < j ==> Within(keys, last, i, error, l)
    {
      TestIsExact(keys, last, i, error, j);
      if Misses(keys, last, i, error, j) { return false; }
      j := j + 1;
    }
    return true;
  }

  method BuildPoints(keys: seq<int>, error: nat) returns (points: seq<SplinePoint>)
    requires Sorted(keys) && |keys| > 0
    ensures GreedyPoints(keys, points, error)
    ensures points[|points| - 1].pos == |keys| - 1
  {
    hide SegmentFits;
    var n := |keys|;
    points := [SplinePoint(keys[0], 0)];
    var lastIdx := 0;
    var i := 1;
    while i < n
      invariant lastIdx < i <= n && GreedyPoints(keys, points, error)
      invariant points[|points| - 1].pos == lastIdx
      invariant Grows(keys, lastIdx, i - 1, error)
      invariant lastIdx + 1 < n || i == n
      invariant |points| >= 2 ==> !SegmentFits(keys, points[|points| - 2].pos, lastIdx + 1, error)
      decreases n - i, i - lastIdx
    {
      var canExtend := CanExtend(keys, lastIdx, i, error);
      if !canExtend {
        OneStepFits(keys, lastIdx, error);
        PointAdded(keys, points, error, i - 1);
        points := points + [SplinePoint(keys[i - 1], i - 1)];
        lastIdx := i - 1;
        i := i - 1;
      }
      i := i + 1;
    }
    if points[|points| - 1].key != keys[n - 1] || points[|points| - 1].pos != n - 1 {
      PointAdded(keys, points, error, n - 1);
      points := points + [SplinePoint(keys[n - 1], n - 1)];
    }
  }

  lemma PointAdded(keys: seq<int>, points: seq<SplinePoint>, error: nat, pos: nat)
    requires GreedyPoints(keys, points, error) && points[|points| - 1].pos < pos < |keys|
    requires Grows(keys, points[|points| - 1].pos, pos, error)
    requires |points| >= 2 ==> !SegmentFits(keys, points[|points| - 2].pos, points[|points| - 1].pos + 1, error)
    ensures GreedyPoints(keys, points + [SplinePoint(keys[pos], pos)], error)
  {
    hide SegmentFits;
    var q := points + [SplinePoint(keys[pos], pos)];
    forall i | 0 <= i < |q| - 1 ensures GreedyAt(keys, q, error, i) {
      if i < |points| - 1 { assert GreedyAt(keys, points, error, i); }
    }
  }

  /** Between consecutive points every key of the array is within the error bound of the line,
      and so is the position interpolated there. */
  lemma {:induction false} EveryKeyWithin(keys: seq<int>, points: seq<SplinePoint>, error: nat, j: nat) returns (i: nat)
    requires Sorted(keys) && GreedyPoints(keys, points, error) && 0 < j <= points[|points| - 1].pos
    ensures i + 1 < |points| && points[i].pos < j <= points[i + 1].pos < |keys|
    ensures Within(keys, points[i].pos, points[i + 1].pos, error, j)
    ensures points[i].key != points[i + 1].key ==>
              Abs(Predicted(keys, points[i].pos, points[i + 1].pos, j) - j as real) <= error as real
    decreases |points|
  {
    hide Predicted, Abs, Within, Sorted;
    var n := |points|;
    assert n >= 2;
    if points[n - 2].pos < j {
      i := n - 2;
      assert GreedyAt(keys, points, error, i);
      assert SegmentFits(keys, points[i].pos, points[i + 1].pos, error);
      TestIsExact(keys, points[i].pos, points[i + 1].pos, error, j);
    } else {
      FewerPoints(keys, points, error);
      i := EveryKeyWithin(keys, points[..n - 1], error, j);
    }
  }

  lemma FewerPoints(keys: seq<int>, points: seq<SplinePoint>, error: nat)
    requires GreedyPoints(keys, points, error) && |points| >= 2
    ensures GreedyPoints(keys, points[..|points| - 1], error)
  {
    hide SegmentFits;
    var q := points[..|points| - 1];
    forall i | 0 <= i < |q| - 1 ensures GreedyAt(keys, q, error, i) {
      assert GreedyAt(keys, points, error, i);
    }
  }

  /** The greedy choice is the only one of its kind. */
  lemma GreedyUnique(keys: seq<int>, p: seq<SplinePoint>, q: seq<SplinePoint>, error: nat)
    requires GreedyPoints(keys, p, error) && GreedyPoints(keys, q, error)
    requires p[|p| - 1].pos == q[|q| - 1].pos == |keys| - 1
    ensures p == q
  {
    hide SegmentFits, Grows;
    var n := if |p| < |q| then |p| else |q|;
    var i := 0;
    while i + 1 < n
      invariant 0 <= i < n && forall l :: 0 <= l <= i ==> p[l] == q[l]
    {
      NextNotBefore(keys, p, q, error, i);
      NextNotBefore(keys, q, p, error, i);
      i := i + 1;
    }
    assert n < |p| ==> GreedyAt(keys, p, error, n - 1);
    assert n < |q| ==> GreedyAt(keys, q, error, n - 1);
  }

  lemma NextNotBefore(keys: seq<int>, p: seq<SplinePoint>, q: seq<SplinePoint>, error: nat, i: nat)
    requires GreedyPoints(keys, p, error) && GreedyPoints(keys, q, error)
    requires p[|p| - 1].pos == |keys| - 1
    requires i + 1 < |p| && i + 1 < |q| && p[i] == q[i]
    ensures p[i + 1].pos >= q[i + 1].pos
  {
    hide SegmentFits;
    assert GreedyAt(keys, p, error, i) && GreedyAt(keys, q, error, i);
  }

  /** Keys on one line need no points but their ends. */
  lemma EvenKeys(keys: seq<int>, points: seq<SplinePoint>, error: nat, step: nat)
    requires |keys| >= 2 && forall i :: 0 <= i < |keys| ==> keys[i] == keys[0] + i * step
    requires GreedyPoints(keys, points, error) && points[|points| - 1].pos == |keys| - 1
    ensures points == [SplinePoint(keys[0], 0), SplinePoint(keys[|keys| - 1], |keys| - 1)]
  {
    var n := |keys|;
    var ends := [SplinePoint(keys[0], 0), SplinePoint(keys[n - 1], n - 1)];
    forall c, j | 0 < j <= c < n ensures Within(keys, 0, c, error, j) {
      OnLine(j, c, step);
      assert error * (c * step) >= 0;
    }
    hide Within;
    assert Grows(keys, 0, n - 1, error);
    assert GreedyAt(keys, ends, error, 0);
    GreedyUnique(keys, points, ends, error);
  }

  lemma OnLine(j: int, c: int, step: int)
    ensures j * step * c == j * (c * step)
  {}
}
