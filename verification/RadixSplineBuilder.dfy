/** Building the radix spline: sampled spline points and the radix table, and the window
    theorem for what a finished index answers. */
module RadixSplineBuilder {
  import opened SortedSeq
  import opened BatchSearch
  import opened RadixSpline

  function Stride(maxError: nat): (s: nat)
    ensures s >= 1 && s >= maxError && (s == 1 || s == maxError)
  {
    if maxError < 1 then 1 else maxError
  }

  /** Point i stands for an actual key and its position. */
  predicate OnKeys(p: Coord, keys: seq<int>) {
    0 <= p.y < |keys| && p.x == keys[p.y]
  }

  /** Consecutive points, at most a stride apart. */
  predicate LinkedAt(points: seq<Coord>, stride: nat, i: int) {
    0 <= i && (i + 1 < |points| ==> points[i].y < points[i + 1].y <= points[i].y + stride)
  }

  /** Points sample the keys from the first to the last, at most a stride apart. */
  predicate SplineOk(points: seq<Coord>, keys: seq<int>, stride: nat) {
    if |keys| == 0 then points == []
    else
      && |points| > 0 && points[0].y == 0 && points[|points| - 1].y == |keys| - 1
      && (forall i :: 0 <= i < |points| ==> OnKeys(points[i], keys))
      && (forall i :: 0 <= i < |points| ==> LinkedAt(points, stride, i))
  }

  /** All points but the last are sampled at the multiples of the stride. */
  predicate Strided(points: seq<Coord>, stride: nat) {
    forall i :: 0 <= i < |points| - 1 ==> points[i].y == i * stride
  }

  /** A finished index over these keys. */
  predicate IndexOver(rs: RadixSpline, keys: seq<int>) {
    && rs.Valid() && Sorted(keys) && rs.numKeys == |keys|
    && SplineOk(rs.splinePoints, keys, Stride(rs.maxError))
    && Strided(rs.splinePoints, Stride(rs.maxError))
    && TableOk(rs.minKey, rs.maxKey, rs.numRadixBits, rs.splinePoints, rs.radixTable)
  }

  /** Every stride-th key so far, the next position to sample being i. */
  predicate Sampled(points: seq<Coord>, keys: seq<int>, stride: nat, i: int) {
    && |points| > 0 && i == |points| * stride && points[|points| - 1].y == i - stride < |keys|
    && points[0].y == 0
    && (forall j :: 0 <= j < |points| ==> OnKeys(points[j], keys) && points[j].y == j * stride)
    && (forall j :: 0 <= j < |points| ==> LinkedAt(points, stride, j))
  }

  lemma FirstPoint(keys: seq<int>, stride: nat)
    requires |keys| > 0
    ensures Sampled([Coord(keys[0], 0)], keys, stride, stride)
  {}

  lemma NextSample(points: seq<Coord>, keys: seq<int>, stride: nat, i: nat)
    requires Sampled(points, keys, stride, i) && i < |keys| && stride >= 1
    ensures Sampled(points + [Coord(keys[i], i)], keys, stride, i + stride)
  {
    var q := points + [Coord(keys[i], i)];
    assert |q| * stride == |points| * stride + stride;
    forall j | 0 <= j < |q| ensures LinkedAt(q, stride, j) {
      if j < |points| { assert LinkedAt(points, stride, j); }
    }
  }

  /** Closing with the last key, where it is not sampled already. */
  lemma LastPoint(points: seq<Coord>, keys: seq<int>, stride: nat, i: nat)
    requires Sampled(points, keys, stride, i) && i >= |keys| && stride >= 1
    ensures var n, q := |keys|, points + [Coord(keys[|keys| - 1], |keys| - 1)];
            if i - stride == n - 1 then
              SplineOk(points, keys, stride) && forall j :: 0 <= j < |points| - 1 ==> points[j].y == j * stride
            else SplineOk(q, keys, stride) && forall j :: 0 <= j < |q| - 1 ==> q[j].y == j * stride
  {
    var q := points + [Coord(keys[|keys| - 1], |keys| - 1)];
    if i - stride != |keys| - 1 {
      forall j | 0 <= j < |q| ensures LinkedAt(q, stride, j) {
        if j < |points| { assert LinkedAt(points, stride, j); }
      }
    }
  }

  class Builder {
    const minKey: int
    const maxKey: int
    const numRadixBits: nat
    const maxError: nat
    var keys: seq<int>

    constructor (minKey: int, maxKey: int, numRadixBits: nat, maxError: nat)
      ensures this.minKey == minKey && this.maxKey == maxKey
      ensures this.numRadixBits == numRadixBits && this.maxError == maxError && keys == []
    {
      this.minKey, this.maxKey, this.numRadixBits, this.maxError := minKey, maxKey, numRadixBits, maxError;
      keys := [];
    }

    /** A builder, or nothing when the key range is empty or the table too large to index. */
    static method Create(minKey: int, maxKey: int, numRadixBits: nat, maxError: nat) returns (b: Builder?)
      ensures b == null <==> minKey > maxKey || numRadixBits >= 64
      ensures b != null ==> fresh(b) && b.Valid() && b.keys == [] && b.minKey == minKey && b.maxKey == maxKey
                            && b.numRadixBits == numRadixBits && b.maxError == maxError
    {
      if minKey > maxKey || numRadixBits >= 64 { return null; }
      b := new Builder(minKey, maxKey, numRadixBits, maxError);
    }

    predicate Valid()
      reads this
    {
      minKey <= maxKey && Sorted(keys) && forall i :: 0 <= i < |keys| ==> minKey <= keys[i] <= maxKey
    }

    /** Keys come in nondecreasing order and inside the range, or are refused. */
    method AddKey(key: int) returns (ok: bool)
      requires Valid()
      modifies this`keys
      ensures Valid()
      ensures ok <==> (old(keys) != [] ==> key >= old(keys)[|old(keys)| - 1]) && minKey <= key <= maxKey
      ensures keys == if ok then old(keys) + [key] else old(keys)
    {
      if keys != [] && key < keys[|keys| - 1] { return false; }
      if key < minKey || key > maxKey { return false; }
      keys := keys + [key];
      return true;
    }

    method Finalize() returns (rs: RadixSpline)
      requires Valid()
      ensures IndexOver(rs, keys) && rs.maxError == maxError
      ensures rs.minKey == minKey && rs.maxKey == maxKey && rs.numRadixBits == numRadixBits
    {
      hide OnKeys, LinkedAt, TableAt, Pow2;
      var points := BuildSplinePoints();
      PointsAscend(points, keys, Stride(maxError));
      hide SplineOk;
      var table := BuildRadixTable(points);
      rs := RadixSpline(minKey, maxKey, |keys|, numRadixBits, maxError, points, table);
    }

    /** Every stride-th key and the last one. */
    method BuildSplinePoints() returns (points: seq<Coord>)
      ensures SplineOk(points, keys, Stride(maxError))
      ensures Strided(points, Stride(maxError))
    {
      points := [];
      var n := |keys|;
      if n == 0 { return; }
      hide OnKeys, LinkedAt;
      var stride := Stride(maxError);
      FirstPoint(keys, stride);
      points := points + [Coord(keys[0], 0)];
      var lastAdded := 0;
      var i := stride;
      while i < n
        invariant lastAdded == i - stride && Sampled(points, keys, stride, i)
      {
        NextSample(points, keys, stride, i);
        points := points + [Coord(keys[i], i)];
        lastAdded := i;
        i := i + stride;
      }
      LastPoint(points, keys, stride, i);
      if lastAdded != n - 1 {
        points := points + [Coord(keys[n - 1], n - 1)];
      }
    }

    /** For every prefix the first point at or beyond it. */
    method BuildRadixTable(points: seq<Coord>) returns (table: seq<nat>)
      requires minKey <= maxKey
      ensures Ascending(points) ==> TableOk(minKey, maxKey, numRadixBits, points, table)
    {
      hide GetPrefix;
      var limit := Pow2(numRadixBits);
      var t := new nat[limit + 1](_ => |points|);
      var pos := 0;
      if |points| > 0 {
        for i := 0 to |points|
          invariant 0 <= pos <= limit
          invariant forall p :: pos <= p <= limit ==> t[p] == |points|
          invariant forall p :: 0 <= p < pos ==> Entry(points, p, t[p]) && t[p] < |points|
          invariant pos < limit ==> Before(points, i, pos)
        {
          var prefix := GetPrefix(minKey, maxKey, numRadixBits, points[i].x);
          while pos <= prefix && pos < limit
            invariant 0 <= pos <= limit
            invariant forall p :: pos <= p <= limit ==> t[p] == |points|
            invariant forall p :: 0 <= p < pos ==> Entry(points, p, t[p]) && t[p] < |points|
            invariant pos < limit ==> Before(points, i, pos)
            decreases limit - pos
          {
            t[pos] := i;
            pos := pos + 1;
          }
        }
        while pos <= limit
          invariant 0 <= pos <= limit + 1
          invariant forall p :: 0 <= p < pos && p < limit ==> Entry(points, p, t[p])
          invariant pos < limit ==> Before(points, |points|, pos)
          invariant forall p :: pos <= p <= limit ==> t[p] == |points|
          invariant pos > limit ==> t[limit] == |points|
          decreases limit + 1 - pos
        {
          t[pos] := |points|;
          pos := pos + 1;
        }
      }
      table := t[..];
      assert forall p :: 0 <= p < limit ==> Entry(points, p, table[p]);
    }

    predicate Entry(points: seq<Coord>, p: nat, entry: nat)
      requires minKey <= maxKey
    {
      TableAt(minKey, maxKey, numRadixBits, points, p, entry)
    }

    /** The first i points have prefixes below p. */
    predicate Before(points: seq<Coord>, i: nat, p: nat)
      requires minKey <= maxKey && i <= |points|
    {
      forall j :: 0 <= j < i ==> GetPrefix(minKey, maxKey, numRadixBits, points[j].x) < p
    }
  }

  // ---- The window ----

  lemma {:induction false} PointsClimb(points: seq<Coord>, keys: seq<int>, stride: nat, i: nat, j: nat)
    requires |keys| > 0 && SplineOk(points, keys, stride) && i < j < |points|
    ensures points[i].y < points[j].y
    decreases j - i
  {
    assert LinkedAt(points, stride, j - 1);
    if i < j - 1 { PointsClimb(points, keys, stride, i, j - 1); }
  }

  lemma PointsAscend(points: seq<Coord>, keys: seq<int>, stride: nat)
    requires Sorted(keys) && SplineOk(points, keys, stride)
    ensures Ascending(points)
  {
    forall i, j | 0 <= i < j < |points| ensures points[i].x <= points[j].x {
      PointsClimb(points, keys, stride, i, j);
      assert OnKeys(points[i], keys) && OnKeys(points[j], keys);
    }
  }

  /** Interpolation stays at or above the left point and below the right one. */
  lemma InterpolateInside(left: Coord, right: Coord, key: int)
    requires left.x <= key < right.x && left.y < right.y
    ensures left.y as real <= Interpolate(left, right, key) < right.y as real
    ensures key == left.x ==> Interpolate(left, right, key) == left.y as real
  {
    var dx, dy, d := (right.x - left.x) as real, (right.y - left.y) as real, (key - left.x) as real;
    var s := dy / dx;
    assert s * dx == dy && s > 0.0;
    assert s * d >= 0.0;
    assert s * (dx - d) > 0.0;
    assert s * (dx - d) == s * dx - s * d;
  }

  /** pos is the height of the line through two points at a key, rounded down: said in whole
      numbers, over the distance of the two points. */
  predicate RoundedDown(left: Coord, right: Coord, key: int, pos: int) {
    && (pos - left.y) * (right.x - left.x) <= (right.y - left.y) * (key - left.x)
    && (right.y - left.y) * (key - left.x) < (pos - left.y + 1) * (right.x - left.x)
  }

  lemma InterpolateFloor(left: Coord, right: Coord, key: int)
    requires left.x < right.x
    ensures RoundedDown(left, right, key, Interpolate(left, right, key).Floor)
  {
    var dx, rise, d := right.x - left.x, right.y - left.y, key - left.x;
    var s := rise as real / dx as real;
    var up := Interpolate(left, right, key) - left.y as real;
    var whole := Interpolate(left, right, key).Floor - left.y;
    assert up == s * d as real && whole as real <= up < (whole + 1) as real;
    hide Interpolate;
    ScaledRise(s, rise, dx, d);
    FloorScaled(up, whole, dx, rise * d);
  }

  lemma ScaledRise(s: real, rise: int, dx: int, d: int)
    requires dx > 0 && s == rise as real / dx as real
    ensures s * d as real * dx as real == (rise * d) as real
  {
    assert s * dx as real == rise as real;
    assert s * d as real * dx as real == s * dx as real * d as real;
  }

  lemma FloorScaled(up: real, whole: int, dx: int, x: int)
    requires dx > 0 && whole as real <= up < (whole + 1) as real && up * dx as real == x as real
    ensures whole * dx <= x < (whole + 1) * dx
  {
    ScaleReals(whole as real, up, (whole + 1) as real, dx as real);
    RealProduct(whole, dx);
    RealProduct(whole + 1, dx);
  }

  lemma ScaleReals(a: real, b: real, c: real, q: real)
    requires a <= b < c && q > 0.0
    ensures a * q <= b * q < c * q
  {
    assert (b - a) * q >= 0.0 && (c - b) * q > 0.0;
  }

  lemma RealProduct(a: int, b: int)
    ensures (a * b) as real == a as real * b as real
  {}

  /** At or beyond the end keys the estimate is the first or the last position. */
  lemma OuterEstimate(rs: RadixSpline, keys: seq<int>, key: int)
    requires IndexOver(rs, keys) && |keys| > 0
    ensures key <= keys[0] ==> rs.GetEstimatedPosition(key) == 0
    ensures keys[0] < key && keys[|keys| - 1] <= key ==> rs.GetEstimatedPosition(key) == |keys| - 1
  {
    var points, n := rs.splinePoints, |rs.splinePoints|;
    assert OnKeys(points[0], keys) && OnKeys(points[n - 1], keys);
    hide TableOk, Pow2, Strided, UpperBound, Interpolate;
  }

  /** The window of a key that is absent reaches from at or before its rank to at or beyond
      it. */
  lemma AbsentKeyWindow(rs: RadixSpline, keys: seq<int>, key: int)
    requires IndexOver(rs, keys) && key !in keys
    ensures rs.GetSearchBound(key).begin <= Rank(keys, key) <= rs.GetSearchBound(key).end
  {
    var n := |rs.splinePoints|;
    if |keys| > 0 {
      assert OnKeys(rs.splinePoints[0], keys) && OnKeys(rs.splinePoints[n - 1], keys);
      if keys[0] < key < keys[|keys| - 1] {
        InnerAbsent(rs, keys, key);
      } else {
        OuterEstimate(rs, keys, key);
        RankIs(keys, key, if key < keys[0] then 0 else |keys|);
      }
    }
  }

  lemma InnerAbsent(rs: RadixSpline, keys: seq<int>, key: int)
    requires IndexOver(rs, keys) && key !in keys && |keys| > 0
    requires rs.splinePoints[0].x < key < rs.splinePoints[|rs.splinePoints| - 1].x
    ensures rs.GetSearchBound(key).begin <= Rank(keys, key) <= rs.GetSearchBound(key).end
  {
    var idx := InnerEstimate(rs, keys, key);
    hide TableOk, SplineOk, Strided, Pow2, RoundedDown;
    var left, right := rs.splinePoints[idx], rs.splinePoints[idx + 1];
    RankInside(keys, key, left.y, right.y);
    hide IndexOver;
  }

  lemma RankInside(keys: seq<int>, key: int, p: nat, q: nat)
    requires Sorted(keys) && key !in keys && p < q < |keys| && keys[p] <= key <= keys[q]
    ensures p < Rank(keys, key) <= q
  {
    assert keys[p] in keys && keys[q] in keys;
  }

  /** The window of a key that is present holds an occurrence of it, whatever the error
      bound, zero included. */
  lemma PresentKeyCovered(rs: RadixSpline, keys: seq<int>, key: int) returns (p: nat)
    requires IndexOver(rs, keys) && key in keys
    ensures rs.GetSearchBound(key).begin <= p < rs.GetSearchBound(key).end && keys[p] == key
  {
    var points, n := rs.splinePoints, |rs.splinePoints|;
    PointsAscend(points, keys, Stride(rs.maxError));
    var q :| 0 <= q < |keys| && keys[q] == key;
    assert OnKeys(points[0], keys) && OnKeys(points[n - 1], keys);
    if key <= points[0].x {
      p := 0;
    } else if key >= points[n - 1].x {
      p := |keys| - 1;
    } else {
      p := InnerCovered(rs, keys, key, q);
    }
  }

  lemma InnerCovered(rs: RadixSpline, keys: seq<int>, key: int, q: nat) returns (p: nat)
    requires IndexOver(rs, keys) && q < |keys| && keys[q] == key
    requires rs.splinePoints[0].x < key < rs.splinePoints[|rs.splinePoints| - 1].x
    ensures rs.GetSearchBound(key).begin <= p < rs.GetSearchBound(key).end && keys[p] == key
  {
    var idx := InnerEstimate(rs, keys, key);
    var left := rs.splinePoints[idx];
    hide TableOk, SplineOk, Window, Pow2, RoundedDown;
    p := if key == left.x then left.y else q;
    InWindow(rs.GetEstimatedPosition(key), rs.maxError, rs.numKeys, p);
  }

  /** Strictly inside, the segment found has actual keys around the query. */
  lemma SegmentAround(rs: RadixSpline, keys: seq<int>, key: int) returns (idx: nat)
    requires IndexOver(rs, keys) && |keys| > 0
    requires rs.splinePoints[0].x < key < rs.splinePoints[|rs.splinePoints| - 1].x
    ensures idx == rs.GetSplineSegment(key) && idx + 1 < |rs.splinePoints|
    ensures var left, right := rs.splinePoints[idx], rs.splinePoints[idx + 1];
            && OnKeys(left, keys) && OnKeys(right, keys) && left.x <= key < right.x
            && left.y < right.y <= left.y + Stride(rs.maxError)
  {
    PointsAscend(rs.splinePoints, keys, Stride(rs.maxError));
    idx := rs.GetSplineSegment(key);
    Neighbours(rs, keys, idx);
    hide UpperBound, Pow2, GetPrefix, Sorted, OnKeys, Strided, SplineOk;
    NarrowingIsExact(rs, key);
  }

  lemma Neighbours(rs: RadixSpline, keys: seq<int>, idx: nat)
    requires IndexOver(rs, keys) && |keys| > 0
    ensures |rs.splinePoints| > 0
    ensures idx + 1 < |rs.splinePoints| ==>
              var left, right := rs.splinePoints[idx], rs.splinePoints[idx + 1];
              OnKeys(left, keys) && OnKeys(right, keys) && left.y < right.y <= left.y + Stride(rs.maxError)
  {
    hide TableOk, Pow2, OnKeys, Strided, Sorted;
    assert idx < |rs.splinePoints| ==> LinkedAt(rs.splinePoints, Stride(rs.maxError), idx);
  }

  /** Between the end points the estimate is a position of the segment around the key. */
  lemma InnerEstimate(rs: RadixSpline, keys: seq<int>, key: int) returns (idx: nat)
    requires IndexOver(rs, keys) && |keys| > 0
    requires rs.splinePoints[0].x < key < rs.splinePoints[|rs.splinePoints| - 1].x
    ensures idx + 1 < |rs.splinePoints|
    ensures var left, right := rs.splinePoints[idx], rs.splinePoints[idx + 1];
            && OnKeys(left, keys) && OnKeys(right, keys) && left.x <= key < right.x
            && left.y < right.y <= left.y + Stride(rs.maxError)
            && left.y <= rs.GetEstimatedPosition(key) < right.y
            && (key == left.x ==> rs.GetEstimatedPosition(key) == left.y)
    ensures RoundedDown(rs.splinePoints[idx], rs.splinePoints[idx + 1], key, rs.GetEstimatedPosition(key))
  {
    idx := SegmentAround(rs, keys, key);
    var left, right := rs.splinePoints[idx], rs.splinePoints[idx + 1];
    assert rs.Valid() && rs.numKeys == |keys|;
    hide IndexOver, UpperBound, Interpolate, Sorted, Ascending, Pow2, RoundedDown;
    InterpolateInside(left, right, key);
    InterpolateFloor(left, right, key);
    EstimateIs(rs, key);
    FloorInside(Interpolate(left, right, key), left.y, right.y);
  }

  lemma EstimateIs(rs: RadixSpline, key: int)
    requires rs.Valid() && |rs.splinePoints| >= 2
    requires rs.splinePoints[0].x < key < rs.splinePoints[|rs.splinePoints| - 1].x
    ensures var idx := rs.GetSplineSegment(key);
            var left, right := rs.splinePoints[idx], rs.splinePoints[idx + 1];
            left.x != right.x ==> rs.GetEstimatedPosition(key) == rs.ClampPosition(Interpolate(left, right, key))
  {
    hide UpperBound, Interpolate;
  }

  lemma FloorInside(v: real, lo: int, hi: int)
    requires lo as real <= v < hi as real
    ensures lo <= v.Floor < hi && (v == lo as real ==> v.Floor == lo)
  {}

  // ---- Sequential lookup ----

  /** The plain binary search inside a window. */
  method FindLowerIn(keys: seq<int>, k: int, lo: nat, hi: nat) returns (slot: nat)
    requires Sorted(keys) && lo <= hi <= |keys|
    ensures lo <= slot <= hi
    ensures (forall i :: lo <= i < slot ==> keys[i] < k) && (forall i :: slot <= i < hi ==> k <= keys[i])
  {
    var a, b := lo, hi;
    while a < b
      invariant lo <= a <= b <= hi
      invariant (forall i :: lo <= i < a ==> keys[i] < k) && (forall i :: b <= i < hi ==> k <= keys[i])
    {
      var mid := (a + b) / 2;
      if k <= keys[mid] { b := mid; } else { a := mid + 1; }
    }
    slot := a;
  }

  /** The first occurrence of a present key inside its window. */
  function OccurrenceIn(rs: RadixSpline, keys: seq<int>, key: int): int
    requires rs.Valid() && Sorted(keys)
  {
    var begin, r := rs.GetSearchBound(key).begin, Rank(keys, key);
    if begin > r then begin else r
  }

  /** Membership, and the value of the first occurrence in the window; a missing key keeps
      its old result. */
  ghost predicate Lookup(rs: RadixSpline, keys: seq<int>, values: seq<int>, q: int, base: int, f: bool, v: int)
    requires rs.Valid() && Sorted(keys) && |values| == |keys|
  {
    if q in keys then f && OccurrenceIn(rs, keys, q) < |keys| && v == values[OccurrenceIn(rs, keys, q)]
    else !f && v == base
  }

  predicate Distinct(values: seq<int>) {
    forall i, j :: 0 <= i < j < |values| ==> values[i] != values[j]
  }

  /** The positions a spline is built from: the multiples of the stride, and the last. */
  predicate SamplePosition(keys: seq<int>, stride: nat, p: int)
    requires stride >= 1
  {
    0 <= p < |keys| && (p % stride == 0 || p == |keys| - 1)
  }

  /** No sampled position beyond the error past the key's rank holds the key. */
  ghost predicate SampledInReach(rs: RadixSpline, keys: seq<int>, q: int)
    requires Sorted(keys) && q in keys
  {
    || q == keys[0]
    || forall p :: SamplePosition(keys, Stride(rs.maxError), p) && keys[p] == q ==> p <= Rank(keys, q) + rs.maxError
  }

  /** That is the answer of a lower-bound search over the whole array exactly for the first
      key and for keys that no sampled position more than the error past their rank holds. */
  lemma FirstOccurrenceFound(rs: RadixSpline, keys: seq<int>, values: seq<int>, q: int, base: int, f: bool, v: int)
    requires IndexOver(rs, keys) && |values| == |keys| && Lookup(rs, keys, values, q, base, f, v)
    ensures q !in keys || SampledInReach(rs, keys, q) ==> Answer(keys, values, q, base, f, v)
    ensures Distinct(values) && Answer(keys, values, q, base, f, v) ==> q !in keys || SampledInReach(rs, keys, q)
  {
    if q in keys { WindowReachesRank(rs, keys, q); }
    hide Window, Pow2, TableOk, SplineOk, Strided, SampledInReach;
    RankDecides(keys, q);
  }

  /** A key with at most one occurrence more than the error always gets its first one. */
  lemma FewOccurrences(rs: RadixSpline, keys: seq<int>, values: seq<int>, q: int, base: int, f: bool, v: int)
    requires IndexOver(rs, keys) && |values| == |keys| && q in keys && Lookup(rs, keys, values, q, base, f, v)
    requires var r := Rank(keys, q) + rs.maxError + 1; r < |keys| ==> keys[r] != q
    ensures Answer(keys, values, q, base, f, v)
  {
    hide Window, Answer, Lookup, Rank, SplineOk, TableOk, Strided;
    RunEnds(rs, keys, q);
    FirstOccurrenceFound(rs, keys, values, q, base, f, v);
  }

  lemma RunEnds(rs: RadixSpline, keys: seq<int>, q: int)
    requires Sorted(keys) && q in keys
    requires var r := Rank(keys, q) + rs.maxError + 1; r < |keys| ==> keys[r] != q
    ensures SampledInReach(rs, keys, q)
  {
    var r := Rank(keys, q) + rs.maxError + 1;
    var next := if r < |keys| then keys[r] else q;
    hide Rank;
    assert forall p :: 0 <= p < |keys| && keys[p] == q ==> p < r;
  }

  lemma PointIsSample(rs: RadixSpline, keys: seq<int>, i: nat)
    requires IndexOver(rs, keys) && i < |rs.splinePoints|
    ensures SamplePosition(keys, Stride(rs.maxError), rs.splinePoints[i].y)
    ensures keys[rs.splinePoints[i].y] == rs.splinePoints[i].x
  {
    hide TableOk, Sorted, Pow2;
    assert OnKeys(rs.splinePoints[i], keys);
    if i < |rs.splinePoints| - 1 { MultipleOf(i, Stride(rs.maxError)); }
  }

  lemma MultipleOf(i: nat, d: nat)
    requires d >= 1
    ensures (i * d) % d == 0
  {
    var q, r := (i * d) / d, (i * d) % d;
    assert (i - q) * d == r;
    SmallMultiple(i - q, d);
  }

  lemma SmallMultiple(k: int, d: nat)
    requires 0 <= k * d < d
    ensures k == 0
  {
    if k >= 1 { MulMonotone(1, k, d); }
    if k <= -1 { MulMonotone(k, -1, d); }
  }

  lemma SampleIsPoint(rs: RadixSpline, keys: seq<int>, p: nat) returns (i: nat)
    requires IndexOver(rs, keys) && SamplePosition(keys, Stride(rs.maxError), p)
    ensures i < |rs.splinePoints| && rs.splinePoints[i].y == p && rs.splinePoints[i].x == keys[p]
  {
    hide TableOk, Sorted, Pow2;
    var points, d, last := rs.splinePoints, Stride(rs.maxError), |rs.splinePoints| - 1;
    if p == |keys| - 1 {
      i := last;
    } else {
      i := p / d;
      assert p == i * d;
      if i >= last { PastLast(rs, keys, i); }
    }
    assert OnKeys(points[i], keys);
  }

  lemma PastLast(rs: RadixSpline, keys: seq<int>, i: nat)
    requires IndexOver(rs, keys) && |keys| > 0 && i >= |rs.splinePoints| - 1
    ensures i * Stride(rs.maxError) >= |keys| - 1
  {
    hide TableOk, Sorted, Pow2, OnKeys;
    var d, last := Stride(rs.maxError), |rs.splinePoints| - 1;
    MulMonotone(last, i, d);
    if last > 0 {
      assert LinkedAt(rs.splinePoints, d, last - 1);
      assert rs.splinePoints[last - 1].y == (last - 1) * d;
      OneMore(last, d);
    }
  }

  lemma OneMore(k: int, d: int)
    ensures (k - 1) * d + d == k * d
  {}

  /** The window of a present key begins at or before its rank exactly then. */
  lemma WindowReachesRank(rs: RadixSpline, keys: seq<int>, q: int)
    requires IndexOver(rs, keys) && q in keys
    ensures rs.GetSearchBound(q).begin <= Rank(keys, q) <==> SampledInReach(rs, keys, q)
  {
    WindowReaches(rs, keys, q);
    hide TableOk, SplineOk, Strided, Window, Pow2, IndexOver;
    if q != keys[0] && rs.GetSearchBound(q).begin <= Rank(keys, q) {
      forall p | SamplePosition(keys, Stride(rs.maxError), p) && keys[p] == q ensures p <= Rank(keys, q) + rs.maxError {
        var i := SampleIsPoint(rs, keys, p);
      }
    }
    if q != keys[0] && SampledInReach(rs, keys, q) {
      forall i | 0 <= i < |rs.splinePoints| && rs.splinePoints[i].x == q
        ensures rs.splinePoints[i].y <= Rank(keys, q) + rs.maxError
      {
        PointIsSample(rs, keys, i);
      }
    }
  }

  /** The same over the spline points. */
  lemma WindowReaches(rs: RadixSpline, keys: seq<int>, q: int)
    requires IndexOver(rs, keys) && q in keys
    ensures rs.GetSearchBound(q).begin <= Rank(keys, q)
            <==> q == keys[0] || PointsInReach(rs, q, Rank(keys, q))
  {
    var points, n := rs.splinePoints, |rs.splinePoints|;
    assert OnKeys(points[0], keys) && OnKeys(points[n - 1], keys);
    PointsAscend(points, keys, Stride(rs.maxError));
    if points[0].x < q < points[n - 1].x {
      InnerReaches(rs, keys, q);
    } else {
      OuterReaches(rs, keys, q);
    }
  }

  predicate PointsInReach(rs: RadixSpline, q: int, r: int) {
    forall i :: 0 <= i < |rs.splinePoints| && rs.splinePoints[i].x == q ==> rs.splinePoints[i].y <= r + rs.maxError
  }

  lemma OuterReaches(rs: RadixSpline, keys: seq<int>, q: int)
    requires IndexOver(rs, keys) && q in keys
    requires q <= rs.splinePoints[0].x || rs.splinePoints[|rs.splinePoints| - 1].x <= q
    ensures rs.GetSearchBound(q).begin <= Rank(keys, q)
            <==> q == keys[0] || PointsInReach(rs, q, Rank(keys, q))
  {
    var points, n := rs.splinePoints, |rs.splinePoints|;
    assert OnKeys(points[0], keys) && OnKeys(points[n - 1], keys);
    assert keys[0] <= q <= keys[|keys| - 1];
    hide TableOk, Pow2, Strided;
    assert forall i :: 0 <= i < n ==> OnKeys(points[i], keys) && points[i].y <= points[n - 1].y;
  }

  lemma InnerReaches(rs: RadixSpline, keys: seq<int>, q: int)
    requires IndexOver(rs, keys) && q in keys
    requires rs.splinePoints[0].x < q < rs.splinePoints[|rs.splinePoints| - 1].x
    ensures rs.GetSearchBound(q).begin <= Rank(keys, q)
            <==> q == keys[0] || PointsInReach(rs, q, Rank(keys, q))
  {
    assert OnKeys(rs.splinePoints[0], keys);
    var idx := InnerEstimate(rs, keys, q);
    LastAtKey(rs, keys, q, idx);
    hide IndexOver, TableOk, SplineOk, Strided, Pow2, RoundedDown;
    var left := rs.splinePoints[idx];
    if left.x != q { assert keys[left.y] < q; }
  }

  /** A point at the key is the one left of the segment, or further left. */
  lemma LastAtKey(rs: RadixSpline, keys: seq<int>, q: int, idx: nat)
    requires IndexOver(rs, keys) && idx + 1 < |rs.splinePoints|
    requires rs.splinePoints[idx].x <= q < rs.splinePoints[idx + 1].x
    ensures rs.Valid() && Sorted(keys) && rs.numKeys == |keys| && |keys| > 0
    ensures forall i :: 0 <= i < |rs.splinePoints| && rs.splinePoints[i].x == q ==>
              rs.splinePoints[i].y <= rs.splinePoints[idx].y && rs.splinePoints[idx].x == q
  {
    var points := rs.splinePoints;
    PointsAscend(points, keys, Stride(rs.maxError));
    hide TableOk, Pow2, Strided;
    forall i | 0 <= i < |points| && points[i].x == q ensures points[i].y <= points[idx].y && points[idx].x == q {
      if i < idx { PointsClimb(points, keys, Stride(rs.maxError), i, idx); }
    }
  }

  /** Over distinct keys every lookup is that answer. */
  lemma DistinctLookup(rs: RadixSpline, keys: seq<int>, values: seq<int>, q: int, base: int, f: bool, v: int)
    requires IndexOver(rs, keys) && Increasing(keys) && |values| == |keys| && Lookup(rs, keys, values, q, base, f, v)
    ensures Answer(keys, values, q, base, f, v)
  {
    hide TableOk, SplineOk, Strided, Window, Pow2;
    if q in keys {
      RankDecides(keys, q);
      FewOccurrences(rs, keys, values, q, base, f, v);
    }
  }

  const RUN_OF_FIVES: seq<int> := [0, 5, 5, 5, 5, 5, 9]

  /** Five equal keys under error 1: the window begins at the fourth of them. */
  lemma FirstOccurrenceMissed(rs: RadixSpline)
    requires IndexOver(rs, RUN_OF_FIVES) && rs.maxError == 1
    ensures Sorted(RUN_OF_FIVES) && Rank(RUN_OF_FIVES, 5) == 1
    ensures rs.GetSearchBound(5) == SearchBound(4, 7) && OccurrenceIn(rs, RUN_OF_FIVES, 5) == 4
  {
    var keys, n := RUN_OF_FIVES, |rs.splinePoints|;
    RankIs(keys, 5, 1);
    assert OnKeys(rs.splinePoints[0], keys) && OnKeys(rs.splinePoints[n - 1], keys);
    var idx := InnerEstimate(rs, keys, 5);
    hide TableOk, SplineOk, Strided, Pow2;
    assert rs.splinePoints[idx + 1].y == 6 && rs.splinePoints[idx].y == 5;
  }

  method NoPrefetchBatchLookup(rs: RadixSpline, keys: seq<int>, values: seq<int>, queries: seq<int>, results0: seq<int>)
      returns (found: seq<bool>, results: seq<int>)
    requires IndexOver(rs, keys) && |values| == |keys|
    ensures |found| == |results| == |queries|
    ensures forall i :: 0 <= i < |queries| ==>
              Lookup(rs, keys, values, queries[i], Resized(results0, |queries|)[i], found[i], results[i])
  {
    found := seq(|queries|, _ => false);
    results := Resized(results0, |queries|);
    ghost var base := results;
    var n := |keys|;
    for i := 0 to |queries|
      invariant |found| == |results| == |queries|
      invariant forall j :: 0 <= j < i ==> Lookup(rs, keys, values, queries[j], base[j], found[j], results[j])
      invariant forall j :: i <= j < |queries| ==> results[j] == base[j]
    {
      assert rs.Valid() && Sorted(keys);
      hide IndexOver, Lookup, OccurrenceIn;
      var slot := WindowSlot(rs, keys, queries[i]);
      if slot < n && queries[i] == keys[slot] {
        results := results[i := values[slot]];
        found := found[i := true];
      } else {
        found := found[i := false];
      }
      LookupIs(rs, keys, values, queries[i], slot, base[i], found[i], results[i]);
    }
  }

  lemma LookupIs(rs: RadixSpline, keys: seq<int>, values: seq<int>, q: int, slot: nat, base: int, f: bool, v: int)
    requires rs.Valid() && Sorted(keys) && |values| == |keys|
    requires q in keys ==> slot < |keys| && keys[slot] == q && slot == OccurrenceIn(rs, keys, q)
    requires if slot < |keys| && q == keys[slot] then f && v == values[slot] else !f && v == base
    ensures Lookup(rs, keys, values, q, base, f, v)
  {}

  /** The lower bound inside the window finds every key that is present, at its first
      occurrence there. */
  method WindowSlot(rs: RadixSpline, keys: seq<int>, key: int) returns (slot: nat)
    requires IndexOver(rs, keys)
    ensures key in keys ==> slot < |keys| && keys[slot] == key && slot == OccurrenceIn(rs, keys, key)
    ensures key !in keys ==> slot == Rank(keys, key)
  {
    var bound := rs.GetSearchBound(key);
    assert Sorted(keys);
    hide IndexOver, Window, Pow2;
    var lo := if bound.begin < |keys| then bound.begin else |keys|;
    var hi := if bound.end < |keys| then bound.end else |keys|;
    slot := FindLowerIn(keys, key, lo, hi);
    if key in keys {
      ghost var p := PresentKeyCovered(rs, keys, key);
      assert slot <= p;
      RankInWindow(keys, key, lo, hi, slot, p);
    } else {
      AbsentKeyWindow(rs, keys, key);
      RankBetween(keys, key, lo, hi, slot);
    }
  }

  lemma RankBetween(keys: seq<int>, key: int, lo: nat, hi: nat, slot: nat)
    requires Sorted(keys) && lo <= slot <= hi <= |keys| && lo <= Rank(keys, key) <= hi
    requires (forall i :: lo <= i < slot ==> keys[i] < key) && (forall i :: slot <= i < hi ==> key <= keys[i])
    ensures slot == Rank(keys, key)
  {
    var r := Rank(keys, key);
    var atR := if r < |keys| then keys[r] else key;
    var atSlot := if slot < |keys| then keys[slot] else key;
  }

  lemma RankInWindow(keys: seq<int>, key: int, lo: nat, hi: nat, slot: nat, p: nat)
    requires Sorted(keys) && lo <= slot <= p < hi <= |keys| && keys[p] == key
    requires (forall i :: lo <= i < slot ==> keys[i] < key) && (forall i :: slot <= i < hi ==> key <= keys[i])
    ensures keys[slot] == key && slot == if lo > Rank(keys, key) then lo else Rank(keys, key)
  {
    var r := Rank(keys, key);
    assert r <= p;
    var atR, atSlot, atLo := keys[r], keys[slot], keys[lo];
  }
}
