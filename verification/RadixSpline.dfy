/** The radix spline: a table over key prefixes narrows the search for a spline segment,
    and interpolation inside the segment gives a bounded window of positions. */
module RadixSpline {
  import opened BatchSearch

  datatype Coord = Coord(x: int, y: int)

  datatype SearchBound = SearchBound(begin: nat, end: nat)

  // ---- Key prefixes ----

  /** Binary digits of x; one for zero. */
  function Bits(x: nat): (bits: nat)
    ensures bits >= 1 && x < Pow2(bits) && (x > 0 ==> Pow2(bits - 1) <= x)
  {
    if x < 2 then 1 else 1 + Bits(x / 2)
  }

  method BitWidth(x: nat) returns (bits: nat)
    ensures bits == Bits(x)
  {
    if x == 0 {
      return 1;
    }
    bits := 0;
    var y := x;
    while y > 0
      invariant bits + (if y > 0 then Bits(y) else 0) == Bits(x)
    {
      bits := bits + 1;
      y := y / 2;
    }
  }

  /** The distance of a key from the least key, clamped to the key range. */
  function Diff(minKey: int, maxKey: int, key: int): (diff: nat)
    requires minKey <= maxKey
    ensures diff <= maxKey - minKey
  {
    if key <= minKey then 0 else if key >= maxKey then maxKey - minKey else key - minKey
  }

  /** The top radixBits digits of a number of keyBits digits. */
  function TopBits(diff: nat, keyBits: nat, radixBits: nat): int {
    if keyBits > radixBits then diff / Pow2(keyBits - radixBits) else diff * Pow2(radixBits - keyBits)
  }

  /** The top radixBits digits of the distance from the least key. */
  function GetPrefix(minKey: int, maxKey: int, radixBits: nat, key: int): nat
    requires minKey <= maxKey
  {
    if radixBits == 0 then 0
    else
      var maxPrefix := Pow2(radixBits) - 1;
      var prefix := TopBits(Diff(minKey, maxKey, key), Bits(maxKey - minKey), radixBits);
      if prefix > maxPrefix then maxPrefix else prefix
  }

  lemma PrefixInTable(minKey: int, maxKey: int, radixBits: nat, key: int)
    requires minKey <= maxKey
    ensures GetPrefix(minKey, maxKey, radixBits, key) < Pow2(radixBits)
  {}

  lemma PrefixMonotone(minKey: int, maxKey: int, radixBits: nat, k: int, l: int)
    requires minKey <= maxKey && k <= l
    ensures GetPrefix(minKey, maxKey, radixBits, k) <= GetPrefix(minKey, maxKey, radixBits, l)
  {
    if radixBits > 0 {
      var keyBits := Bits(maxKey - minKey);
      var d, e := Diff(minKey, maxKey, k), Diff(minKey, maxKey, l);
      if keyBits > radixBits {
        DivMonotone(d, e, Pow2(keyBits - radixBits));
      } else {
        MulMonotone(d, e, Pow2(radixBits - keyBits));
      }
    }
  }

  /** The cap on the prefix is never reached. */
  lemma PrefixUncapped(minKey: int, maxKey: int, radixBits: nat, key: int)
    requires minKey <= maxKey && radixBits > 0
    ensures GetPrefix(minKey, maxKey, radixBits, key)
         == TopBits(Diff(minKey, maxKey, key), Bits(maxKey - minKey), radixBits)
  {
    TopBitsFit(Diff(minKey, maxKey, key), Bits(maxKey - minKey), radixBits);
    hide Bits, Diff, TopBits;
  }

  /** A prefix is the key's distance from the least key, scaled from the digits of the key
      range to the digits of the table and rounded down. */
  lemma PrefixScales(minKey: int, maxKey: int, radixBits: nat, key: int)
    requires minKey <= maxKey && radixBits > 0
    ensures var keyBits, prefix := Bits(maxKey - minKey), GetPrefix(minKey, maxKey, radixBits, key);
            var inside := if key < minKey then minKey else if key > maxKey then maxKey else key;
            && prefix * Pow2(keyBits) <= (inside - minKey) * Pow2(radixBits)
            && (inside - minKey) * Pow2(radixBits) < (prefix + 1) * Pow2(keyBits)
  {
    PrefixUncapped(minKey, maxKey, radixBits, key);
    TopBitsScale(Diff(minKey, maxKey, key), Bits(maxKey - minKey), radixBits);
    hide Bits, TopBits, GetPrefix, Pow2;
  }

  lemma TopBitsScale(diff: nat, keyBits: nat, radixBits: nat)
    ensures var top := TopBits(diff, keyBits, radixBits);
            top * Pow2(keyBits) <= diff * Pow2(radixBits) < (top + 1) * Pow2(keyBits)
  {
    hide Pow2;
    var top := TopBits(diff, keyBits, radixBits);
    if keyBits > radixBits {
      Pow2Adds(keyBits - radixBits, radixBits);
      ScaleDown(diff, Pow2(keyBits - radixBits), Pow2(radixBits), Pow2(keyBits));
    } else {
      Pow2Adds(radixBits - keyBits, keyBits);
      ScaleUp(diff, Pow2(radixBits - keyBits), Pow2(keyBits), Pow2(radixBits));
    }
  }

  lemma ScaleDown(diff: nat, p: nat, q: nat, pq: nat)
    requires pq == p * q && p > 0 && q > 0
    ensures diff / p * pq <= diff * q < (diff / p + 1) * pq
  {
    var top := diff / p;
    assert top * p <= diff < (top + 1) * p;
    ScaleBounds(top * p, diff, (top + 1) * p, q);
    Regroup(top, p, q);
    Regroup(top + 1, p, q);
  }

  lemma ScaleUp(diff: nat, p: nat, q: nat, pq: nat)
    requires pq == p * q && q > 0
    ensures diff * p * q <= diff * pq < (diff * p + 1) * q
  {
    Regroup(diff, p, q);
    assert (diff * p + 1) * q == diff * p * q + q;
  }

  lemma ScaleBounds(a: int, b: int, c: int, q: int)
    requires a <= b < c && q > 0
    ensures a * q <= b * q < c * q
  {
    assert (b - a) * q >= 0 && (c - b) * q > 0;
  }

  lemma Regroup(a: int, p: int, q: int)
    ensures a * p * q == a * (p * q)
  {}

  lemma TopBitsFit(diff: nat, keyBits: nat, radixBits: nat)
    requires diff < Pow2(keyBits)
    ensures TopBits(diff, keyBits, radixBits) < Pow2(radixBits)
  {
    hide Pow2;
    if keyBits > radixBits {
      ShiftDown(diff, keyBits - radixBits, radixBits, keyBits);
    } else {
      ShiftUp(diff, radixBits - keyBits, keyBits, radixBits);
    }
  }

  lemma ShiftDown(diff: nat, shift: nat, bits: nat, all: nat)
    requires all == shift + bits && diff < Pow2(all)
    ensures diff / Pow2(shift) < Pow2(bits)
  {
    hide Pow2;
    Pow2Adds(shift, bits);
    DivBelow(diff, Pow2(shift), Pow2(bits), Pow2(all));
  }

  lemma ShiftUp(diff: nat, shift: nat, bits: nat, all: nat)
    requires all == shift + bits && diff < Pow2(bits)
    ensures diff * Pow2(shift) < Pow2(all)
  {
    hide Pow2;
    Pow2Adds(shift, bits);
    MulBelow(diff, Pow2(bits), Pow2(shift));
  }

  lemma {:induction false} Pow2Adds(a: nat, b: nat)
    ensures Pow2(a + b) == Pow2(a) * Pow2(b)
  {
    if a > 0 { Pow2Adds(a - 1, b); }
  }

  lemma DivMonotone(a: int, b: int, p: int)
    requires a <= b && p > 0
    ensures a / p <= b / p
  {
    var x, y := a / p, b / p;
    assert p * x <= a && b < p * y + p;
    if x > y { MulMonotone(y + 1, x, p); }
  }

  lemma MulMonotone(a: int, b: int, p: int)
    requires a <= b && p >= 0
    ensures a * p <= b * p
  {
    assert (b - a) * p >= 0;
  }

  lemma DivBelow(a: int, p: int, q: int, pq: int)
    requires pq == p * q && 0 <= a < pq && p > 0
    ensures a / p < q
  {
    var x := a / p;
    assert p * x <= a;
    if x >= q { MulMonotone(q, x, p); }
  }

  lemma MulBelow(a: int, p: int, q: int)
    requires 0 <= a < p && q > 0
    ensures a * q < p * q
  {
    assert (p - a) * q > 0;
  }

  // ---- Spline points ----

  predicate Ascending(points: seq<Coord>) {
    forall i, j :: 0 <= i < j < |points| ==> points[i].x <= points[j].x
  }

  /** u separates the points at or below the key from the others, within lo..hi. */
  predicate IsUpperBound(points: seq<Coord>, key: int, lo: int, hi: int, u: int) {
    && 0 <= lo <= u <= hi <= |points|
    && (forall i :: lo <= i < u ==> points[i].x <= key)
    && (forall i :: u <= i < hi ==> key < points[i].x)
  }

  /** std::upper_bound over points[lo..hi]. */
  function UpperBound(points: seq<Coord>, key: int, lo: nat, hi: nat): (u: nat)
    requires lo <= hi <= |points|
    ensures lo <= u <= hi
    ensures Ascending(points) ==> IsUpperBound(points, key, lo, hi, u)
    decreases hi - lo
  {
    if lo == hi then lo
    else
      var mid := (lo + hi) / 2;
      if key < points[mid].x then UpperBound(points, key, lo, mid) else UpperBound(points, key, mid + 1, hi)
  }

  /** Narrowing a search to a range that holds its answer does not change the answer. */
  lemma NarrowedSame(points: seq<Coord>, key: int, lo: nat, hi: nat, u: nat)
    requires Ascending(points) && lo <= u <= hi <= |points|
    requires IsUpperBound(points, key, 0, |points|, u)
    ensures UpperBound(points, key, lo, hi) == u
  {
    var v := UpperBound(points, key, lo, hi);
    var atU := if u < |points| then points[u] else Coord(0, 0);
    var atV := if v < |points| then points[v] else Coord(0, 0);
  }

  datatype RadixSpline = RadixSpline(minKey: int, maxKey: int, numKeys: nat, numRadixBits: nat, maxError: nat,
                                     splinePoints: seq<Coord>, radixTable: seq<nat>)
  {
    /** What the constructor checks. */
    predicate Valid() {
      minKey <= maxKey && (radixTable == [] || |radixTable| == Pow2(numRadixBits) + 1)
    }

    function Prefix(key: int): (prefix: nat)
      requires Valid()
      ensures prefix < Pow2(numRadixBits)
    {
      PrefixInTable(minKey, maxKey, numRadixBits, key);
      GetPrefix(minKey, maxKey, numRadixBits, key)
    }

    /** The range of spline points that the radix table leaves to search. */
    function Narrow(key: int): (r: (nat, nat))
      requires Valid() && |splinePoints| > 1
      ensures r.0 <= r.1 <= |splinePoints|
    {
      var n := |splinePoints|;
      if radixTable == [] then (0, n)
      else
        var prefix := Prefix(key);
        var b0, e0 := radixTable[prefix], radixTable[prefix + 1];
        var b1 := if b0 > 0 then b0 - 1 else b0;
        var e1 := if e0 < n then e0 + 1 else e0;
        var b2 := if b1 >= n then n - 1 else b1;
        var e2 := if e1 > n then n else e1;
        var e3 := if b2 >= e2 then (if b2 + 1 > n then n else b2 + 1) else e2;
        (b2, e3)
    }

    function GetSplineSegment(key: int): (idx: nat)
      requires Valid()
      ensures |splinePoints| > 1 ==> idx + 1 < |splinePoints|
    {
      var n := |splinePoints|;
      if n <= 1 then 0
      else
        var range := Narrow(key);
        var it := UpperBound(splinePoints, key, range.0, range.1);
        var idx := if it == 0 then 0 else it - 1;
        if idx >= n - 1 then n - 2 else idx
    }

    function ClampPosition(pos: real): (p: nat)
      ensures p <= numKeys
    {
      if pos <= 0.0 then 0 else if pos >= numKeys as real then numKeys else pos.Floor
    }

    function GetEstimatedPosition(key: int): (pos: nat)
      requires Valid()
      ensures pos <= numKeys
    {
      var n := |splinePoints|;
      if n == 0 then 0
      else if n == 1 then ClampPosition(splinePoints[0].y as real)
      else if key <= splinePoints[0].x then ClampPosition(splinePoints[0].y as real)
      else if key >= splinePoints[n - 1].x then ClampPosition(splinePoints[n - 1].y as real)
      else
        var idx := GetSplineSegment(key);
        var left, right := splinePoints[idx], splinePoints[idx + 1];
        if right.x == left.x then ClampPosition(left.y as real)
        else ClampPosition(Interpolate(left, right, key))
    }

    /** The window of positions to search, at most 2 * maxError + 2 wide. */
    function GetSearchBound(key: int): (bound: SearchBound)
      requires Valid()
      ensures bound.begin <= bound.end <= numKeys
      ensures bound.end - bound.begin <= 2 * maxError + 2
    {
      if numKeys == 0 || splinePoints == [] then SearchBound(0, 0)
      else Window(GetEstimatedPosition(key), maxError, numKeys)
    }
  }

  /** The positions around an estimate, cut off at both ends of the array. */
  function Window(pos: nat, maxError: nat, numKeys: nat): (bound: SearchBound)
    requires pos <= numKeys
    ensures bound.begin <= bound.end <= numKeys && bound.end - bound.begin <= 2 * maxError + 2
  {
    var begin := if pos > maxError then pos - maxError else 0;
    var end0 := pos + maxError + 2;
    var end := if end0 > numKeys then numKeys else end0;
    SearchBound(if begin > end then end else begin, end)
  }

  /** The window holds exactly the positions from the error below the estimate to one more
      than the error above it. */
  lemma InWindow(pos: nat, maxError: nat, numKeys: nat, p: nat)
    requires pos <= numKeys && p < numKeys
    ensures Window(pos, maxError, numKeys).begin <= p < Window(pos, maxError, numKeys).end
            <==> pos - maxError <= p <= pos + maxError + 1
  {}

  /** The height at a key of the line through two points. */
  function Interpolate(left: Coord, right: Coord, key: int): real
    requires left.x != right.x
  {
    left.y as real + (right.y - left.y) as real / (right.x - left.x) as real * (key - left.x) as real
  }

  // ---- The narrowing is exact ----

  /** Entry p of the table is the first point whose prefix is at least p. */
  predicate TableAt(minKey: int, maxKey: int, radixBits: nat, points: seq<Coord>, p: nat, entry: nat)
    requires minKey <= maxKey
  {
    && entry <= |points|
    && (forall i :: 0 <= i < entry ==> GetPrefix(minKey, maxKey, radixBits, points[i].x) < p)
    && (entry < |points| ==> GetPrefix(minKey, maxKey, radixBits, points[entry].x) >= p)
  }

  predicate TableOk(minKey: int, maxKey: int, radixBits: nat, points: seq<Coord>, table: seq<nat>)
    requires minKey <= maxKey
  {
    && |table| == Pow2(radixBits) + 1
    && (forall p :: 0 <= p < Pow2(radixBits) ==> TableAt(minKey, maxKey, radixBits, points, p, table[p]))
    && table[Pow2(radixBits)] == |points|
  }

  /** The upper bound of a key lies between the table entries of its prefix. */
  lemma BoundBetweenEntries(rs: RadixSpline, key: int, u: nat)
    requires rs.Valid() && Ascending(rs.splinePoints)
    requires TableOk(rs.minKey, rs.maxKey, rs.numRadixBits, rs.splinePoints, rs.radixTable)
    requires IsUpperBound(rs.splinePoints, key, 0, |rs.splinePoints|, u)
    ensures rs.radixTable[rs.Prefix(key)] <= u <= rs.radixTable[rs.Prefix(key) + 1] <= |rs.splinePoints|
  {
    hide GetPrefix;
    var points, q := rs.splinePoints, rs.Prefix(key);
    var first, last := rs.radixTable[q], rs.radixTable[q + 1];
    assert TableAt(rs.minKey, rs.maxKey, rs.numRadixBits, points, q, first);
    assert q + 1 < Pow2(rs.numRadixBits) ==> TableAt(rs.minKey, rs.maxKey, rs.numRadixBits, points, q + 1, last);
    if u < first {
      PrefixMonotone(rs.minKey, rs.maxKey, rs.numRadixBits, key, points[u].x);
    }
    if last < u {
      PrefixMonotone(rs.minKey, rs.maxKey, rs.numRadixBits, points[last].x, key);
    }
  }

  /** Searching the narrowed range is searching all spline points: the segment found has
      the key inside. */
  lemma NarrowingIsExact(rs: RadixSpline, key: int)
    requires rs.Valid() && Ascending(rs.splinePoints) && |rs.splinePoints| >= 2
    requires TableOk(rs.minKey, rs.maxKey, rs.numRadixBits, rs.splinePoints, rs.radixTable)
    requires rs.splinePoints[0].x < key < rs.splinePoints[|rs.splinePoints| - 1].x
    ensures var range := rs.Narrow(key);
            UpperBound(rs.splinePoints, key, range.0, range.1) == UpperBound(rs.splinePoints, key, 0, |rs.splinePoints|)
    ensures var idx := rs.GetSplineSegment(key);
            && idx == UpperBound(rs.splinePoints, key, 0, |rs.splinePoints|) - 1
            && rs.splinePoints[idx].x <= key < rs.splinePoints[idx + 1].x
  {
    var n := |rs.splinePoints|;
    var u := UpperBound(rs.splinePoints, key, 0, n);
    hide UpperBound, TableOk, Pow2;
    assert 1 <= u <= n - 1;
    BoundBetweenEntries(rs, key, u);
    var range := rs.Narrow(key);
    assert range.0 <= u <= range.1;
    NarrowedSame(rs.splinePoints, key, range.0, range.1, u);
  }
}
