/** Group-at-a-time lookups over the index: all queries of a group walk the levels and then
    share a fixed number of interleaved halvings. */
module PgmGroups {
  import opened SortedSeq
  import opened PgmLevel
  import opened PgmIndex
  import opened BatchSearch
  import opened PgmLookup
  import opened PgmAmac

  /** A present key's rank is in the lane's window, which is short enough for the halvings
      left. Nothing is known about the window of an absent key. */
  ghost predicate LaneOk(keys: seq<int>, q: int, lo: int, hi: int, w: nat)
    requires Sorted(keys)
  {
    0 <= lo && hi <= |keys| && (q in keys ==> lo <= Rank(keys, q) <= hi && hi - lo < w)
  }

  ghost predicate LanesOk(keys: seq<int>, queries: seq<int>, start: nat, n: nat, lo: seq<int>, hi: seq<int>, w: nat)
    requires Sorted(keys)
  {
    && n <= |lo| && n <= |hi| && start + n <= |queries|
    && forall i :: 0 <= i < n ==> LaneOk(keys, queries[start + i], lo[i], hi[i], w)
  }

  /** Phase 1: the inner levels, only to learn where to look next. */
  method WalkLevels(index: PGMIndex, queries: seq<int>, start: nat, n: nat, approxPos: array<int>)
    requires index.Built() && n <= approxPos.Length && start + n <= |queries|
    modifies approxPos
  {
    hide LevelOk;
    Heights(index);
    var l := |index.levelsOffsets| - 2;
    while l >= 1
      invariant l + 1 < |index.levelsOffsets|
    {
      var i := 0;
      while i < n {
        approxPos[i] := LevelPosition(index, l, queries[start + i]);
        i := i + 1;
      }
      l := l - 1;
    }
  }

  /** Phase 1.5: the window of every query, straight from its bottom segment. */
  method BottomWindows(pgm: PGMWrapper, queries: seq<int>, start: nat, n: nat, lo: array<int>, hi: array<int>,
      ghost w: nat)
    requires pgm.Ready() && lo != hi && n <= lo.Length && n <= hi.Length && start + n <= |queries|
    requires w > 2 * pgm.index.epsilon + 2
    modifies lo, hi
    ensures LanesOk(pgm.keys, queries, start, n, lo[..], hi[..], w)
  {
    hide Rank;
    Heights(pgm.index);
    var eps, dataSize := pgm.index.epsilon, |pgm.keys|;
    var i := 0;
    while i < n
      invariant 0 <= i <= n
      invariant forall j :: 0 <= j < i ==> LaneOk(pgm.keys, queries[start + j], lo[j], hi[j], w)
    {
      var key := queries[start + i];
      var pos := LevelPosition(pgm.index, 0, key);
      RankBelowSize(pgm.keys, key);
      lo[i] := if pos < eps then 0 else pos - eps;
      hi[i] := Min(pos + eps + 2, dataSize);
      i := i + 1;
    }
  }

  /** Phase 2, one step: every lane of the group halves its window once. */
  method HalveGroup(keys: seq<int>, queries: seq<int>, start: nat, n: nat, lo: array<int>, hi: array<int>, ghost w: nat)
    requires Sorted(keys) && lo != hi && w > 0 && n <= lo.Length && n <= hi.Length
    requires LanesOk(keys, queries, start, n, lo[..], hi[..], 2 * w)
    modifies lo, hi
    ensures LanesOk(keys, queries, start, n, lo[..], hi[..], w)
  {
    hide Rank;
    var i := 0;
    while i < n
      invariant 0 <= i <= n
      invariant forall j :: 0 <= j < i ==> LaneOk(keys, queries[start + j], lo[j], hi[j], w)
      invariant forall j :: i <= j < n ==> LaneOk(keys, queries[start + j], lo[j], hi[j], 2 * w)
    {
      var key := queries[start + i];
      if lo[i] < hi[i] {
        var mid := (lo[i] + hi[i]) / 2;
        if key in keys { HalveKeepsRank(keys, key, lo[i], hi[i]); }
        if key <= keys[mid] { hi[i] := mid; } else { lo[i] := mid + 1; }
      }
      i := i + 1;
    }
  }

  /** Phase 2: a fixed number of steps leaves a present key's rank as its window. */
  method Steps(keys: seq<int>, queries: seq<int>, start: nat, n: nat, lo: array<int>, hi: array<int>, steps: nat)
    requires Sorted(keys) && lo != hi && n <= lo.Length && n <= hi.Length
    requires LanesOk(keys, queries, start, n, lo[..], hi[..], Pow2(steps))
    modifies lo, hi
    ensures LanesOk(keys, queries, start, n, lo[..], hi[..], 1)
  {
    hide LanesOk;
    for step := 0 to steps
      invariant LanesOk(keys, queries, start, n, lo[..], hi[..], Pow2(steps - step))
    {
      HalveGroup(keys, queries, start, n, lo, hi, Pow2(steps - step - 1));
    }
  }

  /** Phase 3: one comparison per query. */
  method Collect(keys: seq<int>, values: seq<int>, queries: seq<int>, ghost base: seq<int>, start: nat, n: nat,
      slots: array<int>, ghost hi: seq<int>, found0: seq<bool>, results0: seq<int>)
      returns (found: seq<bool>, results: seq<int>)
    requires Sorted(keys) && |values| == |keys| && n <= slots.Length
    requires LanesOk(keys, queries, start, n, slots[..], hi, 1)
    requires |found0| == |results0| == |base| == |queries|
    requires forall j :: 0 <= j < start ==> Answered(keys, values, queries, base, found0, results0, j)
    requires forall j :: start <= j < |queries| ==> Untouched(queries, base, found0, results0, j)
    ensures |found| == |results| == |queries|
    ensures forall j :: 0 <= j < start + n ==> Answered(keys, values, queries, base, found, results, j)
    ensures forall j :: start + n <= j < |queries| ==> Untouched(queries, base, found, results, j)
  {
    hide Rank;
    found, results := found0, results0;
    var i := 0;
    while i < n
      invariant 0 <= i <= n && |found| == |results| == |queries|
      invariant forall j :: 0 <= j < start + i ==> Answered(keys, values, queries, base, found, results, j)
      invariant forall j :: start + i <= j < |queries| ==> Untouched(queries, base, found, results, j)
    {
      var idx := start + i;
      var slot := slots[i];
      assert LaneOk(keys, queries[start + i], slots[..][i], hi[i], 1);
      ghost var f0, r0 := found, results;
      if slot < |keys| && queries[idx] == keys[slot] {
        results := results[idx := values[slot]];
        found := found[idx := true];
      } else {
        found := found[idx := false];
      }
      Recorded(keys, values, queries, base, f0, r0, found, results, idx, slot);
      i := i + 1;
    }
  }

  /** Grouped lookup, for any group size and any query, also below the first key. */
  method GroupBatchLookup(pgm: PGMWrapper, groupSize: nat, queries: seq<int>, results0: seq<int>)
      returns (found: seq<bool>, results: seq<int>)
    requires groupSize >= 1 && |pgm.values| == |pgm.keys| && Sorted(pgm.keys)
    requires |pgm.keys| > 0 ==> pgm.Ready()
    ensures BatchAnswered(pgm.keys, pgm.values, queries, Resized(results0, |queries|), found, results)
  {
    hide Rank, LanesOk, Answer;
    found := seq(|queries|, _ => false);
    results := Resized(results0, |queries|);
    ghost var base := results;
    if |pgm.keys| == 0 || |queries| == 0 {
      NothingAsked(pgm.keys, pgm.values, queries, base);
      return;
    }
    var steps := CalcSteps(2 * pgm.index.epsilon + 2);
    var approxPos, lo, hi := new int[groupSize], new int[groupSize], new int[groupSize];
    var start := 0;
    while start < |queries|
      invariant |found| == |results| == |queries|
      invariant forall j :: 0 <= j < start && j < |queries| ==>
                  Answered(pgm.keys, pgm.values, queries, base, found, results, j)
      invariant forall j :: start <= j < |queries| ==> Untouched(queries, base, found, results, j)
    {
      var n := Min(groupSize, |queries| - start);
      WalkLevels(pgm.index, queries, start, n, approxPos);
      BottomWindows(pgm, queries, start, n, lo, hi, Pow2(steps));
      Steps(pgm.keys, queries, start, n, lo, hi, steps);
      found, results := Collect(pgm.keys, pgm.values, queries, base, start, n, lo, hi[..], found, results);
      start := start + groupSize;
    }
  }
}
