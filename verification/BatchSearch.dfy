/** What every batched lookup must compute, the binary search all of them interleave, and
    the number of halvings that is always enough. */
module BatchSearch {
  import opened SortedSeq

  /** results.resize(n): truncate or pad with zeros. */
  function Resized(results: seq<int>, n: nat): (r: seq<int>)
    ensures |r| == n
    ensures forall i :: 0 <= i < n ==> r[i] == if i < |results| then results[i] else 0
  {
    seq(n, i requires 0 <= i < n => if i < |results| then results[i] else 0)
  }

  /** The right answer to one query: membership, and the value of the first occurrence;
      the result of a missing key is left as it was. */
  ghost predicate Answer(keys: seq<int>, values: seq<int>, q: int, base: int, f: bool, v: int)
    requires Sorted(keys) && |values| == |keys|
  {
    if q in keys then f && Rank(keys, q) < |keys| && v == values[Rank(keys, q)] else !f && v == base
  }

  ghost predicate Answered(keys: seq<int>, values: seq<int>, queries: seq<int>, base: seq<int>,
                           found: seq<bool>, results: seq<int>, i: int)
    requires Sorted(keys) && |values| == |keys|
  {
    && 0 <= i < |queries| && |found| == |results| == |base| == |queries|
    && Answer(keys, values, queries[i], base[i], found[i], results[i])
  }

  ghost predicate Untouched(queries: seq<int>, base: seq<int>, found: seq<bool>, results: seq<int>, i: int) {
    && 0 <= i < |queries| && |found| == |results| == |base| == |queries|
    && !found[i] && results[i] == base[i]
  }

  /** The answer to a whole batch. */
  ghost predicate BatchAnswered(keys: seq<int>, values: seq<int>, queries: seq<int>, base: seq<int>,
                                found: seq<bool>, results: seq<int>)
    requires Sorted(keys) && |values| == |keys|
  {
    && |found| == |results| == |base| == |queries|
    && forall i :: 0 <= i < |queries| ==> Answered(keys, values, queries, base, found, results, i)
  }

  /** Two batches with the right answers agree everywhere. */
  lemma BatchUnique(keys: seq<int>, values: seq<int>, queries: seq<int>, base: seq<int>,
                    f: seq<bool>, r: seq<int>, g: seq<bool>, s: seq<int>)
    requires Sorted(keys) && |values| == |keys|
    requires BatchAnswered(keys, values, queries, base, f, r) && BatchAnswered(keys, values, queries, base, g, s)
    ensures f == g && r == s
  {
    forall i | 0 <= i < |queries| ensures f[i] == g[i] && r[i] == s[i] {
      assert Answered(keys, values, queries, base, f, r, i) && Answered(keys, values, queries, base, g, s, i);
    }
  }

  // ---- One halving ----

  /** One binary-search step; an empty range stays. */
  function Halve(keys: seq<int>, k: int, lo: int, hi: int): (r: (int, int))
    requires 0 <= lo <= hi <= |keys|
    ensures lo <= r.0 <= r.1 <= hi
    ensures r.1 - r.0 <= (hi - lo) / 2
  {
    if lo < hi then
      var mid := (lo + hi) / 2;
      if k <= keys[mid] then (lo, mid) else (mid + 1, hi)
    else (lo, hi)
  }

  /** Halving never loses the rank. */
  lemma HalveKeepsRank(keys: seq<int>, k: int, lo: int, hi: int)
    requires Sorted(keys) && 0 <= lo <= Rank(keys, k) <= hi <= |keys|
    ensures Halve(keys, k, lo, hi).0 <= Rank(keys, k) <= Halve(keys, k, lo, hi).1
  {}

  function Pow2(n: nat): (r: nat)
    ensures r > 0
  {
    if n == 0 then 1 else 2 * Pow2(n - 1)
  }

  /** Halvings that empty any range of at most maxRange entries; one fewer would not. */
  method CalcSteps(maxRange: nat) returns (steps: nat)
    ensures Pow2(steps) > maxRange && (steps > 0 ==> Pow2(steps - 1) <= maxRange)
  {
    steps := 0;
    var capacity := 1;
    while capacity <= maxRange
      invariant capacity == Pow2(steps)
      invariant steps > 0 ==> Pow2(steps - 1) <= maxRange
      decreases maxRange - capacity
    {
      capacity := capacity * 2;
      steps := steps + 1;
    }
  }

  /** The plain binary search. */
  method FindLower(keys: seq<int>, k: int, lo: int, hi: int) returns (slot: int)
    requires Sorted(keys) && 0 <= lo <= Rank(keys, k) <= hi <= |keys|
    ensures slot == Rank(keys, k)
  {
    var a, b := lo, hi;
    while a < b
      invariant 0 <= a <= Rank(keys, k) <= b <= |keys|
    {
      var mid := (a + b) / 2;
      if k <= keys[mid] { b := mid; } else { a := mid + 1; }
    }
    slot := a;
  }

  /** Comparing the key at the rank decides membership. */
  lemma RankDecides(keys: seq<int>, k: int)
    requires Sorted(keys)
    ensures k in keys <==> Rank(keys, k) < |keys| && keys[Rank(keys, k)] == k
  {
    var r := Rank(keys, k);
    if k in keys {
      var i :| 0 <= i < |keys| && keys[i] == k;
      assert r <= i;
    }
  }
}
