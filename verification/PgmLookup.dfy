/** The keys and values behind the index, and lookups one at a time: they return the
    answers of the plain sorted array. */
module PgmLookup {
  import opened SortedSeq
  import opened PiecewiseLinearModel
  import opened PgmIndex
  import opened PgmLevel
  import opened BatchSearch

  class PGMWrapper {
    var keys: seq<int>
    var values: seq<int>
    const index: PGMIndex

    constructor (epsilon: nat, epsilonRecursive: nat, sentinel: int)
      ensures keys == [] && values == [] && fresh(index)
      ensures index.epsilon == epsilon && index.epsilonRecursive == epsilonRecursive && index.sentinel == sentinel
      ensures index.segments == [] && index.levelsOffsets == []
    {
      keys, values := [], [];
      index := new PGMIndex(epsilon, epsilonRecursive, sentinel);
    }

    /** Loaded with at least one key. */
    ghost predicate Ready()
      reads this, index
    {
      && |values| == |keys| && Sorted(keys) && index.Built() && index.keys == keys
    }

    /** Loads sorted pairs; fails when the greatest key is the sentinel. */
    method BulkLoad(input: seq<(int, int)>) returns (ok: bool)
      requires keys == [] && values == [] && index.segments == [] && index.levelsOffsets == []
      requires 1 <= index.epsilon
      requires forall i, j :: 0 <= i < j < |input| ==> input[i].0 <= input[j].0
      requires forall i :: 0 <= i < |input| ==> input[i].0 <= index.sentinel
      requires |input| + 1 + index.epsilon + index.epsilonRecursive <= MAX_Y
      modifies this, index
      ensures |keys| == |values| == |input|
      ensures forall i :: 0 <= i < |input| ==> keys[i] == input[i].0 && values[i] == input[i].1
      ensures ok <==> (|input| > 0 ==> input[|input| - 1].0 != index.sentinel)
      ensures ok && |input| > 0 ==> Ready()
    {
      var i := 0;
      while i < |input|
        invariant 0 <= i <= |input| && |keys| == |values| == i
        invariant index.segments == [] && index.levelsOffsets == []
        invariant forall j :: 0 <= j < i ==> keys[j] == input[j].0 && values[j] == input[j].1
      {
        keys, values := keys + [input[i].0], values + [input[i].1];
        i := i + 1;
      }
      ok := index.Build(keys);
    }
  }

  /** One query at a time. */
  method NoPrefetchBatchLookup(pgm: PGMWrapper, queries: seq<int>, results0: seq<int>)
      returns (found: seq<bool>, results: seq<int>)
    requires pgm.Ready()
    requires forall i :: 0 <= i < |queries| ==> queries[i] < pgm.index.sentinel
    ensures BatchAnswered(pgm.keys, pgm.values, queries, Resized(results0, |queries|), found, results)
  {
    hide Rank;
    found := seq(|queries|, _ => false);
    results := Resized(results0, |queries|);
    ghost var base := results;
    var i := 0;
    while i < |queries|
      invariant 0 <= i <= |queries| && |found| == |results| == |base| == |queries|
      invariant forall j :: 0 <= j < i ==> Answered(pgm.keys, pgm.values, queries, base, found, results, j)
      invariant forall j :: i <= j < |queries| ==> Untouched(queries, base, found, results, j)
    {
      var key := queries[i];
      var range := pgm.index.Search(key);
      var hi := Min(range.hi, |pgm.keys|);
      var slot := FindLower(pgm.keys, key, range.lo, hi);
      RankDecides(pgm.keys, key);
      ghost var f0, r0 := found, results;
      if slot < |pgm.keys| && key == pgm.keys[slot] {
        results := results[i := pgm.values[slot]];
        found := found[i := true];
      } else {
        found := found[i := false];
      }
      Recorded(pgm.keys, pgm.values, queries, base, f0, r0, found, results, i, slot);
      i := i + 1;
    }
  }

  /** Writing the outcome at a slot that is the rank of the key, if it is present at all,
      answers that query and disturbs no other. */
  lemma Recorded(keys: seq<int>, values: seq<int>, queries: seq<int>, base: seq<int>,
                 f0: seq<bool>, r0: seq<int>, f1: seq<bool>, r1: seq<int>, q: nat, slot: int)
    requires Sorted(keys) && |values| == |keys| && q < |queries|
    requires |f0| == |r0| == |base| == |queries|
    requires slot >= 0 && (queries[q] in keys ==> slot == Rank(keys, queries[q]))
    requires Untouched(queries, base, f0, r0, q)
    requires if slot < |keys| && queries[q] == keys[slot] then f1 == f0[q := true] && r1 == r0[q := values[slot]]
             else f1 == f0[q := false] && r1 == r0
    ensures Answered(keys, values, queries, base, f1, r1, q)
    ensures forall j :: 0 <= j < |queries| && j != q && Answered(keys, values, queries, base, f0, r0, j)
                        ==> Answered(keys, values, queries, base, f1, r1, j)
    ensures forall j :: 0 <= j < |queries| && j != q && Untouched(queries, base, f0, r0, j)
                        ==> Untouched(queries, base, f1, r1, j)
  {
    RankDecides(keys, queries[q]);
    hide Rank;
  }
}
