/** Sorted key sequences and the lower-bound rank every index is measured against. */
module SortedSeq {

  predicate Sorted(e: seq<int>) {
    forall i, j :: 0 <= i < j < |e| ==> e[i] <= e[j]
  }

  predicate Increasing(e: seq<int>) {
    forall i, j :: 0 <= i < j < |e| ==> e[i] < e[j]
  }

  /** r separates the entries below k from the others. */
  predicate IsRank(e: seq<int>, k: int, r: int) {
    && 0 <= r <= |e|
    && (forall i :: 0 <= i < r ==> e[i] < k)
    && (forall i :: r <= i < |e| ==> k <= e[i])
  }

  /** The position a lower-bound search over the whole sequence ends on. */
  function Rank(e: seq<int>, k: int): (r: nat)
    requires Sorted(e)
    ensures IsRank(e, k, r)
  {
    if |e| == 0 then 0
    else if e[|e| - 1] < k then |e|
    else Rank(e[..|e| - 1], k)
  }

  lemma RankIs(e: seq<int>, k: int, r: int)
    requires Sorted(e) && IsRank(e, k, r)
    ensures Rank(e, k) == r
  {
    var q := Rank(e, k);
    var atR := if r < |e| then e[r] else k;
    var atQ := if q < |e| then e[q] else k;
  }
}
