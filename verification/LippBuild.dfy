/** Bulk building: the slope a node gets, how sorted keys fall into its slots, and why
    every child is built over fewer keys. */
module LippBuild {
  import opened SortedSeq
  import opened LippModel
  import opened LippMaps
  import opened LippNode

  /** The first and the last key go to different slots. */
  predicate Separates(m: LinearModel, numItems: int, keys: seq<int>)
    requires |keys| > 0
  {
    numItems >= 1 && m.a > 0.0 && PredictPos(m, numItems, keys[0]) < PredictPos(m, numItems, keys[|keys| - 1])
  }

  lemma SplitSeparates(keys: seq<int>, fraction: real)
    requires Increasing(keys) && |keys| >= 3 && fraction >= 0.0
    requires NumItems(|keys|, fraction) <= INT_MAX
    ensures Separates(SplitModel(keys, GapCount(|keys|), Remains(|keys|, fraction)), NumItems(|keys|, fraction), keys)
  {
    hide SplitModel, Target, Mid1, Mid2, GapCount, PredictPos;
    var n, gap, rem := |keys|, GapCount(|keys|), Remains(|keys|, fraction);
    MidsOrdered(n);
    GapPositive(n);
    SplitMeetsTargets(keys, gap, rem);
    TargetsInRange(n, gap, rem);
    SplitSides(keys, fraction, Mid1(n), 0, n - 1);
  }

  /** Both targets lie inside the node; the first in its lower half. */
  lemma TargetsInRange(n: int, gap: int, rem: int)
    requires n >= 3 && gap >= 1 && rem >= 0 && n * (gap + 1) + 2 * rem <= INT_MAX
    ensures 1 <= Target(Mid1(n), gap) + rem < Target(Mid2(n), gap) + rem < n * (gap + 1) + 2 * rem - 1
    ensures Target(Mid1(n), gap) + rem <= INT_HALF
  {
    MidsOrdered(n);
    TargetsOrdered(Mid1(n), Mid2(n), gap);
    var g, p, q := gap + 1, Mid1(n), Mid2(n);
    assert n * g == q * g + (n - q) * g;
    AtLeastTwice(n - q, g);
    TwiceRest(n, p, g);
    AtLeastOnce(n - 2 * p, g);
  }

  lemma TwiceRest(n: int, p: int, g: int)
    ensures 2 * (p * g) + (n - 2 * p) * g == n * g
  {
    calc {
      (n - 2 * p) * g;
      n * g - 2 * p * g;
    }
  }

  lemma AtLeastTwice(c: int, d: int)
    requires c >= 2 && d >= 0
    ensures c * d >= 2 * d
  {
    assert (c - 2) * d >= 0;
  }

  /** The slope of the least accepted degree, or the three-way split if there is none. */
  ghost predicate FmcdChoice(keys: seq<int>, fraction: real, m: LinearModel)
    requires Increasing(keys) && |keys| >= 3 && fraction >= 0.0
  {
    var gap, remains := GapCount(|keys|), Remains(|keys|, fraction);
    var l := |keys| * (gap + 1);
    && l > 2
    && ((exists d :: LeastAccepted(keys, l, d) && Unit(keys, l, d) > 0.0
                     && m == FmcdModel(keys, l, d, Unit(keys, l, d), remains))
        || ((forall d :: 1 <= d && d * 3 <= |keys| ==> !Accepts(keys, l, d)) && m == SplitModel(keys, gap, remains)))
  }

  /** The model of the FMCD builder: the search's slope if it succeeds, else the split. */
  method ChooseFmcd(keys: seq<int>, fraction: real) returns (m: LinearModel, numItems: int)
    requires Increasing(keys) && |keys| >= 3 && fraction >= 0.0 && NumItems(|keys|, fraction) <= INT_MAX
    ensures numItems == NumItems(|keys|, fraction) && Separates(m, numItems, keys)
    ensures FmcdChoice(keys, fraction, m)
  {
    hide LeastAccepted, Accepts, Unit, Wide, FmcdModel, SplitModel, Separates, FmcdChoice;
    var size := |keys|;
    var gap, remains := GapCount(size), Remains(size, fraction);
    var l := size * (gap + 1);
    var d, ut := FmcdSearch(keys, l);
    if d * 3 <= size {
      Found(keys, fraction, d);
      m := FmcdModel(keys, l, d, ut, remains);
    } else {
      m := SplitModel(keys, gap, remains);
      SplitSeparates(keys, fraction);
      NotFound(keys, fraction);
    }
    numItems := l + 2 * remains;
  }

  lemma Found(keys: seq<int>, fraction: real, d: int)
    requires Increasing(keys) && |keys| >= 3 && fraction >= 0.0 && NumItems(|keys|, fraction) <= INT_MAX
    requires var l := |keys| * (GapCount(|keys|) + 1);
             l > 2 && LeastAccepted(keys, l, d) && (keys[d] - keys[0]) as real >= Unit(keys, l, d)
    ensures Unit(keys, |keys| * (GapCount(|keys|) + 1), d) > 0.0
    ensures var l := |keys| * (GapCount(|keys|) + 1);
            var m := FmcdModel(keys, l, d, Unit(keys, l, d), Remains(|keys|, fraction));
            Separates(m, NumItems(|keys|, fraction), keys) && FmcdChoice(keys, fraction, m)
  {
    hide Accepts, Unit, FmcdModel, SplitModel, PredictPos, GapCount, Remains;
    var n, l, remains := |keys|, |keys| * (GapCount(|keys|) + 1), Remains(|keys|, fraction);
    FmcdSeparates(keys, l, d, Unit(keys, l, d), remains);
    PredictMonotone(FmcdModel(keys, l, d, Unit(keys, l, d), remains), l + 2 * remains, keys[d], keys[n - 1]);
  }

  lemma NotFound(keys: seq<int>, fraction: real)
    requires Increasing(keys) && |keys| >= 3 && fraction >= 0.0
    requires var l := |keys| * (GapCount(|keys|) + 1);
             l > 2 && forall d :: 1 <= d && d * 3 <= |keys| ==> !Accepts(keys, l, d)
    ensures FmcdChoice(keys, fraction, SplitModel(keys, GapCount(|keys|), Remains(|keys|, fraction)))
  {
    hide Accepts, SplitModel;
  }

  /** The model of the plain builder: always the three-way split. */
  method ChooseSplit(keys: seq<int>, fraction: real) returns (m: LinearModel, numItems: int)
    requires Increasing(keys) && |keys| >= 3 && fraction >= 0.0 && NumItems(|keys|, fraction) <= INT_MAX
    ensures numItems == NumItems(|keys|, fraction) && Separates(m, numItems, keys)
    ensures m == SplitModel(keys, GapCount(|keys|), Remains(|keys|, fraction))
  {
    var size := |keys|;
    var gap, remains := GapCount(size), Remains(size, fraction);
    m := SplitModel(keys, gap, remains);
    SplitSeparates(keys, fraction);
    numItems := size * (gap + 1) + 2 * remains;
  }

  ghost predicate Chosen(keys: seq<int>, fraction: real, useFmcd: bool, m: LinearModel)
    requires Increasing(keys) && |keys| >= 3 && fraction >= 0.0
  {
    if useFmcd then FmcdChoice(keys, fraction, m)
    else m == SplitModel(keys, GapCount(|keys|), Remains(|keys|, fraction))
  }

  method ChooseModel(keys: seq<int>, fraction: real, useFmcd: bool) returns (m: LinearModel, numItems: int)
    requires Increasing(keys) && |keys| >= 3 && fraction >= 0.0 && NumItems(|keys|, fraction) <= INT_MAX
    ensures numItems == NumItems(|keys|, fraction) && Separates(m, numItems, keys) && Chosen(keys, fraction, useFmcd, m)
  {
    hide FmcdChoice, SplitModel, Separates, NumItems;
    if useFmcd {
      m, numItems := ChooseFmcd(keys, fraction);
    } else {
      m, numItems := ChooseSplit(keys, fraction);
    }
  }

  lemma GapPositive(size: int)
    ensures GapCount(size) >= 1
  {}

  /** Keys on the two sides of a middle gap never share a slot. */
  lemma SplitSides(keys: seq<int>, fraction: real, p: nat, i: nat, j: nat)
    requires Increasing(keys) && |keys| >= 3 && fraction >= 0.0 && NumItems(|keys|, fraction) <= INT_MAX
    requires (p == Mid1(|keys|) || p == Mid2(|keys|)) && i <= p < j < |keys|
    requires Target(p, GapCount(|keys|)) + Remains(|keys|, fraction) <= INT_HALF
    ensures var m := SplitModel(keys, GapCount(|keys|), Remains(|keys|, fraction));
            PredictPos(m, NumItems(|keys|, fraction), keys[i]) < PredictPos(m, NumItems(|keys|, fraction), keys[j])
  {
    hide SplitModel, Target, MidKey, Mid1, Mid2, GapCount, PredictPos, Value;
    var n, gap, rem := |keys|, GapCount(|keys|), Remains(|keys|, fraction);
    MidsOrdered(n);
    GapPositive(n);
    MidKeyBetween(keys, p);
    SplitMeetsTargets(keys, gap, rem);
    TargetsInRange(n, gap, rem);
    assert keys[i] <= keys[p] && keys[p + 1] <= keys[j];
    SidesDiffer(SplitModel(keys, gap, rem), NumItems(n, fraction), MidKey(keys, p), Target(p, gap) + rem, keys[i],
        keys[j]);
  }

  // ---- Keys falling into slots ----

  lemma SliceIncreasing(keys: seq<int>, from: nat, to: nat)
    requires Increasing(keys) && from <= to <= |keys|
    ensures Increasing(keys[from..to])
  {}

  /** The map of a slice of the arrays. */
  ghost function SliceMap(keys: seq<int>, values: seq<int>, from: nat, to: nat): Contents
    requires Increasing(keys) && |values| == |keys| && from <= to <= |keys|
  {
    SliceIncreasing(keys, from, to);
    MapOf(keys[from..to], values[from..to])
  }

  lemma SliceElements(keys: seq<int>, values: seq<int>, from: nat, to: nat)
    requires Increasing(keys) && |values| == |keys| && from <= to <= |keys|
    ensures forall k :: k in SliceMap(keys, values, from, to) <==> k in keys[from..to]
    ensures forall j :: 0 <= j < to - from ==>
              keys[from..to][j] in SliceMap(keys, values, from, to)
              && SliceMap(keys, values, from, to)[keys[from..to][j]] == values[from..to][j]
  {
    SliceIncreasing(keys, from, to);
  }

  lemma SliceHas(keys: seq<int>, values: seq<int>, from: nat, to: nat, i: nat)
    requires Increasing(keys) && |values| == |keys| && from <= i < to <= |keys|
    ensures keys[i] in SliceMap(keys, values, from, to) && SliceMap(keys, values, from, to)[keys[i]] == values[i]
  {
    hide Increasing, SliceMap;
    SliceElements(keys, values, from, to);
    assert keys[from..to][i - from] == keys[i] && values[from..to][i - from] == values[i];
  }

  lemma SliceIndex(keys: seq<int>, values: seq<int>, from: nat, to: nat, k: int) returns (i: nat)
    requires Increasing(keys) && |values| == |keys| && from <= to <= |keys| && k in SliceMap(keys, values, from, to)
    ensures from <= i < to && keys[i] == k && SliceMap(keys, values, from, to)[k] == values[i]
  {
    hide Increasing, SliceMap;
    SliceElements(keys, values, from, to);
    i := IndexIn(keys, from, to, k);
    SliceHas(keys, values, from, to, i);
  }

  lemma IndexIn(keys: seq<int>, from: nat, to: nat, k: int) returns (i: nat)
    requires from <= to <= |keys| && k in keys[from..to]
    ensures from <= i < to && keys[i] == k
  {
    i :| from <= i < to && keys[i] == k;
  }

  /** A maximal group of keys sharing a slot is that slot's part; the other parts stay. */
  lemma GroupPart(keys: seq<int>, values: seq<int>, m: LinearModel, n: nat, offset: nat, next: nat, item: int)
    requires Increasing(keys) && |values| == |keys| && n >= 1 && offset < next <= |keys|
    requires forall j :: 0 <= j < offset ==> PredictPos(m, n, keys[j]) < item
    requires forall j :: offset <= j < next ==> PredictPos(m, n, keys[j]) == item
    ensures Part(SliceMap(keys, values, 0, next), m, n, item) == SliceMap(keys, values, offset, next)
    ensures forall i :: i != item ==>
              Part(SliceMap(keys, values, 0, next), m, n, i) == Part(SliceMap(keys, values, 0, offset), m, n, i)
  {
    hide PredictPos, Increasing, SliceMap;
    var a, b, g := SliceMap(keys, values, 0, offset), SliceMap(keys, values, 0, next),
        SliceMap(keys, values, offset, next);
    forall k
      ensures k in b <==> k in a || k in g
      ensures k in a ==> PredictPos(m, n, k) < item && a[k] == b[k]
      ensures k in g ==> PredictPos(m, n, k) == item && g[k] == b[k]
    {
      if k in a {
        var i := SliceIndex(keys, values, 0, offset, k);
        SliceHas(keys, values, 0, next, i);
      }
      if k in g {
        var i := SliceIndex(keys, values, offset, next, k);
        SliceHas(keys, values, 0, next, i);
      }
      if k in b {
        var i := SliceIndex(keys, values, 0, next, k);
        if i < offset { SliceHas(keys, values, 0, offset, i); } else { SliceHas(keys, values, offset, next, i); }
      }
    }
    PartOfUnion(a, b, g, m, n, item);
  }

  lemma PartOfUnion(a: Contents, b: Contents, g: Contents, m: LinearModel, n: nat, item: int)
    requires n >= 1
    requires forall k :: k in b <==> k in a || k in g
    requires forall k :: k in a ==> PredictPos(m, n, k) < item && a[k] == b[k]
    requires forall k :: k in g ==> PredictPos(m, n, k) == item && g[k] == b[k]
    ensures Part(b, m, n, item) == g
    ensures forall i :: i != item ==> Part(b, m, n, i) == Part(a, m, n, i)
  {
    hide PredictPos;
    forall i | i != item ensures Part(b, m, n, i) == Part(a, m, n, i) {
      assert forall k :: k in Part(b, m, n, i) <==> k in Part(a, m, n, i);
    }
    assert forall k :: k in Part(b, m, n, item) <==> k in g;
  }

  lemma SingleMap(k: int, v: int)
    ensures MapOf([k], [v]) == map[k := v]
  {
    assert k in [k];
  }
}
