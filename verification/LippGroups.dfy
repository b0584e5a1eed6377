/** How many keys may share a slot of a freshly built node: the bound of a third that the
    builders aim at, and when the guard on large predictions breaks it. */
module LippGroups {
  import opened SortedSeq
  import opened LippModel
  import opened LippBuild

  /** No c + 1 keys in a row share a slot. */
  ghost predicate GroupsAtMost(m: LinearModel, numItems: int, keys: seq<int>, c: int)
    requires numItems >= 1
  {
    forall i, j :: 0 <= i <= j < |keys| && PredictPos(m, numItems, keys[i]) == PredictPos(m, numItems, keys[j])
                   ==> j - i + 1 <= c
  }

  /** Everything predicted beyond the guard shares the last slot. */
  lemma BeyondGuard(m: LinearModel, numItems: int, keys: seq<int>, i: nat)
    requires numItems >= 1 && m.a >= 0.0 && Increasing(keys) && i < |keys| && Value(m, keys[i]) > INT_HALF as real
    ensures PredictPos(m, numItems, keys[i]) == PredictPos(m, numItems, keys[|keys| - 1])
  {
    ValueMonotone(m, keys[i], keys[|keys| - 1]);
    hide Value;
  }

  // ---- The three-way split ----

  function Split(keys: seq<int>, fraction: real): LinearModel
    requires Increasing(keys) && |keys| >= 3 && fraction >= 0.0
  {
    SplitModel(keys, GapCount(|keys|), Remains(|keys|, fraction))
  }

  /** Where the split sends its second middle gap. */
  function SecondTarget(size: nat, fraction: real): int
    requires fraction >= 0.0
  {
    Target(Mid2(size), GapCount(size)) + Remains(size, fraction)
  }

  /** The three-way split keeps every group to a third of the keys, rounded up, exactly
      when no more of them are beyond the guard; always when its second target is not. */
  lemma SplitThirds(keys: seq<int>, fraction: real)
    requires Increasing(keys) && |keys| >= 3 && fraction >= 0.0 && NumItems(|keys|, fraction) <= INT_MAX
    ensures NumItems(|keys|, fraction) >= 1
    ensures var n, m := |keys|, Split(keys, fraction);
            GroupsAtMost(m, NumItems(n, fraction), keys, (n + 2) / 3)
            <==> Value(m, keys[n - 1 - (n + 2) / 3]) <= INT_HALF as real
    ensures SecondTarget(|keys|, fraction) <= INT_HALF ==>
              Value(Split(keys, fraction), keys[|keys| - 1 - (|keys| + 2) / 3]) <= INT_HALF as real
  {
    var n, m, items := |keys|, Split(keys, fraction), NumItems(|keys|, fraction);
    SplitSeparates(keys, fraction);
    SecondInside(keys, fraction);
    var t := (n + 2) / 3;
    hide SplitModel, Target, MidKey, Mid1, Mid2, GapCount, PredictPos, Value, Remains, NumItems;
    if Value(m, keys[n - 1 - t]) <= INT_HALF as real {
      forall i, j | 0 <= i <= j < n && PredictPos(m, items, keys[i]) == PredictPos(m, items, keys[j])
        ensures j - i + 1 <= t
      {
        SplitGroup(keys, fraction, i, j);
      }
    } else {
      BeyondGuard(m, items, keys, n - 1 - t);
    }
  }

  /** The last third of the keys starts at or after the second gap. */
  lemma SecondInside(keys: seq<int>, fraction: real)
    requires Increasing(keys) && |keys| >= 3 && fraction >= 0.0
    ensures Value(Split(keys, fraction), keys[|keys| - 1 - (|keys| + 2) / 3]) < SecondTarget(|keys|, fraction) as real
  {
    hide SplitModel, Target, MidKey, GapCount, Value, Remains;
    var n, m, q := |keys|, Split(keys, fraction), Mid2(|keys|);
    MidsOrdered(n);
    GapPositive(n);
    MidKeyBetween(keys, q);
    SplitMeetsTargets(keys, GapCount(n), Remains(n, fraction));
    ValueStrict(m, keys[q], MidKey(keys, q), keys[q + 1]);
    assert n - 1 - (n + 2) / 3 <= q;
    hide Mid2;
    ValueMonotone(m, keys[n - 1 - (n + 2) / 3], keys[q]);
  }

  lemma SplitGroup(keys: seq<int>, fraction: real, i: nat, j: nat)
    requires Increasing(keys) && |keys| >= 3 && fraction >= 0.0 && NumItems(|keys|, fraction) <= INT_MAX
    requires NumItems(|keys|, fraction) >= 1 && i <= j < |keys|
    requires var n, m := |keys|, Split(keys, fraction);
             && Value(m, keys[n - 1 - (n + 2) / 3]) <= INT_HALF as real
             && PredictPos(m, NumItems(n, fraction), keys[i]) == PredictPos(m, NumItems(n, fraction), keys[j])
    ensures j - i + 1 <= (|keys| + 2) / 3
  {
    hide SplitModel, Target, MidKey, Mid1, Mid2, GapCount, PredictPos, Value;
    var n, gap, rem := |keys|, GapCount(|keys|), Remains(|keys|, fraction);
    var p, q := Mid1(n), Mid2(n);
    MidsOrdered(n);
    GapPositive(n);
    TargetsInRange(n, gap, rem);
    if i <= p < j { SplitSides(keys, fraction, p, i, j); }
    if i <= q < j {
      if SecondTarget(n, fraction) <= INT_HALF {
        SplitSides(keys, fraction, q, i, j);
      } else {
        BeyondSecond(keys, fraction, i, j);
      }
    }
  }

  /** With the second target beyond the guard, a group that reaches past the second gap is
      the last slot's: the keys beyond the guard. */
  lemma BeyondSecond(keys: seq<int>, fraction: real, i: nat, j: nat)
    requires Increasing(keys) && |keys| >= 3 && fraction >= 0.0 && NumItems(|keys|, fraction) <= INT_MAX
    requires NumItems(|keys|, fraction) >= 1 && i <= Mid2(|keys|) < j < |keys|
             && SecondTarget(|keys|, fraction) > INT_HALF
    requires var n, m := |keys|, Split(keys, fraction);
             && Value(m, keys[n - 1 - (n + 2) / 3]) <= INT_HALF as real
             && PredictPos(m, NumItems(n, fraction), keys[i]) == PredictPos(m, NumItems(n, fraction), keys[j])
    ensures i > |keys| - 1 - (|keys| + 2) / 3
  {
    hide SplitModel, Target, MidKey, Mid1, GapCount, Mid2, PredictPos, Value, Remains;
    var n, gap, rem := |keys|, GapCount(|keys|), Remains(|keys|, fraction);
    var m, items, q, t := Split(keys, fraction), NumItems(n, fraction), Mid2(n), n - 1 - (n + 2) / 3;
    MidsOrdered(n);
    GapPositive(n);
    MidKeyBetween(keys, q);
    SplitMeetsTargets(keys, gap, rem);
    TargetsInRange(n, gap, rem);
    ValueStrict(m, keys[q], MidKey(keys, q), keys[q + 1]);
    ValueMonotone(m, keys[q + 1], keys[j]);
    if i <= t {
      ValueMonotone(m, keys[i], keys[t]);
      GuardSplits(m, items, keys[i], keys[j]);
    }
  }

  lemma GuardSplits(m: LinearModel, items: int, k: int, l: int)
    requires items >= 1 && items - 1 > INT_HALF
    requires Value(m, k) <= INT_HALF as real && Value(m, l) > INT_HALF as real
    ensures PredictPos(m, items, k) < PredictPos(m, items, l)
  {
    hide Value;
  }

  // ---- A split that breaks the bound ----

  const BILLION: nat := 1_000_000_000

  /** A billion keys, a third of them followed by a gap of two billion. */
  function WideGapKeys(): (keys: seq<int>)
    ensures |keys| == BILLION && Increasing(keys)
    ensures forall i :: 0 <= i < BILLION ==> keys[i] == if i <= 333_333_333 then i else 2_000_000_000 + i
  {
    seq(BILLION, i requires 0 <= i < BILLION => if i <= 333_333_333 then i else 2_000_000_000 + i)
  }

  lemma SplitThirdsMissed()
    ensures NumItems(BILLION, 0.0) == 2 * BILLION
    ensures !GroupsAtMost(Split(WideGapKeys(), 0.0), 2 * BILLION, WideGapKeys(), (BILLION + 2) / 3)
  {
    hide WideGapKeys;
    var keys := WideGapKeys();
    var m := Split(keys, 0.0);
    assert SecondTarget(BILLION, 0.0) == 1333333333;
    SplitThirds(keys, 0.0);
    assert m.a == 666666666.0 / 1333333333.0;
    assert Value(m, keys[666666665]) > INT_HALF as real;
  }

  // ---- The FMCD search ----

  /** Where the model of a search sends the last window: inside the node, and when slots
      are not too many for the degree, less than d keys short of its last slot. */
  lemma FmcdTop(keys: seq<int>, l: int, d: int, remains: int)
    requires Increasing(keys) && 1 <= d <= |keys| - 1 - d && l > 2 && remains >= 0
    ensures Unit(keys, l, d) > 0.0
    ensures var m, top := FmcdModel(keys, l, d, Unit(keys, l, d), remains), keys[|keys| - 1 - d];
            && m.a > 0.0
            && Value(m, top) < (l - 1 + remains) as real
            && ((l - 2) as real * TINY <= 2.0 * d as real ==>
                 Value(m, top) >= (l - 1 + remains) as real - m.a * d as real)
  {}

  /** Keys at least d apart are that many slopes apart. */
  lemma ApartBy(m: LinearModel, k: int, j: int, d: int)
    requires m.a > 0.0 && j - k >= d
    ensures Value(m, j) >= Value(m, k) + m.a * d as real
  {
    var gap := (j - k) as real;
    MulMono(m.a, d as real, gap);
    assert m.a * j as real == m.a * k as real + m.a * gap by { assert j as real == k as real + gap; }
  }

  lemma WindowApart(keys: seq<int>, l: int, d: int, remains: int, i: nat)
    requires 1 <= d <= |keys| - 1 - d && l > 2 && Unit(keys, l, d) > 0.0 && i + d < |keys|
    requires WideAt(keys, d, Unit(keys, l, d), i)
    ensures var m := FmcdModel(keys, l, d, Unit(keys, l, d), remains);
            Value(m, keys[i + d]) >= Value(m, keys[i]) + 1.0
  {
    var ut := Unit(keys, l, d);
    var m := FmcdModel(keys, l, d, ut, remains);
    var x, gap := keys[i] as real, (keys[i + d] - keys[i]) as real;
    assert m.a * ut == 1.0;
    MulMono(m.a, ut, gap);
    hide Unit;
    assert m.a * keys[i + d] as real == m.a * x + m.a * gap by { assert keys[i + d] as real == x + gap; }
  }

  /** Values a slot apart share a slot only at one of the node's ends. */
  lemma SharedAtEnds(m: LinearModel, items: int, k: int, l: int)
    requires items >= 2 && Value(m, l) >= Value(m, k) + 1.0
    requires PredictPos(m, items, k) == PredictPos(m, items, l)
    ensures Value(m, l) < 1.0 || Value(m, k) > INT_HALF as real || Value(m, k) >= (items - 1) as real
  {
    hide Value;
    var v, w := Value(m, k), Value(m, l);
    assert v.Floor as real <= v && w < w.Floor as real + 1.0;
  }

  /** Values on the two sides of a whole slot number inside the node differ in slot. */
  lemma SlotBoundary(m: LinearModel, items: int, k: int, l: int, t: int)
    requires 1 <= t <= items - 1 && Value(m, k) < t as real <= Value(m, l) && Value(m, k) <= INT_HALF as real
    ensures PredictPos(m, items, k) < PredictPos(m, items, l)
  {
    hide Value;
    FloorSides(Value(m, k), Value(m, l), t);
  }

  lemma FloorSides(v: real, w: real, t: int)
    requires v < t as real <= w
    ensures v.Floor < t <= w.Floor
  {
    assert v.Floor as real <= v && w < w.Floor as real + 1.0;
  }

  /** The last window is wide, or slots are not too many for the degree. */
  ghost predicate LastApart(keys: seq<int>, l: int, d: int)
    requires 1 <= d <= |keys| - 1 - d && l > 2
  {
    AllWide(keys, l, d) || (l - 2) as real * TINY <= 2.0 * d as real
  }

  /** After a successful search of degree d no slot gets more than t keys exactly when no
      more than t are beyond the guard, for every t above d, and for d itself where the
      last window's ends are apart. */
  lemma FmcdGroups(keys: seq<int>, l: int, d: int, remains: int, t: int)
    requires Increasing(keys) && 1 <= d <= |keys| - 1 - d && l > 2 && remains >= 0
    requires Wide(keys, d, Unit(keys, l, d), |keys| - 1 - d)
    requires d <= t < |keys| && (t > d || LastApart(keys, l, d))
    ensures Unit(keys, l, d) > 0.0
    ensures var n, m := |keys|, FmcdModel(keys, l, d, Unit(keys, l, d), remains);
            GroupsAtMost(m, l + 2 * remains, keys, t) <==> Value(m, keys[n - 1 - t]) <= INT_HALF as real
  {
    FmcdTop(keys, l, d, remains);
    var n, m, items := |keys|, FmcdModel(keys, l, d, Unit(keys, l, d), remains), l + 2 * remains;
    hide Unit, Value, PredictPos, FmcdModel, LastApart, Wide;
    if Value(m, keys[n - 1 - t]) <= INT_HALF as real {
      forall i, j | 0 <= i <= j < n && PredictPos(m, items, keys[i]) == PredictPos(m, items, keys[j])
        ensures j - i + 1 <= t
      {
        if j - i >= t { FmcdGroup(keys, l, d, remains, t, i, j); }
      }
    } else {
      BeyondGuard(m, items, keys, n - 1 - t);
    }
  }

  /** No group of more than t keys starts below the guard. */
  lemma FmcdGroup(keys: seq<int>, l: int, d: int, remains: int, t: int, i: nat, j: nat)
    requires Increasing(keys) && 1 <= d <= |keys| - 1 - d && l > 2 && remains >= 0
    requires Wide(keys, d, Unit(keys, l, d), |keys| - 1 - d) && Unit(keys, l, d) > 0.0
    requires d <= t && i + t <= j < |keys| && (t > d || LastApart(keys, l, d))
    requires Value(FmcdModel(keys, l, d, Unit(keys, l, d), remains), keys[|keys| - 1 - t]) <= INT_HALF as real
    ensures var m := FmcdModel(keys, l, d, Unit(keys, l, d), remains);
            PredictPos(m, l + 2 * remains, keys[i]) != PredictPos(m, l + 2 * remains, keys[j])
  {
    FmcdTop(keys, l, d, remains);
    var n, m := |keys|, FmcdModel(keys, l, d, Unit(keys, l, d), remains);
    hide Unit, Value, PredictPos, FmcdModel;
    ValueMonotone(m, keys[i], keys[n - 1 - t]);
    if WideAt(keys, d, Unit(keys, l, d), i) {
      WideGroup(keys, l, d, remains, i, j);
    } else {
      assert i == n - 1 - d && j == n - 1;
      LastGroup(keys, l, d, remains);
    }
  }

  /** The ends of a wide window differ in slot: the lower one is not at the top of the
      node, the upper one not at its bottom. */
  lemma WideGroup(keys: seq<int>, l: int, d: int, remains: int, i: nat, j: nat)
    requires Increasing(keys) && 1 <= d <= |keys| - 1 - d && l > 2 && remains >= 0
    requires Wide(keys, d, Unit(keys, l, d), |keys| - 1 - d) && Unit(keys, l, d) > 0.0
    requires i + d <= j < |keys| && WideAt(keys, d, Unit(keys, l, d), i)
    requires Value(FmcdModel(keys, l, d, Unit(keys, l, d), remains), keys[i]) <= INT_HALF as real
    ensures var m := FmcdModel(keys, l, d, Unit(keys, l, d), remains);
            PredictPos(m, l + 2 * remains, keys[i]) < PredictPos(m, l + 2 * remains, keys[j])
  {
    var ut := Unit(keys, l, d);
    var n, m, items := |keys|, FmcdModel(keys, l, d, ut, remains), l + 2 * remains;
    assert WideAt(keys, d, ut, 0);
    FmcdTop(keys, l, d, remains);
    FmcdValues(keys, l, d, ut, remains);
    WindowApart(keys, l, d, remains, i);
    hide Unit, Value, PredictPos, FmcdModel, Wide, WideAt;
    assert keys[i] <= keys[n - 1 - d] && keys[d] <= keys[i + d] <= keys[j];
    hide Increasing;
    ValueMonotone(m, keys[i], keys[n - 1 - d]);
    ValueMonotone(m, keys[d], keys[i + d]);
    PredictMonotone(m, items, keys[i], keys[i + d]);
    PredictMonotone(m, items, keys[i + d], keys[j]);
    if PredictPos(m, items, keys[i]) == PredictPos(m, items, keys[i + d]) {
      SharedAtEnds(m, items, keys[i], keys[i + d]);
    }
  }

  lemma LastGroup(keys: seq<int>, l: int, d: int, remains: int)
    requires Increasing(keys) && 1 <= d <= |keys| - 1 - d && l > 2 && remains >= 0
    requires Unit(keys, l, d) > 0.0 && (l - 2) as real * TINY <= 2.0 * d as real
    requires Value(FmcdModel(keys, l, d, Unit(keys, l, d), remains), keys[|keys| - 1 - d]) <= INT_HALF as real
    ensures var m := FmcdModel(keys, l, d, Unit(keys, l, d), remains);
            PredictPos(m, l + 2 * remains, keys[|keys| - 1 - d]) < PredictPos(m, l + 2 * remains, keys[|keys| - 1])
  {
    FmcdTop(keys, l, d, remains);
    KeysApart(keys, |keys| - 1 - d, |keys| - 1);
    hide Unit, Value, PredictPos, FmcdModel, Increasing;
    var n, m := |keys|, FmcdModel(keys, l, d, Unit(keys, l, d), remains);
    ApartBy(m, keys[n - 1 - d], keys[n - 1], d);
    SlotBoundary(m, l + 2 * remains, keys[n - 1 - d], keys[n - 1], l - 1 + remains);
  }

  lemma {:induction false} KeysApart(keys: seq<int>, i: nat, j: nat)
    requires Increasing(keys) && i <= j < |keys|
    ensures keys[j] - keys[i] >= j - i
    decreases j
  {
    if i < j {
      KeysApart(keys, i, j - 1);
      assert keys[j - 1] < keys[j];
    }
  }

  // ---- The bound of a third, for either builder ----

  /** A search keeps every group to a third of the keys exactly when no more of them are
      beyond the guard. */
  lemma FmcdThirds(keys: seq<int>, d: int, remains: int)
    requires Increasing(keys) && |keys| >= 3 && remains >= 0
    requires |keys| * (GapCount(|keys|) + 1) > 2 && LeastAccepted(keys, |keys| * (GapCount(|keys|) + 1), d)
    ensures var l := |keys| * (GapCount(|keys|) + 1); Unit(keys, l, d) > 0.0
    ensures var n, l := |keys|, |keys| * (GapCount(|keys|) + 1);
            var m := FmcdModel(keys, l, d, Unit(keys, l, d), remains);
            GroupsAtMost(m, l + 2 * remains, keys, (n + 2) / 3)
            <==> Value(m, keys[n - 1 - (n + 2) / 3]) <= INT_HALF as real
  {
    var n, l := |keys|, |keys| * (GapCount(|keys|) + 1);
    if (n + 2) / 3 == d { assert l <= 18 * d; }
    hide Unit, Value, FmcdModel, PredictPos, GapCount;
    AcceptedWide(keys, l, d);
    FmcdGroups(keys, l, d, remains, (n + 2) / 3);
  }

  lemma AcceptedWide(keys: seq<int>, l: int, d: int)
    requires Increasing(keys) && 1 <= d <= |keys| - 1 - d && l > 2 && Accepts(keys, l, d)
    ensures Wide(keys, d, Unit(keys, l, d), |keys| - 1 - d)
  {
    if !AllWide(keys, l, d) {
      UnitShrinks(keys, l, d - 1);
      WideGrows(keys, d - 1, Unit(keys, l, d - 1), Unit(keys, l, d), |keys| - 1 - d);
    }
  }

  /** Whichever builder chose the model of a node and whichever branch it took: the bound
      of a third holds exactly when no more than a third of the keys are beyond the guard. */
  lemma Thirds(keys: seq<int>, fraction: real, useFmcd: bool, m: LinearModel)
    requires Increasing(keys) && |keys| >= 3 && fraction >= 0.0 && NumItems(|keys|, fraction) <= INT_MAX
    requires Chosen(keys, fraction, useFmcd, m)
    ensures NumItems(|keys|, fraction) >= 1
    ensures GroupsAtMost(m, NumItems(|keys|, fraction), keys, (|keys| + 2) / 3)
            <==> Value(m, keys[|keys| - 1 - (|keys| + 2) / 3]) <= INT_HALF as real
  {
    hide Unit, Value, FmcdModel, PredictPos, SplitModel, GroupsAtMost, Chosen, Accepts, Target, GapCount, Remains;
    SplitThirds(keys, fraction);
    if m != Split(keys, fraction) {
      var d := SearchSucceeded(keys, fraction, useFmcd, m);
      FmcdThirds(keys, d, Remains(|keys|, fraction));
    }
  }

  lemma SearchSucceeded(keys: seq<int>, fraction: real, useFmcd: bool, m: LinearModel) returns (d: int)
    requires Increasing(keys) && |keys| >= 3 && fraction >= 0.0
    requires Chosen(keys, fraction, useFmcd, m) && m != Split(keys, fraction)
    ensures var l := |keys| * (GapCount(|keys|) + 1);
            && l > 2 && LeastAccepted(keys, l, d) && Unit(keys, l, d) > 0.0
            && m == FmcdModel(keys, l, d, Unit(keys, l, d), Remains(|keys|, fraction))
  {
    hide Unit, FmcdModel, SplitModel, Accepts, GapCount, Remains;
    var l := |keys| * (GapCount(|keys|) + 1);
    d :| LeastAccepted(keys, l, d) && Unit(keys, l, d) > 0.0
         && m == FmcdModel(keys, l, d, Unit(keys, l, d), Remains(|keys|, fraction));
  }

  // ---- A search that breaks the bound ----

  function ConsecutiveKeys(): (keys: seq<int>)
    ensures |keys| == BILLION && Increasing(keys) && forall i :: 0 <= i < BILLION ==> keys[i] == i
  {
    seq(BILLION, i requires 0 <= i < BILLION => i)
  }

  /** The keys from 0 to a billion: the search takes degree 1 at once, with a slope of
      nearly two, and more than a third of the keys are predicted beyond the guard. */
  lemma FmcdThirdsMissed()
    ensures NumItems(BILLION, 0.0) == 2 * BILLION
    ensures LeastAccepted(ConsecutiveKeys(), 2 * BILLION, 1) && Unit(ConsecutiveKeys(), 2 * BILLION, 1) > 0.0
    ensures var keys := ConsecutiveKeys();
            var m := FmcdModel(keys, 2 * BILLION, 1, Unit(keys, 2 * BILLION, 1), 0);
            FmcdChoice(keys, 0.0, m) && !GroupsAtMost(m, 2 * BILLION, keys, (BILLION + 2) / 3)
  {
    hide ConsecutiveKeys;
    var keys, l := ConsecutiveKeys(), 2 * BILLION;
    var ut := Unit(keys, l, 1);
    assert ut == 999_999_997.0 / 1_999_999_998.0 + TINY;
    assert 0.0 < ut < 1.0;
    assert AllWide(keys, l, 1);
    var m := FmcdModel(keys, l, 1, ut, 0);
    assert Remains(BILLION, 0.0) == 0;
    BeyondAThird(m, ut);
    FmcdThirds(keys, 1, 0);
  }

  lemma BeyondAThird(m: LinearModel, ut: real)
    requires 0.0 < ut < 1.0 && m.a == 1.0 / ut
    requires m.b == (2_000_000_000.0 - m.a * (999_999_998.0 + 1.0)) / 2.0 + 0.0
    ensures Value(m, 666_666_665) > INT_HALF as real
  {
    assert m.a * ut == 1.0;
    assert m.a > 1.0;
  }
}
