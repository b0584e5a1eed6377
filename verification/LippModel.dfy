/** LIPP's slot models in exact arithmetic: prediction, the two-key node, the FMCD search
    for a slope, and the three-way split it falls back on. */
module LippModel {
  import opened SortedSeq

  /** Half the largest int; predictions beyond it go to the last slot. */
  const INT_MAX: int := 2147483647
  const INT_HALF: int := INT_MAX / 2

  datatype LinearModel = LinearModel(a: real, b: real)

  function Value(m: LinearModel, k: int): real { m.a * k as real + m.b }

  /** The slot a key is sent to. */
  function PredictPos(m: LinearModel, numItems: int, k: int): (pos: int)
    requires numItems >= 1
    ensures 0 <= pos < numItems
  {
    var v := Value(m, k);
    if v > INT_HALF as real then numItems - 1
    else if v < 0.0 then 0
    else if numItems - 1 <= v.Floor then numItems - 1 else v.Floor
  }

  /** Inside the node a key goes to the slot its value rounds down to; to the left of it, to
      the first one; to the right of it, or beyond half the largest int, to the last one. */
  lemma SlotIs(m: LinearModel, numItems: int, k: int)
    requires numItems >= 1
    ensures var v, pos := m.a * k as real + m.b, PredictPos(m, numItems, k);
            && (v < 0.0 ==> pos == 0)
            && (v >= (numItems - 1) as real || v > 1073741823.0 ==> pos == numItems - 1)
            && (0.0 <= v <= (numItems - 1) as real && v <= 1073741823.0 ==> pos as real <= v < (pos + 1) as real)
  {
    var v := Value(m, k);
    assert v == m.a * k as real + m.b;
    hide Value;
    FloorIs(v);
  }

  lemma FloorIs(v: real)
    ensures v.Floor as real <= v < (v.Floor + 1) as real
  {}

  lemma MulMono(a: real, x: real, y: real)
    requires a >= 0.0 && x <= y
    ensures a * x <= a * y
  {}

  lemma PredictMonotone(m: LinearModel, numItems: int, k: int, l: int)
    requires numItems >= 1 && m.a >= 0.0 && k <= l
    ensures PredictPos(m, numItems, k) <= PredictPos(m, numItems, l)
  {
    hide Value;
    ValueMonotone(m, k, l);
    FloorMono(Value(m, k), Value(m, l));
  }

  lemma ValueMonotone(m: LinearModel, k: int, l: int)
    requires m.a >= 0.0 && k <= l
    ensures Value(m, k) <= Value(m, l)
  {
    var p, q := m.a * k as real, m.a * l as real;
    assert Value(m, k) == p + m.b && Value(m, l) == q + m.b;
    MulMono(m.a, k as real, l as real);
  }

  lemma FloorMono(v: real, w: real)
    requires v <= w
    ensures v.Floor <= w.Floor
  {
    assert v.Floor as real <= v && w < w.Floor as real + 1.0;
  }

  // ---- Two keys ----

  function TwoModel(k1: int, k2: int): LinearModel
    requires k1 < k2
  {
    var a := (8 * 2 / 3 - 8 / 3) as real / (k2 - k1) as real;
    LinearModel(a, (8 / 3) as real - a * k1 as real)
  }

  lemma TwoValues(k1: int, k2: int, a: real)
    requires k1 < k2 && a == 3.0 / (k2 - k1) as real
    ensures a > 0.0
    ensures a * k1 as real + (2.0 - a * k1 as real) == 2.0
    ensures a * k2 as real + (2.0 - a * k1 as real) == 5.0
  {
    var d := (k2 - k1) as real;
    assert a * d == 3.0;
    assert k2 as real == k1 as real + d;
    assert a * k2 as real == a * k1 as real + a * d;
  }

  /** The line takes one key to the third slot's left edge and the other to the sixth's. */
  lemma TwoKeyValues(k1: int, k2: int)
    requires k1 < k2
    ensures TwoModel(k1, k2).a > 0.0
    ensures Value(TwoModel(k1, k2), k1) == 2.0 && Value(TwoModel(k1, k2), k2) == 5.0
  {
    var m := TwoModel(k1, k2);
    assert m.a == 3.0 / (k2 - k1) as real && m.b == 2.0 - m.a * k1 as real;
    hide TwoModel;
    TwoValues(k1, k2, m.a);
  }

  lemma TwoKeySlots(k1: int, k2: int)
    requires k1 < k2
    ensures TwoModel(k1, k2).a > 0.0
    ensures PredictPos(TwoModel(k1, k2), 8, k1) == 2
    ensures PredictPos(TwoModel(k1, k2), 8, k2) == 5
  {
    TwoKeyValues(k1, k2);
    hide TwoModel, Value;
  }

  // ---- Node sizes ----

  function GapCount(size: int): int {
    if size >= 1000000 then 1 else if size >= 100000 then 2 else 5
  }

  /** Slots on each side kept free, for a configured fraction of the size. */
  function Remains(size: nat, fraction: real): (r: int)
    requires fraction >= 0.0
    ensures r >= 0
  {
    (size as real * fraction).Floor
  }

  function NumItems(size: nat, fraction: real): int
    requires fraction >= 0.0
  {
    size * (GapCount(size) + 1) + 2 * Remains(size, fraction)
  }

  /** Six slots a key, three from a hundred thousand keys on, two from a million on; and on
      each side the whole slots of the fraction. */
  lemma NodeSlots(size: nat, fraction: real)
    requires fraction >= 0.0
    ensures var perKey := if size < 100_000 then 6 else if size < 1_000_000 then 3 else 2;
            var spare := NumItems(size, fraction) - perKey * size;
            spare % 2 == 0 && spare as real <= 2.0 * fraction * size as real < (spare + 2) as real
  {
    var r, f := Remains(size, fraction), size as real * fraction;
    assert r as real <= f < (r + 1) as real;
    assert NumItems(size, fraction) == size * (GapCount(size) + 1) + 2 * r;
  }

  /** No node over at most size keys needs more slots than an int can count. */
  ghost predicate Representable(size: nat, fraction: real)
    requires fraction >= 0.0
  {
    forall s: nat :: s <= size ==> NumItems(s, fraction) <= INT_MAX
  }

  // ---- FMCD ----

  const TINY: real := 0.000001

  /** The candidate unit of key space per slot, for conflict degree d. */
  function Unit(keys: seq<int>, l: int, d: int): real
    requires 1 <= d <= |keys| - 1 - d && l > 2
  {
    (keys[|keys| - 1 - d] - keys[d]) as real / (l - 2) as real + TINY
  }

  /** A hair less than the unit fits l - 2 times between the degree-d keys of both ends. */
  lemma UnitSpans(keys: seq<int>, l: int, d: int)
    requires 1 <= d <= |keys| - 1 - d && l > 2
    ensures (Unit(keys, l, d) - 0.000001) * (l - 2) as real == (keys[|keys| - 1 - d] - keys[d]) as real
  {}

  lemma UnitPositive(keys: seq<int>, l: int, d: int)
    requires Increasing(keys) && 1 <= d <= |keys| - 1 - d && l > 2
    ensures Unit(keys, l, d) >= TINY
  {
    var x := if d < |keys| - 1 - d then keys[|keys| - 1 - d] else keys[d];
    assert keys[d] <= keys[|keys| - 1 - d];
  }

  lemma DivMono(x: real, y: real, d: real)
    requires d > 0.0 && x <= y
    ensures x / d <= y / d
  {}

  /** A larger degree never asks for a larger unit. */
  lemma UnitShrinks(keys: seq<int>, l: int, d: int)
    requires Increasing(keys) && 1 <= d && d + 1 <= |keys| - 1 - (d + 1) && l > 2
    ensures Unit(keys, l, d + 1) <= Unit(keys, l, d)
  {
    var n := |keys|;
    assert keys[d] < keys[d + 1] && keys[n - 2 - d] < keys[n - 1 - d];
    DivMono((keys[n - 2 - d] - keys[d + 1]) as real, (keys[n - 1 - d] - keys[d]) as real, (l - 2) as real);
  }

  /** The search never restarts: gaps already found wide enough stay wide enough. */
  ghost predicate Wide(keys: seq<int>, d: nat, unit: real, upto: int) {
    forall j :: 0 <= j < upto ==> WideAt(keys, d, unit, j)
  }

  ghost predicate WideAt(keys: seq<int>, d: nat, unit: real, j: int) {
    0 <= j && (j + d < |keys| ==> (keys[j + d] - keys[j]) as real >= unit)
  }

  /** Every window of degree d spans a unit. */
  ghost predicate AllWide(keys: seq<int>, l: int, d: int)
    requires 1 <= d <= |keys| - 1 - d && l > 2
  {
    Wide(keys, d, Unit(keys, l, d), |keys| - d)
  }

  /** The first narrow window of the degree before is its last but one. The search goes on
      from that index, where it does not look at the last window of degree d. */
  ghost predicate Excused(keys: seq<int>, l: int, d: int)
    requires 1 <= d <= |keys| - 1 - d && l > 2
  {
    d > 1 && var u, j := Unit(keys, l, d - 1), |keys| - 1 - d;
             Wide(keys, d - 1, u, j) && !WideAt(keys, d - 1, u, j)
  }

  ghost predicate Accepts(keys: seq<int>, l: int, d: int)
    requires 1 <= d <= |keys| - 1 - d && l > 2
  {
    AllWide(keys, l, d) || Excused(keys, l, d)
  }

  /** The degree the search settles on. */
  ghost predicate LeastAccepted(keys: seq<int>, l: int, d: int)
    requires |keys| >= 3 && l > 2
  {
    && 1 <= d && d * 3 <= |keys| && Accepts(keys, l, d)
    && forall e :: 1 <= e < d && e * 3 <= |keys| ==> !Accepts(keys, l, e)
  }

  /** Finds the least accepted degree, or gives up past a third of the keys. All windows of
      that degree but the last span a unit. */
  method FmcdSearch(keys: seq<int>, l: int) returns (d: nat, ut: real)
    requires Increasing(keys) && |keys| >= 3 && l > 2
    ensures 1 <= d
    ensures if d * 3 <= |keys| then LeastAccepted(keys, l, d)
            else forall e :: 1 <= e && e * 3 <= |keys| ==> !Accepts(keys, l, e)
    ensures d * 3 <= |keys| ==>
              && d <= |keys| - 1 - d && ut == Unit(keys, l, d)
              && Wide(keys, d, ut, |keys| - 1 - d) && (keys[d] - keys[0]) as real >= ut
  {
    hide Unit, Increasing, AllWide, Excused;
    var size := |keys|;
    var i := 0;
    d := 1;
    ut := Unit(keys, l, d);
    while i < size - 1 - d
      invariant 0 <= i <= size - d && 1 <= d <= size - 1 - d && ut == Unit(keys, l, d)
      invariant Wide(keys, d, ut, i)
      invariant if d == 1 then i == 0 else FirstNarrow(keys, l, d - 1, i)
      invariant forall e :: 1 <= e < d && e * 3 <= size ==> !Accepts(keys, l, e)
      invariant d * 3 <= size
      decreases size - d
    {
      ghost var start := i;
      while i + d < size && (keys[i + d] - keys[i]) as real >= ut
        invariant start <= i <= size - d && Wide(keys, d, ut, i)
        decreases size - i
      {
        i := i + 1;
      }
      if i + d >= size {
        ReachedEnd(keys, l, d);
        break;
      }
      Stuck(keys, l, d, start, i);
      ghost var oldUt := ut;
      d := d + 1;
      if d * 3 > size {
        break;
      }
      ut := Unit(keys, l, d);
      UnitShrinks(keys, l, d - 1);
      WideGrows(keys, d - 1, oldUt, ut, i);
    }
    if d * 3 <= size && i < size - d { GuardEnds(keys, l, d, i); }
    if d * 3 <= size && i == size - d { ReachedEnd(keys, l, d); }
    assert d * 3 <= size ==> WideAt(keys, d, ut, 0);
  }

  /** Where the search left a degree: windows before i are wide, window i is not. */
  ghost predicate FirstNarrow(keys: seq<int>, l: int, d: int, i: int)
    requires 1 <= d <= |keys| - 1 - d && l > 2
  {
    0 <= i && i + d < |keys| && Wide(keys, d, Unit(keys, l, d), i) && !WideAt(keys, d, Unit(keys, l, d), i)
  }

  lemma ReachedEnd(keys: seq<int>, l: int, d: int)
    requires 1 <= d <= |keys| - 1 - d && l > 2 && Wide(keys, d, Unit(keys, l, d), |keys| - d)
    ensures Accepts(keys, l, d)
  {}

  lemma GuardEnds(keys: seq<int>, l: int, d: int, i: int)
    requires 1 < d <= |keys| - 1 - d && l > 2 && FirstNarrow(keys, l, d - 1, i) && i == |keys| - 1 - d
    ensures Accepts(keys, l, d)
  {}

  /** A degree with a narrow window is not accepted if the search looks at its windows. */
  lemma Stuck(keys: seq<int>, l: int, d: int, start: int, i: int)
    requires 1 <= d <= |keys| - 1 - d && l > 2 && 0 <= i && i + d < |keys| && Wide(keys, d, Unit(keys, l, d), i)
    requires (keys[i + d] - keys[i]) as real < Unit(keys, l, d)
    requires start < |keys| - 1 - d && (d > 1 ==> FirstNarrow(keys, l, d - 1, start))
    ensures FirstNarrow(keys, l, d, i) && !Accepts(keys, l, d)
  {
    hide Unit;
  }

  /** All windows of an accepted degree are wide exactly when the last one is; if it is
      not, the degree before failed first at its last window but one. */
  lemma LastWindow(keys: seq<int>, l: int, d: int)
    requires 1 <= d <= |keys| - 1 - d && l > 2 && Increasing(keys) && Accepts(keys, l, d)
    ensures AllWide(keys, l, d) <==> WideAt(keys, d, Unit(keys, l, d), |keys| - 1 - d)
    ensures !WideAt(keys, d, Unit(keys, l, d), |keys| - 1 - d) ==> Excused(keys, l, d)
  {
    if Excused(keys, l, d) {
      UnitShrinks(keys, l, d - 1);
      WideGrows(keys, d - 1, Unit(keys, l, d - 1), Unit(keys, l, d), |keys| - 1 - d);
    }
    hide Unit, Increasing;
  }

  const CROWDED_END: seq<int> := [0, 1000, 2000, 3000, 3001, 3002]

  /** Degree 1 fails at index 3, where degree 2 has nothing left to look at: it is
      accepted although its last window is far too narrow. */
  lemma LastWindowNarrow()
    ensures Increasing(CROWDED_END) && Accepts(CROWDED_END, 36, 2) && !Accepts(CROWDED_END, 36, 1)
    ensures !WideAt(CROWDED_END, 2, Unit(CROWDED_END, 36, 2), 3)
  {
    var keys := CROWDED_END;
    assert Unit(keys, 36, 1) == 2001.0 / 34.0 + TINY;
    assert Unit(keys, 36, 2) == 1000.0 / 34.0 + TINY;
    assert forall j :: 0 <= j < 3 ==> keys[j + 1] - keys[j] == 1000;
    assert !WideAt(keys, 1, Unit(keys, 36, 1), 3);
    assert Wide(keys, 1, Unit(keys, 36, 1), 3);
  }

  lemma WideGrows(keys: seq<int>, d: nat, unit: real, smaller: real, upto: int)
    requires Increasing(keys) && d >= 1 && Wide(keys, d, unit, upto) && smaller <= unit
    ensures Wide(keys, d + 1, smaller, upto)
  {
    var e: nat := d + 1;
    forall j | 0 <= j < upto ensures WideAt(keys, e, smaller, j) {
      assert WideAt(keys, d, unit, j);
      if j + d + 1 < |keys| { assert keys[j + d] < keys[j + d + 1]; }
    }
  }

  /** The model a successful search yields, shifted by the slots kept free on the left. */
  function FmcdModel(keys: seq<int>, l: int, d: int, ut: real, remains: int): LinearModel
    requires 1 <= d <= |keys| - 1 - d && ut > 0.0
  {
    var a := 1.0 / ut;
    LinearModel(a, (l as real - a * (keys[|keys| - 1 - d] as real + keys[d] as real)) / 2.0 + remains as real)
  }

  /** One unit of key space is one slot, and the degree-d keys of both ends lie evenly about
      the middle of the node. */
  lemma FmcdCentred(keys: seq<int>, l: int, d: int, ut: real, remains: int)
    requires 1 <= d <= |keys| - 1 - d && ut > 0.0
    ensures var m := FmcdModel(keys, l, d, ut, remains);
            && m.a * ut == 1.0
            && Value(m, keys[d]) + Value(m, keys[|keys| - 1 - d]) == (l + 2 * remains) as real
  {
    var m, x, y := FmcdModel(keys, l, d, ut, remains), keys[d] as real, keys[|keys| - 1 - d] as real;
    assert m.a * (y + x) == m.a * y + m.a * x;
  }

  lemma Spread(span: real, width: real, ut: real, a: real)
    requires span >= 0.0 && width > 0.0 && ut == span / width + TINY && a == 1.0 / ut
    ensures 0.0 <= a * span < width
  {
    assert span == (ut - TINY) * width;
    assert a * ut == 1.0;
    assert a > 0.0;
    calc {
      a * span;
      a * ((ut - TINY) * width);
      (a * ut - a * TINY) * width;
      width - a * TINY * width;
    }
    assert a * TINY > 0.0;
    assert a * TINY * width > 0.0;
  }

  /** The degree-d key lands inside, not right of the middle, and the first key a full
      slot further left. */
  lemma FmcdValues(keys: seq<int>, l: int, d: int, ut: real, remains: int)
    requires Increasing(keys) && 1 <= d <= |keys| - 1 - d && l > 2 && remains >= 0
    requires ut == Unit(keys, l, d) && (keys[d] - keys[0]) as real >= ut
    ensures ut > 0.0
    ensures var m := FmcdModel(keys, l, d, ut, remains);
            && m.a > 0.0
            && 1.0 < Value(m, keys[d]) <= l as real / 2.0 + remains as real
            && Value(m, keys[0]) <= Value(m, keys[d]) - 1.0
  {
    UnitPositive(keys, l, d);
    var n := |keys|;
    var x, y := keys[d] as real, keys[n - 1 - d] as real;
    var m := FmcdModel(keys, l, d, ut, remains);
    var span := (keys[n - 1 - d] - keys[d]) as real;
    var atD := if d < n - 1 - d then keys[n - 1 - d] else keys[d];
    assert span >= 0.0;
    Spread(span, (l - 2) as real, ut, m.a);
    assert m.a * y == m.a * x + m.a * span by { assert y == x + span; }
    assert Value(m, keys[d]) == (l as real - m.a * span) / 2.0 + remains as real;
    var gap := (keys[d] - keys[0]) as real;
    assert m.a * ut == 1.0;
    MulMono(m.a, ut, gap);
    assert m.a * keys[0] as real == m.a * x - m.a * gap by { assert keys[0] as real == x - gap; }
  }

  /** Values a full slot apart, with the upper one inside, fall in different slots. */
  lemma SlotsDiffer(m: LinearModel, numItems: int, k: int, l: int)
    requires 2 <= numItems <= INT_MAX
    requires 1.0 < Value(m, l) <= numItems as real / 2.0 && Value(m, k) <= Value(m, l) - 1.0
    ensures PredictPos(m, numItems, k) < PredictPos(m, numItems, l)
  {
    var v, w := Value(m, k), Value(m, l);
    assert w.Floor as real <= w && w < w.Floor as real + 1.0;
    assert v.Floor as real <= v;
    assert v.Floor <= w.Floor - 1;
  }

  /** A successful search separates the first key from the degree-d key. */
  lemma FmcdSeparates(keys: seq<int>, l: int, d: int, ut: real, remains: int)
    requires Increasing(keys) && 1 <= d <= |keys| - 1 - d && l > 2 && remains >= 0
    requires ut == Unit(keys, l, d) && (keys[d] - keys[0]) as real >= ut
    requires l + 2 * remains <= INT_MAX
    ensures ut > 0.0
    ensures var m := FmcdModel(keys, l, d, ut, remains);
            m.a > 0.0 && PredictPos(m, l + 2 * remains, keys[0]) < PredictPos(m, l + 2 * remains, keys[d])
  {
    FmcdValues(keys, l, d, ut, remains);
    SlotsDiffer(FmcdModel(keys, l, d, ut, remains), l + 2 * remains, keys[0], keys[d]);
  }

  // ---- The three-way split ----

  function Mid1(size: int): int { (size - 1) / 3 }

  function Mid2(size: int): int { (size - 1) * 2 / 3 }

  function MidKey(keys: seq<int>, p: int): real
    requires 0 <= p < |keys| - 1
  {
    (keys[p] as real + keys[p + 1] as real) / 2.0
  }

  function Target(p: int, gap: int): int { p * (gap + 1) + (gap + 1) / 2 }

  /** The two middle gaps lie after a third and two thirds of the gaps between keys, a middle
      key halfway across its gap, and its target in the middle of the gap's block of slots. */
  lemma SplitPlaces(keys: seq<int>, p: int, gap: int)
    requires 0 <= p < |keys| - 1
    ensures var n := |keys| - 1; 3 * Mid1(|keys|) <= n < 3 * (Mid1(|keys|) + 1)
    ensures var n := |keys| - 1; 3 * Mid2(|keys|) <= 2 * n < 3 * (Mid2(|keys|) + 1)
    ensures MidKey(keys, p) - keys[p] as real == keys[p + 1] as real - MidKey(keys, p)
    ensures 2 * Target(p, gap) <= (2 * p + 1) * (gap + 1) < 2 * Target(p, gap) + 2
  {
    assert (2 * p + 1) * (gap + 1) == 2 * (p * (gap + 1)) + (gap + 1);
  }

  lemma MidsOrdered(size: int)
    requires size >= 3
    ensures 0 <= Mid1(size) < Mid2(size) < size - 1
    ensures Mid1(size) + 1 <= (size + 2) / 3
    ensures Mid2(size) - Mid1(size) <= (size + 2) / 3
    ensures size - 1 - Mid2(size) <= (size + 2) / 3
  {}

  lemma MidKeyBetween(keys: seq<int>, p: int)
    requires Increasing(keys) && 0 <= p < |keys| - 1
    ensures keys[p] as real < MidKey(keys, p) < keys[p + 1] as real
  {
    assert keys[p] < keys[p + 1];
  }

  lemma MidKeys(keys: seq<int>, p: int, q: int)
    requires Increasing(keys) && 0 <= p < q < |keys| - 1
    ensures MidKey(keys, p) < MidKey(keys, q)
    ensures keys[p] as real < MidKey(keys, p) < keys[p + 1] as real
  {
    assert keys[p] < keys[p + 1] <= keys[q] < keys[q + 1];
  }

  /** The line through the two middle gaps at their target slots. */
  function SplitModel(keys: seq<int>, gap: int, remains: int): LinearModel
    requires Increasing(keys) && |keys| >= 3
  {
    var n := |keys|;
    MidsOrdered(n);
    MidKeys(keys, Mid1(n), Mid2(n));
    var a := (Target(Mid2(n), gap) - Target(Mid1(n), gap)) as real / (MidKey(keys, Mid2(n)) - MidKey(keys, Mid1(n)));
    LinearModel(a, Target(Mid1(n), gap) as real - a * MidKey(keys, Mid1(n)) + remains as real)
  }

  lemma TargetsOrdered(p: int, q: int, gap: int)
    requires 0 <= p < q && gap >= 1
    ensures 1 <= Target(p, gap) < Target(q, gap)
  {
    assert q * (gap + 1) == p * (gap + 1) + (q - p) * (gap + 1);
    AtLeastOnce(q - p, gap + 1);
    assert p * (gap + 1) >= 0;
  }

  lemma AtLeastOnce(c: int, d: int)
    requires c >= 1 && d >= 0
    ensures c * d >= d
  {
    assert (c - 1) * d >= 0;
  }

  /** The line meets both targets at the two middle gaps. */
  lemma SplitMeetsTargets(keys: seq<int>, gap: int, remains: int)
    requires Increasing(keys) && |keys| >= 3 && gap >= 1
    ensures var n, m := |keys|, SplitModel(keys, gap, remains);
            && m.a > 0.0
            && m.a * MidKey(keys, Mid1(n)) + m.b == (Target(Mid1(n), gap) + remains) as real
            && m.a * MidKey(keys, Mid2(n)) + m.b == (Target(Mid2(n), gap) + remains) as real
  {
    hide Target, MidKey, Mid1, Mid2;
    var n, m := |keys|, SplitModel(keys, gap, remains);
    MidsOrdered(n);
    MidKeys(keys, Mid1(n), Mid2(n));
    TargetsOrdered(Mid1(n), Mid2(n), gap);
    var k1, k2 := MidKey(keys, Mid1(n)), MidKey(keys, Mid2(n));
    var t1, t2 := Target(Mid1(n), gap) as real, Target(Mid2(n), gap) as real;
    LineThrough(m.a, k1, k2, t1, t2, remains as real);
  }

  lemma LineThrough(a: real, k1: real, k2: real, t1: real, t2: real, r: real)
    requires k1 < k2 && t1 < t2 && a == (t2 - t1) / (k2 - k1)
    ensures a > 0.0
    ensures a * k1 + (t1 - a * k1 + r) == t1 + r
    ensures a * k2 + (t1 - a * k1 + r) == t2 + r
  {
    var d := k2 - k1;
    PositiveQuotient(t2 - t1, d);
    assert a * k2 == a * k1 + a * d;
  }

  lemma PositiveQuotient(x: real, y: real)
    requires x > 0.0 && y > 0.0
    ensures x / y > 0.0 && x / y * y == x
  {}

  /** Keys on the two sides of a point whose value is a whole slot number fall in
      different slots. */
  lemma SidesDiffer(m: LinearModel, numItems: int, x: real, t: int, k: int, l: int)
    requires m.a > 0.0 && m.a * x + m.b == t as real && 1 <= t <= numItems - 1 && t <= INT_HALF
    requires k as real < x < l as real
    ensures PredictPos(m, numItems, k) < t <= PredictPos(m, numItems, l)
  {
    hide Value;
    var v, w := Value(m, k), Value(m, l);
    ValueStrict(m, k, x, l);
    assert v.Floor as real <= v && w < w.Floor as real + 1.0;
    assert v.Floor < t <= w.Floor;
  }

  lemma ValueStrict(m: LinearModel, k: int, x: real, l: int)
    requires m.a > 0.0 && k as real < x < l as real
    ensures Value(m, k) < m.a * x + m.b < Value(m, l)
  {
    var p, q := m.a * k as real, m.a * l as real;
    assert Value(m, k) == p + m.b && Value(m, l) == q + m.b;
    StrictMono(m.a, m.b, k as real, x);
    StrictMono(m.a, m.b, x, l as real);
  }

  lemma StrictMono(a: real, b: real, x: real, y: real)
    requires a > 0.0 && x < y
    ensures a * x + b < a * y + b
  {
    var d := y - x;
    assert a * d > 0.0;
    assert a * y == a * x + a * d;
  }
}
