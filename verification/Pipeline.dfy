/** What every software pipeline here shares: blocks of task slots, stage pointers that
    rotate over them, and the count of queries still on their way. */
module Pipeline {

  /** Blocks of equal size that do not overlap. */
  ghost predicate Layout(stages: seq<nat>, size: nat, total: nat) {
    && (forall s :: 0 <= s < |stages| ==> stages[s] + size <= total)
    && (forall s, r :: 0 <= s < r < |stages| ==> stages[s] + size <= stages[r] || stages[r] + size <= stages[s])
  }

  /** The stage pointers rotate: the freed block becomes stage 0. */
  method Rotate(stages: array<nat>)
    requires stages.Length > 0
    modifies stages
    ensures stages[..] == [old(stages[stages.Length - 1])] + old(stages[..stages.Length - 1])
  {
    var h := stages.Length - 1;
    var empty := stages[h];
    var s := h;
    while s > 0
      invariant 0 <= s <= h
      invariant forall j :: 0 <= j <= s ==> stages[j] == old(stages[j])
      invariant forall j :: s < j <= h ==> stages[j] == old(stages[j - 1])
    {
      stages[s] := stages[s - 1];
      s := s - 1;
    }
    stages[0] := empty;
    ghost var want := [old(stages[stages.Length - 1])] + old(stages[..stages.Length - 1]);
    assert forall j :: 0 <= j <= h ==> stages[..][j] == want[j];
  }

  /** Queries not yet past each bound, summed. */
  function Remaining(total: nat, bounds: seq<nat>): (r: nat)
    requires forall i :: 0 <= i < |bounds| ==> bounds[i] <= total
  {
    if |bounds| == 0 then 0 else total - bounds[0] + Remaining(total, bounds[1..])
  }

  lemma {:induction false} RemainingSplit(total: nat, bounds: seq<nat>)
    requires |bounds| > 0 && forall i :: 0 <= i < |bounds| ==> bounds[i] <= total
    ensures Remaining(total, bounds) == Remaining(total, bounds[..|bounds| - 1]) + total - bounds[|bounds| - 1]
  {
    var n := |bounds| - 1;
    if n > 0 {
      RemainingSplit(total, bounds[1..]);
      assert bounds[1..][..n - 1] == bounds[..n][1..];
    } else {
      assert bounds[..n] == [];
    }
  }

  /** Feeding past the last bound makes progress. */
  lemma RemainingShift(total: nat, bounds: seq<nat>, next: nat)
    requires |bounds| > 0 && forall i :: 0 <= i < |bounds| ==> bounds[i] <= total
    requires bounds[|bounds| - 1] < next <= total
    ensures var shifted := [next] + bounds[..|bounds| - 1];
            && (forall i :: 0 <= i < |shifted| ==> shifted[i] <= total)
            && Remaining(total, shifted) < Remaining(total, bounds)
  {
    RemainingSplit(total, bounds);
    var shifted := [next] + bounds[..|bounds| - 1];
    assert shifted[1..] == bounds[..|bounds| - 1];
  }

  lemma LayoutRotates(stages: seq<nat>, size: nat, total: nat, h: nat)
    requires Layout(stages, size, total) && |stages| == h + 1
    ensures Layout([stages[h]] + stages[..h], size, total)
  {}

  lemma {:induction false} BoundsOrder(bounds: seq<nat>, s: nat, r: nat)
    requires forall i :: 0 <= i < |bounds| - 1 ==> bounds[i + 1] <= bounds[i]
    requires s <= r < |bounds|
    ensures bounds[r] <= bounds[s]
  {
    if s < r { BoundsOrder(bounds, s, r - 1); }
  }

  lemma Spaced(s: nat, r: nat, size: nat)
    requires s < r
    ensures s * size + size <= r * size
  {
    var d := r - s - 1;
    assert r * size == s * size + size + d * size;
    ProductNat(d, size);
  }

  lemma ProductNat(x: nat, y: nat)
    ensures x * y >= 0
  {}
}
