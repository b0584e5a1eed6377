/** The shifting pipeline over a uniform-depth tree of height h: h batches, batch s at
    depth s; each round copies every batch into the next one, a level further down. */
module BTreeShift {
  import opened SortedSeq
  import BatchSearch
  import opened Pipeline
  import opened BTree

  datatype Task = Task(queryIdx: nat, node: Option<TreeNode>, active: bool)

  const IDLE := Task(0, None, false)

  /** Slot i serves query from + i at depth d, or nothing. */
  ghost predicate SlotOk(t: Tree, queries: seq<int>, task: Task, from: nat, to: nat, d: nat, i: int)
    requires t.Ok() && t.root.Some?
  {
    if 0 <= i < to - from then
      && task.active && to <= |queries| && task.queryIdx == from + i && d < t.h
      && task.node == Some(NodeAt(t.root.value, t.h, t.innerMax, t.leafMax, queries[from + i], d))
    else !task.active
  }

  /** Batch s serves the queries from..to in order. */
  ghost predicate RowOk(t: Tree, queries: seq<int>, batches: array2<Task>, s: nat, from: nat, to: nat, d: nat)
    requires t.Ok() && t.root.Some?
    reads batches
  {
    && s < batches.Length0 && from <= to <= from + batches.Length1
    && forall i :: 0 <= i < batches.Length1 ==> SlotOk(t, queries, batches[s, i], from, to, d, i)
  }

  ghost predicate RowIdle(batches: array2<Task>, s: nat)
    reads batches
  {
    s < batches.Length0 && forall i :: 0 <= i < batches.Length1 ==> !batches[s, i].active
  }

  /** Stage A: the leaves of the last batch are searched and its slots freed. */
  method ProcessLeaves(t: Tree, queries: seq<int>, ghost base: seq<int>, batches: array2<Task>,
                       found0: seq<bool>, results0: seq<int>, finished0: nat, ghost to: nat)
      returns (found: seq<bool>, results: seq<int>, finished: nat)
    requires t.Ok() && t.root.Some? && t.h >= 1 && batches.Length0 == t.h
    requires RowOk(t, queries, batches, t.h - 1, finished0, to, t.h - 1)
    requires Progress(t, queries, base, found0, results0, finished0)
    modifies batches
    ensures finished == to && Progress(t, queries, base, found, results, to)
    ensures RowIdle(batches, batches.Length0 - 1)
    ensures forall r, i :: 0 <= r < batches.Length0 - 1 && 0 <= i < batches.Length1 ==>
              batches[r, i] == old(batches[r, i])
  {
    hide Rank, Progress, TreeOk, NodeAt;
    found, results, finished := found0, results0, finished0;
    var last := batches.Length0 - 1;
    var i := 0;
    while i < batches.Length1
      invariant 0 <= i <= batches.Length1
      invariant finished == if i <= to - finished0 then finished0 + i else to
      invariant Progress(t, queries, base, found, results, finished)
      invariant forall j :: 0 <= j < i ==> !batches[last, j].active
      invariant forall j :: i <= j < batches.Length1 ==> batches[last, j] == old(batches[last, j])
      invariant forall r, j :: 0 <= r < last && 0 <= j < batches.Length1 ==> batches[r, j] == old(batches[r, j])
    {
      var task := batches[last, i];
      assert SlotOk(t, queries, task, finished0, to, t.h - 1, i);
      if task.active {
        var leaf := task.node.value;
        PathNode(t, queries[task.queryIdx], t.h - 1);
        var slot := LinearLowerBound(leaf.slotkey, queries[task.queryIdx]);
        found, results := AnswerAtLeaf(t, queries, base, leaf, slot, task.queryIdx, found, results);
        finished := finished + 1;
        batches[last, i] := task.(active := false);
      }
      i := i + 1;
    }
  }

  /** Stage B, one batch: every task is copied to the next batch at the child on its path. */
  method ShiftRow(t: Tree, queries: seq<int>, batches: array2<Task>, s: nat, ghost from: nat, ghost to: nat)
    requires t.Ok() && t.root.Some? && s + 1 < batches.Length0 == t.h
    requires RowOk(t, queries, batches, s, from, to, s)
    modifies batches
    ensures RowOk(t, queries, batches, s + 1, from, to, s + 1) && RowIdle(batches, s)
    ensures forall r, i :: 0 <= r < batches.Length0 && 0 <= i < batches.Length1 && r != s && r != s + 1 ==>
              batches[r, i] == old(batches[r, i])
  {
    hide Rank, TreeOk, NodeAt;
    var below := s + 1;
    var i := 0;
    while i < batches.Length1
      invariant 0 <= i <= batches.Length1
      invariant forall j :: 0 <= j < i ==> !batches[s, j].active
      invariant forall j :: 0 <= j < i ==> SlotOk(t, queries, batches[below, j], from, to, below, j)
      invariant forall j :: i <= j < batches.Length1 ==> batches[s, j] == old(batches[s, j])
      invariant forall r, j :: 0 <= r < batches.Length0 && 0 <= j < batches.Length1 && r != s && r != s + 1 ==>
                  batches[r, j] == old(batches[r, j])
    {
      var task := batches[s, i];
      assert SlotOk(t, queries, task, from, to, s, i);
      if task.active {
        var inner, key := task.node.value, queries[task.queryIdx];
        NextOnPath(t.root.value, t.h, t.innerMax, t.leafMax, key, s);
        var slot := LinearLowerBound(inner.slotkey, key);
        batches[below, i] := Task(task.queryIdx, Some(inner.childid[slot]), true);
        batches[s, i] := task.(active := false);
      } else {
        batches[below, i] := batches[below, i].(active := false);
      }
      i := i + 1;
    }
  }

  /** Batch s serves the queries between two bounds, `shift` places further up the list. */
  ghost predicate RowServes(t: Tree, queries: seq<int>, batches: array2<Task>, s: nat, bounds: seq<nat>, shift: nat)
    requires t.Ok() && t.root.Some?
    reads batches
  {
    s >= shift && s + 1 - shift < |bounds| && RowOk(t, queries, batches, s, bounds[s + 1 - shift], bounds[s - shift], s)
  }

  /** Stage B: all batches but the last move down, the deepest first. */
  method ShiftAll(t: Tree, queries: seq<int>, batches: array2<Task>, ghost bounds: seq<nat>)
    requires t.Ok() && t.root.Some? && t.h >= 1 && batches.Length0 == t.h && |bounds| == t.h + 1
    requires forall s :: 0 <= s < t.h - 1 ==> RowServes(t, queries, batches, s, bounds, 0)
    requires RowIdle(batches, t.h - 1)
    modifies batches
    ensures forall s :: 1 <= s < t.h ==> RowServes(t, queries, batches, s, bounds, 1)
    ensures RowIdle(batches, 0)
  {
    hide TreeOk, RowOk, RowIdle;
    var s: int := batches.Length0 - 2;
    while s >= 0
      invariant -1 <= s <= t.h - 2
      invariant forall r :: 0 <= r <= s ==> RowServes(t, queries, batches, r, bounds, 0)
      invariant forall r :: s + 2 <= r < t.h ==> RowServes(t, queries, batches, r, bounds, 1)
      invariant RowIdle(batches, s + 1)
    {
      assert RowServes(t, queries, batches, s, bounds, 0);
      label Before:
      ShiftRow(t, queries, batches, s, bounds[s + 1], bounds[s]);
      RowsKept@Before(t, queries, batches, bounds, s);
      s := s - 1;
    }
  }

  /** Rows other than s and s + 1 keep what they had, and row s + 1 serves row s's queries. */
  twostate lemma RowsKept(t: Tree, new queries: seq<int>, new batches: array2<Task>, new bounds: seq<nat>, new s: nat)
    requires old(allocated(batches)) && t.Ok() && t.root.Some? && s + 1 < batches.Length0 == t.h && |bounds| == t.h + 1
    requires RowOk(t, queries, batches, s + 1, bounds[s + 1], bounds[s], s + 1)
    requires forall r, i :: 0 <= r < batches.Length0 && 0 <= i < batches.Length1 && r != s && r != s + 1 ==>
               batches[r, i] == old(batches[r, i])
    ensures RowServes(t, queries, batches, s + 1, bounds, 1)
    ensures forall r :: 0 <= r < s && old(RowServes(t, queries, batches, r, bounds, 0)) ==>
              RowServes(t, queries, batches, r, bounds, 0)
    ensures forall r :: s + 2 <= r < t.h && old(RowServes(t, queries, batches, r, bounds, 1)) ==>
              RowServes(t, queries, batches, r, bounds, 1)
  {
    hide TreeOk, SlotOk;
  }

  /** Stage C: the next queries enter at the root. */
  method Refill(t: Tree, queries: seq<int>, batches: array2<Task>, next0: nat) returns (next: nat)
    requires t.Ok() && t.root.Some? && batches.Length0 >= 1 && next0 <= |queries|
    modifies batches
    ensures next == (if next0 + batches.Length1 <= |queries| then next0 + batches.Length1 else |queries|)
    ensures RowOk(t, queries, batches, 0, next0, next, 0)
    ensures forall r, i :: 1 <= r < batches.Length0 && 0 <= i < batches.Length1 ==> batches[r, i] == old(batches[r, i])
  {
    hide TreeOk, NodeAt;
    next := next0;
    var i := 0;
    while i < batches.Length1
      invariant 0 <= i <= batches.Length1
      invariant next == if next0 + i <= |queries| then next0 + i else |queries|
      invariant forall j :: 0 <= j < i ==> SlotOk(t, queries, batches[0, j], next0, next, 0, j)
      invariant forall r, j :: 1 <= r < batches.Length0 && 0 <= j < batches.Length1 ==>
                  batches[r, j] == old(batches[r, j])
    {
      if next < |queries| {
        AtRoot(t, queries[next]);
        batches[0, i] := Task(next, t.root, true);
        next := next + 1;
      } else {
        batches[0, i] := batches[0, i].(active := false);
      }
      i := i + 1;
    }
  }

  ghost predicate InStep(t: Tree, queries: seq<int>, batches: array2<Task>, bounds: seq<nat>)
    requires t.Ok() && t.root.Some?
    reads batches
  {
    && batches.Length0 == t.h && |bounds| == t.h + 1
    && forall s :: 0 <= s < t.h ==> RowServes(t, queries, batches, s, bounds, 0)
  }

  lemma InStepBounds(t: Tree, queries: seq<int>, batches: array2<Task>, bounds: seq<nat>)
    requires t.Ok() && t.root.Some? && InStep(t, queries, batches, bounds)
    ensures forall s :: 0 <= s < t.h ==> bounds[s + 1] <= bounds[s]
  {
    hide TreeOk;
    forall s | 0 <= s < t.h ensures bounds[s + 1] <= bounds[s] {
      assert RowServes(t, queries, batches, s, bounds, 0);
    }
  }

  lemma LastRow(t: Tree, queries: seq<int>, batches: array2<Task>, bounds: seq<nat>)
    requires t.Ok() && t.root.Some? && t.h >= 1 && InStep(t, queries, batches, bounds)
    ensures batches.Length0 == t.h && |bounds| == t.h + 1
    ensures RowOk(t, queries, batches, t.h - 1, bounds[t.h], bounds[t.h - 1], t.h - 1)
  {
    hide TreeOk, RowOk;
    assert RowServes(t, queries, batches, t.h - 1, bounds, 0);
  }

  /** After shift and refill the batches serve the shifted bounds. */
  lemma Shifted(t: Tree, queries: seq<int>, batches: array2<Task>, bounds: seq<nat>, next: nat)
    requires t.Ok() && t.root.Some? && t.h >= 1 && batches.Length0 == t.h && |bounds| == t.h + 1
    requires RowOk(t, queries, batches, 0, bounds[0], next, 0)
    requires forall s :: 1 <= s < t.h ==> RowServes(t, queries, batches, s, bounds, 1)
    ensures InStep(t, queries, batches, [next] + bounds[..t.h])
  {
    hide TreeOk, RowOk;
    var bs := [next] + bounds[..t.h];
    forall s | 0 <= s < t.h ensures RowServes(t, queries, batches, s, bs, 0) {
      if s > 0 { assert RowServes(t, queries, batches, s, bounds, 1); }
    }
  }

  /** Rows below the first survive the refill. */
  twostate lemma RefillKeeps(t: Tree, new queries: seq<int>, new batches: array2<Task>, new bounds: seq<nat>)
    requires old(allocated(batches)) && t.Ok() && t.root.Some? && batches.Length0 == t.h
    requires forall r, i :: 1 <= r < batches.Length0 && 0 <= i < batches.Length1 ==> batches[r, i] == old(batches[r, i])
    ensures forall r :: 1 <= r < t.h && old(RowServes(t, queries, batches, r, bounds, 1)) ==>
              RowServes(t, queries, batches, r, bounds, 1)
  {
    hide TreeOk, SlotOk;
  }

  /** Batches above the last survive the leaf stage. */
  twostate lemma LeavesKeep(t: Tree, new queries: seq<int>, new batches: array2<Task>, new bounds: seq<nat>)
    requires old(allocated(batches)) && t.Ok() && t.root.Some? && batches.Length0 == t.h && |bounds| == t.h + 1
    requires old(InStep(t, queries, batches, bounds))
    requires forall r, i :: 0 <= r < batches.Length0 - 1 && 0 <= i < batches.Length1 ==>
               batches[r, i] == old(batches[r, i])
    ensures forall s :: 0 <= s < t.h - 1 ==> RowServes(t, queries, batches, s, bounds, 0)
  {
    hide TreeOk, SlotOk;
    forall s | 0 <= s < t.h - 1 ensures RowServes(t, queries, batches, s, bounds, 0) {
      assert old(RowServes(t, queries, batches, s, bounds, 0));
    }
  }

  /** One turn: leaves, shift, refill. */
  method Round(t: Tree, queries: seq<int>, ghost base: seq<int>, batches: array2<Task>,
               found0: seq<bool>, results0: seq<int>, next0: nat, finished0: nat, ghost bounds0: seq<nat>)
      returns (found: seq<bool>, results: seq<int>, next: nat, finished: nat, ghost bounds: seq<nat>)
    requires t.Ok() && t.root.Some? && t.h >= 1
    requires InStep(t, queries, batches, bounds0) && |bounds0| == t.h + 1
    requires bounds0[0] == next0 <= |queries| && bounds0[t.h] == finished0
    requires Progress(t, queries, base, found0, results0, finished0)
    modifies batches
    ensures next == (if next0 + batches.Length1 <= |queries| then next0 + batches.Length1 else |queries|)
    ensures bounds == [next] + bounds0[..t.h] && finished == bounds0[t.h - 1]
    ensures InStep(t, queries, batches, bounds)
    ensures Progress(t, queries, base, found, results, finished)
  {
    hide TreeOk, Progress, RowOk, RowIdle, RowServes, InStep;
    LastRow(t, queries, batches, bounds0);
    found, results, finished := ProcessLeaves(t, queries, base, batches, found0, results0, finished0, bounds0[t.h - 1]);
    LeavesKeep(t, queries, batches, bounds0);
    ShiftAll(t, queries, batches, bounds0);
    label Moved:
    next := Refill(t, queries, batches, next0);
    RefillKeeps@Moved(t, queries, batches, bounds0);
    Shifted(t, queries, batches, bounds0, next);
    bounds := [next] + bounds0[..t.h];
  }

  lemma StartsIdle(t: Tree, queries: seq<int>, batches: array2<Task>)
    requires t.Ok() && t.root.Some? && batches.Length0 == t.h
    requires forall s, i :: 0 <= s < batches.Length0 && 0 <= i < batches.Length1 ==> batches[s, i] == IDLE
    ensures InStep(t, queries, batches, seq(t.h + 1, _ => 0))
  {
    hide TreeOk;
  }

  /** The pipelined batch lookup, for any group size. */
  method SppLinearBatchLookup(t: Tree, groupSize: nat, queries: seq<int>, results0: seq<int>)
      returns (found: seq<bool>, results: seq<int>)
    requires groupSize >= 1 && t.Ok()
    ensures BatchAnswered(t, queries, BatchSearch.Resized(results0, |queries|), found, results)
  {
    hide InStep, Answered, TreeOk, Progress, RowOk;
    found := seq(|queries|, _ => false);
    results := BatchSearch.Resized(results0, |queries|);
    ghost var base := results;
    NothingAnswered(t, queries, base);
    if t.root.None? || |queries| == 0 {
      return;
    }
    var h := GetTreeHeight(t);
    AtRoot(t, queries[0]);
    var batches := new Task[h, groupSize]((_, _) => IDLE);
    ghost var bounds: seq<nat> := seq(h + 1, _ => 0);
    StartsIdle(t, queries, batches);
    var next, finished := 0, 0;
    while finished < |queries|
      invariant |bounds| == h + 1 && bounds[0] == next <= |queries| && bounds[h] == finished
      invariant forall i :: 0 <= i < |bounds| ==> bounds[i] <= |queries|
      invariant InStep(t, queries, batches, bounds)
      invariant Progress(t, queries, base, found, results, finished)
      decreases Remaining(|queries|, bounds)
    {
      ghost var oldBounds := bounds;
      InStepBounds(t, queries, batches, bounds);
      BoundsOrder(bounds, 0, h);
      found, results, next, finished, bounds :=
          Round(t, queries, base, batches, found, results, next, finished, bounds);
      RemainingShift(|queries|, oldBounds, next);
    }
    AllAnswered(t, queries, base, found, results, finished);
  }
}
