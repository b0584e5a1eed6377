/** The rotating software pipeline over a uniform-depth tree of height h: h + 1 blocks of
    tasks; block 0 has just been fed the root, block s sits at depth s - 1, and block h
    always holds leaves. */
module BTreePipeline {
  import opened SortedSeq
  import BatchSearch
  import opened Pipeline
  import opened BTree

  /** No node marks an inactive slot. */
  datatype Task = Task(queryIdx: nat, node: Option<TreeNode>)

  const IDLE := Task(0, None)

  /** Slots between the blocks, against cache aliasing. */
  const PAD: nat := 2

  /** The task serves query q and sits on its path at depth d. */
  ghost predicate TaskOk(t: Tree, queries: seq<int>, task: Task, q: nat, d: nat)
    requires t.Ok() && t.root.Some?
  {
    && q < |queries| && task.queryIdx == q && d < t.h
    && task.node == Some(NodeAt(t.root.value, t.h, t.innerMax, t.leafMax, queries[q], d))
  }

  ghost predicate SlotOk(t: Tree, queries: seq<int>, task: Task, from: nat, to: nat, d: nat, i: int)
    requires t.Ok() && t.root.Some?
  {
    if 0 <= i < to - from then TaskOk(t, queries, task, from + i, d) else task.node.None?
  }

  /** A block serves the queries from..to in order, one slot each; the rest is idle. */
  ghost predicate BlockOk(t: Tree, queries: seq<int>, block: seq<Task>, from: nat, to: nat, d: nat)
    requires t.Ok() && t.root.Some?
  {
    && from <= to <= from + |block|
    && forall i :: 0 <= i < |block| ==> SlotOk(t, queries, block[i], from, to, d, i)
  }

  lemma BlockOfMemory(t: Tree, queries: seq<int>, memory: array<Task>, start: nat, size: nat, from: nat, to: nat,
      d: nat)
    requires t.Ok() && t.root.Some? && start + size <= memory.Length && from <= to <= from + size
    requires forall j :: start <= j < start + size ==> SlotOk(t, queries, memory[j], from, to, d, j - start)
    ensures BlockOk(t, queries, memory[start..start + size], from, to, d)
  {
    hide SlotOk;
    ghost var block := memory[start..start + size];
    forall i | 0 <= i < size ensures SlotOk(t, queries, block[i], from, to, d, i) {
      assert block[i] == memory[start + i];
    }
  }

  /** Last stage: search the leaves, record, free the slots. */
  method ProcessLeaves(t: Tree, queries: seq<int>, ghost base: seq<int>, memory: array<Task>, start: nat, size: nat,
                       found0: seq<bool>, results0: seq<int>, finished0: nat, ghost to: nat)
      returns (found: seq<bool>, results: seq<int>, finished: nat)
    requires t.Ok() && t.root.Some? && t.h >= 1 && start + size <= memory.Length
    requires BlockOk(t, queries, memory[start..start + size], finished0, to, t.h - 1)
    requires Progress(t, queries, base, found0, results0, finished0)
    modifies memory
    ensures finished == to && Progress(t, queries, base, found, results, to)
    ensures forall i :: start <= i < start + size ==> memory[i].node.None?
    ensures forall i :: 0 <= i < memory.Length && !(start <= i < start + size) ==> memory[i] == old(memory[i])
  {
    hide Rank, Progress, TreeOk, NodeAt;
    found, results, finished := found0, results0, finished0;
    ghost var block := memory[start..start + size];
    var i := 0;
    while i < size
      invariant 0 <= i <= size
      invariant finished == if i <= to - finished0 then finished0 + i else to
      invariant Progress(t, queries, base, found, results, finished)
      invariant forall j :: start <= j < start + i ==> memory[j].node.None?
      invariant forall j :: start + i <= j < start + size ==> memory[j] == block[j - start]
      invariant forall j :: 0 <= j < memory.Length && !(start <= j < start + size) ==> memory[j] == old(memory[j])
    {
      var task := memory[start + i];
      assert task == block[i] && SlotOk(t, queries, task, finished0, to, t.h - 1, i);
      if task.node.Some? {
        var leaf := task.node.value;
        PathNode(t, queries[task.queryIdx], t.h - 1);
        var slot := FindLower(leaf.slotkey, queries[task.queryIdx]);
        found, results := AnswerAtLeaf(t, queries, base, leaf, slot, task.queryIdx, found, results);
        finished := finished + 1;
        memory[start + i] := task.(node := None);
      }
      i := i + 1;
    }
  }

  /** Inner stages: every task moves to the child on its path. */
  method StepBlock(t: Tree, queries: seq<int>, memory: array<Task>, start: nat, size: nat,
                   ghost from: nat, ghost to: nat, ghost d: nat)
    requires t.Ok() && t.root.Some? && start + size <= memory.Length
    requires BlockOk(t, queries, memory[start..start + size], from, to, d) && d + 1 < t.h
    modifies memory
    ensures BlockOk(t, queries, memory[start..start + size], from, to, d + 1)
    ensures forall i :: 0 <= i < memory.Length && !(start <= i < start + size) ==> memory[i] == old(memory[i])
  {
    hide Rank, TreeOk, NodeAt;
    ghost var block := memory[start..start + size];
    var i := 0;
    while i < size
      invariant 0 <= i <= size
      invariant forall j :: start <= j < start + i ==> SlotOk(t, queries, memory[j], from, to, d + 1, j - start)
      invariant forall j :: start + i <= j < start + size ==> memory[j] == block[j - start]
      invariant forall j :: 0 <= j < memory.Length && !(start <= j < start + size) ==> memory[j] == old(memory[j])
    {
      var task := memory[start + i];
      assert task == block[i] && SlotOk(t, queries, task, from, to, d, i);
      if task.node.Some? {
        var inner, key := task.node.value, queries[task.queryIdx];
        NextOnPath(t.root.value, t.h, t.innerMax, t.leafMax, key, d);
        var slot := FindLower(inner.slotkey, key);
        memory[start + i] := task.(node := Some(inner.childid[slot]));
      }
      i := i + 1;
    }
    BlockOfMemory(t, queries, memory, start, size, from, to, d + 1);
  }

  /** Stage 0: feed the next queries, each at the root. */
  method Refill(t: Tree, queries: seq<int>, memory: array<Task>, start: nat, size: nat, next0: nat) returns (next: nat)
    requires t.Ok() && t.root.Some? && start + size <= memory.Length && next0 <= |queries|
    modifies memory
    ensures next == (if next0 + size <= |queries| then next0 + size else |queries|)
    ensures BlockOk(t, queries, memory[start..start + size], next0, next, 0)
    ensures forall i :: 0 <= i < memory.Length && !(start <= i < start + size) ==> memory[i] == old(memory[i])
  {
    hide TreeOk, NodeAt;
    next := next0;
    var i := 0;
    while i < size
      invariant 0 <= i <= size
      invariant next == if next0 + i <= |queries| then next0 + i else |queries|
      invariant forall j :: start <= j < start + i ==> SlotOk(t, queries, memory[j], next0, next, 0, j - start)
      invariant forall j :: 0 <= j < memory.Length && !(start <= j < start + size) ==> memory[j] == old(memory[j])
    {
      if next < |queries| {
        AtRoot(t, queries[next]);
        memory[start + i] := Task(next, t.root);
        next := next + 1;
      } else {
        memory[start + i] := memory[start + i].(node := None);
      }
      i := i + 1;
    }
    BlockOfMemory(t, queries, memory, start, size, next0, next, 0);
  }

  // ---- The whole pipeline ----

  /** The depth at stage s: at a loop head one less than s, after the step s itself. */
  function DepthAt(s: nat, stepped: bool): nat { if stepped then s else if s == 0 then 0 else s - 1 }

  /** Stage s serves the queries between its two bounds. */
  ghost predicate StageOk(t: Tree, queries: seq<int>, memory: seq<Task>, stages: seq<nat>, size: nat,
                          bounds: seq<nat>, stepped: bool, s: nat)
    requires t.Ok() && t.root.Some?
  {
    && s < |stages| && stages[s] + size <= |memory| && s + 1 < |bounds|
    && BlockOk(t, queries, memory[stages[s]..stages[s] + size], bounds[s + 1], bounds[s], DepthAt(s, stepped))
  }

  /** A stage survives changes outside its block. */
  lemma StageKept(t: Tree, queries: seq<int>, before: seq<Task>, after: seq<Task>, stages: seq<nat>, size: nat,
                  bounds: seq<nat>, changed: nat, stepped: bool, s: nat)
    requires t.Ok() && t.root.Some? && Layout(stages, size, |before|) && |after| == |before|
    requires StageOk(t, queries, before, stages, size, bounds, stepped, s) && changed < |stages| && s != changed
    requires forall i :: 0 <= i < |before| && !(stages[changed] <= i < stages[changed] + size) ==> after[i] == before[i]
    ensures StageOk(t, queries, after, stages, size, bounds, stepped, s)
  {
    hide BlockOk, TreeOk;
    var a := stages[s];
    assert stages[changed] + size <= a || a + size <= stages[changed];
    assert after[a..a + size] == before[a..a + size];
  }

  ghost predicate InStep(t: Tree, queries: seq<int>, memory: seq<Task>, stages: seq<nat>, size: nat, bounds: seq<nat>,
      h: nat)
    requires t.Ok() && t.root.Some?
  {
    && |stages| == h + 1 && |bounds| == h + 2
    && Layout(stages, size, |memory|)
    && forall s :: 0 <= s <= h ==> StageOk(t, queries, memory, stages, size, bounds, false, s)
  }

  /** One stage advances; the others keep what they had. */
  method StepStage(t: Tree, queries: seq<int>, memory: array<Task>, stages: array<nat>, size: nat,
      ghost bounds: seq<nat>, s: nat)
    requires t.Ok() && t.root.Some? && 1 <= s < t.h && s < stages.Length
    requires Layout(stages[..], size, memory.Length)
    requires StageOk(t, queries, memory[..], stages[..], size, bounds, false, s)
    modifies memory
    ensures StageOk(t, queries, memory[..], stages[..], size, bounds, true, s)
    ensures forall b, r ::
              && 0 <= r < stages.Length && r != s
              && old(StageOk(t, queries, memory[..], stages[..], size, bounds, b, r))
              ==> StageOk(t, queries, memory[..], stages[..], size, bounds, b, r)
  {
    hide BlockOk, TreeOk;
    ghost var before, st := memory[..], stages[..];
    var start := stages[s];
    assert before[start..start + size] == memory[start..start + size];
    StepBlock(t, queries, memory, start, size, bounds[s + 1], bounds[s], s - 1);
    assert memory[..][start..start + size] == memory[start..start + size];
    forall b, r | 0 <= r < |st| && r != s && StageOk(t, queries, before, st, size, bounds, b, r)
      ensures StageOk(t, queries, memory[..], st, size, bounds, b, r)
    {
      StageKept(t, queries, before, memory[..], st, size, bounds, s, b, r);
    }
  }

  /** Stages h - 1 down to 1 advance; stage 0 already sits at its depth. */
  method StepAll(t: Tree, queries: seq<int>, memory: array<Task>, stages: array<nat>, size: nat, ghost bounds: seq<nat>,
      h: nat)
    requires t.Ok() && t.root.Some? && 1 <= h == t.h == stages.Length - 1
    requires Layout(stages[..], size, memory.Length)
    requires forall s :: 0 <= s < h ==> StageOk(t, queries, memory[..], stages[..], size, bounds, false, s)
    modifies memory
    ensures forall s :: 0 <= s < h ==> StageOk(t, queries, memory[..], stages[..], size, bounds, true, s)
  {
    hide StageOk, TreeOk;
    StageZero(t, queries, memory[..], stages[..], size, bounds);
    var s: int := h - 1;
    while s >= 1
      invariant 0 <= s <= h - 1
      invariant StageOk(t, queries, memory[..], stages[..], size, bounds, true, 0)
      invariant forall r :: 1 <= r <= s ==> StageOk(t, queries, memory[..], stages[..], size, bounds, false, r)
      invariant forall r :: s < r < h ==> StageOk(t, queries, memory[..], stages[..], size, bounds, true, r)
    {
      StepStage(t, queries, memory, stages, size, bounds, s);
      s := s - 1;
    }
  }

  lemma StageZero(t: Tree, queries: seq<int>, memory: seq<Task>, stages: seq<nat>, size: nat, bounds: seq<nat>)
    requires t.Ok() && t.root.Some? && StageOk(t, queries, memory, stages, size, bounds, false, 0)
    ensures StageOk(t, queries, memory, stages, size, bounds, true, 0)
  {
    hide BlockOk, TreeOk;
  }

  /** After the rotation and the refill the pipeline is again in step. */
  lemma Rotated(t: Tree, queries: seq<int>, before: seq<Task>, after: seq<Task>, stages: seq<nat>, size: nat,
                bounds: seq<nat>, next: nat, h: nat)
    requires t.Ok() && t.root.Some? && 1 <= h == |stages| - 1 && |bounds| == h + 2
    requires Layout(stages, size, |before|) && |after| == |before|
    requires forall s :: 0 <= s < h ==> StageOk(t, queries, before, stages, size, bounds, true, s)
    requires forall i :: 0 <= i < |before| && !(stages[h] <= i < stages[h] + size) ==> after[i] == before[i]
    requires BlockOk(t, queries, after[stages[h]..stages[h] + size], bounds[0], next, 0)
    ensures InStep(t, queries, after, [stages[h]] + stages[..h], size, [next] + bounds[..h + 1], h)
  {
    hide BlockOk, TreeOk;
    var st, bs := [stages[h]] + stages[..h], [next] + bounds[..h + 1];
    LayoutRotates(stages, size, |before|, h);
    forall s | 0 <= s <= h ensures StageOk(t, queries, after, st, size, bs, false, s) {
      if s > 0 {
        StageKept(t, queries, before, after, stages, size, bounds, h, true, s - 1);
      }
    }
  }

  lemma StageBounds(t: Tree, queries: seq<int>, memory: seq<Task>, stages: seq<nat>, size: nat, bounds: seq<nat>,
      h: nat)
    requires t.Ok() && t.root.Some? && InStep(t, queries, memory, stages, size, bounds, h)
    ensures forall s :: 0 <= s <= h ==> bounds[s + 1] <= bounds[s]
  {
    hide TreeOk;
    forall s | 0 <= s <= h ensures bounds[s + 1] <= bounds[s] {
      assert StageOk(t, queries, memory, stages, size, bounds, false, s);
    }
  }

  /** All stages start idle. */
  lemma StartsIdle(t: Tree, queries: seq<int>, memory: seq<Task>, stages: seq<nat>, size: nat, h: nat)
    requires t.Ok() && t.root.Some? && |stages| == h + 1 && |memory| == (h + 1) * (size + PAD)
    requires forall i :: 0 <= i < |memory| ==> memory[i] == IDLE
    requires forall i :: 0 <= i <= h ==> stages[i] == i * (size + PAD)
    ensures InStep(t, queries, memory, stages, size, seq(h + 2, _ => 0), h)
  {
    hide TreeOk;
    var stride := size + PAD;
    var bounds: seq<nat> := seq(h + 2, _ => 0);
    forall s, r | 0 <= s < r <= h ensures stages[s] + size <= stages[r] {
      Spaced(s, r, stride);
    }
    forall s | 0 <= s <= h ensures stages[s] + size <= |memory| {
      Spaced(s, h + 1, stride);
    }
    forall s | 0 <= s <= h ensures StageOk(t, queries, memory, stages, size, bounds, false, s) {}
  }

  /** The freed last stage and what the others promise. */
  lemma OthersKept(t: Tree, queries: seq<int>, before: seq<Task>, after: seq<Task>, stages: seq<nat>, size: nat,
                   bounds: seq<nat>, h: nat)
    requires t.Ok() && t.root.Some? && InStep(t, queries, before, stages, size, bounds, h) && |after| == |before|
    requires forall i :: 0 <= i < |before| && !(stages[h] <= i < stages[h] + size) ==> after[i] == before[i]
    ensures forall s :: 0 <= s < h ==> StageOk(t, queries, after, stages, size, bounds, false, s)
  {
    hide BlockOk, TreeOk;
    forall s | 0 <= s < h ensures StageOk(t, queries, after, stages, size, bounds, false, s) {
      StageKept(t, queries, before, after, stages, size, bounds, h, false, s);
    }
  }

  lemma LastStage(t: Tree, queries: seq<int>, memory: seq<Task>, stages: seq<nat>, size: nat, bounds: seq<nat>, h: nat)
    requires t.Ok() && t.root.Some? && InStep(t, queries, memory, stages, size, bounds, h) && h >= 1
    ensures |stages| == h + 1 && |bounds| == h + 2 && stages[h] + size <= |memory| && Layout(stages, size, |memory|)
    ensures BlockOk(t, queries, memory[stages[h]..stages[h] + size], bounds[h + 1], bounds[h], h - 1)
  {
    hide BlockOk, TreeOk;
    assert StageOk(t, queries, memory, stages, size, bounds, false, h);
  }

  /** One turn: leaves, inner nodes, rotation, refill. */
  method Round(t: Tree, size: nat, queries: seq<int>, ghost base: seq<int>, memory: array<Task>, stages: array<nat>,
               h: nat, found0: seq<bool>, results0: seq<int>, next0: nat, finished0: nat, ghost bounds0: seq<nat>)
      returns (found: seq<bool>, results: seq<int>, next: nat, finished: nat, ghost bounds: seq<nat>)
    requires t.Ok() && t.root.Some? && 1 <= h == t.h && size > 0
    requires stages.Length == h + 1 && |bounds0| == h + 2
    requires bounds0[0] == next0 <= |queries| && bounds0[h + 1] == finished0
    requires forall i :: 0 <= i < |bounds0| ==> bounds0[i] <= |queries|
    requires InStep(t, queries, memory[..], stages[..], size, bounds0, h)
    requires Progress(t, queries, base, found0, results0, finished0)
    modifies memory, stages
    ensures next == (if next0 + size <= |queries| then next0 + size else |queries|)
    ensures bounds == [next] + bounds0[..h + 1] && finished == bounds0[h]
    ensures InStep(t, queries, memory[..], stages[..], size, bounds, h)
    ensures Progress(t, queries, base, found, results, finished)
  {
    hide InStep, Progress, StageOk, BlockOk, Layout, TreeOk;
    ghost var m0, st := memory[..], stages[..];
    LastStage(t, queries, m0, st, size, bounds0, h);
    var last := stages[h];
    assert memory[last..last + size] == m0[last..last + size];
    found, results, finished :=
        ProcessLeaves(t, queries, base, memory, last, size, found0, results0, finished0, bounds0[h]);
    OthersKept(t, queries, m0, memory[..], st, size, bounds0, h);
    StepAll(t, queries, memory, stages, size, bounds0, h);
    ghost var m2 := memory[..];
    Rotate(stages);
    next := Refill(t, queries, memory, stages[0], size, next0);
    bounds := [next] + bounds0[..h + 1];
    assert memory[..][last..last + size] == memory[last..last + size];
    assert stages[..] == [st[h]] + st[..h];
    Rotated(t, queries, m2, memory[..], st, size, bounds0, next, h);
  }

  /** The pipelined batch lookup, for any group size. */
  method SppBatchLookup(t: Tree, groupSize: nat, queries: seq<int>, results0: seq<int>)
      returns (found: seq<bool>, results: seq<int>)
    requires groupSize >= 1 && t.Ok()
    ensures BatchAnswered(t, queries, BatchSearch.Resized(results0, |queries|), found, results)
  {
    hide InStep, StageOk, BlockOk, Answered, Layout, TreeOk, Progress;
    found := seq(|queries|, _ => false);
    results := BatchSearch.Resized(results0, |queries|);
    ghost var base := results;
    NothingAnswered(t, queries, base);
    if t.root.None? || |queries| == 0 {
      return;
    }
    var h := GetTreeHeight(t);
    AtRoot(t, queries[0]);
    var stride := groupSize + PAD;
    var memory := new Task[(h + 1) * stride](_ => IDLE);
    var stages := new nat[h + 1](i => i * stride);
    ghost var bounds: seq<nat> := seq(h + 2, _ => 0);
    StartsIdle(t, queries, memory[..], stages[..], groupSize, h);
    var next, finished := 0, 0;
    while finished < |queries|
      invariant stages.Length == h + 1 && |bounds| == h + 2
      invariant bounds[0] == next <= |queries| && bounds[h + 1] == finished
      invariant forall i :: 0 <= i < |bounds| ==> bounds[i] <= |queries|
      invariant InStep(t, queries, memory[..], stages[..], groupSize, bounds, h)
      invariant Progress(t, queries, base, found, results, finished)
      decreases Remaining(|queries|, bounds)
    {
      ghost var oldBounds := bounds;
      StageBounds(t, queries, memory[..], stages[..], groupSize, bounds, h);
      BoundsOrder(bounds, 0, h + 1);
      found, results, next, finished, bounds :=
        Round(t, groupSize, queries, base, memory, stages, h, found, results, next, finished, bounds);
      RemainingShift(|queries|, oldBounds, next);
    }
    AllAnswered(t, queries, base, found, results, finished);
  }
}
