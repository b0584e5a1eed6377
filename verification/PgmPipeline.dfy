/** The rotating software pipeline over the index: H + 1 blocks of tasks, each stage one
    halving further along than the one before; the oldest block is answered, every other
    advances, the blocks rotate and the freed one is refilled. */
module PgmPipeline {
  import opened SortedSeq
  import opened PgmIndex
  import opened PgmLevel
  import opened BatchSearch
  import opened Pipeline
  import opened PgmLookup

  /** lo > hi marks an inactive slot. */
  datatype Task = Task(queryIdx: nat, lo: int, hi: int)

  predicate Active(t: Task) { t.lo <= t.hi }

  const IDLE := Task(0, 1, 0)

  /** The task serves query q, its range still holds the rank, and fewer than w entries
      are left. */
  ghost predicate TaskOk(keys: seq<int>, queries: seq<int>, t: Task, q: nat, w: nat)
    requires Sorted(keys)
  {
    && q < |queries| && t.queryIdx == q
    && 0 <= t.lo <= Rank(keys, queries[q]) <= t.hi <= |keys|
    && t.hi - t.lo < w
  }

  /** A block serves the queries from..to in order, one slot each; the rest is idle. */
  ghost predicate BlockOk(keys: seq<int>, queries: seq<int>, block: seq<Task>, from: nat, to: nat, w: nat)
    requires Sorted(keys)
  {
    && from <= to <= from + |block|
    && forall i :: 0 <= i < |block| ==> SlotOk(keys, queries, block[i], from, to, w, i)
  }

  ghost predicate SlotOk(keys: seq<int>, queries: seq<int>, t: Task, from: nat, to: nat, w: nat, i: int)
    requires Sorted(keys)
  {
    if 0 <= i < to - from then TaskOk(keys, queries, t, from + i, w) else !Active(t)
  }

  lemma BlockOfMemory(keys: seq<int>, queries: seq<int>, memory: array<Task>, start: nat, size: nat, from: nat, to: nat,
      w: nat)
    requires Sorted(keys) && start + size <= memory.Length && from <= to <= from + size
    requires forall j :: start <= j < start + size ==> SlotOk(keys, queries, memory[j], from, to, w, j - start)
    ensures BlockOk(keys, queries, memory[start..start + size], from, to, w)
  {
    hide SlotOk;
    ghost var block := memory[start..start + size];
    forall i | 0 <= i < size ensures SlotOk(keys, queries, block[i], from, to, w, i) {
      assert block[i] == memory[start + i];
    }
  }

  /** Everything before the bound is answered, everything from it on untouched. */
  ghost predicate Progress(keys: seq<int>, values: seq<int>, queries: seq<int>, base: seq<int>,
                           found: seq<bool>, results: seq<int>, bound: nat)
    requires Sorted(keys) && |values| == |keys|
  {
    && |found| == |results| == |base| == |queries| && bound <= |queries|
    && (forall j :: 0 <= j < bound ==> Answered(keys, values, queries, base, found, results, j))
    && (forall j :: bound <= j < |queries| ==> Untouched(queries, base, found, results, j))
  }

  lemma ProgressStep(keys: seq<int>, values: seq<int>, queries: seq<int>, base: seq<int>,
                     f0: seq<bool>, r0: seq<int>, f1: seq<bool>, r1: seq<int>, q: nat)
    requires Sorted(keys) && |values| == |keys| && q < |queries|
    requires Progress(keys, values, queries, base, f0, r0, q)
    requires var slot := Rank(keys, queries[q]);
             if slot < |keys| && queries[q] == keys[slot] then f1 == f0[q := true] && r1 == r0[q := values[slot]]
             else f1 == f0[q := false] && r1 == r0
    ensures Progress(keys, values, queries, base, f1, r1, q + 1)
  {
    Recorded(keys, values, queries, base, f0, r0, f1, r1, q, Rank(keys, queries[q]));
    hide Answered, Untouched, Rank;
  }

  /** Last stage: ranges are single positions; verify, record, free the slots. */
  method Verify(pgm: PGMWrapper, queries: seq<int>, ghost base: seq<int>, memory: array<Task>, start: nat, size: nat,
                found0: seq<bool>, results0: seq<int>, finished0: nat, ghost to: nat)
      returns (found: seq<bool>, results: seq<int>, finished: nat)
    requires Sorted(pgm.keys) && |pgm.values| == |pgm.keys| && start + size <= memory.Length
    requires BlockOk(pgm.keys, queries, memory[start..start + size], finished0, to, 1)
    requires Progress(pgm.keys, pgm.values, queries, base, found0, results0, finished0)
    modifies memory
    ensures finished == to && Progress(pgm.keys, pgm.values, queries, base, found, results, to)
    ensures forall i :: start <= i < start + size ==> !Active(memory[i])
    ensures forall i :: 0 <= i < memory.Length && !(start <= i < start + size) ==> memory[i] == old(memory[i])
  {
    hide Rank, Progress;
    found, results, finished := found0, results0, finished0;
    ghost var block := memory[start..start + size];
    var i := 0;
    while i < size
      invariant 0 <= i <= size
      invariant finished == if i <= to - finished0 then finished0 + i else to
      invariant Progress(pgm.keys, pgm.values, queries, base, found, results, finished)
      invariant forall j :: start <= j < start + i ==> !Active(memory[j])
      invariant forall j :: start + i <= j < start + size ==> memory[j] == block[j - start]
      invariant forall j :: 0 <= j < memory.Length && !(start <= j < start + size) ==> memory[j] == old(memory[j])
    {
      var t := memory[start + i];
      assert t == block[i] && SlotOk(pgm.keys, queries, t, finished0, to, 1, i);
      if Active(t) {
        var slot := t.lo;
        var key := queries[t.queryIdx];
        ghost var f0, r0 := found, results;
        ProgressLengths(pgm.keys, pgm.values, queries, base, found, results, finished);
        if slot < |pgm.keys| && key == pgm.keys[slot] {
          results := results[t.queryIdx := pgm.values[slot]];
          found := found[t.queryIdx := true];
        } else {
          found := found[t.queryIdx := false];
        }
        ProgressStep(pgm.keys, pgm.values, queries, base, f0, r0, found, results, finished);
        finished := finished + 1;
        memory[start + i] := t.(lo := 1, hi := 0);
      }
      i := i + 1;
    }
  }

  lemma ProgressLengths(keys: seq<int>, values: seq<int>, queries: seq<int>, base: seq<int>,
                        found: seq<bool>, results: seq<int>, bound: nat)
    requires Sorted(keys) && |values| == |keys| && Progress(keys, values, queries, base, found, results, bound)
    ensures |found| == |results| == |base| == |queries| && bound <= |queries|
  {}

  /** Inner stages: one halving for every active slot of a block. */
  method StepBlock(keys: seq<int>, queries: seq<int>, memory: array<Task>, start: nat, size: nat,
                   ghost from: nat, ghost to: nat, ghost w: nat)
    requires Sorted(keys) && start + size <= memory.Length
    requires BlockOk(keys, queries, memory[start..start + size], from, to, 2 * w) && w > 0
    modifies memory
    ensures BlockOk(keys, queries, memory[start..start + size], from, to, w)
    ensures forall i :: 0 <= i < memory.Length && !(start <= i < start + size) ==> memory[i] == old(memory[i])
  {
    hide Rank;
    ghost var block := memory[start..start + size];
    var i := 0;
    while i < size
      invariant 0 <= i <= size
      invariant forall j :: start <= j < start + i ==> SlotOk(keys, queries, memory[j], from, to, w, j - start)
      invariant forall j :: start + i <= j < start + size ==> memory[j] == block[j - start]
      invariant forall j :: 0 <= j < memory.Length && !(start <= j < start + size) ==> memory[j] == old(memory[j])
    {
      var t := memory[start + i];
      assert t == block[i] && SlotOk(keys, queries, t, from, to, 2 * w, i);
      if Active(t) {
        var lo, hi := t.lo, t.hi;
        var key := queries[t.queryIdx];
        HalveKeepsRank(keys, key, lo, hi);
        ghost var h := Halve(keys, key, lo, hi);
        if lo < hi {
          var mid := (lo + hi) / 2;
          if key <= keys[mid] { hi := mid; } else { lo := mid + 1; }
        }
        assert (lo, hi) == h;
        memory[start + i] := t.(lo := lo, hi := hi);
      }
      i := i + 1;
    }
    BlockOfMemory(keys, queries, memory, start, size, from, to, w);
  }

  /** Stage 0: feed the next queries, each with the window the index returns. */
  method Refill(pgm: PGMWrapper, queries: seq<int>, memory: array<Task>, start: nat, size: nat, next0: nat,
      ghost w: nat)
      returns (next: nat)
    requires pgm.Ready() && start + size <= memory.Length && next0 <= |queries|
    requires forall i :: 0 <= i < |queries| ==> queries[i] < pgm.index.sentinel
    requires w > 2 * pgm.index.epsilon + 2
    modifies memory
    ensures next == (if next0 + size <= |queries| then next0 + size else |queries|)
    ensures BlockOk(pgm.keys, queries, memory[start..start + size], next0, next, w)
    ensures forall i :: 0 <= i < memory.Length && !(start <= i < start + size) ==> memory[i] == old(memory[i])
  {
    hide Rank, PGMIndex.PredictedFor;
    next := next0;
    var i := 0;
    while i < size
      invariant 0 <= i <= size
      invariant next == if next0 + i <= |queries| then next0 + i else |queries|
      invariant forall j :: start <= j < start + i ==> SlotOk(pgm.keys, queries, memory[j], next0, next, w, j - start)
      invariant forall j :: 0 <= j < memory.Length && !(start <= j < start + size) ==> memory[j] == old(memory[j])
    {
      if next < |queries| {
        var q := next;
        next := next + 1;
        var range := pgm.index.Search(queries[q]);
        memory[start + i] := Task(q, range.lo, Min(range.hi, |pgm.keys|));
      } else {
        memory[start + i] := memory[start + i].(lo := 1, hi := 0);
      }
      i := i + 1;
    }
    BlockOfMemory(pgm.keys, queries, memory, start, size, next0, next, w);
  }

  // ---- The whole pipeline ----

  /** Stage s serves the queries between its two bounds and needs h - s more halvings. */
  ghost predicate StageOk(keys: seq<int>, queries: seq<int>, memory: seq<Task>, stages: seq<nat>, size: nat,
                          bounds: seq<nat>, h: nat, s: nat)
    requires Sorted(keys)
  {
    && s <= h && s < |stages| && stages[s] + size <= |memory| && s + 1 < |bounds|
    && BlockOk(keys, queries, memory[stages[s]..stages[s] + size], bounds[s + 1], bounds[s], Pow2(h - s))
  }

  /** A stage survives changes outside its block. */
  lemma StageKept(keys: seq<int>, queries: seq<int>, before: seq<Task>, after: seq<Task>, stages: seq<nat>, size: nat,
                  bounds: seq<nat>, changed: nat, h: nat, s: nat)
    requires Sorted(keys) && Layout(stages, size, |before|) && |after| == |before|
    requires StageOk(keys, queries, before, stages, size, bounds, h, s) && changed < |stages| && s != changed
    requires forall i :: 0 <= i < |before| && !(stages[changed] <= i < stages[changed] + size) ==> after[i] == before[i]
    ensures StageOk(keys, queries, after, stages, size, bounds, h, s)
  {
    hide BlockOk;
    var a := stages[s];
    assert stages[changed] + size <= a || a + size <= stages[changed];
    assert after[a..a + size] == before[a..a + size];
  }

  /** At stage s of h, s halvings are done. */
  ghost predicate InStep(keys: seq<int>, queries: seq<int>, memory: seq<Task>, stages: seq<nat>, size: nat,
                           bounds: seq<nat>, h: nat)
    requires Sorted(keys)
  {
    && |stages| == h + 1 && |bounds| == h + 2
    && Layout(stages, size, |memory|)
    && forall s :: 0 <= s <= h ==> StageOk(keys, queries, memory, stages, size, bounds, h, s)
  }

  /** One stage advances; the others keep what they had. */
  method StepStage(keys: seq<int>, queries: seq<int>, memory: array<Task>, stages: array<nat>, size: nat,
                   ghost bounds: seq<nat>, ghost h: nat, s: nat)
    requires Sorted(keys) && s < h && s < stages.Length
    requires Layout(stages[..], size, memory.Length)
    requires StageOk(keys, queries, memory[..], stages[..], size, bounds, h, s)
    modifies memory
    ensures StageOk(keys, queries, memory[..], stages[..], size, bounds, h - 1, s)
    ensures forall g, r ::
              && 0 <= r < stages.Length && r != s
              && old(StageOk(keys, queries, memory[..], stages[..], size, bounds, g, r))
              ==> StageOk(keys, queries, memory[..], stages[..], size, bounds, g, r)
  {
    hide BlockOk;
    ghost var before, st := memory[..], stages[..];
    var start := stages[s];
    assert before[start..start + size] == memory[start..start + size];
    StepBlock(keys, queries, memory, start, size, bounds[s + 1], bounds[s], Pow2(h - 1 - s));
    assert memory[..][start..start + size] == memory[start..start + size];
    forall g, r | 0 <= r < |st| && r != s && StageOk(keys, queries, before, st, size, bounds, g, r)
      ensures StageOk(keys, queries, memory[..], st, size, bounds, g, r)
    {
      StageKept(keys, queries, before, memory[..], st, size, bounds, s, g, r);
    }
  }

  /** Every stage but the last advances one halving. */
  method StepAll(keys: seq<int>, queries: seq<int>, memory: array<Task>, stages: array<nat>, size: nat,
                 ghost bounds: seq<nat>, h: nat, ghost g: nat)
    requires Sorted(keys) && 0 < h == stages.Length - 1 && g == h - 1
    requires Layout(stages[..], size, memory.Length)
    requires forall s :: 0 <= s < h ==> StageOk(keys, queries, memory[..], stages[..], size, bounds, h, s)
    modifies memory
    ensures forall s :: 0 <= s < h ==> StageOk(keys, queries, memory[..], stages[..], size, bounds, g, s)
  {
    hide StageOk;
    var s: int := h - 1;
    while s >= 0
      invariant -1 <= s <= h - 1
      invariant forall r :: 0 <= r <= s ==> StageOk(keys, queries, memory[..], stages[..], size, bounds, h, r)
      invariant forall r :: s < r < h ==> StageOk(keys, queries, memory[..], stages[..], size, bounds, g, r)
    {
      StepStage(keys, queries, memory, stages, size, bounds, h, s);
      s := s - 1;
    }
  }

  /** After the rotation and the refill the pipeline is again in step. */
  lemma Rotated(keys: seq<int>, queries: seq<int>, before: seq<Task>, after: seq<Task>, stages: seq<nat>, size: nat,
                bounds: seq<nat>, next: nat, h: nat, g: nat)
    requires Sorted(keys) && 0 < h == |stages| - 1 && g == h - 1 && |bounds| == h + 2
    requires Layout(stages, size, |before|) && |after| == |before|
    requires forall s :: 0 <= s < h ==> StageOk(keys, queries, before, stages, size, bounds, g, s)
    requires forall i :: 0 <= i < |before| && !(stages[h] <= i < stages[h] + size) ==> after[i] == before[i]
    requires BlockOk(keys, queries, after[stages[h]..stages[h] + size], bounds[0], next, Pow2(h))
    ensures InStep(keys, queries, after, [stages[h]] + stages[..h], size, [next] + bounds[..h + 1], h)
  {
    hide BlockOk;
    var st, bs := [stages[h]] + stages[..h], [next] + bounds[..h + 1];
    LayoutRotates(stages, size, |before|, h);
    forall s | 0 <= s <= h ensures StageOk(keys, queries, after, st, size, bs, h, s) {
      if s > 0 {
        StageKept(keys, queries, before, after, stages, size, bounds, h, g, s - 1);
      }
    }
  }

  lemma StageBounds(keys: seq<int>, queries: seq<int>, memory: seq<Task>, stages: seq<nat>, size: nat, bounds: seq<nat>,
      h: nat)
    requires Sorted(keys) && InStep(keys, queries, memory, stages, size, bounds, h)
    ensures forall s :: 0 <= s <= h ==> bounds[s + 1] <= bounds[s]
  {
    forall s | 0 <= s <= h ensures bounds[s + 1] <= bounds[s] {
      assert StageOk(keys, queries, memory, stages, size, bounds, h, s);
    }
  }

  /** All stages start idle. */
  lemma StartsIdle(keys: seq<int>, queries: seq<int>, memory: seq<Task>, stages: seq<nat>, size: nat, h: nat)
    requires Sorted(keys) && |stages| == h + 1 && |memory| == (h + 1) * size
    requires forall i :: 0 <= i < |memory| ==> memory[i] == IDLE
    requires forall i :: 0 <= i <= h ==> stages[i] == i * size
    ensures InStep(keys, queries, memory, stages, size, seq(h + 2, _ => 0), h)
  {
    var bounds: seq<nat> := seq(h + 2, _ => 0);
    forall s, r | 0 <= s < r <= h ensures stages[s] + size <= stages[r] {
      Spaced(s, r, size);
    }
    forall s | 0 <= s <= h ensures stages[s] + size <= |memory| {
      Spaced(s, h + 1, size);
    }
    forall s | 0 <= s <= h ensures StageOk(keys, queries, memory, stages, size, bounds, h, s) {}
  }

  lemma AllAnswered(keys: seq<int>, values: seq<int>, queries: seq<int>, base: seq<int>,
                    found: seq<bool>, results: seq<int>, finished: nat)
    requires Sorted(keys) && |values| == |keys|
    requires Progress(keys, values, queries, base, found, results, finished) && finished >= |queries|
    ensures BatchAnswered(keys, values, queries, base, found, results)
  {}

  lemma NothingAnswered(keys: seq<int>, values: seq<int>, queries: seq<int>, base: seq<int>)
    requires Sorted(keys) && |values| == |keys| && |base| == |queries|
    ensures Progress(keys, values, queries, base, seq(|queries|, _ => false), base, 0)
    ensures |keys| == 0 || |queries| == 0 ==>
              BatchAnswered(keys, values, queries, base, seq(|queries|, _ => false), base)
  {}

  /** The freed last stage and what the others promise, seen after Verify. */
  lemma OthersKept(keys: seq<int>, queries: seq<int>, before: seq<Task>, after: seq<Task>, stages: seq<nat>, size: nat,
                   bounds: seq<nat>, h: nat)
    requires Sorted(keys) && InStep(keys, queries, before, stages, size, bounds, h) && |after| == |before|
    requires forall i :: 0 <= i < |before| && !(stages[h] <= i < stages[h] + size) ==> after[i] == before[i]
    ensures forall s :: 0 <= s < h ==> StageOk(keys, queries, after, stages, size, bounds, h, s)
  {
    hide BlockOk;
    forall s | 0 <= s < h ensures StageOk(keys, queries, after, stages, size, bounds, h, s) {
      StageKept(keys, queries, before, after, stages, size, bounds, h, h, s);
    }
  }

  lemma LastStage(keys: seq<int>, queries: seq<int>, memory: seq<Task>, stages: seq<nat>, size: nat, bounds: seq<nat>,
      h: nat)
    requires Sorted(keys) && InStep(keys, queries, memory, stages, size, bounds, h)
    ensures |stages| == h + 1 && |bounds| == h + 2 && stages[h] + size <= |memory| && Layout(stages, size, |memory|)
    ensures BlockOk(keys, queries, memory[stages[h]..stages[h] + size], bounds[h + 1], bounds[h], 1)
  {
    hide BlockOk;
    assert StageOk(keys, queries, memory, stages, size, bounds, h, h);
  }

  /** One turn: verify, advance, rotate, refill. */
  method Round(pgm: PGMWrapper, size: nat, queries: seq<int>, ghost base: seq<int>, memory: array<Task>,
      stages: array<nat>, h: nat, found0: seq<bool>, results0: seq<int>, next0: nat, finished0: nat,
      ghost bounds0: seq<nat>)
      returns (found: seq<bool>, results: seq<int>, next: nat, finished: nat, ghost bounds: seq<nat>)
    requires pgm.Ready() && h > 0 && size > 0 && Pow2(h) > 2 * pgm.index.epsilon + 2
    requires forall i :: 0 <= i < |queries| ==> queries[i] < pgm.index.sentinel
    requires stages.Length == h + 1 && |bounds0| == h + 2
    requires bounds0[0] == next0 <= |queries| && bounds0[h + 1] == finished0
    requires forall i :: 0 <= i < |bounds0| ==> bounds0[i] <= |queries|
    requires InStep(pgm.keys, queries, memory[..], stages[..], size, bounds0, h)
    requires Progress(pgm.keys, pgm.values, queries, base, found0, results0, finished0)
    modifies memory, stages
    ensures next == (if next0 + size <= |queries| then next0 + size else |queries|)
    ensures bounds == [next] + bounds0[..h + 1] && finished == bounds0[h]
    ensures InStep(pgm.keys, queries, memory[..], stages[..], size, bounds, h)
    ensures Progress(pgm.keys, pgm.values, queries, base, found, results, finished)
  {
    hide InStep, Progress, StageOk, BlockOk, Rank, Layout;
    ghost var m0, st := memory[..], stages[..];
    LastStage(pgm.keys, queries, m0, st, size, bounds0, h);
    var last := stages[h];
    assert memory[last..last + size] == m0[last..last + size];
    found, results, finished := Verify(pgm, queries, base, memory, last, size, found0, results0, finished0, bounds0[h]);
    OthersKept(pgm.keys, queries, m0, memory[..], st, size, bounds0, h);
    StepAll(pgm.keys, queries, memory, stages, size, bounds0, h, h - 1);
    ghost var m2 := memory[..];
    Rotate(stages);
    next := Refill(pgm, queries, memory, stages[0], size, next0, Pow2(h));
    bounds := [next] + bounds0[..h + 1];
    assert memory[..][last..last + size] == memory[last..last + size];
    assert stages[..] == [st[h]] + st[..h];
    Rotated(pgm.keys, queries, m2, memory[..], st, size, bounds0, next, h, h - 1);
  }

  /** The pipelined batch lookup, for any group size. */
  method SppBatchLookup(pgm: PGMWrapper, groupSize: nat, queries: seq<int>, results0: seq<int>)
      returns (found: seq<bool>, results: seq<int>)
    requires groupSize >= 1 && |pgm.values| == |pgm.keys| && Sorted(pgm.keys)
    requires |pgm.keys| > 0 ==> pgm.Ready()
    requires forall i :: 0 <= i < |queries| ==> queries[i] < pgm.index.sentinel
    ensures BatchAnswered(pgm.keys, pgm.values, queries, Resized(results0, |queries|), found, results)
  {
    hide InStep, StageOk, BlockOk, Rank, Answered, Untouched, Layout;
    found := seq(|queries|, _ => false);
    results := Resized(results0, |queries|);
    ghost var base := results;
    var dataSize := |pgm.keys|;
    if dataSize == 0 || |queries| == 0 {
      NothingAnswered(pgm.keys, pgm.values, queries, base);
      return;
    }
    var h := CalcSteps(2 * pgm.index.epsilon + 2);
    var memory := new Task[(h + 1) * groupSize](_ => IDLE);
    var stages := new nat[h + 1](i => i * groupSize);
    ghost var bounds: seq<nat> := seq(h + 2, _ => 0);
    StartsIdle(pgm.keys, queries, memory[..], stages[..], groupSize, h);
    NothingAnswered(pgm.keys, pgm.values, queries, base);
    var next, finished := 0, 0;
    while finished < |queries|
      invariant stages.Length == h + 1 && |bounds| == h + 2
      invariant bounds[0] == next <= |queries| && bounds[h + 1] == finished
      invariant forall i :: 0 <= i < |bounds| ==> bounds[i] <= |queries|
      invariant InStep(pgm.keys, queries, memory[..], stages[..], groupSize, bounds, h)
      invariant Progress(pgm.keys, pgm.values, queries, base, found, results, finished)
      decreases Remaining(|queries|, bounds)
    {
      ghost var oldBounds, oldFinished := bounds, finished;
      StageBounds(pgm.keys, queries, memory[..], stages[..], groupSize, bounds, h);
      BoundsOrder(bounds, 0, h + 1);
      found, results, next, finished, bounds :=
        Round(pgm, groupSize, queries, base, memory, stages, h, found, results, next, finished, bounds);
      RemainingShift(|queries|, oldBounds, next);
    }
    AllAnswered(pgm.keys, pgm.values, queries, base, found, results, finished);
  }
}
