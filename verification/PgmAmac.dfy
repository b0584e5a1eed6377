/** The pool of lookup machines over the index: each poll moves one machine one step, and
    a machine that is done takes the next query. */
module PgmAmac {
  import opened SortedSeq
  import opened PgmSegment
  import opened PgmLevel
  import opened PgmIndex
  import opened BatchSearch
  import opened PgmLookup
  import opened Pool

  datatype State = Init | InternalSearch | BSearch | Done

  datatype Machine = Machine(state: State, i: nat, lo: int, hi: int, step: nat, currentLevel: nat, approxPos: int)

  /** Polls until the machine is done, with `steps` halvings and `height` levels. */
  function Work(m: Machine, height: nat, steps: nat): int {
    match m.state
    case Init => height + steps + 2
    case InternalSearch => m.currentLevel + steps + 2
    case BSearch => steps + 1 - m.step
    case Done => 0
  }

  function MostWork(height: nat, steps: nat): nat { height + steps + 2 }

  // ---- The pool invariant ----

  /** The range of a searching machine holds the rank of a present key and is short
      enough for the halvings left. */
  ghost predicate MachineOk(keys: seq<int>, queries: seq<int>, m: Machine, height: nat, steps: nat)
    requires Sorted(keys)
  {
    m.state.Done? ||
    (&& m.i < |queries|
     && (m.state.InternalSearch? ==> m.currentLevel < height)
     && (m.state.BSearch? ==>
           && 0 <= m.lo && m.hi <= |keys| && m.step <= steps
           && (queries[m.i] in keys ==>
                 m.lo <= Rank(keys, queries[m.i]) <= m.hi && m.hi - m.lo < Pow2(steps - m.step))))
  }

  /** What a machine stands for in the pool's books. */
  predicate Booked(m: Machine, j: Job, height: nat, steps: nat) {
    if m.state.Done? then j.Idle? else j.Job? && j.query == m.i && j.todo == Work(m, height, steps)
  }

  ghost predicate MachinesOk(keys: seq<int>, queries: seq<int>, pool: seq<Machine>, jobs: seq<Job>, height: nat,
      steps: nat)
    requires Sorted(keys)
  {
    && |jobs| == |pool|
    && forall k :: 0 <= k < |pool| ==>
         MachineOk(keys, queries, pool[k], height, steps) && Booked(pool[k], jobs[k], height, steps)
  }

  /** The right outcome of every query. */
  ghost function RightAnswers(keys: seq<int>, values: seq<int>, queries: seq<int>, base: seq<int>): (right: Answers)
    requires Sorted(keys) && |values| == |keys| && |base| == |queries|
    ensures |right| == |queries|
  {
    seq(|queries|, i requires 0 <= i < |queries| =>
      if queries[i] in keys && Rank(keys, queries[i]) < |keys| then (true, values[Rank(keys, queries[i])])
      else (false, base[i]))
  }

  lemma AnswersAreRight(keys: seq<int>, values: seq<int>, queries: seq<int>, base: seq<int>, found: seq<bool>,
      results: seq<int>)
    requires Sorted(keys) && |values| == |keys| && |base| == |queries| == |found| == |results|
    requires var right := RightAnswers(keys, values, queries, base);
             forall q :: 0 <= q < |queries| ==> (found[q], results[q]) == right[q]
    ensures BatchAnswered(keys, values, queries, base, found, results)
  {
    var right := RightAnswers(keys, values, queries, base);
    forall i | 0 <= i < |queries| ensures Answered(keys, values, queries, base, found, results, i) {
      RankDecides(keys, queries[i]);
      assert (found[i], results[i]) == right[i];
    }
  }

  // ---- The pool ----

  /** The predicted position of a query in one level, by a search over the whole level.
      Left of the first key the unsigned subtraction wraps: any position may come out. */
  method LevelPosition(index: PGMIndex, l: nat, key: int) returns (pos: int)
    requires index.Built() && l + 1 < |index.levelsOffsets|
    ensures l == 0 && key in index.keys ==>
              pos - index.epsilon <= Rank(index.keys, key) <= pos + index.epsilon + 1
  {
    hide Rank, Position;
    LevelBounds(index, l);
    var levelStart, levelEnd := index.levelsOffsets[l], index.levelsOffsets[l + 1];
    var it := UpperBound(index.segments, levelStart, levelEnd, key);
    var segment := if it == levelStart then it else it - 1;
    if key < index.segments[segment].key {
      pos := *;
    } else {
      pos := Position(index.segments[segment], key);
    }
    if l == 0 && key in index.keys {
      BottomSorted(index);
      PresentKeyPosition(index, it, key);
    }
  }

  lemma LevelBounds(x: PGMIndex, l: nat)
    requires x.Built() && l + 1 < |x.levelsOffsets|
    ensures x.levelsOffsets[l] < x.levelsOffsets[l + 1] <= |x.segments|
    ensures forall i :: x.levelsOffsets[l] <= i < x.levelsOffsets[l + 1] ==> x.segments[i].den > 0
  {
    hide LevelOk, TopCount, LevelSegs;
    var level, ss, eps := x.levels[l], x.Segs(l), EpsAt(x.epsilon, x.epsilonRecursive, l);
    LevelFacts(x, l);
    Denominators(level.entries, eps, level.starts, ss, Last(x.keys), x.sentinel);
    LevelKeys(level.entries, eps, level.starts, ss, Last(x.keys), x.sentinel);
    forall i | x.levelsOffsets[l] <= i < x.levelsOffsets[l + 1] ensures x.segments[i].den > 0 {
      assert ss[i - x.levelsOffsets[l]] == x.segments[i];
    }
  }

  /** One step of a busy machine short of recording its answer. */
  method Advance(pgm: PGMWrapper, queries: seq<int>, m: Machine, steps: nat) returns (m': Machine)
    requires pgm.Ready() && !m.state.Done? && !(m.state.BSearch? && m.step >= steps)
    requires Pow2(steps) > 2 * pgm.index.epsilon + 2
    requires MachineOk(pgm.keys, queries, m, |pgm.index.levels|, steps)
    ensures MachineOk(pgm.keys, queries, m', |pgm.index.levels|, steps)
    ensures !m'.state.Done? && m'.i == m.i
    ensures 0 < Work(m', |pgm.index.levels|, steps) < Work(m, |pgm.index.levels|, steps)
  {
    hide Rank;
    var index, eps, dataSize := pgm.index, pgm.index.epsilon, |pgm.keys|;
    Heights(index);
    m' := m;
    match m.state {
      case Init =>
        m' := m.(currentLevel := |index.levelsOffsets| - 2, approxPos := 0, state := InternalSearch);
      case InternalSearch =>
        var l := m.currentLevel;
        var pos := LevelPosition(index, l, queries[m.i]);
        if l > 0 {
          m' := m.(approxPos := pos, currentLevel := l - 1);
        } else {
          RankBelowSize(pgm.keys, queries[m.i]);
          m' := m.(lo := if pos < eps then 0 else pos - eps, hi := Min(pos + eps + 2, dataSize), step := 0,
              state := BSearch);
        }
      case BSearch =>
        var key := queries[m.i];
        if m.lo < m.hi {
          var mid := (m.lo + m.hi) / 2;
          if key in pgm.keys { HalveKeepsRank(pgm.keys, key, m.lo, m.hi); }
          if key <= pgm.keys[mid] { m' := m.(hi := mid); } else { m' := m.(lo := mid + 1); }
        }
        m' := m'.(step := m.step + 1);
      case Done =>
    }
  }

  lemma Heights(x: PGMIndex)
    requires x.Built()
    ensures |x.levelsOffsets| == |x.levels| + 1 && |x.levels| > 0
  {}

  lemma RankBelowSize(keys: seq<int>, k: int)
    requires Sorted(keys)
    ensures k in keys ==> Rank(keys, k) < |keys|
  {
    RankDecides(keys, k);
  }

  /** A machine after its last halving compares at the end of its range. After the last
      halving a present key's range is its rank; an absent key fails the comparison
      wherever the range ended. */
  method Finish(pgm: PGMWrapper, queries: seq<int>, ghost base: seq<int>, m: Machine, steps: nat,
                found0: seq<bool>, results0: seq<int>) returns (found: seq<bool>, results: seq<int>)
    requires Sorted(pgm.keys) && |pgm.values| == |pgm.keys| && m.state.BSearch? && m.step >= steps
    requires MachineOk(pgm.keys, queries, m, |pgm.index.levels|, steps)
    requires |queries| == |base| == |found0| == |results0| && !found0[m.i] && results0[m.i] == base[m.i]
    ensures |found| == |results| == |queries|
    ensures Right(RightAnswers(pgm.keys, pgm.values, queries, base), found, results, m.i)
    ensures forall j :: 0 <= j < |queries| && j != m.i ==> found[j] == found0[j] && results[j] == results0[j]
  {
    found, results := found0, results0;
    var slot, key := m.lo, queries[m.i];
    assert Pow2(0) == 1;
    RankDecides(pgm.keys, key);
    ghost var right := RightAnswers(pgm.keys, pgm.values, queries, base);
    assert right[m.i] == if key in pgm.keys && Rank(pgm.keys, key) < |pgm.keys|
                         then (true, pgm.values[Rank(pgm.keys, key)])
                         else (false, base[m.i]);
    hide Rank, RightAnswers;
    if slot < |pgm.keys| && key == pgm.keys[slot] {
      results := results[m.i := pgm.values[slot]];
      found := found[m.i := true];
    } else {
      found := found[m.i := false];
    }
  }

  /** One poll of machine k. */
  method Poll(pgm: PGMWrapper, queries: seq<int>, ghost base: seq<int>, pool: array<Machine>, ghost jobs0: seq<Job>,
      k: nat, steps: nat, found0: seq<bool>, results0: seq<int>, next0: nat, allDone0: nat)
      returns (ghost jobs: seq<Job>, found: seq<bool>, results: seq<int>, next: nat, allDone: nat)
    requires pgm.Ready() && Pow2(steps) > 2 * pgm.index.epsilon + 2 && k < pool.Length && |base| == |queries|
    requires MachinesOk(pgm.keys, queries, pool[..], jobs0, |pgm.index.levels|, steps)
    requires PoolOk(RightAnswers(pgm.keys, pgm.values, queries, base), base, jobs0, found0, results0, next0, allDone0)
    modifies pool
    ensures MachinesOk(pgm.keys, queries, pool[..], jobs, |pgm.index.levels|, steps)
    ensures PoolOk(RightAnswers(pgm.keys, pgm.values, queries, base), base, jobs, found, results, next, allDone)
    ensures next0 <= |queries| && next <= |queries|
    ensures var most := MostWork(|pgm.index.levels|, steps);
            if jobs0[k].Idle? && next0 == |queries| then jobs == jobs0 && next == next0 && allDone == allDone0
            else Measure(|queries|, next, jobs, most) < Measure(|queries|, next0, jobs0, most)
  {
    hide PoolOk, RightAnswers, MachineOk, Measure, Rank;
    ghost var height, most := |pgm.index.levels|, MostWork(|pgm.index.levels|, steps);
    ghost var right := RightAnswers(pgm.keys, pgm.values, queries, base);
    jobs, found, results, next, allDone := jobs0, found0, results0, next0, allDone0;
    PoolNext(right, base, jobs, found, results, next, allDone);
    ghost var p := pool[..];
    assert p[k] == pool[k] && Booked(p[k], jobs[k], height, steps) && MachineOk(pgm.keys, queries, p[k], height, steps);
    if pool[k].state.Done? && next < |queries| {
      var m := pool[k].(state := Init, i := next);
      Assigned(right, base, jobs, found, results, next, allDone, most, k, Job(next, most));
      StartsOk(pgm.keys, queries, m, height, steps);
      jobs := jobs[k := Job(next, most)];
      pool[k] := m;
      next := next + 1;
    }
    var m := pool[k];
    assert pool[..] == p[k := m];
    if m.state.Done? {
    } else if m.state.BSearch? && m.step >= steps {
      JobOpen(right, base, jobs, found, results, next, allDone, k);
      ghost var f0, r0 := found, results;
      found, results := Finish(pgm, queries, base, m, steps, found, results);
      Completed(right, base, jobs, f0, r0, found, results, next, allDone, most, k);
      m := m.(state := Done);
      DoneOk(pgm.keys, queries, m, height, steps);
      jobs := jobs[k := Idle];
      pool[k] := m;
      allDone := allDone + 1;
    } else {
      m := Advance(pgm, queries, m, steps);
      ghost var j := Job(m.i, Work(m, height, steps));
      Moved(right, base, jobs, found, results, next, allDone, most, k, j);
      jobs := jobs[k := j];
      pool[k] := m;
    }
    assert pool[..] == p[k := m];
  }

  lemma PoolNext(right: Answers, base: seq<int>, jobs: seq<Job>, found: seq<bool>, results: seq<int>, next: nat,
      allDone: nat)
    requires PoolOk(right, base, jobs, found, results, next, allDone)
    ensures next <= |right|
  {}

  lemma StartsOk(keys: seq<int>, queries: seq<int>, m: Machine, height: nat, steps: nat)
    requires Sorted(keys) && m.state.Init? && m.i < |queries|
    ensures MachineOk(keys, queries, m, height, steps) && Booked(m, Job(m.i, MostWork(height, steps)), height, steps)
  {}

  lemma DoneOk(keys: seq<int>, queries: seq<int>, m: Machine, height: nat, steps: nat)
    requires Sorted(keys) && m.state.Done?
    ensures MachineOk(keys, queries, m, height, steps)
  {}

  /** One round over all machines makes progress while anything is left. */
  method Sweep(pgm: PGMWrapper, queries: seq<int>, ghost base: seq<int>, pool: array<Machine>, ghost jobs0: seq<Job>,
      steps: nat, found0: seq<bool>, results0: seq<int>, next0: nat, allDone0: nat)
      returns (ghost jobs: seq<Job>, found: seq<bool>, results: seq<int>, next: nat, allDone: nat)
    requires pgm.Ready() && Pow2(steps) > 2 * pgm.index.epsilon + 2 && allDone0 < |queries| && pool.Length > 0
             && |base| == |queries|
    requires MachinesOk(pgm.keys, queries, pool[..], jobs0, |pgm.index.levels|, steps)
    requires PoolOk(RightAnswers(pgm.keys, pgm.values, queries, base), base, jobs0, found0, results0, next0, allDone0)
    modifies pool
    ensures MachinesOk(pgm.keys, queries, pool[..], jobs, |pgm.index.levels|, steps)
    ensures PoolOk(RightAnswers(pgm.keys, pgm.values, queries, base), base, jobs, found, results, next, allDone)
    ensures next0 <= |queries| && next <= |queries|
    ensures var most := MostWork(|pgm.index.levels|, steps);
            Measure(|queries|, next, jobs, most) < Measure(|queries|, next0, jobs0, most)
  {
    hide PoolOk, RightAnswers, MachineOk, Booked, Measure, Rank;
    ghost var height, most := |pgm.index.levels|, MostWork(|pgm.index.levels|, steps);
    ghost var right := RightAnswers(pgm.keys, pgm.values, queries, base);
    PoolNext(right, base, jobs0, found0, results0, next0, allDone0);
    jobs, found, results, next, allDone := jobs0, found0, results0, next0, allDone0;
    ghost var progressed := false;
    for k := 0 to pool.Length
      invariant |jobs| == pool.Length && next <= |queries|
      invariant MachinesOk(pgm.keys, queries, pool[..], jobs, height, steps)
      invariant PoolOk(right, base, jobs, found, results, next, allDone)
      invariant if progressed then Measure(|queries|, next, jobs, most) < Measure(|queries|, next0, jobs0, most)
                else jobs == jobs0 && next == next0 && allDone == allDone0
                     && (k > 0 ==> next == |queries|) && forall j :: 0 <= j < k ==> jobs[j].Idle?
    {
      ghost var idle := jobs[k].Idle? && next == |queries|;
      jobs, found, results, next, allDone :=
          Poll(pgm, queries, base, pool, jobs, k, steps, found, results, next, allDone);
      if !idle { progressed := true; }
    }
    if !progressed {
      AllIdle(right, base, jobs, found, results, next, allDone);
    }
  }

  /** The pooled batch lookup, for any pool size. */
  method AmacBatchLookup(pgm: PGMWrapper, poolSize: nat, queries: seq<int>, results0: seq<int>)
      returns (found: seq<bool>, results: seq<int>)
    requires poolSize >= 1 && |pgm.values| == |pgm.keys| && Sorted(pgm.keys)
    requires |pgm.keys| > 0 ==> pgm.Ready()
    ensures BatchAnswered(pgm.keys, pgm.values, queries, Resized(results0, |queries|), found, results)
  {
    hide PoolOk, RightAnswers, MachineOk, Measure, Rank, Answered;
    var n := |queries|;
    found := seq(n, _ => false);
    results := Resized(results0, n);
    ghost var base := results;
    if |pgm.keys| == 0 || n == 0 {
      NothingAsked(pgm.keys, pgm.values, queries, base);
      return;
    }
    var steps := CalcSteps(2 * pgm.index.epsilon + 2);
    ghost var height, most := |pgm.index.levels|, MostWork(|pgm.index.levels|, steps);
    ghost var right := RightAnswers(pgm.keys, pgm.values, queries, base);
    var pool := new Machine[poolSize](_ => Machine(Done, 0, 0, 0, 0, 0, 0));
    ghost var jobs: seq<Job> := seq(poolSize, _ => Idle);
    var next: nat, allDone: nat := 0, 0;
    EmptyPool(right, base, jobs, found);
    DoneOk(pgm.keys, queries, Machine(Done, 0, 0, 0, 0, 0, 0), height, steps);
    for k := 0 to poolSize
      invariant next <= n && MachinesOk(pgm.keys, queries, pool[..], jobs, height, steps)
      invariant PoolOk(right, base, jobs, found, results, next, allDone)
      invariant forall j :: k <= j < poolSize ==> jobs[j].Idle?
    {
      if next < n {
        var m := pool[k].(state := Init, i := next);
        Assigned(right, base, jobs, found, results, next, allDone, most, k, Job(next, most));
        StartsOk(pgm.keys, queries, m, height, steps);
        ghost var p := pool[..];
        jobs := jobs[k := Job(next, most)];
        pool[k] := m;
        assert pool[..] == p[k := m];
        next := next + 1;
      }
    }
    while allDone < n
      invariant next <= n && MachinesOk(pgm.keys, queries, pool[..], jobs, height, steps)
      invariant PoolOk(right, base, jobs, found, results, next, allDone)
      decreases Measure(n, next, jobs, most)
    {
      jobs, found, results, next, allDone :=
          Sweep(pgm, queries, base, pool, jobs, steps, found, results, next, allDone);
    }
    Drained(right, base, jobs, found, results, next, allDone);
    AnswersAreRight(pgm.keys, pgm.values, queries, base, found, results);
  }

  lemma NothingAsked(keys: seq<int>, values: seq<int>, queries: seq<int>, base: seq<int>)
    requires Sorted(keys) && |values| == |keys| && |base| == |queries| && (|keys| == 0 || |queries| == 0)
    ensures BatchAnswered(keys, values, queries, base, seq(|queries|, _ => false), base)
  {}
}
