/** Batched lookups in the updatable tree, whose paths differ in depth: one at a time, as a
    pool of state machines, and as a task window that is refilled at once. */
module LippLookup {
  import opened LippMaps
  import opened LippNode
  import opened LippTree
  import opened Pool
  import BatchSearch

  /** The right outcome of every query. */
  ghost function RightAnswers(c: Contents, queries: seq<int>, base: seq<int>): (right: Answers)
    requires |base| == |queries|
    ensures |right| == |queries|
  {
    seq(|queries|, i requires 0 <= i < |queries| =>
      if queries[i] in c then (true, c[queries[i]]) else (false, base[i]))
  }

  ghost predicate BatchAnswered(c: Contents, queries: seq<int>, base: seq<int>, found: seq<bool>, results: seq<int>) {
    && |found| == |results| == |base| == |queries|
    && forall i :: 0 <= i < |queries| ==>
         if queries[i] in c then found[i] && results[i] == c[queries[i]] else !found[i] && results[i] == base[i]
  }

  /** The tree decides about the key as this node does. */
  ghost predicate OnPath(lipp: LIPP, node: Node, key: int)
    requires lipp.Valid()
    reads lipp, lipp.nodes, NodeSet(lipp.pendingTwo), node
  {
    && node in lipp.nodes && (key in lipp.Contents() <==> key in node.contents)
    && (key in node.contents ==> lipp.Contents()[key] == node.contents[key])
  }

  datatype Outcome = Missing | Hit(value: int) | Down(child: Node)

  /** One visit: the slot of the key misses, decides, or leads further down. */
  method VisitNode(lipp: LIPP, node: Node, key: int) returns (o: Outcome)
    requires lipp.Valid() && OnPath(lipp, node, key)
    ensures match o
            case Missing => key !in lipp.Contents()
            case Hit(v) => key in lipp.Contents() && v == lipp.Contents()[key]
            case Down(c) => OnPath(lipp, c, key) && c.depth == node.depth + 1 && c.depth <= lipp.maxDepth
  {
    hide LocalOk, Settled;
    assert LocalOk(node, lipp.nodes);
    SlotDecides(node, lipp.nodes, key);
    var pos := node.Pos(key);
    match node.items[pos]
    case None => o := Missing;
    case Data(k, v) => o := if k == key then Hit(v) else Missing;
    case Child(c) => o := Down(c);
  }

  /** Records what a visit found out. */
  method Record(lipp: LIPP, queries: seq<int>, ghost base: seq<int>, q: nat, o: Outcome, found0: seq<bool>,
      results0: seq<int>)
      returns (found: seq<bool>, results: seq<int>)
    requires lipp.Valid() && q < |queries| == |base| == |found0| == |results0| && !o.Down?
    requires !found0[q] && results0[q] == base[q]
    requires match o
             case Missing => queries[q] !in lipp.Contents()
             case Hit(v) => queries[q] in lipp.Contents() && v == lipp.Contents()[queries[q]]
             case Down(c) => true
    ensures |found| == |results| == |queries|
    ensures Right(RightAnswers(lipp.Contents(), queries, base), found, results, q)
    ensures forall j :: 0 <= j < |queries| && j != q ==> found[j] == found0[j] && results[j] == results0[j]
  {
    found, results := found0, results0;
    if o.Hit? {
      results := results[q := o.value];
      found := found[q := true];
    }
  }

  lemma AnswersAreRight(c: Contents, queries: seq<int>, base: seq<int>, found: seq<bool>, results: seq<int>)
    requires |base| == |queries| == |found| == |results|
    requires var right := RightAnswers(c, queries, base);
             forall q :: 0 <= q < |queries| ==> (found[q], results[q]) == right[q]
    ensures BatchAnswered(c, queries, base, found, results)
  {
    var right := RightAnswers(c, queries, base);
    forall i | 0 <= i < |queries|
      ensures if queries[i] in c then found[i] && results[i] == c[queries[i]] else !found[i] && results[i] == base[i]
    {
      assert (found[i], results[i]) == right[i];
    }
  }

  /** One query at a time. */
  method NoPrefetchBatchLookup(lipp: LIPP, queries: seq<int>, results0: seq<int>)
      returns (found: seq<bool>, results: seq<int>)
    requires lipp.Valid()
    ensures BatchAnswered(lipp.Contents(), queries, BatchSearch.Resized(results0, |queries|), found, results)
  {
    hide LocalOk, Settled;
    found := seq(|queries|, _ => false);
    results := BatchSearch.Resized(results0, |queries|);
    ghost var base := results;
    ghost var right := RightAnswers(lipp.Contents(), queries, base);
    for i := 0 to |queries|
      invariant |found| == |results| == |queries|
      invariant forall q :: 0 <= q < i ==> (found[q], results[q]) == right[q]
      invariant forall q :: i <= q < |queries| ==> !found[q] && results[q] == base[q]
    {
      var o := Walk(lipp, queries[i]);
      found, results := Record(lipp, queries, base, i, o, found, results);
    }
    AnswersAreRight(lipp.Contents(), queries, base, found, results);
  }

  method Walk(lipp: LIPP, key: int) returns (o: Outcome)
    requires lipp.Valid()
    ensures match o
            case Missing => key !in lipp.Contents()
            case Hit(v) => key in lipp.Contents() && v == lipp.Contents()[key]
            case Down(c) => false
  {
    hide LocalOk, Settled;
    var node := lipp.root;
    while true
      invariant OnPath(lipp, node, key) && node.depth <= lipp.maxDepth
      decreases lipp.maxDepth - node.depth
    {
      o := VisitNode(lipp, node, key);
      if !o.Down? { return; }
      node := o.child;
    }
  }

  // ---- A pool of state machines ----

  datatype State = INIT | SEARCH | DONE

  datatype Machine = Machine(state: State, queryIdx: nat, node: Node?)

  /** What a machine stands for in the pool's books. */
  ghost predicate MachineOk(lipp: LIPP, queries: seq<int>, m: Machine, j: Job)
    requires lipp.Valid()
    reads lipp, lipp.nodes, NodeSet(lipp.pendingTwo), m.node
  {
    match m.state
    case DONE => j.Idle?
    case INIT => j == Job(m.queryIdx, lipp.maxDepth + 2) && m.queryIdx < |queries|
    case SEARCH =>
      && m.queryIdx < |queries| && m.node != null && OnPath(lipp, m.node, queries[m.queryIdx])
      && m.node.depth <= lipp.maxDepth && j == Job(m.queryIdx, lipp.maxDepth - m.node.depth + 1)
  }

  ghost predicate MachinesOk(lipp: LIPP, queries: seq<int>, pool: seq<Machine>, jobs: seq<Job>)
    requires lipp.Valid()
    reads lipp, lipp.nodes, NodeSet(lipp.pendingTwo), set m | m in pool && m.node != null :: m.node
  {
    |jobs| == |pool| && forall k :: 0 <= k < |pool| ==> MachineOk(lipp, queries, pool[k], jobs[k])
  }

  /** One poll of machine k. */
  method Poll(lipp: LIPP, queries: seq<int>, ghost base: seq<int>, pool0: seq<Machine>, ghost jobs0: seq<Job>, k: nat,
              found0: seq<bool>, results0: seq<int>, next0: nat, finished0: nat)
      returns (pool: seq<Machine>, ghost jobs: seq<Job>, found: seq<bool>, results: seq<int>, next: nat, finished: nat)
    requires lipp.Valid() && |base| == |queries| && k < |pool0| && MachinesOk(lipp, queries, pool0, jobs0)
    requires PoolOk(RightAnswers(lipp.Contents(), queries, base), base, jobs0, found0, results0, next0, finished0)
    ensures |pool| == |pool0| && MachinesOk(lipp, queries, pool, jobs) && next <= |queries| && next0 <= |queries|
    ensures PoolOk(RightAnswers(lipp.Contents(), queries, base), base, jobs, found, results, next, finished)
    ensures if jobs0[k].Idle? && next0 == |queries| then
              jobs == jobs0 && next == next0 && finished == finished0
            else Measure(|queries|, next, jobs, lipp.maxDepth + 2) < Measure(|queries|, next0, jobs0, lipp.maxDepth + 2)
  {
    hide PoolOk, RightAnswers, OnPath, Measure, LocalOk, Settled;
    ghost var right, most := RightAnswers(lipp.Contents(), queries, base), lipp.maxDepth + 2;
    pool, jobs, found, results, next, finished := pool0, jobs0, found0, results0, next0, finished0;
    assert MachineOk(lipp, queries, pool[k], jobs[k]);
    PoolNext(right, base, jobs, found, results, next, finished);
    if pool[k].state == DONE && next < |queries| {
      Assigned(right, base, jobs, found, results, next, finished, most, k, Job(next, most));
      pool := pool[k := Machine(INIT, next, null)];
      jobs := jobs[k := Job(next, most)];
      next := next + 1;
    }
    var m := pool[k];
    match m.state {
      case INIT =>
        AtRoot(lipp, queries[m.queryIdx]);
        Moved(right, base, jobs, found, results, next, finished, most, k, Job(m.queryIdx, lipp.maxDepth + 1));
        pool := pool[k := m.(node := lipp.root, state := SEARCH)];
        jobs := jobs[k := Job(m.queryIdx, lipp.maxDepth + 1)];
      case SEARCH =>
        JobOpen(right, base, jobs, found, results, next, finished, k);
        var o := VisitNode(lipp, m.node, queries[m.queryIdx]);
        if o.Down? {
          ghost var j := Job(m.queryIdx, lipp.maxDepth - o.child.depth + 1);
          Moved(right, base, jobs, found, results, next, finished, most, k, j);
          pool, jobs := pool[k := m.(node := o.child)], jobs[k := j];
        } else {
          ghost var f0, r0 := found, results;
          found, results := Record(lipp, queries, base, m.queryIdx, o, found, results);
          Completed(right, base, jobs, f0, r0, found, results, next, finished, most, k);
          pool, jobs := pool[k := m.(state := DONE)], jobs[k := Idle];
          finished := finished + 1;
        }
      case DONE =>
    }
  }

  lemma PoolNext(right: Answers, base: seq<int>, jobs: seq<Job>, found: seq<bool>, results: seq<int>, next: nat,
      finished: nat)
    requires PoolOk(right, base, jobs, found, results, next, finished)
    ensures next <= |right|
  {}

  lemma AtRoot(lipp: LIPP, key: int)
    requires lipp.Valid()
    ensures OnPath(lipp, lipp.root, key) && lipp.root.depth == 0
  {}

  /** One round over all machines makes progress while anything is left. */
  method Sweep(lipp: LIPP, queries: seq<int>, ghost base: seq<int>, pool0: seq<Machine>, ghost jobs0: seq<Job>,
               found0: seq<bool>, results0: seq<int>, next0: nat, finished0: nat)
      returns (pool: seq<Machine>, ghost jobs: seq<Job>, found: seq<bool>, results: seq<int>, next: nat, finished: nat)
    requires lipp.Valid() && |base| == |queries| && |pool0| > 0 && MachinesOk(lipp, queries, pool0, jobs0)
    requires PoolOk(RightAnswers(lipp.Contents(), queries, base), base, jobs0, found0, results0, next0, finished0)
    requires finished0 < |queries|
    ensures |pool| == |pool0| && MachinesOk(lipp, queries, pool, jobs) && next <= |queries| && next0 <= |queries|
    ensures PoolOk(RightAnswers(lipp.Contents(), queries, base), base, jobs, found, results, next, finished)
    ensures Measure(|queries|, next, jobs, lipp.maxDepth + 2) < Measure(|queries|, next0, jobs0, lipp.maxDepth + 2)
  {
    hide PoolOk, RightAnswers, MachineOk, Measure, LocalOk, Settled;
    ghost var right, most := RightAnswers(lipp.Contents(), queries, base), lipp.maxDepth + 2;
    PoolNext(right, base, jobs0, found0, results0, next0, finished0);
    pool, jobs, found, results, next, finished := pool0, jobs0, found0, results0, next0, finished0;
    ghost var progressed := false;
    for k := 0 to |pool0|
      invariant |pool| == |pool0| == |jobs| && MachinesOk(lipp, queries, pool, jobs) && next <= |queries|
      invariant PoolOk(right, base, jobs, found, results, next, finished)
      invariant if progressed then Measure(|queries|, next, jobs, most) < Measure(|queries|, next0, jobs0, most)
                else jobs == jobs0 && next == next0 && finished == finished0
                     && (k > 0 ==> next == |queries|) && forall j :: 0 <= j < k ==> jobs[j].Idle?
    {
      ghost var idle := jobs[k].Idle? && next == |queries|;
      pool, jobs, found, results, next, finished :=
          Poll(lipp, queries, base, pool, jobs, k, found, results, next, finished);
      if !idle { progressed := true; }
    }
    if !progressed {
      AllIdle(right, base, jobs, found, results, next, finished);
    }
  }

  /** The pooled batch lookup, for any pool size. */
  method AmacBatchLookup(lipp: LIPP, poolSize: nat, queries: seq<int>, results0: seq<int>)
      returns (found: seq<bool>, results: seq<int>)
    requires lipp.Valid() && poolSize >= 1
    ensures BatchAnswered(lipp.Contents(), queries, BatchSearch.Resized(results0, |queries|), found, results)
  {
    hide PoolOk, RightAnswers, Measure, OnPath, LocalOk, Settled;
    var total := |queries|;
    found := seq(total, _ => false);
    results := BatchSearch.Resized(results0, total);
    ghost var base := results;
    ghost var right, most := RightAnswers(lipp.Contents(), queries, base), lipp.maxDepth + 2;
    if total == 0 { return; }
    var pool := seq(poolSize, _ => Machine(DONE, 0, null));
    ghost var jobs := seq(poolSize, _ => Idle);
    var next: nat, finished: nat := 0, 0;
    EmptyPool(right, base, jobs, found);
    for i := 0 to poolSize
      invariant |pool| == poolSize && MachinesOk(lipp, queries, pool, jobs) && next <= total
      invariant PoolOk(right, base, jobs, found, results, next, finished)
      invariant forall k :: i <= k < poolSize ==> jobs[k].Idle?
    {
      if next < total {
        Assigned(right, base, jobs, found, results, next, finished, most, i, Job(next, most));
        pool := pool[i := Machine(INIT, next, null)];
        jobs := jobs[i := Job(next, most)];
        next := next + 1;
      }
    }
    while finished < total
      invariant |pool| == poolSize && MachinesOk(lipp, queries, pool, jobs) && next <= total
      invariant PoolOk(right, base, jobs, found, results, next, finished)
      decreases Measure(total, next, jobs, most)
    {
      pool, jobs, found, results, next, finished :=
          Sweep(lipp, queries, base, pool, jobs, found, results, next, finished);
    }
    Drained(right, base, jobs, found, results, next, finished);
    AnswersAreRight(lipp.Contents(), queries, base, found, results);
  }

  // ---- A task window with immediate refill ----

  datatype Task = Task(queryIdx: nat, node: Node?, active: bool)

  ghost predicate TaskOk(lipp: LIPP, queries: seq<int>, t: Task, j: Job)
    requires lipp.Valid()
    reads lipp, lipp.nodes, NodeSet(lipp.pendingTwo), t.node
  {
    if t.active then
      && t.queryIdx < |queries| && t.node != null && OnPath(lipp, t.node, queries[t.queryIdx])
      && t.node.depth <= lipp.maxDepth && j == Job(t.queryIdx, lipp.maxDepth - t.node.depth + 1)
    else j.Idle?
  }

  ghost predicate TasksOk(lipp: LIPP, queries: seq<int>, tasks: seq<Task>, jobs: seq<Job>)
    requires lipp.Valid()
    reads lipp, lipp.nodes, NodeSet(lipp.pendingTwo), set t | t in tasks && t.node != null :: t.node
  {
    |jobs| == |tasks| && forall k :: 0 <= k < |tasks| ==> TaskOk(lipp, queries, tasks[k], jobs[k])
  }

  /** One step of task k: refilled first when it is free, then one node further. */
  method StepTask(lipp: LIPP, queries: seq<int>, ghost base: seq<int>, tasks0: seq<Task>, ghost jobs0: seq<Job>, k: nat,
                  found0: seq<bool>, results0: seq<int>, next0: nat, finished0: nat)
      returns (tasks: seq<Task>, ghost jobs: seq<Job>, found: seq<bool>, results: seq<int>, next: nat, finished: nat)
    requires lipp.Valid() && |base| == |queries| && k < |tasks0| && TasksOk(lipp, queries, tasks0, jobs0)
    requires PoolOk(RightAnswers(lipp.Contents(), queries, base), base, jobs0, found0, results0, next0, finished0)
    ensures |tasks| == |tasks0| && TasksOk(lipp, queries, tasks, jobs) && next <= |queries| && next0 <= |queries|
    ensures PoolOk(RightAnswers(lipp.Contents(), queries, base), base, jobs, found, results, next, finished)
    ensures if jobs0[k].Idle? && next0 == |queries| then
              jobs == jobs0 && next == next0 && finished == finished0
            else Measure(|queries|, next, jobs, lipp.maxDepth + 1) < Measure(|queries|, next0, jobs0, lipp.maxDepth + 1)
  {
    hide PoolOk, RightAnswers, OnPath, Measure, LocalOk, Settled;
    ghost var right, most := RightAnswers(lipp.Contents(), queries, base), lipp.maxDepth + 1;
    tasks, jobs, found, results, next, finished := tasks0, jobs0, found0, results0, next0, finished0;
    assert TaskOk(lipp, queries, tasks[k], jobs[k]);
    PoolNext(right, base, jobs, found, results, next, finished);
    if !tasks[k].active {
      if next < |queries| {
        AtRoot(lipp, queries[next]);
        Assigned(right, base, jobs, found, results, next, finished, most, k, Job(next, most));
        tasks := tasks[k := Task(next, lipp.root, true)];
        jobs := jobs[k := Job(next, most)];
        next := next + 1;
      } else {
        return;
      }
    }
    var t := tasks[k];
    JobOpen(right, base, jobs, found, results, next, finished, k);
    var o := VisitNode(lipp, t.node, queries[t.queryIdx]);
    if o.Down? {
      ghost var j := Job(t.queryIdx, lipp.maxDepth - o.child.depth + 1);
      Moved(right, base, jobs, found, results, next, finished, most, k, j);
      tasks, jobs := tasks[k := t.(node := o.child)], jobs[k := j];
    } else {
      ghost var f0, r0 := found, results;
      found, results := Record(lipp, queries, base, t.queryIdx, o, found, results);
      Completed(right, base, jobs, f0, r0, found, results, next, finished, most, k);
      tasks, jobs := tasks[k := t.(active := false)], jobs[k := Idle];
      finished := finished + 1;
    }
  }

  /** One round over the window makes progress while anything is left. */
  method SweepTasks(lipp: LIPP, queries: seq<int>, ghost base: seq<int>, tasks0: seq<Task>, ghost jobs0: seq<Job>,
                    found0: seq<bool>, results0: seq<int>, next0: nat, finished0: nat)
      returns (tasks: seq<Task>, ghost jobs: seq<Job>, found: seq<bool>, results: seq<int>, next: nat, finished: nat)
    requires lipp.Valid() && |base| == |queries| && |tasks0| > 0 && TasksOk(lipp, queries, tasks0, jobs0)
    requires PoolOk(RightAnswers(lipp.Contents(), queries, base), base, jobs0, found0, results0, next0, finished0)
    requires finished0 < |queries|
    ensures |tasks| == |tasks0| && TasksOk(lipp, queries, tasks, jobs) && next <= |queries| && next0 <= |queries|
    ensures PoolOk(RightAnswers(lipp.Contents(), queries, base), base, jobs, found, results, next, finished)
    ensures Measure(|queries|, next, jobs, lipp.maxDepth + 1) < Measure(|queries|, next0, jobs0, lipp.maxDepth + 1)
  {
    hide PoolOk, RightAnswers, TaskOk, Measure, LocalOk, Settled;
    ghost var right, most := RightAnswers(lipp.Contents(), queries, base), lipp.maxDepth + 1;
    PoolNext(right, base, jobs0, found0, results0, next0, finished0);
    tasks, jobs, found, results, next, finished := tasks0, jobs0, found0, results0, next0, finished0;
    ghost var progressed := false;
    for k := 0 to |tasks0|
      invariant |tasks| == |tasks0| == |jobs| && TasksOk(lipp, queries, tasks, jobs) && next <= |queries|
      invariant PoolOk(right, base, jobs, found, results, next, finished)
      invariant if progressed then Measure(|queries|, next, jobs, most) < Measure(|queries|, next0, jobs0, most)
                else jobs == jobs0 && next == next0 && finished == finished0
                     && (k > 0 ==> next == |queries|) && forall j :: 0 <= j < k ==> jobs[j].Idle?
    {
      ghost var idle := jobs[k].Idle? && next == |queries|;
      tasks, jobs, found, results, next, finished :=
          StepTask(lipp, queries, base, tasks, jobs, k, found, results, next, finished);
      if !idle { progressed := true; }
    }
    if !progressed {
      AllIdle(right, base, jobs, found, results, next, finished);
    }
  }

  /** The windowed batch lookup, for any depth of the window. */
  method SppBatchLookup(lipp: LIPP, pipelineDepth: nat, queries: seq<int>, results0: seq<int>)
      returns (found: seq<bool>, results: seq<int>)
    requires lipp.Valid() && pipelineDepth >= 1
    ensures BatchAnswered(lipp.Contents(), queries, BatchSearch.Resized(results0, |queries|), found, results)
  {
    hide PoolOk, RightAnswers, Measure, OnPath, LocalOk, Settled;
    var total := |queries|;
    found := seq(total, _ => false);
    results := BatchSearch.Resized(results0, total);
    ghost var base := results;
    ghost var right, most := RightAnswers(lipp.Contents(), queries, base), lipp.maxDepth + 1;
    if total == 0 { return; }
    var tasks := seq(pipelineDepth, _ => Task(0, null, false));
    ghost var jobs := seq(pipelineDepth, _ => Idle);
    var next: nat, finished: nat := 0, 0;
    EmptyPool(right, base, jobs, found);
    for i := 0 to pipelineDepth
      invariant |tasks| == pipelineDepth && TasksOk(lipp, queries, tasks, jobs) && next <= total
      invariant PoolOk(right, base, jobs, found, results, next, finished)
      invariant forall k :: i <= k < pipelineDepth ==> jobs[k].Idle?
    {
      if next < total {
        AtRoot(lipp, queries[next]);
        Assigned(right, base, jobs, found, results, next, finished, most, i, Job(next, most));
        tasks := tasks[i := Task(next, lipp.root, true)];
        jobs := jobs[i := Job(next, most)];
        next := next + 1;
      }
    }
    while finished < total
      invariant |tasks| == pipelineDepth && TasksOk(lipp, queries, tasks, jobs) && next <= total
      invariant PoolOk(right, base, jobs, found, results, next, finished)
      decreases Measure(total, next, jobs, most)
    {
      tasks, jobs, found, results, next, finished :=
          SweepTasks(lipp, queries, base, tasks, jobs, found, results, next, finished);
    }
    Drained(right, base, jobs, found, results, next, finished);
    AnswersAreRight(lipp.Contents(), queries, base, found, results);
  }
}
