/** A pool of lookup jobs over a list of queries: every query is handed out once, a job
    that is done makes room for the next one, and the work left always shrinks. */
module Pool {

  /** What a pool slot is busy with: a query and the number of polls it may still take. */
  datatype Job = Idle | Job(query: nat, todo: nat)

  function TodoOf(j: Job): nat { if j.Idle? then 0 else j.todo }

  function BusyOf(j: Job): nat { if j.Idle? then 0 else 1 }

  function TotalTodo(jobs: seq<Job>): nat {
    if |jobs| == 0 then 0 else TotalTodo(jobs[..|jobs| - 1]) + TodoOf(jobs[|jobs| - 1])
  }

  function BusyCount(jobs: seq<Job>): nat {
    if |jobs| == 0 then 0 else BusyCount(jobs[..|jobs| - 1]) + BusyOf(jobs[|jobs| - 1])
  }

  lemma {:induction false} OneChanged(jobs: seq<Job>, k: nat, j: Job)
    requires k < |jobs|
    ensures TotalTodo(jobs[k := j]) == TotalTodo(jobs) - TodoOf(jobs[k]) + TodoOf(j)
    ensures BusyCount(jobs[k := j]) == BusyCount(jobs) - BusyOf(jobs[k]) + BusyOf(j)
  {
    hide TodoOf, BusyOf;
    var n := |jobs| - 1;
    if k == n {
      assert jobs[k := j][..n] == jobs[..n];
    } else {
      OneChanged(jobs[..n], k, j);
      assert jobs[k := j][..n] == jobs[..n][k := j];
    }
  }

  lemma {:induction false} BusyZero(jobs: seq<Job>)
    ensures BusyCount(jobs) == 0 <==> forall k :: 0 <= k < |jobs| ==> jobs[k].Idle?
  {
    if |jobs| > 0 { BusyZero(jobs[..|jobs| - 1]); }
  }

  /** The right outcome of each query: found or not, and the result. */
  type Answers = seq<(bool, int)>

  ghost predicate Right(right: Answers, found: seq<bool>, results: seq<int>, q: int) {
    0 <= q < |right| && |found| == |results| == |right| && (found[q], results[q]) == right[q]
  }

  ghost predicate Untouched(base: seq<int>, found: seq<bool>, results: seq<int>, q: int) {
    0 <= q < |base| && |found| == |results| == |base| && !found[q] && results[q] == base[q]
  }

  predicate Serves(j: Job, q: int) { j.Job? && j.query == q }

  ghost predicate Served(jobs: seq<Job>, q: int) {
    exists k :: 0 <= k < |jobs| && Serves(jobs[k], q)
  }

  /** Every query handed out is answered or in exactly one slot; the others are untouched;
      and the counts agree. */
  ghost predicate PoolOk(right: Answers, base: seq<int>, jobs: seq<Job>, found: seq<bool>, results: seq<int>,
                         next: nat, finished: nat) {
    && |found| == |results| == |base| == |right| && next <= |right|
    && (forall k :: 0 <= k < |jobs| && jobs[k].Job? ==> jobs[k].query < next && jobs[k].todo > 0)
    && (forall j, k :: 0 <= j < k < |jobs| && jobs[j].Job? && jobs[k].Job? ==> jobs[j].query != jobs[k].query)
    && (forall q :: 0 <= q < next ==> Right(right, found, results, q) || Served(jobs, q))
    && (forall k :: 0 <= k < |jobs| && jobs[k].Job? ==> Untouched(base, found, results, jobs[k].query))
    && (forall q :: next <= q < |right| ==> Untouched(base, found, results, q))
    && finished + BusyCount(jobs) == next
  }

  /** Work left, when no job takes more than `most` polls. */
  function Measure(total: nat, next: nat, jobs: seq<Job>, most: nat): (m: nat)
    requires next <= total
  {
    (total - next) * (most + 1) + TotalTodo(jobs)
  }

  /** A job moves on. */
  lemma Moved(right: Answers, base: seq<int>, jobs: seq<Job>, found: seq<bool>, results: seq<int>,
              next: nat, finished: nat, most: nat, k: nat, j: Job)
    requires PoolOk(right, base, jobs, found, results, next, finished) && k < |jobs|
    requires jobs[k].Job? && j.Job? && j.query == jobs[k].query && 0 < j.todo < jobs[k].todo
    ensures PoolOk(right, base, jobs[k := j], found, results, next, finished)
    ensures Measure(|right|, next, jobs[k := j], most) < Measure(|right|, next, jobs, most)
  {
    hide Right, Untouched;
    OneChanged(jobs, k, j);
    forall q | 0 <= q < next && Served(jobs, q) ensures Served(jobs[k := j], q) {
      var i :| 0 <= i < |jobs| && Serves(jobs[i], q);
      assert Serves(jobs[k := j][i], q);
    }
  }

  /** A free slot takes the next query. */
  lemma Assigned(right: Answers, base: seq<int>, jobs: seq<Job>, found: seq<bool>, results: seq<int>,
                 next: nat, finished: nat, most: nat, k: nat, j: Job)
    requires PoolOk(right, base, jobs, found, results, next, finished) && k < |jobs|
    requires jobs[k].Idle? && next < |right| && j.Job? && j.query == next && 0 < j.todo <= most
    ensures PoolOk(right, base, jobs[k := j], found, results, next + 1, finished)
    ensures Measure(|right|, next + 1, jobs[k := j], most) < Measure(|right|, next, jobs, most)
  {
    hide Right, Untouched;
    OneChanged(jobs, k, j);
    var p := jobs[k := j];
    forall q | 0 <= q < next + 1 && (q == next || Served(jobs, q)) ensures Served(p, q) {
      if q == next {
        assert Serves(p[k], q);
      } else {
        var i :| 0 <= i < |jobs| && Serves(jobs[i], q);
        assert Serves(p[i], q);
      }
    }
    assert (|right| - next) * (most + 1) == (|right| - next - 1) * (most + 1) + (most + 1);
  }

  /** A job records its answer and leaves the slot. */
  lemma Completed(right: Answers, base: seq<int>, jobs: seq<Job>, f0: seq<bool>, r0: seq<int>, f1: seq<bool>,
      r1: seq<int>, next: nat, finished: nat, most: nat, k: nat)
    requires PoolOk(right, base, jobs, f0, r0, next, finished) && k < |jobs| && jobs[k].Job?
    requires |f1| == |r1| == |right| && Right(right, f1, r1, jobs[k].query)
    requires forall q :: 0 <= q < |right| && q != jobs[k].query ==> f1[q] == f0[q] && r1[q] == r0[q]
    ensures PoolOk(right, base, jobs[k := Idle], f1, r1, next, finished + 1)
    ensures Measure(|right|, next, jobs[k := Idle], most) < Measure(|right|, next, jobs, most)
  {
    OneChanged(jobs, k, Idle);
    hide TotalTodo, BusyCount;
    var p, done := jobs[k := Idle], jobs[k].query;
    forall q | 0 <= q < next ensures Right(right, f1, r1, q) || Served(p, q) {
      if q != done && Served(jobs, q) {
        var i :| 0 <= i < |jobs| && Serves(jobs[i], q);
        assert Serves(p[i], q);
      }
    }
    forall q | 0 <= q < |right| && q != done && Untouched(base, f0, r0, q) ensures Untouched(base, f1, r1, q) {}
  }

  /** What a job still has to record: its query is untouched so far. */
  lemma JobOpen(right: Answers, base: seq<int>, jobs: seq<Job>, found: seq<bool>, results: seq<int>,
                next: nat, finished: nat, k: nat)
    requires PoolOk(right, base, jobs, found, results, next, finished) && k < |jobs| && jobs[k].Job?
    ensures |found| == |results| == |base| == |right| && jobs[k].query < |right|
    ensures !found[jobs[k].query] && results[jobs[k].query] == base[jobs[k].query]
  {
    assert Untouched(base, found, results, jobs[k].query);
  }

  lemma EmptyPool(right: Answers, base: seq<int>, jobs: seq<Job>, found: seq<bool>)
    requires |found| == |base| == |right| && forall i :: 0 <= i < |found| ==> !found[i]
    requires forall k :: 0 <= k < |jobs| ==> jobs[k].Idle?
    ensures PoolOk(right, base, jobs, found, base, 0, 0)
  {
    BusyZero(jobs);
  }

  /** When as many queries are finished as there are, all are answered. */
  lemma Drained(right: Answers, base: seq<int>, jobs: seq<Job>, found: seq<bool>, results: seq<int>, next: nat,
      finished: nat)
    requires PoolOk(right, base, jobs, found, results, next, finished) && finished >= |right|
    ensures |found| == |results| == |right|
    ensures finished == |right| && forall q :: 0 <= q < |right| ==> (found[q], results[q]) == right[q]
  {
    BusyZero(jobs);
    forall q | 0 <= q < |right| ensures (found[q], results[q]) == right[q] {
      assert !Served(jobs, q);
      assert Right(right, found, results, q);
    }
  }

  /** With all slots idle and all queries handed out, everything is finished. */
  lemma AllIdle(right: Answers, base: seq<int>, jobs: seq<Job>, found: seq<bool>, results: seq<int>, next: nat,
      finished: nat)
    requires PoolOk(right, base, jobs, found, results, next, finished) && next == |right|
    requires forall k :: 0 <= k < |jobs| ==> jobs[k].Idle?
    ensures finished == |right|
  {
    BusyZero(jobs);
  }
}
