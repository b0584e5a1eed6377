/** Group-at-a-time lookups over a uniform-depth tree: the interleaved fixed-step binary
    search with its last step fused into the descent, and the vectorized node search. All
    queries of a group sit at the same depth, so the first one tells where the leaves are. */
module BTreeGroups {
  import opened SortedSeq
  import BatchSearch
  import opened BTree

  /** Lane i of the group holds the node at depth d on the path of its query. */
  ghost predicate LaneOk(t: Tree, queries: seq<int>, start: nat, i: nat, node: TreeNode, d: nat)
    requires t.Ok() && t.root.Some?
  {
    && start + i < |queries| && d < t.h
    && node == NodeAt(t.root.value, t.h, t.innerMax, t.leafMax, queries[start + i], d)
  }

  ghost predicate LanesOk(t: Tree, queries: seq<int>, start: nat, n: nat, nodes: seq<TreeNode>, d: nat)
    requires t.Ok() && t.root.Some?
  {
    && n <= |nodes| && start + n <= |queries| && d < t.h
    && forall i :: 0 <= i < n ==> LaneOk(t, queries, start, i, nodes[i], d)
  }

  /** What the lanes know about their nodes. */
  lemma LaneNodes(t: Tree, queries: seq<int>, start: nat, n: nat, nodes: seq<TreeNode>, d: nat)
    requires t.Ok() && t.root.Some? && LanesOk(t, queries, start, n, nodes, d)
    ensures forall i :: 0 <= i < n ==> (nodes[i].Leaf? <==> d == t.h - 1) && Sorted(nodes[i].slotkey)
    ensures forall i :: 0 <= i < n && nodes[i].Inner? ==>
              |nodes[i].childid| == |nodes[i].slotkey| + 1 && |nodes[i].slotkey| <= t.innerMax
    ensures forall i :: 0 <= i < n && nodes[i].Leaf? ==> |nodes[i].slotdata| == |nodes[i].slotkey| <= t.leafMax
  {
    hide TreeOk, NodeAt;
    forall i | 0 <= i < n
      ensures (nodes[i].Leaf? <==> d == t.h - 1) && Sorted(nodes[i].slotkey)
      ensures nodes[i].Inner? ==> |nodes[i].childid| == |nodes[i].slotkey| + 1 && |nodes[i].slotkey| <= t.innerMax
      ensures nodes[i].Leaf? ==> |nodes[i].slotdata| == |nodes[i].slotkey| <= t.leafMax
    {
      assert LaneOk(t, queries, start, i, nodes[i], d);
      PathNode(t, queries[start + i], d);
    }
  }

  /** The child at the lower bound is the next node on the path. */
  lemma LaneSteps(t: Tree, queries: seq<int>, start: nat, i: nat, node: TreeNode, d: nat)
    requires t.Ok() && t.root.Some? && LaneOk(t, queries, start, i, node, d) && d + 1 < t.h
    ensures node.Inner? && Sorted(node.slotkey) && |node.childid| == |node.slotkey| + 1
    ensures LaneOk(t, queries, start, i, node.childid[Rank(node.slotkey, queries[start + i])], d + 1)
  {
    hide TreeOk, NodeAt, Rank;
    NextOnPath(t.root.value, t.h, t.innerMax, t.leafMax, queries[start + i], d);
  }

  lemma LanesAtRoot(t: Tree, queries: seq<int>, start: nat, n: nat, nodes: seq<TreeNode>)
    requires t.Ok() && t.root.Some? && n <= |nodes| && 0 < n && start + n <= |queries|
    requires forall i :: 0 <= i < n ==> nodes[i] == t.root.value
    ensures LanesOk(t, queries, start, n, nodes, 0)
  {
    hide TreeOk, NodeAt;
    forall i | 0 <= i < n ensures LaneOk(t, queries, start, i, nodes[i], 0) {
      AtRoot(t, queries[start + i]);
    }
    AtRoot(t, queries[start]);
  }

  // ---- Interleaved binary search ----

  /** The range still holds the lower bound, and fewer than w slots are left. */
  ghost predicate RangeOk(slotkey: seq<int>, key: int, lo: int, hi: int, w: nat) {
    Sorted(slotkey) && 0 <= lo <= Rank(slotkey, key) <= hi <= |slotkey| && hi - lo < w
  }

  ghost predicate RangesOk(nodes: seq<TreeNode>, queries: seq<int>, start: nat, n: nat, lo: seq<int>, hi: seq<int>,
      w: nat)
    requires n <= |nodes| && n <= |lo| && n <= |hi| && start + n <= |queries|
  {
    forall i :: 0 <= i < n ==> RangeOk(nodes[i].slotkey, queries[start + i], lo[i], hi[i], w)
  }

  /** One step for one lane: `calc_steps(m)` of them empty any range of at most m slots. */
  lemma HalveLane(slotkey: seq<int>, key: int, lo: int, hi: int, w: nat)
    requires RangeOk(slotkey, key, lo, hi, 2 * w) && w > 0
    ensures var r := BatchSearch.Halve(slotkey, key, lo, hi); RangeOk(slotkey, key, r.0, r.1, w)
  {
    BatchSearch.HalveKeepsRank(slotkey, key, lo, hi);
    hide Rank;
  }

  /** One step for the whole group. */
  method HalveGroup(nodes: array<TreeNode>, queries: seq<int>, start: nat, n: nat, lo: array<int>, hi: array<int>,
      ghost w: nat)
    requires lo != hi && n <= nodes.Length && n <= lo.Length && n <= hi.Length && start + n <= |queries| && w > 0
    requires RangesOk(nodes[..], queries, start, n, lo[..], hi[..], 2 * w)
    modifies lo, hi
    ensures RangesOk(nodes[..], queries, start, n, lo[..], hi[..], w)
  {
    hide RangeOk, Rank;
    var i := 0;
    while i < n
      invariant 0 <= i <= n
      invariant forall j :: 0 <= j < i ==> RangeOk(nodes[j].slotkey, queries[start + j], lo[j], hi[j], w)
      invariant forall j :: i <= j < n ==> RangeOk(nodes[j].slotkey, queries[start + j], lo[j], hi[j], 2 * w)
    {
      RangeInside(nodes[i].slotkey, queries[start + i], lo[i], hi[i], 2 * w);
      HalveLane(nodes[i].slotkey, queries[start + i], lo[i], hi[i], w);
      if lo[i] < hi[i] {
        var mid := (lo[i] + hi[i]) / 2;
        if queries[start + i] <= nodes[i].slotkey[mid] { hi[i] := mid; } else { lo[i] := mid + 1; }
      }
      i := i + 1;
    }
  }

  lemma RangeInside(slotkey: seq<int>, key: int, lo: int, hi: int, w: nat)
    requires RangeOk(slotkey, key, lo, hi, w)
    ensures Sorted(slotkey) && 0 <= lo <= hi <= |slotkey|
    ensures w <= 1 ==> lo == hi == Rank(slotkey, key)
  {
    hide Rank;
  }

  method InitRanges(nodes: array<TreeNode>, queries: seq<int>, start: nat, n: nat, lo: array<int>, hi: array<int>,
      ghost w: nat)
    requires lo != hi && n <= nodes.Length && n <= lo.Length && n <= hi.Length && start + n <= |queries|
    requires forall i :: 0 <= i < n ==> Sorted(nodes[i].slotkey) && |nodes[i].slotkey| < w
    modifies lo, hi
    ensures RangesOk(nodes[..], queries, start, n, lo[..], hi[..], w)
  {
    hide Rank;
    var i := 0;
    while i < n
      invariant 0 <= i <= n
      invariant forall j :: 0 <= j < i ==> RangeOk(nodes[j].slotkey, queries[start + j], lo[j], hi[j], w)
    {
      lo[i], hi[i] := 0, |nodes[i].slotkey|;
      i := i + 1;
    }
  }

  /** A fixed number of steps for the whole group. */
  method Rounds(nodes: array<TreeNode>, queries: seq<int>, start: nat, n: nat, lo: array<int>, hi: array<int>,
      steps: int, ghost left: nat)
    requires lo != hi && n <= nodes.Length && n <= lo.Length && n <= hi.Length && start + n <= |queries|
    requires RangesOk(nodes[..], queries, start, n, lo[..], hi[..],
                      BatchSearch.Pow2(left + if steps > 0 then steps else 0))
    modifies lo, hi
    ensures RangesOk(nodes[..], queries, start, n, lo[..], hi[..], BatchSearch.Pow2(left))
  {
    hide RangesOk;
    var step := 0;
    while step < steps
      invariant 0 <= step && (step <= steps || step == 0)
      invariant RangesOk(nodes[..], queries, start, n, lo[..], hi[..],
                         BatchSearch.Pow2(left + if steps > step then steps - step else 0))
    {
      HalveGroup(nodes, queries, start, n, lo, hi, BatchSearch.Pow2(left + steps - step - 1));
      step := step + 1;
    }
  }

  /** All but one of the steps, then the last one together with the move to the child. */
  method DescendGroup(t: Tree, queries: seq<int>, start: nat, n: nat, nodes: array<TreeNode>, lo: array<int>,
      hi: array<int>, innerSteps: int, ghost d: nat)
    requires t.Ok() && t.root.Some? && d + 1 < t.h && start + n <= |queries|
    requires lo != hi && n <= nodes.Length && n <= lo.Length && n <= hi.Length
    requires innerSteps >= 0 && BatchSearch.Pow2(innerSteps) > t.innerMax
    requires LanesOk(t, queries, start, n, nodes[..], d)
    modifies nodes, lo, hi
    ensures LanesOk(t, queries, start, n, nodes[..], d + 1)
  {
    hide TreeOk, Rank, LaneOk, RangesOk;
    LaneNodes(t, queries, start, n, nodes[..], d);
    InitRanges(nodes, queries, start, n, lo, hi, BatchSearch.Pow2(innerSteps));
    ghost var left := if innerSteps > 0 then 1 else 0;
    assert innerSteps == left + if innerSteps - 1 > 0 then innerSteps - 1 else 0;
    Rounds(nodes, queries, start, n, lo, hi, innerSteps - 1, left);
    LastStep(t, queries, start, n, nodes, lo, hi, BatchSearch.Pow2(left), d);
  }

  method LastStep(t: Tree, queries: seq<int>, start: nat, n: nat, nodes: array<TreeNode>, lo: array<int>,
      hi: array<int>, ghost w: nat, ghost d: nat)
    requires t.Ok() && t.root.Some? && d + 1 < t.h && start + n <= |queries|
    requires lo != hi && n <= nodes.Length && n <= lo.Length && n <= hi.Length && w <= 2
    requires LanesOk(t, queries, start, n, nodes[..], d)
    requires RangesOk(nodes[..], queries, start, n, lo[..], hi[..], w)
    modifies nodes, lo, hi
    ensures LanesOk(t, queries, start, n, nodes[..], d + 1)
  {
    hide TreeOk, Rank, LaneOk, RangeOk;
    ghost var nodes0, lo0, hi0 := nodes[..], lo[..], hi[..];
    var i := 0;
    while i < n
      invariant 0 <= i <= n
      invariant forall j :: 0 <= j < i ==> LaneOk(t, queries, start, j, nodes[j], d + 1)
      invariant forall j :: i <= j < n ==> nodes[j] == nodes0[j] && lo[j] == lo0[j] && hi[j] == hi0[j]
    {
      assert LaneOk(t, queries, start, i, nodes0[i], d);
      LaneSteps(t, queries, start, i, nodes[i], d);
      LaneEnds(nodes[i].slotkey, queries[start + i], lo[i], hi[i], w);
      if lo[i] < hi[i] {
        var mid := (lo[i] + hi[i]) / 2;
        if queries[start + i] <= nodes[i].slotkey[mid] { hi[i] := mid; } else { lo[i] := mid + 1; }
      }
      nodes[i] := nodes[i].childid[lo[i]];
      i := i + 1;
    }
  }

  /** With at most one slot left, one more step ends on the lower bound. */
  lemma LaneEnds(slotkey: seq<int>, key: int, lo: int, hi: int, w: nat)
    requires RangeOk(slotkey, key, lo, hi, w) && w <= 2
    ensures Sorted(slotkey) && 0 <= lo <= hi <= |slotkey|
    ensures var r := BatchSearch.Halve(slotkey, key, lo, hi); r.0 == Rank(slotkey, key)
  {
    BatchSearch.HalveKeepsRank(slotkey, key, lo, hi);
    hide Rank;
  }

  /** The answers of a group whose lanes sit at leaves with their lower bounds known. */
  method Collect(t: Tree, queries: seq<int>, ghost base: seq<int>, start: nat, n: nat, nodes: array<TreeNode>,
      slots: array<int>, found0: seq<bool>, results0: seq<int>) returns (found: seq<bool>, results: seq<int>)
    requires t.Ok() && t.root.Some? && t.h >= 1 && n <= nodes.Length && n <= slots.Length
    requires LanesOk(t, queries, start, n, nodes[..], t.h - 1)
    requires forall i :: 0 <= i < n ==>
               Sorted(nodes[i].slotkey) && slots[i] == Rank(nodes[i].slotkey, queries[start + i])
    requires Progress(t, queries, base, found0, results0, start)
    ensures Progress(t, queries, base, found, results, start + n)
  {
    hide TreeOk, Rank, NodeAt, Progress;
    LaneNodes(t, queries, start, n, nodes[..], t.h - 1);
    found, results := found0, results0;
    var i := 0;
    while i < n
      invariant 0 <= i <= n && Progress(t, queries, base, found, results, start + i)
    {
      assert LaneOk(t, queries, start, i, nodes[..][i], t.h - 1);
      found, results := AnswerAtLeaf(t, queries, base, nodes[i], slots[i], start + i, found, results);
      i := i + 1;
    }
  }

  /** Grouped lookup, for any group size. */
  method GroupBatchLookup(t: Tree, groupSize: nat, queries: seq<int>, results0: seq<int>)
      returns (found: seq<bool>, results: seq<int>)
    requires groupSize >= 1 && t.Ok()
    ensures BatchAnswered(t, queries, BatchSearch.Resized(results0, |queries|), found, results)
  {
    hide TreeOk, LanesOk, Progress, RangesOk, Rank;
    var innerSteps := BatchSearch.CalcSteps(t.innerMax);
    var leafSteps := BatchSearch.CalcSteps(t.leafMax);
    found := seq(|queries|, _ => false);
    results := BatchSearch.Resized(results0, |queries|);
    ghost var base := results;
    NothingAnswered(t, queries, base);
    if t.root.None? || |queries| == 0 {
      return;
    }
    var lo, hi := new int[groupSize], new int[groupSize];
    var start := 0;
    while start < |queries|
      invariant Progress(t, queries, base, found, results, if start < |queries| then start else |queries|)
    {
      var n := if groupSize < |queries| - start then groupSize else |queries| - start;
      var nodes := new TreeNode[groupSize](_ => t.root.value);
      LanesAtRoot(t, queries, start, n, nodes[..]);
      ghost var d := 0;
      LanesHeight(t, queries, start, n, nodes[..], d);
      while nodes[0].Inner?
        invariant d < t.h && LanesOk(t, queries, start, n, nodes[..], d)
        invariant nodes[0].Leaf? <==> d == t.h - 1
        decreases t.h - d
      {
        DescendGroup(t, queries, start, n, nodes, lo, hi, innerSteps, d);
        d := d + 1;
        LanesHeight(t, queries, start, n, nodes[..], d);
      }
      LaneNodes(t, queries, start, n, nodes[..], d);
      InitRanges(nodes, queries, start, n, lo, hi, BatchSearch.Pow2(leafSteps));
      Rounds(nodes, queries, start, n, lo, hi, leafSteps, 0);
      RangesEnd(nodes[..], queries, start, n, lo[..], hi[..]);
      found, results := Collect(t, queries, base, start, n, nodes, lo, found, results);
      start := start + groupSize;
    }
    AllAnswered(t, queries, base, found, results, |queries|);
  }

  lemma LanesHeight(t: Tree, queries: seq<int>, start: nat, n: nat, nodes: seq<TreeNode>, d: nat)
    requires t.Ok() && t.root.Some? && n > 0 && LanesOk(t, queries, start, n, nodes, d)
    ensures d < t.h && |nodes| > 0 && (nodes[0].Leaf? <==> d == t.h - 1)
  {
    hide TreeOk, LaneOk;
    LaneNodes(t, queries, start, n, nodes, d);
  }

  lemma RangesEnd(nodes: seq<TreeNode>, queries: seq<int>, start: nat, n: nat, lo: seq<int>, hi: seq<int>)
    requires n <= |nodes| && n <= |lo| && n <= |hi| && start + n <= |queries|
    requires RangesOk(nodes, queries, start, n, lo, hi, BatchSearch.Pow2(0))
    ensures forall i :: 0 <= i < n ==> Sorted(nodes[i].slotkey) && lo[i] == Rank(nodes[i].slotkey, queries[start + i])
  {
    hide Rank;
  }

  // ---- Vectorized node search ----

  /** Keys as 64-bit words. */
  predicate Words(s: seq<int>) { forall i :: 0 <= i < |s| ==> 0 <= s[i] < TWO64 }

  ghost predicate WordTree(n: TreeNode) {
    Words(n.slotkey) && (n.Inner? ==> forall i :: 0 <= i < |n.childid| ==> WordTree(n.childid[i]))
  }

  lemma {:induction false} PathWords(t: Tree, key: int, d: nat)
    requires t.Ok() && t.root.Some? && WordTree(t.root.value) && d < t.h
    ensures WordTree(NodeAt(t.root.value, t.h, t.innerMax, t.leafMax, key, d))
    decreases d
  {
    hide TreeOk, Words;
    if d == 0 {
      AtRoot(t, key);
    } else {
      PathWords(t, key, d - 1);
      NextOnPath(t.root.value, t.h, t.innerMax, t.leafMax, key, d - 1);
    }
  }

  /** The vector search on 64-bit keys, the binary search on others: the same slot. */
  method NodeLowerBound(slotkey: seq<int>, key: int, wide: bool, width: nat) returns (slot: nat)
    requires Sorted(slotkey) && (wide ==> Words(slotkey) && 0 <= key < TWO64)
    ensures slot == Rank(slotkey, key)
  {
    if wide {
      slot := SimdLowerBound(slotkey, key, width);
    } else {
      slot := FindLower(slotkey, key);
    }
  }

  /** The slots of a whole group. */
  method GroupSlots(t: Tree, queries: seq<int>, start: nat, n: nat, nodes: array<TreeNode>, slots: array<int>,
                    wide: bool, width: nat, ghost d: nat)
    requires t.Ok() && t.root.Some? && n <= nodes.Length && n <= slots.Length
    requires LanesOk(t, queries, start, n, nodes[..], d)
    requires wide ==> WordTree(t.root.value) && Words(queries)
    modifies slots
    ensures forall i :: 0 <= i < n ==>
              Sorted(nodes[i].slotkey) && slots[i] == Rank(nodes[i].slotkey, queries[start + i])
  {
    hide TreeOk, Rank, NodeAt, WordTree;
    LaneNodes(t, queries, start, n, nodes[..], d);
    var i := 0;
    while i < n
      invariant 0 <= i <= n
      invariant forall j :: 0 <= j < i ==> slots[j] == Rank(nodes[j].slotkey, queries[start + j])
    {
      assert LaneOk(t, queries, start, i, nodes[..][i], d);
      if wide {
        PathWords(t, queries[start + i], d);
        WordsHere(nodes[i]);
      }
      slots[i] := NodeLowerBound(nodes[i].slotkey, queries[start + i], wide, width);
      i := i + 1;
    }
  }

  lemma WordsHere(n: TreeNode)
    requires WordTree(n)
    ensures Words(n.slotkey)
  {}

  /** Every lane moves to the child in its slot. */
  method MoveGroup(t: Tree, queries: seq<int>, start: nat, n: nat, nodes: array<TreeNode>, slots: array<int>,
      ghost d: nat)
    requires t.Ok() && t.root.Some? && d + 1 < t.h && n <= nodes.Length && n <= slots.Length && start + n <= |queries|
    requires LanesOk(t, queries, start, n, nodes[..], d)
    requires forall i :: 0 <= i < n ==>
               Sorted(nodes[i].slotkey) && slots[i] == Rank(nodes[i].slotkey, queries[start + i])
    modifies nodes
    ensures LanesOk(t, queries, start, n, nodes[..], d + 1)
  {
    hide TreeOk, Rank, LaneOk;
    ghost var nodes0 := nodes[..];
    var i := 0;
    while i < n
      invariant 0 <= i <= n
      invariant forall j :: 0 <= j < i ==> LaneOk(t, queries, start, j, nodes[j], d + 1)
      invariant forall j :: i <= j < n ==> nodes[j] == nodes0[j]
    {
      assert LaneOk(t, queries, start, i, nodes0[i], d);
      LaneSteps(t, queries, start, i, nodes[i], d);
      nodes[i] := nodes[i].childid[slots[i]];
      i := i + 1;
    }
  }

  /** Vectorized lookup, for any vector size, lane count and key width. */
  method VectorizedBatchLookup(t: Tree, vectorSize: nat, wide: bool, width: nat, queries: seq<int>, results0: seq<int>)
      returns (found: seq<bool>, results: seq<int>)
    requires vectorSize >= 1 && t.Ok()
    requires wide ==> Words(queries) && (t.root.Some? ==> WordTree(t.root.value))
    ensures BatchAnswered(t, queries, BatchSearch.Resized(results0, |queries|), found, results)
  {
    hide TreeOk, LanesOk, Progress, Rank, WordTree;
    found := seq(|queries|, _ => false);
    results := BatchSearch.Resized(results0, |queries|);
    ghost var base := results;
    NothingAnswered(t, queries, base);
    if t.root.None? || |queries| == 0 {
      return;
    }
    var slots := new int[vectorSize];
    var start := 0;
    while start < |queries|
      invariant Progress(t, queries, base, found, results, if start < |queries| then start else |queries|)
    {
      var n := if vectorSize < |queries| - start then vectorSize else |queries| - start;
      var nodes := new TreeNode[vectorSize](_ => t.root.value);
      LanesAtRoot(t, queries, start, n, nodes[..]);
      ghost var d := 0;
      LanesHeight(t, queries, start, n, nodes[..], d);
      while nodes[0].Inner?
        invariant d < t.h && LanesOk(t, queries, start, n, nodes[..], d)
        invariant nodes[0].Leaf? <==> d == t.h - 1
        decreases t.h - d
      {
        GroupSlots(t, queries, start, n, nodes, slots, wide, width, d);
        MoveGroup(t, queries, start, n, nodes, slots, d);
        d := d + 1;
        LanesHeight(t, queries, start, n, nodes[..], d);
      }
      GroupSlots(t, queries, start, n, nodes, slots, wide, width, d);
      found, results := Collect(t, queries, base, start, n, nodes, slots, found, results);
      start := start + vectorSize;
    }
    AllAnswered(t, queries, base, found, results, |queries|);
  }
}
