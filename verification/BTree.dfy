/** A B+ tree as the schedulers see it: a uniform-depth search tree of nodes with sorted
    slots, the searches inside one node, and the one-at-a-time lookup. */
module BTree {
  import opened SortedSeq
  import opened BatchSearch

  datatype Option<T> = None | Some(value: T)

  datatype TreeNode = Inner(slotkey: seq<int>, childid: seq<TreeNode>) | Leaf(slotkey: seq<int>, slotdata: seq<int>)

  /** The pair is stored in some leaf. */
  ghost predicate Holds(n: TreeNode, k: int, v: int) {
    match n
    case Leaf(keys, data) => |data| == |keys| && exists i :: 0 <= i < |keys| && keys[i] == k && data[i] == v
    case Inner(_, children) => exists i :: 0 <= i < |children| && Holds(children[i], k, v)
  }

  /** Child i holds only keys above the separator before it and up to the one after it. */
  ghost predicate Between(n: TreeNode, i: nat)
    requires n.Inner? && |n.childid| == |n.slotkey| + 1 && i < |n.childid|
  {
    forall k, v :: Holds(n.childid[i], k, v) ==>
      (i > 0 ==> n.slotkey[i - 1] < k) && (i < |n.slotkey| ==> k <= n.slotkey[i])
  }

  /** All leaves at depth h - 1, no node over its slot limit. */
  ghost predicate Uniform(n: TreeNode, h: nat, innerMax: nat, leafMax: nat) {
    match n
    case Leaf(keys, data) => h == 1 && |data| == |keys| <= leafMax
    case Inner(keys, children) =>
      && h > 1 && |children| == |keys| + 1 && |keys| <= innerMax
      && forall i :: 0 <= i < |children| ==> Uniform(children[i], h - 1, innerMax, leafMax)
  }

  /** Slots are in order and separators separate. */
  ghost predicate Searchable(n: TreeNode) {
    match n
    case Leaf(keys, data) => |data| == |keys| && Increasing(keys)
    case Inner(keys, children) =>
      && |children| == |keys| + 1 && Sorted(keys)
      && forall i :: 0 <= i < |children| ==> Between(n, i) && Searchable(children[i])
  }

  ghost predicate TreeOk(n: TreeNode, h: nat, innerMax: nat, leafMax: nat) {
    Uniform(n, h, innerMax, leafMax) && Searchable(n)
  }

  /** The child on the lower-bound path of a key. */
  function Child(n: TreeNode, key: int): TreeNode
    requires n.Inner? && Sorted(n.slotkey) && |n.childid| == |n.slotkey| + 1
  {
    n.childid[Rank(n.slotkey, key)]
  }

  lemma ChildOk(n: TreeNode, h: nat, innerMax: nat, leafMax: nat, key: int)
    requires TreeOk(n, h, innerMax, leafMax) && n.Inner?
    ensures h > 1 && Sorted(n.slotkey) && |n.childid| == |n.slotkey| + 1
    ensures TreeOk(Child(n, key), h - 1, innerMax, leafMax)
  {}

  /** The node at depth d on the lower-bound path of a key. */
  ghost function NodeAt(n: TreeNode, h: nat, innerMax: nat, leafMax: nat, key: int, d: nat): (m: TreeNode)
    requires TreeOk(n, h, innerMax, leafMax) && d < h
    ensures TreeOk(m, h - d, innerMax, leafMax)
    decreases d
  {
    if d == 0 then n
    else
      ChildOk(n, h, innerMax, leafMax, key);
      NodeAt(Child(n, key), h - 1, innerMax, leafMax, key, d - 1)
  }

  /** One step further down the path. */
  lemma {:induction false} NextOnPath(n: TreeNode, h: nat, innerMax: nat, leafMax: nat, key: int, d: nat)
    requires TreeOk(n, h, innerMax, leafMax) && d + 1 < h
    ensures var m := NodeAt(n, h, innerMax, leafMax, key, d);
            && m.Inner? && Sorted(m.slotkey) && |m.childid| == |m.slotkey| + 1
            && NodeAt(n, h, innerMax, leafMax, key, d + 1) == Child(m, key)
    decreases d
  {
    ChildOk(n, h, innerMax, leafMax, key);
    hide TreeOk;
    if d > 0 {
      NextOnPath(Child(n, key), h - 1, innerMax, leafMax, key, d - 1);
    } else {
      assert NodeAt(Child(n, key), h - 1, innerMax, leafMax, key, 0) == Child(n, key);
    }
  }

  /** What the lookup of a key at a leaf answers. */
  ghost function LeafAnswer(n: TreeNode, key: int): Option<int>
    requires n.Leaf? && Sorted(n.slotkey) && |n.slotdata| == |n.slotkey|
  {
    var slot := Rank(n.slotkey, key);
    if slot < |n.slotkey| && key == n.slotkey[slot] then Some(n.slotdata[slot]) else None
  }

  lemma LeafOk(n: TreeNode, innerMax: nat, leafMax: nat)
    requires TreeOk(n, 1, innerMax, leafMax)
    ensures n.Leaf? && Sorted(n.slotkey) && |n.slotdata| == |n.slotkey| <= leafMax
  {}

  /** The value stored under a key, by the lower-bound path. */
  ghost function Find(n: TreeNode, h: nat, innerMax: nat, leafMax: nat, key: int): Option<int>
    requires TreeOk(n, h, innerMax, leafMax)
  {
    UniformHeight(n, h, innerMax, leafMax);
    LeafOk(NodeAt(n, h, innerMax, leafMax, key, h - 1), innerMax, leafMax);
    LeafAnswer(NodeAt(n, h, innerMax, leafMax, key, h - 1), key)
  }

  lemma UniformHeight(n: TreeNode, h: nat, innerMax: nat, leafMax: nat)
    requires Uniform(n, h, innerMax, leafMax)
    ensures h >= 1
  {}

  /** The path finds a key exactly when some leaf of the tree holds it, with its value. */
  lemma {:induction false} FindIsHolds(n: TreeNode, h: nat, innerMax: nat, leafMax: nat, key: int, v: int)
    requires TreeOk(n, h, innerMax, leafMax)
    ensures Find(n, h, innerMax, leafMax, key) == Some(v) <==> Holds(n, key, v)
    decreases h
  {
    match n
    case Leaf(keys, data) =>
      assert NodeAt(n, h, innerMax, leafMax, key, 0) == n;
      LeafHolds(n, key, v);
    case Inner(keys, children) =>
      ChildOk(n, h, innerMax, leafMax, key);
      FindIsHolds(Child(n, key), h - 1, innerMax, leafMax, key, v);
      assert Find(n, h, innerMax, leafMax, key) == Find(Child(n, key), h - 1, innerMax, leafMax, key);
      OnlyChild(n, key, v);
  }

  lemma LeafHolds(n: TreeNode, key: int, v: int)
    requires n.Leaf? && Searchable(n)
    ensures LeafAnswer(n, key) == Some(v) <==> Holds(n, key, v)
  {
    var slot := Rank(n.slotkey, key);
    hide Rank;
    if Holds(n, key, v) {
      var i :| 0 <= i < |n.slotkey| && n.slotkey[i] == key && n.slotdata[i] == v;
      assert slot <= i;
    }
  }

  /** A key held below an inner node is held by the child on its path. */
  lemma OnlyChild(n: TreeNode, key: int, v: int)
    requires n.Inner? && Searchable(n)
    ensures Holds(n, key, v) <==> Holds(Child(n, key), key, v)
  {
    if Holds(n, key, v) {
      var i :| 0 <= i < |n.childid| && Holds(n.childid[i], key, v);
      ChildIsRank(n, i, key, v);
    }
  }

  lemma ChildIsRank(n: TreeNode, i: nat, key: int, v: int)
    requires n.Inner? && |n.childid| == |n.slotkey| + 1 && Sorted(n.slotkey) && i < |n.childid|
    requires Between(n, i) && Holds(n.childid[i], key, v)
    ensures i == Rank(n.slotkey, key)
  {
    RankIs(n.slotkey, key, i);
  }

  // ---- Searching inside a node ----

  /** Halving until the range is empty. */
  method FindLower(slotkey: seq<int>, key: int) returns (slot: nat)
    requires Sorted(slotkey)
    ensures slot == Rank(slotkey, key)
  {
    if |slotkey| == 0 { return 0; }
    var lo, hi := 0, |slotkey|;
    while lo < hi
      invariant 0 <= lo <= Rank(slotkey, key) <= hi <= |slotkey|
    {
      var mid := (lo + hi) / 2;
      if key <= slotkey[mid] { hi := mid; } else { lo := mid + 1; }
    }
    return lo;
  }

  /** The first slot whose key is not below. */
  method LinearLowerBound(slotkey: seq<int>, key: int) returns (slot: nat)
    requires Sorted(slotkey)
    ensures slot == Rank(slotkey, key)
  {
    hide Rank;
    for s := 0 to |slotkey|
      invariant s <= Rank(slotkey, key)
    {
      if key <= slotkey[s] {
        RankIs(slotkey, key, s);
        return s;
      }
    }
    return |slotkey|;
  }

  const TWO63: int := 0x8000_0000_0000_0000
  const TWO64: int := 0x1_0000_0000_0000_0000

  /** A 64-bit word with its top bit flipped. */
  function FlipSign(x: int): (y: int)
    requires 0 <= x < TWO64
    ensures 0 <= y < TWO64
  {
    if x >= TWO63 then x - TWO63 else x + TWO63
  }

  /** The same word read as a signed number. */
  function Signed(x: int): int
    requires 0 <= x < TWO64
  {
    if x >= TWO63 then x - TWO64 else x
  }

  /** Signed comparison of flipped words is unsigned comparison of the words. */
  lemma FlippedCompare(a: int, b: int)
    requires 0 <= a < TWO64 && 0 <= b < TWO64
    ensures Signed(FlipSign(a)) > Signed(FlipSign(b)) <==> a > b
  {}

  /** The lanes of one block in which the query is greater. */
  function GreaterMask(key: int, block: seq<int>): (mask: seq<bool>)
    requires 0 <= key < TWO64 && forall i :: 0 <= i < |block| ==> 0 <= block[i] < TWO64
    ensures |mask| == |block|
  {
    seq(|block|, i requires 0 <= i < |block| => Signed(FlipSign(key)) > Signed(FlipSign(block[i])))
  }

  /** The number of set lanes before the first clear one. */
  function FirstClear(mask: seq<bool>): (i: nat)
    ensures i <= |mask| && (forall j :: 0 <= j < i ==> mask[j]) && (i < |mask| ==> !mask[i])
  {
    if |mask| == 0 || !mask[0] then 0 else 1 + FirstClear(mask[1..])
  }

  /** The first clear lane is the first key of the block that is not below the query. */
  lemma BlockLanes(slotkey: seq<int>, key: int, pos: nat, width: nat)
    requires pos + width <= |slotkey| && 0 <= key < TWO64
    requires forall i :: 0 <= i < |slotkey| ==> 0 <= slotkey[i] < TWO64
    ensures var lane := FirstClear(GreaterMask(key, slotkey[pos..pos + width]));
            && lane <= width && (forall j :: pos <= j < pos + lane ==> slotkey[j] < key)
            && (lane < width ==> key <= slotkey[pos + lane])
  {
    var block := slotkey[pos..pos + width];
    var greater := GreaterMask(key, block);
    var lane := FirstClear(greater);
    forall j | pos <= j < pos + lane ensures slotkey[j] < key {
      assert greater[j - pos];
      FlippedCompare(key, block[j - pos]);
    }
    if lane < width { FlippedCompare(key, block[lane]); }
  }

  /** Block by block with `width` lanes, none when width is zero, then the rest one by one. */
  method SimdLowerBound(slotkey: seq<int>, key: int, width: nat) returns (slot: nat)
    requires Sorted(slotkey) && 0 <= key < TWO64 && forall i :: 0 <= i < |slotkey| ==> 0 <= slotkey[i] < TWO64
    ensures slot == Rank(slotkey, key)
  {
    hide Rank, FlipSign, Signed, FirstClear;
    var slotuse := |slotkey|;
    if slotuse == 0 { return 0; }
    var pos := 0;
    while width > 0 && pos + width <= slotuse
      invariant pos <= slotuse && forall i :: 0 <= i < pos ==> slotkey[i] < key
      decreases slotuse - pos
    {
      var block := slotkey[pos..pos + width];
      var lane := FirstClear(GreaterMask(key, block));
      BlockLanes(slotkey, key, pos, width);
      if lane < width {
        RankIs(slotkey, key, pos + lane);
        return pos + lane;
      }
      pos := pos + width;
    }
    while pos < slotuse
      invariant pos <= slotuse && forall i :: 0 <= i < pos ==> slotkey[i] < key
    {
      if key <= slotkey[pos] {
        RankIs(slotkey, key, pos);
        return pos;
      }
      pos := pos + 1;
    }
    RankIs(slotkey, key, slotuse);
    return slotuse;
  }

  // ---- Lookups ----

  /** A tree, or none at all, with its height and slot limits. */
  datatype Tree = Tree(root: Option<TreeNode>, h: nat, innerMax: nat, leafMax: nat) {
    ghost predicate Ok() { root.Some? ==> TreeOk(root.value, h, innerMax, leafMax) }

    ghost function Lookup(key: int): Option<int>
      requires Ok()
    {
      if root.None? then None else Find(root.value, h, innerMax, leafMax, key)
    }
  }

  ghost predicate Answered(t: Tree, queries: seq<int>, base: seq<int>, found: seq<bool>, results: seq<int>, i: int)
    requires t.Ok()
  {
    && 0 <= i < |queries| && |found| == |results| == |base| == |queries|
    && var a := t.Lookup(queries[i]);
       found[i] == a.Some? && results[i] == if a.Some? then a.value else base[i]
  }

  ghost predicate BatchAnswered(t: Tree, queries: seq<int>, base: seq<int>, found: seq<bool>, results: seq<int>)
    requires t.Ok()
  {
    && |found| == |results| == |base| == |queries|
    && forall i :: 0 <= i < |queries| ==> Answered(t, queries, base, found, results, i)
  }

  /** Everything before the bound is answered, everything from it on untouched. */
  ghost predicate Progress(t: Tree, queries: seq<int>, base: seq<int>, found: seq<bool>, results: seq<int>, bound: nat)
    requires t.Ok()
  {
    && |found| == |results| == |base| == |queries| && bound <= |queries|
    && (forall j :: 0 <= j < bound ==> Answered(t, queries, base, found, results, j))
    && (forall j :: bound <= j < |queries| ==> !found[j] && results[j] == base[j])
  }

  lemma NothingAnswered(t: Tree, queries: seq<int>, base: seq<int>)
    requires t.Ok() && |base| == |queries|
    ensures Progress(t, queries, base, seq(|queries|, _ => false), base, 0)
    ensures t.root.None? || |queries| == 0 ==> BatchAnswered(t, queries, base, seq(|queries|, _ => false), base)
  {}

  lemma AllAnswered(t: Tree, queries: seq<int>, base: seq<int>, found: seq<bool>, results: seq<int>, bound: nat)
    requires t.Ok() && Progress(t, queries, base, found, results, bound) && bound >= |queries|
    ensures BatchAnswered(t, queries, base, found, results)
  {}

  lemma ProgressLengths(t: Tree, queries: seq<int>, base: seq<int>, found: seq<bool>, results: seq<int>, bound: nat)
    requires t.Ok() && Progress(t, queries, base, found, results, bound)
    ensures |found| == |results| == |base| == |queries| && bound <= |queries|
  {}

  /** Comparing the key at the lower bound in the leaf on the path answers the query. */
  method AnswerAtLeaf(t: Tree, queries: seq<int>, ghost base: seq<int>, leaf: TreeNode, slot: nat, q: nat,
                      found0: seq<bool>, results0: seq<int>) returns (found: seq<bool>, results: seq<int>)
    requires t.Ok() && t.root.Some? && t.h >= 1 && Progress(t, queries, base, found0, results0, q) && q < |queries|
    requires leaf == NodeAt(t.root.value, t.h, t.innerMax, t.leafMax, queries[q], t.h - 1)
    requires leaf.Leaf? && Sorted(leaf.slotkey) && |leaf.slotdata| == |leaf.slotkey|
    requires slot == Rank(leaf.slotkey, queries[q])
    ensures Progress(t, queries, base, found, results, q + 1)
  {
    hide Rank, NodeAt, TreeOk;
    found, results := found0, results0;
    if slot < |leaf.slotkey| && queries[q] == leaf.slotkey[slot] {
      results := results[q := leaf.slotdata[slot]];
      found := found[q := true];
    } else {
      found := found[q := false];
    }
    assert Answered(t, queries, base, found, results, q);
    forall j | 0 <= j < q ensures Answered(t, queries, base, found, results, j) {
      assert Answered(t, queries, base, found0, results0, j);
    }
  }

  lemma AtRoot(t: Tree, key: int)
    requires t.Ok() && t.root.Some?
    ensures t.h >= 1 && NodeAt(t.root.value, t.h, t.innerMax, t.leafMax, key, 0) == t.root.value
  {
    UniformHeight(t.root.value, t.h, t.innerMax, t.leafMax);
  }

  /** A node on the path is inner exactly above the last level. */
  lemma PathNode(t: Tree, key: int, d: nat)
    requires t.Ok() && t.root.Some? && d < t.h
    ensures var m := NodeAt(t.root.value, t.h, t.innerMax, t.leafMax, key, d);
            && (m.Leaf? <==> d == t.h - 1)
            && Sorted(m.slotkey)
            && (m.Leaf? ==> |m.slotdata| == |m.slotkey| <= t.leafMax)
            && (m.Inner? ==> |m.childid| == |m.slotkey| + 1 && |m.slotkey| <= t.innerMax)
  {
    var m := NodeAt(t.root.value, t.h, t.innerMax, t.leafMax, key, d);
    hide NodeAt;
    NodeOk(m, t.h - d, t.innerMax, t.leafMax);
  }

  lemma NodeOk(m: TreeNode, h: nat, innerMax: nat, leafMax: nat)
    requires TreeOk(m, h, innerMax, leafMax)
    ensures (m.Leaf? <==> h == 1) && Sorted(m.slotkey)
    ensures m.Leaf? ==> |m.slotdata| == |m.slotkey| <= leafMax
    ensures m.Inner? ==> |m.childid| == |m.slotkey| + 1 && |m.slotkey| <= innerMax
  {
    UniformHeight(m, h, innerMax, leafMax);
  }

  /** Counting down the leftmost path. */
  method GetTreeHeight(t: Tree) returns (h: nat)
    requires t.Ok()
    ensures h == if t.root.None? then 0 else t.h
  {
    if t.root.None? { return 0; }
    h := 1;
    var curr := t.root.value;
    while curr.Inner?
      invariant 1 <= h <= t.h && TreeOk(curr, t.h - h + 1, t.innerMax, t.leafMax)
      decreases t.h - h
    {
      curr := curr.childid[0];
      h := h + 1;
    }
    NodeOk(curr, t.h - h + 1, t.innerMax, t.leafMax);
  }

  /** One query at a time. */
  method NoPrefetchBatchLookup(t: Tree, queries: seq<int>, results0: seq<int>)
      returns (found: seq<bool>, results: seq<int>)
    requires t.Ok()
    ensures BatchAnswered(t, queries, Resized(results0, |queries|), found, results)
  {
    hide TreeOk, NodeAt, Rank, Progress, Find;
    found := seq(|queries|, _ => false);
    results := Resized(results0, |queries|);
    ghost var base := results;
    NothingAnswered(t, queries, base);
    if t.root.None? { return; }
    for i := 0 to |queries|
      invariant Progress(t, queries, base, found, results, i)
    {
      var key := queries[i];
      var leaf := Descend(t, key);
      var slot := FindLower(leaf.slotkey, key);
      found, results := AnswerAtLeaf(t, queries, base, leaf, slot, i, found, results);
    }
    AllAnswered(t, queries, base, found, results, |queries|);
  }

  method Descend(t: Tree, key: int) returns (leaf: TreeNode)
    requires t.Ok() && t.root.Some?
    ensures t.h >= 1 && leaf == NodeAt(t.root.value, t.h, t.innerMax, t.leafMax, key, t.h - 1)
    ensures leaf.Leaf? && Sorted(leaf.slotkey) && |leaf.slotdata| == |leaf.slotkey|
  {
    hide TreeOk, NodeAt, Rank;
    AtRoot(t, key);
    ghost var d := 0;
    leaf := t.root.value;
    PathNode(t, key, 0);
    while leaf.Inner?
      invariant d < t.h && leaf == NodeAt(t.root.value, t.h, t.innerMax, t.leafMax, key, d)
      invariant Sorted(leaf.slotkey) && (leaf.Leaf? <==> d == t.h - 1)
      decreases t.h - d
    {
      PathNode(t, key, d);
      NextOnPath(t.root.value, t.h, t.innerMax, t.leafMax, key, d);
      var slot := FindLower(leaf.slotkey, key);
      leaf := leaf.childid[slot];
      d := d + 1;
      PathNode(t, key, d);
    }
    PathNode(t, key, d);
  }
}
