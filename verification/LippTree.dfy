/** The updatable learned tree: lookups, inserts with rebuilds, bulk loading, and the pool
    of recycled two-key nodes. */
module LippTree {
  import opened SortedSeq
  import opened LippModel
  import opened LippMaps
  import opened LippNode
  import opened LippBuild
  import opened LippBulk
  import opened LippInsert
  import opened LippScan

  /** Pool entries are blank and pairwise distinct. */
  ghost predicate FreeListOk(pool: seq<Node>)
    reads set p | p in pool
  {
    && (forall i :: 0 <= i < |pool| ==> Blank(pool[i]))
    && Distinct(pool)
  }

  /** The map has exactly the listed keys, each with its value. */
  ghost predicate IsMapOf(c: Contents, vs: seq<(int, int)>) {
    && |c| == |vs|
    && forall i :: 0 <= i < |vs| ==> vs[i].0 in c && c[vs[i].0] == vs[i].1
  }

  class LIPP {
    const buildLrRemain: real
    const useFmcd: bool
    var root: Node
    var pendingTwo: seq<Node>
    ghost var nodes: set<Node>
    ghost var maxDepth: nat

    /** The tree is a map, and the pool is ready for use. */
    ghost predicate Sound()
      reads this, nodes, NodeSet(pendingTwo)
    {
      && buildLrRemain >= 0.0
      && root in nodes && root.depth == 0 && root.parent == null
      && AllOk(nodes) && Rooted(root, nodes)
      && (forall n :: n in nodes ==> n.depth <= maxDepth)
      && FreeListOk(pendingTwo) && NodeSet(pendingTwo) !! nodes
    }

    /** Between operations, also no node is due for a rebuild. */
    ghost predicate Valid()
      reads this, nodes, NodeSet(pendingTwo)
    {
      Sound() && forall n :: n in nodes ==> Settled(n)
    }

    /** The key-value map the tree stands for. */
    ghost function Contents(): map<int, int>
      reads this, root
    {
      root.contents
    }

    /** An empty index with `preallocated` recycled two-key nodes. */
    constructor (buildLrRemain: real, useFmcd: bool, preallocated: nat)
      requires buildLrRemain >= 0.0
      ensures Valid() && Contents() == map[] && fresh(nodes) && fresh(NodeSet(pendingTwo))
      ensures |pendingTwo| == preallocated
      ensures this.buildLrRemain == buildLrRemain && this.useFmcd == useFmcd
    {
      this.buildLrRemain, this.useFmcd := buildLrRemain, useFmcd;
      pendingTwo := [];
      var none := BuildTreeNone();
      root := none;
      nodes, maxDepth := {none}, 0;
      new;
      LocalGrows(none, {}, {none});
      Preallocate(preallocated);
    }

    /** Fills the pool: two-key nodes are built first and then taken apart again. */
    method Preallocate(count: nat)
      requires pendingTwo == []
      modifies this`pendingTwo
      ensures FreeListOk(pendingTwo) && |pendingTwo| == count && fresh(NodeSet(pendingTwo))
    {
      hide LocalOk, FrameOk, Blank;
      var built: seq<Node> := [];
      for i := 0 to count
        invariant pendingTwo == [] && |built| == i && Distinct(built)
        invariant forall j :: 0 <= j < i ==> fresh(built[j]) && FrameOk(built[j]) && built[j].isTwo
      {
        var node := BuildTreeTwo(0, 0, 1, 0, 0, null, 0);
        LocalFrame(node, {});
        built := built + [node];
      }
      for i := 0 to count
        invariant pendingTwo == built[..i] && FreeListOk(pendingTwo)
        invariant forall j :: 0 <= j < count ==> fresh(built[j])
        invariant forall j :: i <= j < count ==> FrameOk(built[j]) && built[j].isTwo
      {
        Recycle(built[i]);
      }
      assert built[..count] == built;
    }

    /** Walks from the root until a slot decides. */
    method Exists(key: int) returns (found: bool)
      requires Valid()
      ensures found <==> key in Contents()
    {
      var node := root;
      while true
        invariant node in nodes && (key in root.contents <==> key in node.contents)
        decreases maxDepth - node.depth
      {
        SlotDecides(node, nodes, key);
        var pos := node.Pos(key);
        match node.items[pos]
        case None => return false;
        case Data(k, v) => return k == key;
        case Child(c) => node := c;
      }
    }

    /** The value of a key that is present, with or without the existence check. */
    method At(key: int, skipExistenceCheck: bool) returns (value: int)
      requires Valid() && key in Contents()
      ensures value == Contents()[key]
    {
      var node := root;
      while true
        invariant node in nodes && key in node.contents && root.contents[key] == node.contents[key]
        decreases maxDepth - node.depth
      {
        SlotDecides(node, nodes, key);
        var pos := node.Pos(key);
        match node.items[pos]
        case None => assert false;
        case Data(k, v) =>
          if !skipExistenceCheck { assert k == key; }
          return v;
        case Child(c) => node := c;
      }
    }

    /** One slot, and counters at zero. */
    static ghost predicate EmptyNode(node: Node)
      reads node
    {
      && !node.isTwo && !node.fixed && node.buildSize == 0 && node.numInserts == 0 && node.numInsertToData == 0
      && node.items == [None] && node.model == LinearModel(0.0, 0.0)
    }

    /** An empty node of one slot. */
    static method BuildTreeNone() returns (node: Node)
      ensures fresh(node) && LocalOk(node, {}) && node.contents == map[]
      ensures node.depth == 0 && node.parent == null
      ensures EmptyNode(node)
    {
      node := new Node();
      node.isTwo, node.buildSize, node.size, node.fixed := false, 0, 0, false;
      node.numInserts, node.numInsertToData := 0, 0;
      node.model, node.items := LinearModel(0.0, 0.0), [None];
      node.contents, node.depth, node.parent := map[], 0, null;
    }

    /** A node for two keys, recycled from the pool when it has one. */
    method BuildTreeTwo(key1: int, value1: int, key2: int, value2: int,
                        ghost depth: nat, ghost parent: Node?, ghost slot: int) returns (node: Node)
      requires key1 != key2 && FreeListOk(pendingTwo)
      modifies this`pendingTwo, NodeSet(pendingTwo)
      ensures TwoKeys(node, key1, value1, key2, value2)
      ensures node.depth == depth && node.parent == parent && node.slot == slot
      ensures if old(pendingTwo) == [] then fresh(node) && pendingTwo == []
              else node == old(pendingTwo[|pendingTwo| - 1]) && pendingTwo == old(pendingTwo[..|pendingTwo| - 1])
      ensures FreeListOk(pendingTwo) && node !in NodeSet(pendingTwo)
      ensures forall p :: p in pendingTwo ==> unchanged(p)
    {
      var k1, v1, k2, v2 := key1, value1, key2, value2;
      if k1 > k2 {
        k1, v1, k2, v2 := k2, v2, k1, v1;
      }
      if pendingTwo == [] {
        node := new Node();
        node.isTwo, node.buildSize, node.size, node.fixed := true, 2, 2, false;
        node.numInserts, node.numInsertToData := 0, 0;
        node.items := seq(8, _ => None);
      } else {
        node := pendingTwo[|pendingTwo| - 1];
        pendingTwo := pendingTwo[..|pendingTwo| - 1];
      }
      FillTwo(node, k1, v1, k2, v2, depth, parent, slot);
    }

    /** Builds a two-key node and moves its fields into a node that already has its place. */
    method BuildTwoInto(node: Node, k1: int, v1: int, k2: int, v2: int)
      requires k1 < k2 && FreeListOk(pendingTwo) && node !in NodeSet(pendingTwo) && buildLrRemain >= 0.0
      requires node.contents == map[k1 := v1, k2 := v2]
      modifies this`pendingTwo, NodeSet(pendingTwo)
      modifies node`isTwo, node`buildSize, node`size, node`fixed, node`numInserts, node`numInsertToData, node`model,
               node`items
      ensures LocalOk(node, {}) && BuiltRight(node, buildLrRemain, useFmcd)
      ensures FreeListOk(pendingTwo) && NodeSet(pendingTwo) <= old(NodeSet(pendingTwo))
    {
      hide Part, LocalOk, FreeListOk, BuiltRight, TwoModel;
      var two := BuildTreeTwo(k1, v1, k2, v2, 0, null, 0);
      TwoBuiltRight(two, k1, v1, k2, v2, buildLrRemain, useFmcd);
      node.isTwo, node.buildSize, node.size, node.fixed := two.isTwo, two.buildSize, two.size, two.fixed;
      node.numInserts, node.numInsertToData := two.numInserts, two.numInsertToData;
      node.model, node.items := two.model, two.items;
      LocalCopy(two, node);
      BuiltCopy(two, node, buildLrRemain, useFmcd);
    }

    /** Builds the node of one pending segment; its larger key groups become new segments
        that together weigh less. */
    method BuildSegment(seg: Segment, keys: seq<int>, values: seq<int>)
      returns (segs: seq<Segment>, ghost born: set<Node>)
      requires buildLrRemain >= 0.0 && Increasing(keys) && |values| == |keys| && Representable(|keys|, buildLrRemain)
      requires SegOk(seg, keys, values) && FreeListOk(pendingTwo) && seg.node !in NodeSet(pendingTwo)
      modifies this`pendingTwo, NodeSet(pendingTwo)
      modifies seg.node`isTwo, seg.node`buildSize, seg.node`size, seg.node`fixed, seg.node`numInserts,
               seg.node`numInsertToData
      modifies seg.node`model, seg.node`items
      ensures LocalOk(seg.node, born) && BuiltRight(seg.node, buildLrRemain, useFmcd)
      ensures fresh(born) && born == SegNodes(segs) && SegsOk(segs, keys, values)
      ensures Weight(segs) < 2 * (seg.end - seg.begin) - 1
      ensures forall x :: x in born ==> x.depth == seg.node.depth + 1 && Hung(x, {seg.node})
      ensures FreeListOk(pendingTwo) && NodeSet(pendingTwo) <= old(NodeSet(pendingTwo))
    {
      hide LocalOk, PredictPos, NumItems, SegsOk, RunSegs, Increasing, FreeListOk, SegNodes, SliceMap, Weight, MapOf,
           Representable, BuiltRight, Hung;
      var begin, end, node := seg.begin, seg.end, seg.node;
      if end - begin == 2 {
        TwoKeySlice(keys, values, begin);
        BuildTwoInto(node, keys[begin], values[begin], keys[begin + 1], values[begin + 1]);
        segs, born := [], {};
        NoSegsOk(keys, values);
      } else {
        SliceReady(keys, values, begin, end, buildLrRemain);
        segs, born := BuildNode(node, keys[begin..end], values[begin..end], begin, seg.level, buildLrRemain, useFmcd);
        RunSegsOk(segs, keys, values, begin, end, seg.level + 1, node.depth + 1);
      }
    }

    /** One round of the bulk build: the topmost segment's node is completed, and its larger
        key groups wait instead. */
    method BuildRound(s: seq<Segment>, top: Segment, keys: seq<int>, values: seq<int>)
      returns (s': seq<Segment>, ghost rest: set<Node>, ghost born: set<Node>)
      requires buildLrRemain >= 0.0 && Increasing(keys) && |values| == |keys| && Representable(|keys|, buildLrRemain)
      requires |s| > 0 && top == s[|s| - 1] && SegsOk(s, keys, values)
      requires FreeListOk(pendingTwo) && SegNodes(s) !! NodeSet(pendingTwo)
      modifies this`pendingTwo, NodeSet(pendingTwo)
      modifies top.node`isTwo, top.node`buildSize, top.node`size, top.node`fixed, top.node`numInserts,
               top.node`numInsertToData
      modifies top.node`model, top.node`items
      ensures SegNodes(s) == rest + {top.node} && top.node !in rest
      ensures SegsOk(s', keys, values) && SegNodes(s') == rest + born && fresh(born)
      ensures 0 <= Weight(s') < Weight(s)
      ensures LocalOk(top.node, born) && BuiltRight(top.node, buildLrRemain, useFmcd)
      ensures forall x :: x in born ==> x.depth == top.node.depth + 1 && Hung(x, {top.node})
      ensures FreeListOk(pendingTwo) && NodeSet(pendingTwo) <= old(NodeSet(pendingTwo))
    {
      hide SliceMap, Increasing, LocalOk, Weight, SegsOk, SegOk, FreeListOk, Representable, BuiltRight, Hung;
      PopSeg(s, keys, values);
      var below := s[..|s| - 1];
      rest := SegNodes(below);
      var segs;
      segs, born := BuildSegment(top, keys, values);
      JoinSegs(below, segs, keys, values);
      WeightAppend(below, segs);
      s' := below + segs;
      SegWeights(s', keys, values);
    }

    /** Builds a tree over strictly increasing keys with an explicit stack of segments. The
        root of the new tree gets the place (depth, parent, slot) that the caller names. */
    method BuildTreeBulk(keys: seq<int>, values: seq<int>, ghost depth: nat, ghost parent: Node?, ghost slot: int)
      returns (ret: Node, ghost made: set<Node>, ghost deep: nat)
      requires buildLrRemain >= 0.0 && Increasing(keys) && |values| == |keys| >= 2
      requires Representable(|keys|, buildLrRemain) && FreeListOk(pendingTwo)
      modifies this`pendingTwo, NodeSet(pendingTwo)
      ensures fresh(made) && ret in made
      ensures ret.contents == MapOf(keys, values) && ret.depth == depth && ret.parent == parent && ret.slot == slot
      ensures AllOk(made) && Rooted(ret, made)
      ensures forall x :: x in made ==> BuiltRight(x, buildLrRemain, useFmcd) && Settled(x) && depth <= x.depth <= deep
      ensures FreeListOk(pendingTwo) && NodeSet(pendingTwo) <= old(NodeSet(pendingTwo))
    {
      hide SliceMap, Increasing, MapOf, LocalOk, Weight, SegsOk, SegNodes, SegOk, Settled, FreeListOk, Building,
           Representable, FrameOk, SlotOk, SlotHolds, Part, AllOk, NodeSet, BuiltRight, Rooted;
      ghost var pool := NodeSet(pendingTwo);
      ret := new Node();
      ret.contents, ret.depth, ret.parent, ret.slot := MapOf(keys, values), depth, parent, slot;
      NewcomersApart({ret}, pool);
      made, deep := BuildPending(ret, keys, values);
      LastBuilding(ret, made, deep, buildLrRemain, useFmcd);
    }

    /** Builds what waits on the stack, the new root first, until nothing waits. */
    method BuildPending(ret: Node, keys: seq<int>, values: seq<int>) returns (ghost made: set<Node>, ghost deep: nat)
      requires buildLrRemain >= 0.0 && Increasing(keys) && |values| == |keys| >= 2
      requires Representable(|keys|, buildLrRemain) && FreeListOk(pendingTwo) && ret !in NodeSet(pendingTwo)
      requires ret.contents == MapOf(keys, values)
      modifies this`pendingTwo, NodeSet(pendingTwo), ret`isTwo, ret`buildSize, ret`size, ret`fixed
      modifies ret`numInserts, ret`numInsertToData, ret`model, ret`items
      ensures ret in made && fresh(made - {ret}) && Building(ret, made, {}, deep, buildLrRemain, useFmcd)
      ensures FreeListOk(pendingTwo) && NodeSet(pendingTwo) <= old(NodeSet(pendingTwo))
    {
      hide SliceMap, Increasing, MapOf, LocalOk, Weight, SegsOk, SegNodes, SegOk, Settled, FreeListOk, Building,
           Representable, FrameOk, SlotOk, SlotHolds, Part, AllOk, NodeSet, BuiltRight, Rooted;
      ghost var pool := NodeSet(pendingTwo);
      var s := [Segment(0, |keys|, 1, ret)];
      made, deep := {ret}, ret.depth;
      FirstBuilding(ret, buildLrRemain, useFmcd);
      ghost var waiting := {ret};
      FirstSeg(keys, values, ret);
      SegWeights(s, keys, values);
      while |s| > 0
        invariant ret in made && fresh(made - {ret}) && waiting == SegNodes(s) <= made
                  && Building(ret, made, waiting, deep, buildLrRemain, useFmcd)
        invariant SegsOk(s, keys, values) && Weight(s) >= 0
        invariant FreeListOk(pendingTwo) && NodeSet(pendingTwo) <= pool && made !! pool
        decreases Weight(s)
      {
        SegTop(s);
        var top := s[|s| - 1];
        ghost var node, rest, born := top.node, {}, {};
        label Before:
        s, rest, born := BuildRound(s, top, keys, values);
        BuildStep@Before(ret, made, waiting, rest, node, born, deep, buildLrRemain, useFmcd);
        NewcomersApart(born, pool);
        made, waiting := made + born, rest + born;
        deep := if deep > node.depth then deep else node.depth + 1;
      }
      NoSegsOk(keys, values);
    }

    /** A two-key node goes back to the pool, blank; any other node is deleted. */
    method Recycle(node: Node)
      requires FrameOk(node) && FreeListOk(pendingTwo) && node !in NodeSet(pendingTwo)
      modifies this`pendingTwo, node`size, node`numInserts, node`numInsertToData, node`items
      ensures FreeListOk(pendingTwo)
      ensures pendingTwo == old(pendingTwo) + if old(node.isTwo) then [node] else []
      ensures NodeSet(pendingTwo) == old(NodeSet(pendingTwo)) + if old(node.isTwo) then {node} else {}
    {
      if node.isTwo {
        assert node.buildSize == 2 && |node.items| == 8;
        node.size, node.numInserts, node.numInsertToData := 2, 0, 0;
        node.items := seq(8, _ => None);
        pendingTwo := pendingTwo + [node];
      }
    }

    /** Flattens one node of a subtree and takes it out of the tree. */
    method ScanStep(top: Piece, keys: array<int>, values: array<int>, ghost whole: Contents)
      returns (pushed: seq<Piece>, ghost writes: multiset<int>)
      requires LocalOk(top.node, nodes) && (forall x :: x in nodes ==> FrameOk(x)) && top.node in nodes
      requires Fits(top.begin, top.part, whole) && top.node.contents == top.part && FreeListOk(pendingTwo)
               && top.node !in NodeSet(pendingTwo)
      requires keys != values && keys.Length == values.Length == |Listing(whole.Keys)|
      modifies this`pendingTwo, this`nodes, keys, values
      modifies top.node`size, top.node`numInserts, top.node`numInsertToData, top.node`items
      ensures nodes == old(nodes) - {top.node}
      ensures PiecesOk(pushed, whole) && Ordered(pushed, top.begin, End(top))
      ensures forall p :: p in pushed ==> p.node.contents == p.part
      ensures forall x :: x in PieceNodes(pushed) ==>
                x in nodes && x.parent == top.node && x.depth == top.node.depth + 1
      ensures old(Kids(top.node)) <= PieceNodes(pushed)
      ensures Output(keys[..], values[..], writes, pushed, top.begin, End(top), old(keys[..]), old(values[..]), whole)
      ensures FreeListOk(pendingTwo)
      ensures NodeSet(pendingTwo) == old(NodeSet(pendingTwo)) + if old(top.node.isTwo) then {top.node} else {}
    {
      hide Fits, Right, Pending, Ordered, PiecesOk, PieceNodes, FreeListOk, NodeSet, Listing, Increasing;
      LocalFrame(top.node, nodes);
      hide LocalOk, FrameOk;
      pushed, writes := ScanNode(top.node, top.begin, keys, values, nodes, whole);
      Recycle(top.node);
      nodes := nodes - {top.node};
    }

    /** One round of the scan: the topmost piece is written and its children wait instead. */
    method Advance(s: seq<Piece>, top: Piece, keys: array<int>, values: array<int>, ghost writes: multiset<int>,
        ghost whole: Contents)
      returns (s': seq<Piece>, ghost writes': multiset<int>, ghost kids: set<Node>)
      requires |s| > 0 && top == s[|s| - 1] && Progress(s, keys[..], values[..], writes, whole)
      requires PieceNodes(s) <= nodes && top.node in PieceNodes(s)
      requires forall p :: p in s ==> p.node.contents == p.part
      requires LocalOk(top.node, nodes) && (forall x :: x in nodes ==> FrameOk(x))
      requires forall x :: x in PieceNodes(s) ==> x.parent != top.node
      requires FreeListOk(pendingTwo) && NodeSet(pendingTwo) !! nodes
      requires keys != values && keys.Length == values.Length == |Listing(whole.Keys)|
      modifies this`pendingTwo, this`nodes, keys, values
      modifies top.node`size, top.node`numInserts, top.node`numInsertToData, top.node`items
      ensures nodes == old(nodes) - {top.node}
      ensures Progress(s', keys[..], values[..], writes', whole) && PieceNodes(s') == PieceNodes(s) - {top.node} + kids
      ensures forall p :: p in s' ==> p.node.contents == p.part
      ensures kids <= nodes && forall x :: x in kids ==> x.parent == top.node && x.depth == top.node.depth + 1
      ensures old(Kids(top.node)) <= kids
      ensures FreeListOk(pendingTwo)
      ensures NodeSet(pendingTwo) == old(NodeSet(pendingTwo)) + if old(top.node.isTwo) then {top.node} else {}
    {
      hide Right, Progress, Output, Ordered, PiecesOk, PieceNodes, FreeListOk, NodeSet, Listing, LocalOk, FrameOk, Kids,
           Fits, End;
      ProgressTop(s, keys[..], values[..], writes, whole);
      var rest := s[..|s| - 1];
      var pushed, more := ScanStep(top, keys, values, whole);
      kids := PieceNodes(pushed);
      ProgressStep(s, pushed, old(keys[..]), old(values[..]), keys[..], values[..], writes, more, whole);
      s', writes' := rest + pushed, writes + more;
    }

    /** Writes the keys of a subtree, in order and with their values, and takes its nodes
        out of the tree. Whatever the order of the stack, every position is written once. */
    method ScanAndDestroyTree(r: Node, keys: array<int>, values: array<int>)
      returns (ghost dead: set<Node>, ghost writes: multiset<int>)
      requires Sound() && r in nodes
      requires r.parent != null ==> r.parent in nodes && r.parent.depth < r.depth
      requires keys != values && keys.Length == values.Length == r.size
      modifies this`pendingTwo, this`nodes, nodes, keys, values
      ensures dead <= old(nodes) && old(Cut(r, nodes, dead, {})) && nodes == old(nodes) - dead
      ensures forall x :: x in nodes ==> unchanged(x)
      ensures forall x :: x in nodes && x != old(r.parent) ==> LocalOk(x, nodes)
      ensures old(r.parent) != null ==> old(r.parent) in nodes && LocalBut(old(r.parent), old(r.slot), nodes)
      ensures FreeListOk(pendingTwo)
      ensures NodeSet(pendingTwo) == old(NodeSet(pendingTwo) + Twos(dead))
      ensures Written(keys[..], values[..], writes, old(r.contents))
    {
      hide Progress, FreeListOk, NodeSet, Listing, LocalOk, LocalBut, Settled, FrameOk, Cut, Twos, Written, Felled;
      ghost var all := nodes;
      assert LocalOk(r, nodes);
      hide AllOk;
      ghost var twos;
      dead, twos, writes := ScanAll(r, keys, values);
      Uproot(r, all, dead, {}, twos, nodes);
      FelledGives(r, all, dead, {}, twos, nodes);
    }

    /** Writes and takes out what waits on the stack, the root of the subtree first. */
    method ScanAll(r: Node, keys: array<int>, values: array<int>)
      returns (ghost dead: set<Node>, ghost twos: set<Node>, ghost writes: multiset<int>)
      requires AllOk(nodes) && r in nodes && LocalOk(r, nodes) && FreeListOk(pendingTwo) && NodeSet(pendingTwo) !! nodes
      requires r.parent != null ==> r.parent in nodes && r.parent.depth < r.depth
      requires keys != values && keys.Length == values.Length == r.size
      modifies this`pendingTwo, this`nodes, nodes, keys, values
      ensures dead <= old(nodes) && nodes <= old(nodes) && twos <= old(nodes)
      ensures old(Felled(r, nodes, dead, {}, twos, nodes - dead)) && nodes == old(nodes) - dead
      ensures forall x :: x in nodes ==> unchanged(x)
      ensures Written(keys[..], values[..], writes, old(r.contents))
      ensures FreeListOk(pendingTwo) && NodeSet(pendingTwo) == old(NodeSet(pendingTwo)) + twos
    {
      hide Right, Progress, PieceNodes, FreeListOk, NodeSet, Listing, LocalOk, LocalBut, Settled, FrameOk, Cut, Kids,
           Twos, Written, Felled, AllOk;
      ghost var whole, all, pool := r.contents, nodes, NodeSet(pendingTwo);
      var s := [Piece(0, r, whole)];
      FirstProgress(r, nodes, keys[..], values[..]);
      FirstFelled(r, nodes);
      dead, twos, writes := {}, {}, multiset{};
      ghost var waiting, left := {r}, all;
      while |s| > 0
        invariant waiting == PieceNodes(s) && waiting <= all && nodes <= all && dead <= all && twos <= all
                  && left <= all
        invariant nodes == left && old(Felled(r, all, dead, waiting, twos, left))
        invariant forall x :: x in nodes ==> unchanged(x)
        invariant Progress(s, keys[..], values[..], writes, whole)
        invariant forall p :: p in s ==> p.node.contents == p.part
        invariant FreeListOk(pendingTwo) && NodeSet(pendingTwo) == pool + twos
        decreases nodes
      {
        Uproot(r, all, dead, waiting, twos, left);
        TopWaits(s);
        var piece := s[|s| - 1];
        ghost var top, kids := piece.node, {};
        assert unchanged(top);
        s, writes, kids := Advance(s, piece, keys, values, writes, whole);
        Prune(r, all, dead, waiting, twos, left, top, kids, nodes);
        Gather(pool, twos, if old(top.isTwo) then {top} else {});
        dead, waiting := dead + {top}, waiting - {top} + kids;
        twos, left := twos + (if old(top.isTwo) then {top} else {}), nodes;
      }
      AllWritten(keys[..], values[..], writes, whole);
      FelledRest(r, all, dead, twos, left);
    }

    /** A data slot in the making becomes a two-key node that keeps both keys. */
    method SplitSlot(node: Node, pos: int, key: int, value: int)
      requires node in nodes && 0 <= pos < |node.items| && node.items[pos].Data?
      requires LocalBut(node, pos, nodes) && SlotTakes(node, pos, key, value, nodes)
      requires forall x :: x in nodes && x != node ==> LocalOk(x, nodes)
      requires FreeListOk(pendingTwo) && NodeSet(pendingTwo) !! nodes
      modifies this`pendingTwo, this`nodes, node`items, NodeSet(pendingTwo)
      ensures AllOk(nodes) && old(nodes) <= nodes
      ensures forall x :: x in nodes - old(nodes) ==> Settled(x) && x.depth == node.depth + 1 && Hung(x, old(nodes))
      ensures |node.items| == old(|node.items|)
      ensures forall i :: 0 <= i < |node.items| && i != pos ==> node.items[i] == old(node.items[i])
      ensures node.items[pos].Child? && node.items[pos].child in nodes - old(nodes) && old(node.items[pos].key) != key
              && TwoKeys(node.items[pos].child, key, value, old(node.items[pos].key), old(node.items[pos].value))
      ensures FreeListOk(pendingTwo) && NodeSet(pendingTwo) !! nodes
      ensures fresh(nodes - old(nodes) - old(NodeSet(pendingTwo))) && NodeSet(pendingTwo) <= old(NodeSet(pendingTwo))
    {
      hide Part, LocalBut, LocalOk, FreeListOk;
      var data := node.items[pos];
      var child := BuildTreeTwo(key, value, data.key, data.value, node.depth + 1, node, pos);
      node.items := node.items[pos := Child(child)];
      FillSlot(node, pos, nodes, nodes + {child});
      LocalGrows(child, {}, nodes + {child});
      nodes := nodes + {child};
    }

    /** Walks down to the slot of a new key, counting it in on the way. */
    method Walk(key: int, value: int) returns (path: seq<Node>, node: Node)
      requires Valid() && key !in Contents()
      modifies nodes`size, nodes`numInserts, nodes`contents
      ensures Contents() == old(Contents())[key := value]
      ensures |path| > 0 && PathOk(path, key, nodes) && path[0] == root && path[|path| - 1] == node && node in nodes
      ensures |node.items| >= 1 && !node.items[node.Pos(key)].Child?
      ensures LocalBut(node, node.Pos(key), nodes) && SlotTakes(node, node.Pos(key), key, value, nodes)
      ensures forall x :: x in nodes && x != node ==> LocalOk(x, nodes)
      ensures old(LookupPath(path, key, root, nodes)) && AllCountedIn(path, nodes, key, value, 0)
    {
      hide LocalOk, LocalBut, SlotTakes, Hanging, PredictPos, Settled, FreeListOk, LinkOk, NodeSet, Rooted;
      node := root;
      path := [node];
      while true
        invariant node in nodes
        invariant |path| > 0 && PathOk(path, key, nodes) && path[0] == root && path[|path| - 1] == node
                  && node.depth == |path| - 1
        invariant root.depth == 0 && root.parent == null
        invariant key !in node.contents
        invariant if node == root then Contents() == old(Contents()) else Contents() == old(Contents())[key := value]
        invariant forall x :: x in nodes && x != node.parent ==> LocalOk(x, nodes)
        invariant node.parent != node && (node.parent != null ==> Hanging(node.parent, node, key, value, nodes))
        invariant forall x :: x in nodes ==>
                    if x in path && x != node then CountedIn(x, key, value, 0) else unchanged(x)
        decreases maxDepth - node.depth
      {
        label Entered:
        Visit(node, key, value, nodes);
        assert CountedIn(node, key, value, 0);
        PathKept@Entered(path, key, nodes, nodes);
        if !node.items[node.Pos(key)].Child? {
          break;
        }
        var c := node.items[node.Pos(key)].child;
        NextHangs(node, c, key, value, nodes);
        NotOnPath(path, c, key, nodes);
        PathGrows(path, c, key, nodes);
        path := path + [c];
        node := c;
      }
      PathWas(path, key, nodes);
    }

    /** The key goes into the slot that the walk ended at. */
    method PutKey(path: seq<Node>, node: Node, key: int, value: int) returns (toData: int)
      requires root in nodes && |path| > 0 && PathOk(path, key, nodes) && node == path[|path| - 1] && node in nodes
      requires Rooted(root, nodes) && |node.items| >= 1 && !node.items[node.Pos(key)].Child?
      requires LocalBut(node, node.Pos(key), nodes) && SlotTakes(node, node.Pos(key), key, value, nodes)
      requires forall x :: x in nodes && x != node ==> LocalOk(x, nodes)
      requires forall x :: x in nodes ==> x.depth <= maxDepth
      requires FreeListOk(pendingTwo) && NodeSet(pendingTwo) !! nodes
      modifies this`pendingTwo, this`nodes, this`maxDepth, node`items, NodeSet(pendingTwo)
      ensures AllOk(nodes) && Rooted(root, nodes) && PathOk(path, key, nodes) && old(nodes) <= nodes
      ensures forall x :: x in nodes ==> x.depth <= maxDepth
      ensures toData == if old(node.items[node.Pos(key)]).Data? then 1 else 0
      ensures SlotTaken(node, key, value, nodes - old(nodes))
      ensures forall i :: 0 <= i < |node.items| && i != old(node.Pos(key)) ==> node.items[i] == old(node.items[i])
      ensures forall x :: x in nodes - old(nodes) ==> Settled(x)
      ensures FreeListOk(pendingTwo) && NodeSet(pendingTwo) !! nodes
      ensures fresh(nodes - old(nodes) - old(NodeSet(pendingTwo))) && NodeSet(pendingTwo) <= old(NodeSet(pendingTwo))
    {
      hide LocalOk, LocalBut, SlotTakes, PredictPos, Settled, PathOk, AllOk, Blank, Rooted, FreeListOk, TwoKeys, Hung;
      PathDistinct(path, key, nodes);
      toData := 0;
      var pos := node.Pos(key);
      if node.items[pos].None? {
        FillEmpty(node, pos, key, value, nodes);
      } else {
        SplitSlot(node, pos, key, value);
        toData := 1;
        maxDepth := maxDepth + 1;
      }
      PathKept(path, key, old(nodes), nodes);
      RootedGrows(root, node, pos, old(nodes), nodes);
    }

    /** Walks down to the slot of a new key and puts it there. The flag says whether the slot
        was taken. */
    method Descend(key: int, value: int) returns (path: seq<Node>, toData: int)
      requires Valid() && key !in Contents()
      modifies this`pendingTwo, this`nodes, this`maxDepth, nodes, NodeSet(pendingTwo)
      ensures Sound() && Contents() == old(Contents())[key := value]
      ensures |path| > 0 && PathOk(path, key, nodes) && path[0] == root
      ensures (forall j :: 0 <= j < |path| ==> path[j] in old(nodes)) && old(LookupPath(path, key, root, nodes))
      ensures toData == if old(Conflicts(path, key)) then 1 else 0
      ensures old(nodes) <= nodes && AllCountedIn(path, old(nodes), key, value, 0)
      ensures SlotTaken(path[|path| - 1], key, value, nodes - old(nodes))
      ensures forall x :: x in old(nodes) ==> old(Kids(x)) <= Kids(x)
      ensures forall x :: x in nodes - old(nodes) ==> Settled(x)
      ensures fresh(nodes - old(nodes) - old(NodeSet(pendingTwo))) && NodeSet(pendingTwo) <= old(NodeSet(pendingTwo))
    {
      hide LocalOk, LocalBut, SlotTakes, PredictPos, Settled, PathOk, AllOk, Blank, Rooted, FreeListOk, TwoKeys;
      var node;
      path, node := Walk(key, value);
      PathDistinct(path, key, nodes);
      RootedSame(root, nodes);
      toData := PutKey(path, node, key, value);
      forall x | x in old(nodes) ensures if x in path then CountedIn(x, key, value, 0) else unchanged(x) {}
    }

    /** Takes a subtree out and returns its keys and values as sorted arrays. */
    method Flatten(r: Node) returns (keys: seq<int>, values: seq<int>, ghost dead: set<Node>)
      requires Sound() && r in nodes
      requires r.parent != null ==> r.parent in nodes && r.parent.depth < r.depth
      modifies this`pendingTwo, this`nodes, nodes
      ensures Increasing(keys) && |keys| == |values| == old(r.size) && MapOf(keys, values) == old(r.contents)
      ensures dead <= old(nodes) && old(Cut(r, nodes, dead, {})) && nodes == old(nodes) - dead
      ensures forall x :: x in nodes ==> unchanged(x)
      ensures forall x :: x in nodes && x != old(r.parent) ==> LocalOk(x, nodes)
      ensures old(r.parent) != null ==> old(r.parent) in nodes && LocalBut(old(r.parent), old(r.slot), nodes)
      ensures FreeListOk(pendingTwo) && NodeSet(pendingTwo) <= old(NodeSet(pendingTwo)) + dead
    {
      hide Written, LocalOk, LocalBut, FrameOk, FreeListOk, Listing, Cut, Twos, Settled, MapOf, Increasing;
      ghost var whole := r.contents;
      SizeIs(r, nodes);
      var k, v := new int[r.size], new int[r.size];
      ghost var writes;
      dead, writes := ScanAndDestroyTree(r, k, v);
      keys, values := k[..], v[..];
      WrittenIsMap(keys, values, writes, whole);
    }

    /** Flattens a subtree and builds a new one over the same keys, not hung up yet. */
    method Regrow(r: Node) returns (newNode: Node, ghost dead: set<Node>, ghost made: set<Node>)
      requires Sound() && r in nodes && r.size >= 2 && Representable(r.size, buildLrRemain)
      requires r.parent != null ==> r.parent in nodes && r.parent.depth < r.depth
      modifies this`pendingTwo, this`nodes, this`maxDepth, nodes, NodeSet(pendingTwo)
      ensures dead <= old(nodes) && old(Cut(r, nodes, dead, {})) && nodes == old(nodes) - dead
      ensures fresh(made) && newNode in made && AllOk(made) && Rooted(newNode, made)
      ensures newNode.contents == old(r.contents) && newNode.parent == old(r.parent)
      ensures newNode.slot == old(r.slot) && newNode.depth == old(r.depth)
      ensures forall x :: x in made ==> BuiltRight(x, buildLrRemain, useFmcd) && Settled(x) && x.depth <= maxDepth
      ensures maxDepth >= old(maxDepth)
      ensures forall x :: x in nodes ==> unchanged(x)
      ensures forall x :: x in nodes && x != old(r.parent) ==> LocalOk(x, nodes)
      ensures old(r.parent) != null ==> old(r.parent) in nodes && LocalBut(old(r.parent), old(r.slot), nodes)
      ensures FreeListOk(pendingTwo) && NodeSet(pendingTwo) <= old(NodeSet(pendingTwo)) + dead
    {
      hide LocalOk, LocalBut, FreeListOk, Cut, MapOf, Increasing, Settled, BuiltRight, Rooted;
      ghost var p, slot, depth := r.parent, r.slot, r.depth;
      var keys, values;
      keys, values, dead := Flatten(r);
      ghost var deep;
      newNode, made, deep := BuildTreeBulk(keys, values, depth, p, slot);
      maxDepth := if deep > maxDepth then deep else maxDepth;
    }

    /** The node has the place of the walk's node i: it is the root, or hangs in the slot that
        the node before has for the key. */
    ghost predicate InPlace(n: Node, path: seq<Node>, i: nat, key: int)
      requires i < |path|
      reads this, set x | x in path
    {
      if i == 0 then root == n
      else |path[i - 1].items| >= 1 && path[i - 1].items[path[i - 1].Pos(key)] == Child(n)
    }

    /** Hangs a new subtree into the tree, where a slot is in the making for it. */
    method HangUp(p: Node, pos: int, newNode: Node, ghost made: set<Node>)
      requires p in nodes && 0 <= pos < |p.items| && LocalBut(p, pos, nodes)
      requires forall x :: x in nodes && x != p ==> LocalOk(x, nodes)
      requires AllOk(made) && Rooted(newNode, made) && newNode in made && nodes !! made
      requires newNode.parent == p && newNode.slot == pos && newNode.depth == p.depth + 1
      requires newNode.contents == Part(p.contents, p.model, |p.items|, pos)
      requires forall x :: x in nodes && x != root ==> Hung(x, nodes) && (x.parent != p || x.slot != pos)
      modifies this`nodes, p`items
      ensures nodes == old(nodes) + made && AllOk(nodes) && Rooted(root, nodes)
      ensures p.items == old(p.items)[pos := Child(newNode)]
    {
      hide LocalOk, LocalBut, Part, Hung;
      Graft(p, pos, newNode, nodes, made);
      GraftHangs(root, p, pos, newNode, nodes, made);
      nodes := nodes + made;
    }

    /** The new tree takes the place of the root. */
    method HangRoot(newNode: Node, ghost made: set<Node>)
      requires AllOk(nodes) && (forall x :: x in nodes ==> Hung(x, nodes)) && AllOk(made) && Rooted(newNode, made)
      modifies this`root, this`nodes
      ensures root == newNode && nodes == old(nodes) + made && AllOk(nodes) && Rooted(root, nodes)
    {
      hide LocalOk, Hung;
      root := newNode;
      AllGrows(nodes, nodes + made);
      AllGrows(made, nodes + made);
      UnionRooted(root, nodes, made);
      nodes := nodes + made;
    }

    /** Rebuilds the subtree at a node of the walk and hangs the new one in its place. */
    method Rebuild(path: seq<Node>, i: nat, key: int) returns (newNode: Node, ghost dead: set<Node>)
      requires Sound() && PathOk(path, key, nodes) && i < |path| && path[0] == root
      requires path[i].size >= 2 && Representable(path[i].size, buildLrRemain)
      modifies this`root, this`pendingTwo, this`nodes, this`maxDepth, nodes, NodeSet(pendingTwo)
      ensures Sound() && Contents() == old(Contents())
      ensures dead <= old(nodes) && old(Cut(path[i], nodes, dead, {}))
      ensures forall x :: x in old(nodes) ==> (x in nodes <==> x !in dead)
      ensures forall j :: 0 <= j < |path| ==> (path[j] in nodes <==> j < i)
      ensures fresh(newNode) && newNode in nodes && newNode.contents == old(path[i].contents)
      ensures InPlace(newNode, path, i, key) && (i > 0 ==> root == old(root))
      ensures forall x :: x in old(nodes) - dead ==>
                if i > 0 && x == path[i - 1] then SlotsBut(x, key) else unchanged(x)
      ensures forall x :: x in nodes - old(nodes) ==> fresh(x) && BuiltRight(x, buildLrRemain, useFmcd) && Settled(x)
      ensures NodeSet(pendingTwo) <= old(NodeSet(pendingTwo)) + old(nodes)
    {
      hide LocalOk, LocalBut, FrameOk, FreeListOk, Cut, PredictPos, Part, BuiltRight, Rooted, Settled, Hung, NodeSet;
      var r := path[i];
      if i > 0 {
        PathLink(path, i, key, nodes);
      }
      ghost var all, pool := nodes, NodeSet(pendingTwo);
      ghost var made;
      newNode, dead, made := Regrow(r);
      RestDies(path, key, all, dead, i);
      RestHangs(root, r, all, dead);
      NewcomersApart(made, pool);
      NewcomersApart(made, all);
      PoolApart(NodeSet(pendingTwo), pool, all, dead, made);
      PoolOutside(pendingTwo, nodes);
      if i == 0 {
        HangRoot(newNode, made);
      } else {
        HangUp(path[i - 1], path[i - 1].Pos(key), newNode, made);
      }
      forall x | x in all - dead ensures if i > 0 && x == path[i - 1] then SlotsBut(x, key) else unchanged(x) {}
    }

    /** A node is due for a rebuild when enough of its inserts hit occupied slots. */
    predicate NeedRebuild(node: Node)
      reads node
    {
      !node.fixed && node.size >= node.buildSize * 4 && node.size >= 64 && node.numInsertToData * 10 >= node.numInserts
    }

    /** The flag is added along the whole walk, and nowhere else. */
    method CountConflicts(path: seq<Node>, toData: int, key: int)
      requires Sound() && PathOk(path, key, nodes) && path[0] == root
      modifies nodes`numInsertToData
      ensures Sound() && PathOk(path, key, nodes)
      ensures forall j :: 0 <= j < |path| ==> path[j].numInsertToData == old(path[j].numInsertToData) + toData
      ensures forall x :: x in nodes && x !in path ==> unchanged(x)
    {
      hide LocalOk, Blank, PredictPos, Rooted;
      for i := 0 to |path|
        invariant forall x :: x in nodes && x !in path ==> x.numInsertToData == old(x.numInsertToData)
        invariant forall j :: 0 <= j < i ==> path[j].numInsertToData == old(path[j].numInsertToData) + toData
        invariant forall j :: i <= j < |path| ==> path[j].numInsertToData == old(path[j].numInsertToData)
      {
        path[i].numInsertToData := path[i].numInsertToData + toData;
      }
      CountersOnly(nodes);
      RootedSame(root, nodes);
      PathKept(path, key, nodes, nodes);
    }

    /** Puts the key in and updates the counters on its way. */
    method CountIn(key: int, value: int) returns (path: seq<Node>)
      requires Valid() && key !in Contents()
      modifies this`pendingTwo, this`nodes, this`maxDepth, nodes, NodeSet(pendingTwo)
      ensures Sound() && Contents() == old(Contents())[key := value]
      ensures |path| > 0 && PathOk(path, key, nodes) && path[0] == root
      ensures (forall j :: 0 <= j < |path| ==> path[j] in old(nodes)) && old(LookupPath(path, key, root, nodes))
      ensures old(nodes) <= nodes && AllCountedIn(path, old(nodes), key, value, old(ConflictCount(path, key)))
      ensures SlotTaken(path[|path| - 1], key, value, nodes - old(nodes))
      ensures forall x :: x in old(nodes) ==> old(Kids(x)) <= Kids(x)
      ensures forall x :: x in nodes ==> x in path || Settled(x)
      ensures fresh(nodes - old(nodes) - old(NodeSet(pendingTwo))) && NodeSet(pendingTwo) <= old(NodeSet(pendingTwo))
    {
      hide LocalOk, PathOk, FreeListOk, NodeSet, AllOk, Rooted, LookupPath, TwoKeys, Settled, Conflicts;
      var toData;
      path, toData := Descend(key, value);
      label Down:
      CountConflicts(path, toData, key);
      forall x | x in old(nodes)
        ensures if x in path then CountedIn(x, key, value, toData) else unchanged(x)
      {
        if x in path {
          var j :| 0 <= j < |path| && path[j] == x;
          assert x.numInsertToData == old@Down(path[j].numInsertToData) + toData;
        }
      }
    }

    /** The same, and what could be cut out now could have been cut out before: the new node,
        if there is one, hangs below the old ones. */
    method CountInBelow(key: int, value: int) returns (path: seq<Node>)
      requires Valid() && key !in Contents()
      modifies this`pendingTwo, this`nodes, this`maxDepth, nodes, NodeSet(pendingTwo)
      ensures Sound() && Contents() == old(Contents())[key := value]
      ensures |path| > 0 && PathOk(path, key, nodes) && path[0] == root
      ensures (forall j :: 0 <= j < |path| ==> path[j] in old(nodes)) && old(LookupPath(path, key, root, nodes))
      ensures old(nodes) <= nodes && AllCountedIn(path, old(nodes), key, value, old(ConflictCount(path, key)))
      ensures SlotTaken(path[|path| - 1], key, value, nodes - old(nodes))
      ensures forall j: nat, dead: set<Node> :: j < |path| && dead <= nodes && Cut(path[j], nodes, dead, {}) ==>
                old(Cut(path[j], nodes, dead * nodes, {}))
      ensures forall x :: x in nodes ==> x in path || Settled(x)
      ensures fresh(nodes - old(nodes) - old(NodeSet(pendingTwo))) && NodeSet(pendingTwo) <= old(NodeSet(pendingTwo))
    {
      hide LocalOk, PathOk, FreeListOk, NodeSet, AllOk, Rooted, Cut, TwoKeys, Conflicts, LookupPath, SlotTaken, Settled;
      ghost var all := nodes;
      KidsInside(nodes);
      path := CountIn(key, value);
      forall j: nat, dead: set<Node> | j < |path| && dead <= nodes && Cut(path[j], nodes, dead, {})
        ensures old(Cut(path[j], all, dead * all, {}))
      {
        CutEarlier(path[j], root, all, nodes, dead);
      }
    }

    /** The first node of the walk that is due for a rebuild, or its length. */
    method FirstDue(path: seq<Node>) returns (i: nat)
      ensures i <= |path| && (forall j :: 0 <= j < i ==> !NeedRebuild(path[j])) && (i < |path| ==> NeedRebuild(path[i]))
    {
      i := 0;
      while i < |path|
        invariant i <= |path| && forall j :: 0 <= j < i ==> !NeedRebuild(path[j])
      {
        if NeedRebuild(path[i]) {
          break;
        }
        i := i + 1;
      }
    }

    /** Rebuilds at the first node of the walk that is due, if there is one. */
    method RebuildDue(path: seq<Node>, key: int) returns (at: nat, ghost dead: set<Node>, ghost grown: Node?)
      requires Sound() && PathOk(path, key, nodes) && path[0] == root && Representable(|Contents()|, buildLrRemain)
      requires forall x :: x in nodes ==> x in path || Settled(x)
      modifies this`root, this`pendingTwo, this`nodes, this`maxDepth, nodes, NodeSet(pendingTwo)
      ensures Valid() && Contents() == old(Contents())
      ensures at <= |path| && forall j :: 0 <= j < at ==> !old(NeedRebuild(path[j]))
      ensures at < |path| ==>
                && old(NeedRebuild(path[at])) && dead <= old(nodes) && old(Cut(path[at], nodes, dead, {}))
                && grown != null && fresh(grown) && grown in nodes && InPlace(grown, path, at, key)
                && grown.contents == old(path[at].contents) && BuiltRight(grown, buildLrRemain, useFmcd)
      ensures at == |path| ==> dead == {} && nodes == old(nodes)
      ensures at > 0 ==> root == old(root)
      ensures forall x :: x in old(nodes) ==> (x in nodes <==> x !in dead)
      ensures forall x :: x in old(nodes) - dead ==>
                if 0 < at < |path| && x == path[at - 1] then SlotsBut(x, key) else unchanged(x)
      ensures fresh(nodes - old(nodes)) && NodeSet(pendingTwo) <= old(NodeSet(pendingTwo)) + old(nodes)
    {
      hide LocalOk, PathOk, FreeListOk, NodeSet, AllOk, Representable, Rooted, BuiltRight, Cut;
      at := FirstDue(path);
      dead, grown := {}, null;
      ghost var before := nodes;
      if at < |path| {
        PathRepresentable(path, at, key, nodes, |Contents()|, buildLrRemain);
        grown, dead := Rebuild(path, at, key);
        forall x | x in nodes ensures Settled(x) {
          if x in before {
            if x in path {
              var j :| 0 <= j < |path| && path[j] == x;
              assert j < at && !old(NeedRebuild(path[j]));
            }
            assert old(Settled(x)) && x in before - dead;
          }
        }
      }
    }

    /** Adds a key that is not in the tree yet, then rebuilds the topmost subtree on its way
        that has become due: its nodes are gone, and one new node holds their keys in their
        place. All other nodes stay, and only those on the way change. */
    method Insert(key: int, value: int)
      returns (ghost path: seq<Node>, ghost at: nat, ghost gone: set<Node>, ghost grown: Node?)
      requires Valid() && key !in Contents() && Representable(|Contents()| + 1, buildLrRemain)
      modifies this`root, this`pendingTwo, this`nodes, this`maxDepth, nodes, NodeSet(pendingTwo)
      ensures Valid() && Contents() == old(Contents())[key := value]
      ensures |path| > 0 && (forall j :: 0 <= j < |path| ==> path[j] in old(nodes))
      ensures old(LookupPath(path, key, root, nodes))
      ensures at <= |path| && forall j :: 0 <= j < at ==> !old(DueNext(path[j], ConflictCount(path, key)))
      ensures at < |path| ==>
                && old(DueNext(path[at], ConflictCount(path, key)))
                && gone <= old(nodes) && old(Cut(path[at], nodes, gone, {}))
                && grown != null && fresh(grown) && grown in nodes && InPlace(grown, path, at, key)
                && grown.contents == old(path[at].contents)[key := value]
                && BuiltRight(grown, buildLrRemain, useFmcd)
      ensures at == |path| ==> gone == {} && SlotTaken(path[|path| - 1], key, value, nodes - old(nodes))
      ensures at > 0 ==> root == old(root)
      ensures forall x :: x in old(nodes) ==> (x in nodes <==> x !in gone)
      ensures AllCountedIn(path, old(nodes) - gone, key, value, old(ConflictCount(path, key)))
      ensures fresh(nodes + NodeSet(pendingTwo) - old(nodes) - old(NodeSet(pendingTwo)))
    {
      hide LocalOk, PathOk, FreeListOk, NodeSet, AllOk, Representable, Rooted, BuiltRight, Cut, TwoKeys, Conflicts,
           LookupPath, InPlace, SlotTaken;
      ghost var all := nodes;
      var walk := CountInBelow(key, value);
      path := walk;
      ghost var dead, count := {}, old(ConflictCount(path, key));
      label Counted:
      at, dead, grown := RebuildDue(walk, key);
      gone := dead * all;
      if at == |path| {
        forall x | x in nodes ensures unchanged@Counted(x) { assert x in old@Counted(nodes) - dead; }
      }
      forall x | x in all - gone ensures if x in path then CountedIn(x, key, value, count) else unchanged(x) {
        assert x in old@Counted(nodes) - dead;
        assert if 0 < at < |path| && x == path[at - 1] then SlotsBut@Counted(x, key) else unchanged@Counted(x);
      }
    }

    /** One round of the deletion: the topmost node goes and its children wait instead. */
    method DestroyStep(top: Node, rest: seq<Node>) returns (s': seq<Node>, ghost kids: set<Node>)
      requires Distinct(rest) && top in nodes && LocalOk(top, nodes) && FrameOk(top)
      requires forall x :: x in NodeSet(rest) ==> x.parent != top
      requires FreeListOk(pendingTwo) && NodeSet(pendingTwo) !! nodes
      modifies this`pendingTwo, this`nodes, top`size, top`numInserts, top`numInsertToData, top`items
      ensures nodes == old(nodes) - {top}
      ensures Distinct(s') && NodeSet(s') == NodeSet(rest) + kids
      ensures kids <= nodes && forall x :: x in kids ==> x.parent == top && x.depth == top.depth + 1
      ensures old(Kids(top)) <= kids
      ensures FreeListOk(pendingTwo)
      ensures NodeSet(pendingTwo) == old(NodeSet(pendingTwo)) + if old(top.isTwo) then {top} else {}
    {
      hide NodeSet, Distinct, FreeListOk, LocalOk, FrameOk, Kids;
      kids := Kids(top);
      s' := PushKids(top, rest, nodes);
      Recycle(top);
      nodes := nodes - {top};
    }

    /** Deletes a subtree with an explicit stack; its two-key nodes go to the pool. */
    method DestroyTree(r: Node) returns (ghost dead: set<Node>)
      requires Sound() && r in nodes
      requires r.parent != null ==> r.parent in nodes && r.parent.depth < r.depth
      modifies this`pendingTwo, this`nodes, nodes
      ensures dead <= old(nodes) && old(Cut(r, nodes, dead, {})) && nodes == old(nodes) - dead
      ensures forall x :: x in nodes ==> unchanged(x)
      ensures FreeListOk(pendingTwo) && NodeSet(pendingTwo) == old(NodeSet(pendingTwo) + Twos(dead))
    {
      hide NodeSet, Distinct, FreeListOk, LocalOk, LocalBut, Settled, FrameOk, Cut, Kids, Twos, Felled;
      ghost var all, pool := nodes, NodeSet(pendingTwo);
      var s := [r];
      OneNode(r);
      FirstFelled(r, nodes);
      dead := {};
      ghost var waiting, twos, left := {r}, {}, all;
      while |s| > 0
        invariant waiting == NodeSet(s) && waiting <= all && nodes <= all && dead <= all && twos <= all && left <= all
                  && Distinct(s)
        invariant nodes == left && old(Felled(r, all, dead, waiting, twos, left))
        invariant forall x :: x in nodes ==> unchanged(x)
        invariant FreeListOk(pendingTwo) && NodeSet(pendingTwo) == pool + twos
        decreases nodes
      {
        Uproot(r, all, dead, waiting, twos, left);
        NodeSetPop(s);
        var top, rest := s[|s| - 1], s[..|s| - 1];
        assert unchanged(top);
        ghost var kids;
        s, kids := DestroyStep(top, rest);
        assert NodeSet(rest) == waiting - {top};
        Prune(r, all, dead, waiting, twos, left, top, kids, nodes);
        Gather(pool, twos, if old(top.isTwo) then {top} else {});
        dead, waiting := dead + {top}, waiting - {top} + kids;
        twos, left := twos + (if old(top.isTwo) then {top} else {}), nodes;
      }
      OneNode(r);
      FelledGives(r, all, dead, {}, twos, left);
    }

    /** Deletes the whole tree. */
    method Discard()
      requires Valid()
      modifies this`pendingTwo, this`nodes, nodes
      ensures FreeListOk(pendingTwo) && NodeSet(pendingTwo) <= old(NodeSet(pendingTwo) + nodes)
    {
      hide AllOk, FreeListOk, Settled, Cut, Twos, NodeSet;
      ghost var dead := DestroyTree(root);
    }

    /** Loads an array of pairs. More than two must come strictly ascending, two need only
        differ; otherwise the program stops, here before it has changed anything. */
    method BulkLoad(vs: seq<(int, int)>) returns (ok: bool)
      requires Valid() && Representable(|vs|, buildLrRemain)
      modifies this`root, this`pendingTwo, this`nodes, this`maxDepth, nodes, NodeSet(pendingTwo)
      ensures ok <==> if |vs| == 2 then vs[0].0 != vs[1].0 else forall i, j :: 0 <= i < j < |vs| ==> vs[i].0 < vs[j].0
      ensures Valid()
      ensures if ok then IsMapOf(Contents(), vs) else Contents() == old(Contents())
      ensures |vs| == 0 ==> root.items == [None]
      ensures |vs| == 1 ==> root.items == [Data(vs[0].0, vs[0].1)]
      ensures ok && |vs| >= 2 ==> forall x :: x in nodes ==> BuiltRight(x, buildLrRemain, useFmcd)
    {
      hide AllOk, FreeListOk, LocalOk, Settled, Increasing, MapOf, Cut, Twos, BuiltRight, Rooted;
      if |vs| == 0 {
        Discard();
        ResetRoot();
        return true;
      }
      if |vs| == 1 {
        Discard();
        ResetRoot();
        LoadOne(vs[0].0, vs[0].1);
        return true;
      }
      if |vs| == 2 {
        if vs[0].0 == vs[1].0 { return false; }
        LoadTwo(vs);
        return true;
      }
      for i := 1 to |vs|
        invariant forall j, l :: 0 <= j < l < i ==> vs[j].0 < vs[l].0
      {
        if vs[i].0 <= vs[i - 1].0 { return false; }
      }
      LoadMany(vs);
      return true;
    }

    /** The first key of an empty tree goes into its one slot. */
    method LoadOne(key: int, value: int)
      requires Valid() && Contents() == map[] && EmptyNode(root) && Representable(1, buildLrRemain)
      modifies this`root, this`pendingTwo, this`nodes, this`maxDepth, nodes, NodeSet(pendingTwo)
      ensures Valid() && Contents() == map[key := value] && root.items == [Data(key, value)]
    {
      hide FreeListOk, LocalOk, Settled, Cut, Rooted, TwoKeys, BuiltRight, Representable, PredictPos;
      SizeIs(root, nodes);
      ghost var path, at, gone, grown := Insert(key, value);
      assert |path| > 1 ==> old(LinkOk(path, 0, key));
    }

    method LoadTwo(vs: seq<(int, int)>)
      requires Valid() && |vs| == 2 && vs[0].0 != vs[1].0
      modifies this`root, this`pendingTwo, this`nodes, this`maxDepth, nodes, NodeSet(pendingTwo)
      ensures Valid() && IsMapOf(Contents(), vs)
      ensures forall x :: x in nodes ==> BuiltRight(x, buildLrRemain, useFmcd)
    {
      hide AllOk, FreeListOk, LocalOk, Settled, IsMapOf, TwoKeys, BuiltRight, Rooted;
      Discard();
      hide NodeSet;
      var two := BuildTreeTwo(vs[0].0, vs[0].1, vs[1].0, vs[1].1, 0, null, 0);
      TwoKeysAlone(two, vs);
      TwoBuiltRight(two, vs[0].0, vs[0].1, vs[1].0, vs[1].1, buildLrRemain, useFmcd);
      root, nodes, maxDepth := two, {two}, 0;
    }

    method LoadMany(vs: seq<(int, int)>)
      requires Valid() && |vs| > 2 && Representable(|vs|, buildLrRemain)
      requires forall i, j :: 0 <= i < j < |vs| ==> vs[i].0 < vs[j].0
      modifies this`root, this`pendingTwo, this`nodes, this`maxDepth, nodes, NodeSet(pendingTwo)
      ensures Valid() && IsMapOf(Contents(), vs)
      ensures forall x :: x in nodes ==> BuiltRight(x, buildLrRemain, useFmcd)
    {
      hide AllOk, FreeListOk, LocalOk, Settled, Cut, Twos, MapOf, Representable, BuiltRight, Rooted;
      var keys, values := [], [];
      for i := 0 to |vs|
        invariant |keys| == |values| == i
        invariant forall j :: 0 <= j < i ==> keys[j] == vs[j].0 && values[j] == vs[j].1
      {
        keys, values := keys + [vs[i].0], values + [vs[i].1];
      }
      assert Increasing(keys);
      Discard();
      ghost var made, deep;
      root, made, deep := BuildTreeBulk(keys, values, 0, null, 0);
      nodes, maxDepth := made, deep;
      MapIsMap(keys, values, vs);
    }

    /** The tree becomes a single empty node. */
    method ResetRoot()
      requires buildLrRemain >= 0.0 && FreeListOk(pendingTwo)
      modifies this`root, this`nodes, this`maxDepth
      ensures Valid() && Contents() == map[] && EmptyNode(root) && fresh(nodes)
    {
      var none := BuildTreeNone();
      root := none;
      nodes, maxDepth := {none}, 0;
      LocalGrows(none, {}, {none});
    }
  }


  lemma TwoKeysAlone(n: Node, vs: seq<(int, int)>)
    requires |vs| == 2 && vs[0].0 != vs[1].0 && TwoKeys(n, vs[0].0, vs[0].1, vs[1].0, vs[1].1)
    ensures AllOk({n}) && Rooted(n, {n}) && Settled(n) && IsMapOf(n.contents, vs)
  {
    LocalGrows(n, {}, {n});
    hide LocalOk, TwoModel;
    assert n.contents.Keys == {vs[0].0, vs[1].0};
    assert |n.contents| == |n.contents.Keys|;
  }

  lemma MapIsMap(keys: seq<int>, values: seq<int>, vs: seq<(int, int)>)
    requires Increasing(keys) && |keys| == |values| == |vs|
    requires forall i :: 0 <= i < |vs| ==> keys[i] == vs[i].0 && values[i] == vs[i].1
    ensures IsMapOf(MapOf(keys, values), vs)
  {
    hide Increasing, MapOf;
    forall i | 0 <= i < |vs| ensures vs[i].0 in MapOf(keys, values) && MapOf(keys, values)[vs[i].0] == vs[i].1 {
      assert keys[i] in MapOf(keys, values);
    }
  }

  twostate lemma NewcomersApart(new made: set<Node>, pool: set<Node>)
    requires fresh(made)
    ensures made !! pool
  {}

  lemma Gather(a: set<Node>, b: set<Node>, c: set<Node>)
    ensures a + b + c == a + (b + c)
  {}

  lemma SliceReady(keys: seq<int>, values: seq<int>, b: nat, e: nat, fraction: real)
    requires Increasing(keys) && |values| == |keys| && b <= e <= |keys| && fraction >= 0.0
             && Representable(|keys|, fraction)
    ensures Increasing(keys[b..e]) && SliceMap(keys, values, b, e) == MapOf(keys[b..e], values[b..e])
    ensures NumItems(|keys[b..e]|, fraction) <= INT_MAX
  {
    hide NumItems;
  }

  lemma NoSegsOk(keys: seq<int>, values: seq<int>)
    requires Increasing(keys) && |values| == |keys|
    ensures SegsOk([], keys, values) && SegNodes([]) == {} && Weight([]) == 0
  {}

  lemma TwoKeySlice(keys: seq<int>, values: seq<int>, i: nat)
    requires Increasing(keys) && |values| == |keys| && i + 1 < |keys|
    ensures keys[i] < keys[i + 1]
    ensures SliceMap(keys, values, i, i + 2) == map[keys[i] := values[i], keys[i + 1] := values[i + 1]]
  {
    assert keys[i] < keys[i + 1];
    hide Increasing, SliceMap;
    SliceElements(keys, values, i, i + 2);
    assert keys[i..i + 2] == [keys[i], keys[i + 1]] && values[i..i + 2] == [values[i], values[i + 1]];
    assert keys[i..i + 2][0] == keys[i] && keys[i..i + 2][1] == keys[i + 1];
  }
}
