/** Nodes of the updatable tree and the local invariant that, held by every node, makes
    the whole tree a map. */
module LippNode {
  import opened LippModel
  import opened LippMaps

  /** A slot: empty, one key with its value, or a child. */
  datatype Item = None | Data(key: int, value: int) | Child(child: Node)

  class Node {
    var isTwo: bool
    var buildSize: int
    var size: int
    var fixed: bool
    var numInserts: int
    var numInsertToData: int
    var model: LinearModel
    var items: seq<Item>
    /** The keys and values in this subtree, its depth, and where its parent keeps it. */
    ghost var contents: Contents
    ghost var depth: nat
    ghost var parent: Node?
    ghost var slot: int

    constructor ()
      ensures items == [] && contents == map[]
    {
      isTwo, buildSize, size, fixed, numInserts, numInsertToData := false, 0, 0, false, 0, 0;
      model, items := LinearModel(0.0, 0.0), [];
      contents, depth, parent, slot := map[], 0, null, 0;
    }

    function Pos(key: int): (pos: int)
      requires |items| >= 1
      reads this
      ensures 0 <= pos < |items|
    {
      PredictPos(model, |items|, key)
    }
  }

  ghost function NodeSet(s: seq<Node>): set<Node> { set p | p in s }

  ghost predicate Distinct(s: seq<Node>) {
    forall i, j :: 0 <= i < j < |s| ==> s[i] != s[j]
  }

  lemma NodeSetAppend(s: seq<Node>, x: Node)
    ensures NodeSet(s + [x]) == NodeSet(s) + {x}
    ensures Distinct(s) && x !in NodeSet(s) ==> Distinct(s + [x])
  {}

  lemma OneNode(x: Node)
    ensures NodeSet([]) == {} && NodeSet([x]) == {x} && Distinct([x])
  {}

  lemma NodeSetPop(s: seq<Node>)
    requires |s| > 0
    ensures NodeSet(s) == NodeSet(s[..|s| - 1]) + {s[|s| - 1]}
    ensures Distinct(s) ==> Distinct(s[..|s| - 1]) && s[|s| - 1] !in NodeSet(s[..|s| - 1])
  {
    assert forall i :: 0 <= i < |s| - 1 ==> s[..|s| - 1][i] == s[i];
  }

  /** Slot i holds exactly the keys and values of part. */
  ghost predicate SlotHolds(n: Node, i: int, part: Contents, nodes: set<Node>)
    requires 0 <= i < |n.items|
    reads n, nodes
  {
    match n.items[i]
    case None => part == map[]
    case Data(k, v) => part == map[k := v]
    case Child(c) =>
      c in nodes && c.contents == part && c.depth == n.depth + 1 && c.parent == n && c.slot == i
  }

  /** Slot i holds exactly the keys that the node's model sends there. */
  ghost predicate SlotOk(n: Node, i: int, nodes: set<Node>)
    requires 0 <= i < |n.items|
    reads n, nodes
  {
    SlotHolds(n, i, Part(n.contents, n.model, |n.items|, i), nodes)
  }

  /** Everything about a node except its slots. */
  ghost predicate FrameOk(n: Node)
    reads n
  {
    && |n.items| >= 1 && n.model.a >= 0.0
    && n.size == |n.contents|
    && (n.isTwo ==> |n.items| == 8 && n.buildSize == 2 && !n.fixed)
  }

  ghost predicate LocalOk(n: Node, nodes: set<Node>)
    reads n, nodes
  {
    FrameOk(n) && forall i :: 0 <= i < |n.items| ==> SlotOk(n, i, nodes)
  }

  /** As LocalOk, but slot `gap` is in the making. */
  ghost predicate LocalBut(n: Node, gap: int, nodes: set<Node>)
    reads n, nodes
  {
    FrameOk(n) && forall i :: 0 <= i < |n.items| && i != gap ==> SlotOk(n, i, nodes)
  }

  ghost predicate AllOk(nodes: set<Node>)
    reads nodes
  {
    forall n :: n in nodes ==> LocalOk(n, nodes)
  }

  /** The node hangs in the slot of its parent that it names, and the parent is one of these. */
  ghost predicate Hung(n: Node, nodes: set<Node>)
    reads n, nodes
  {
    && n.parent != null && n.parent in nodes
    && 0 <= n.slot < |n.parent.items| && n.parent.items[n.slot] == Child(n)
  }

  /** Every node but the root hangs in the tree. */
  ghost predicate Rooted(root: Node, nodes: set<Node>)
    reads nodes
  {
    forall n :: n in nodes && n != root ==> Hung(n, nodes)
  }

  /** Not due for a rebuild. */
  predicate Settled(n: Node)
    reads n
  {
    n.fixed || n.size < 4 * n.buildSize || n.size < 64 || n.numInsertToData * 10 < n.numInserts
  }

  /** A node ready for reuse by build_tree_two. */
  ghost predicate Blank(n: Node)
    reads n
  {
    && n.isTwo && n.buildSize == 2 && n.size == 2 && !n.fixed
    && n.numInserts == 0 && n.numInsertToData == 0
    && |n.items| == 8 && forall i :: 0 <= i < 8 ==> n.items[i] == None
  }

  /** What a parent sees of a child. */
  twostate predicate SameFace(x: Node)
    reads x
  {
    x.contents == old(x.contents) && x.depth == old(x.depth) && x.parent == old(x.parent) && x.slot == old(x.slot)
  }

  /** A set of nodes may change or leave, as long as whatever no longer shows its parent
      the same face has its parent among the changed or exempt. All other nodes keep the
      local invariant. */
  twostate lemma KeepAll(before: set<Node>, new after: set<Node>, new changed: set<Node>, new exempt: set<Node>)
    requires old(forall n :: n in before && n !in exempt ==> LocalOk(n, before))
    requires forall x :: x in before && x !in changed ==> x in after && unchanged(x)
    requires forall x :: x in before && x in changed ==>
               (x in after && SameFace(x)) || old(x.parent) == null || old(x.parent) in changed
                   || old(x.parent) in exempt
    ensures forall n :: n in before && n !in changed && n !in exempt ==> LocalOk(n, after)
  {
    forall n | n in before && n !in changed && n !in exempt ensures LocalOk(n, after) {
      assert old(LocalOk(n, before));
      forall i | 0 <= i < |n.items| ensures SlotOk(n, i, after) {
        assert old(SlotOk(n, i, before));
      }
    }
  }

  twostate lemma FramesKept(before: set<Node>, new after: set<Node>)
    requires old(AllOk(before)) && after <= before && forall x :: x in after ==> unchanged(x)
    ensures forall x :: x in after ==> FrameOk(x)
  {
    forall x | x in after ensures FrameOk(x) {
      assert old(LocalOk(x, before));
    }
  }

  /** The same for a node with a slot in the making. */
  twostate lemma KeepBut(p: Node, new gap: int, new before: set<Node>, new after: set<Node>, new changed: set<Node>)
    requires old(allocated(before))
    requires old(LocalBut(p, gap, before))
    requires p !in changed && unchanged(p)
    requires forall x :: x in before && x !in changed ==> x in after && unchanged(x)
    requires forall x :: x in before && x in changed ==>
               (x in after && SameFace(x)) || old(x.parent) != p || old(x.slot) == gap
    ensures LocalBut(p, gap, after)
  {
    forall i | 0 <= i < |p.items| && i != gap ensures SlotOk(p, i, after) {
      assert old(SlotOk(p, i, before));
    }
  }

  /** A node's counters are no part of the invariant. */
  twostate lemma CountersOnly(nodes: set<Node>)
    requires old(AllOk(nodes))
    requires forall x :: x in nodes ==>
               && x.items == old(x.items) && x.model == old(x.model) && x.size == old(x.size) && x.isTwo == old(x.isTwo)
               && x.buildSize == old(x.buildSize) && x.fixed == old(x.fixed) && SameFace(x)
    ensures AllOk(nodes)
  {
    hide Part;
    forall n | n in nodes ensures LocalOk(n, nodes) {
      assert old(LocalOk(n, nodes));
      forall i | 0 <= i < |n.items| ensures SlotOk(n, i, nodes) {
        assert old(SlotOk(n, i, nodes));
      }
    }
  }

  /** Filling the slot in the making completes the node; nobody else notices. */
  twostate lemma FillSlot(n: Node, new gap: int, new before: set<Node>, new after: set<Node>)
    requires old(allocated(before)) && n in before && before <= after
    requires old(LocalBut(n, gap, before)) && old(forall x :: x in before && x != n ==> LocalOk(x, before))
    requires |n.items| == old(|n.items|) && 0 <= gap < |n.items|
    requires forall i :: 0 <= i < |n.items| && i != gap ==> n.items[i] == old(n.items[i])
    requires n.model == old(n.model) && n.size == old(n.size) && n.isTwo == old(n.isTwo)
    requires n.buildSize == old(n.buildSize) && n.fixed == old(n.fixed) && SameFace(n)
    requires forall x :: x in before && x != n ==> unchanged(x)
    requires SlotOk(n, gap, after)
    ensures forall x :: x in before ==> LocalOk(x, after)
  {
    hide Part;
    assert LocalOk(n, after) by {
      forall i | 0 <= i < |n.items| && i != gap ensures SlotOk(n, i, after) {
        assert old(SlotOk(n, i, before));
      }
    }
    hide LocalOk;
    KeepAll(before, after, {n}, {n});
  }

  lemma CloseSlot(n: Node, gap: int, nodes: set<Node>)
    requires LocalBut(n, gap, nodes) && 0 <= gap < |n.items| && SlotOk(n, gap, nodes)
    ensures LocalOk(n, nodes)
  {}

  twostate lemma OldBut(n: Node, new gap: int, new nodes: set<Node>)
    requires old(allocated(nodes)) && old(LocalOk(n, nodes))
    ensures old(LocalBut(n, gap, nodes))
  {}

  lemma LocalFrame(n: Node, nodes: set<Node>)
    requires LocalOk(n, nodes)
    ensures FrameOk(n)
  {}

  lemma LocalGrows(n: Node, few: set<Node>, many: set<Node>)
    requires LocalOk(n, few) && few <= many
    ensures LocalOk(n, many)
  {
    forall i | 0 <= i < |n.items| ensures SlotOk(n, i, many) {
      assert SlotOk(n, i, few);
    }
  }

  lemma SizeIs(n: Node, nodes: set<Node>)
    requires LocalOk(n, nodes)
    ensures n.size == |n.contents| == |Listing(n.contents.Keys)|
  {
    assert |n.contents| == |n.contents.Keys|;
  }

  /** A child's map is the part of its slot. */
  lemma ChildShown(p: Node, slot: int, c: Node, nodes: set<Node>)
    requires LocalOk(p, nodes) && 0 <= slot < |p.items| && p.items[slot] == Child(c)
    ensures c.contents == Part(p.contents, p.model, |p.items|, slot) && c.parent == p && c.depth == p.depth + 1
  {
    assert SlotOk(p, slot, nodes);
  }

  /** A node without children, copied. */
  lemma LocalCopy(from: Node, to: Node)
    requires LocalOk(from, {})
    requires to.isTwo == from.isTwo && to.buildSize == from.buildSize && to.size == from.size && to.fixed == from.fixed
    requires to.model == from.model && to.items == from.items && to.contents == from.contents
    ensures LocalOk(to, {})
  {
    hide Part;
    forall i | 0 <= i < |to.items| ensures SlotOk(to, i, {}) {
      assert SlotOk(from, i, {});
    }
  }

  lemma AllGrows(few: set<Node>, many: set<Node>)
    requires AllOk(few) && few <= many
    ensures forall x :: x in few ==> LocalOk(x, many)
  {
    hide LocalOk;
    forall x | x in few ensures LocalOk(x, many) { LocalGrows(x, few, many); }
  }

  // ---- What the local invariant says about lookups ----

  lemma SlotDecides(n: Node, nodes: set<Node>, key: int)
    requires LocalOk(n, nodes)
    ensures |n.items| >= 1
    ensures match n.items[n.Pos(key)]
            case None => key !in n.contents
            case Data(k, v) => (key in n.contents <==> k == key) && (k == key ==> n.contents[key] == v)
            case Child(c) => c in nodes && c.depth == n.depth + 1
                             && (key in n.contents <==> key in c.contents)
                             && (key in c.contents ==> c.contents[key] == n.contents[key])
  {
    var pos := n.Pos(key);
    assert SlotOk(n, pos, nodes);
    var part := Part(n.contents, n.model, |n.items|, pos);
    assert key in n.contents <==> key in part;
    assert key in part ==> part[key] == n.contents[key];
  }
}
