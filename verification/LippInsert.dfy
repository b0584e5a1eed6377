/** One insertion on its way down: each node visited takes the key into its subtree's
    contents, and its slot for the key is in the making until the walk has passed it. */
module LippInsert {
  import opened LippModel
  import opened LippMaps
  import opened LippNode
  import opened LippBulk
  import opened LippScan

  /** Slot `node.slot` of p still holds the child as it was before the key arrived. */
  ghost predicate Hanging(p: Node, node: Node, key: int, value: int, nodes: set<Node>)
    reads p, node, nodes
  {
    && p in nodes && node.parent == p && node.depth == p.depth + 1
    && 0 <= node.slot < |p.items| && p.items[node.slot] == Child(node)
    && LocalBut(p, node.slot, nodes)
    && Part(p.contents, p.model, |p.items|, node.slot) == node.contents[key := value]
  }

  /** What slot `pos` of a node must become for the key to be in, given what it holds. */
  ghost predicate SlotTakes(node: Node, pos: int, key: int, value: int, nodes: set<Node>)
    requires 0 <= pos < |node.items|
    reads node, nodes
  {
    var part := Part(node.contents, node.model, |node.items|, pos);
    match node.items[pos]
    case None => part == map[key := value]
    case Data(k, v) => k != key && part == map[key := value, k := v]
    case Child(c) => c in nodes && key !in c.contents && c.parent == node && c.slot == pos
                     && c.depth == node.depth + 1 && part == c.contents[key := value]
  }

  /** The walk passes through a node. */
  twostate lemma Passed(node: Node, new nodes: set<Node>, new key: int, new value: int)
    requires old(allocated(nodes)) && node in nodes && old(key !in node.contents)
    requires old(forall x :: x in nodes && x != node.parent ==> LocalOk(x, nodes))
    requires old(node.parent != node && (node.parent != null ==> Hanging(node.parent, node, key, value, nodes)))
    requires forall x :: x in nodes && x != node ==> unchanged(x)
    requires node.contents == old(node.contents)[key := value] && node.size == old(node.size) + 1
    requires node.depth == old(node.depth) && node.parent == old(node.parent) && node.slot == old(node.slot)
    requires node.items == old(node.items) && node.model == old(node.model) && node.isTwo == old(node.isTwo)
    requires node.buildSize == old(node.buildSize) && node.fixed == old(node.fixed)
    ensures forall x :: x in nodes && x != node ==> LocalOk(x, nodes)
    ensures |node.items| >= 1 && LocalBut(node, node.Pos(key), nodes)
    ensures SlotTakes(node, node.Pos(key), key, value, nodes)
  {
    hide PredictPos, Part;
    var p := node.parent;
    PassedSelf(node, nodes, key, value);
    if p == null {
      hide LocalOk, LocalBut;
      KeepAll(nodes, nodes, {node}, {});
    } else {
      KeepAll(nodes, nodes, {node}, {p});
      KeepBut(p, node.slot, nodes, nodes, {node});
      CloseSlot(p, node.slot, nodes);
    }
  }

  /** The node's other slots are not concerned by the key. */
  twostate lemma PassedSelf(node: Node, new nodes: set<Node>, new key: int, new value: int)
    requires old(allocated(nodes)) && old(key !in node.contents) && old(LocalOk(node, nodes))
    requires forall x :: x in nodes && x != node ==> unchanged(x)
    requires node.contents == old(node.contents)[key := value] && node.size == old(node.size) + 1
    requires node.depth == old(node.depth)
    requires node.items == old(node.items) && node.model == old(node.model) && node.isTwo == old(node.isTwo)
    requires node.buildSize == old(node.buildSize) && node.fixed == old(node.fixed)
    ensures |node.items| >= 1 && LocalBut(node, node.Pos(key), nodes)
    ensures SlotTakes(node, node.Pos(key), key, value, nodes)
  {
    var c, m, n, pos := old(node.contents), node.model, |node.items|, node.Pos(key);
    forall i | 0 <= i < n
      ensures old(SlotOk(node, i, nodes))
      ensures i != pos ==> Part(node.contents, m, n, i) == Part(c, m, n, i)
      ensures i == pos ==> Part(node.contents, m, n, i) == Part(c, m, n, i)[key := value]
      ensures key !in Part(c, m, n, i)
    {
      PartGrows(c, m, n, i, key, value);
    }
    hide Part, PredictPos;
    forall i | 0 <= i < n && i != pos ensures SlotOk(node, i, nodes) {
      assert old(SlotOk(node, i, nodes));
    }
    assert old(SlotOk(node, pos, nodes));
  }

  /** Link i of a walk: each node is the child in the slot that its parent has for the key. */
  ghost predicate LinkOk(path: seq<Node>, i: int, key: int)
    requires 0 <= i < |path| - 1
    reads path[i], path[i + 1]
  {
    var p, c := path[i], path[i + 1];
    && |p.items| >= 1 && c.slot == p.Pos(key) && c.parent == p && p.items[c.slot] == Child(c)
  }

  ghost predicate PathOk(path: seq<Node>, key: int, nodes: set<Node>)
    reads set x | x in path
  {
    && |path| > 0
    && (forall i :: 0 <= i < |path| ==> path[i] in nodes && path[i].depth == i)
    && (forall i :: 0 <= i < |path| - 1 ==> LinkOk(path, i, key))
  }

  /** The whole walk of a lookup: from the root to the first node whose slot for the key is
      no child. */
  ghost predicate LookupPath(path: seq<Node>, key: int, root: Node, nodes: set<Node>)
    reads set x | x in path
  {
    && PathOk(path, key, nodes) && path[0] == root
    && var last := path[|path| - 1]; |last.items| >= 1 && !last.items[last.Pos(key)].Child?
  }

  /** The slot a lookup ends at holds a key already: a new key conflicts with it. */
  ghost predicate Conflicts(path: seq<Node>, key: int)
    requires |path| > 0
    reads path[|path| - 1]
  {
    var last := path[|path| - 1];
    |last.items| >= 1 && last.items[last.Pos(key)].Data?
  }

  ghost function ConflictCount(path: seq<Node>, key: int): int
    requires |path| > 0
    reads path[|path| - 1]
  {
    if Conflicts(path, key) then 1 else 0
  }

  /** What an insertion does to a node on its way: it counts the key, and the conflict if
      there is one, and no slot but the key's is touched. */
  twostate predicate CountedIn(x: Node, key: int, value: int, conflicts: int)
    reads x
  {
    && x.size == old(x.size) + 1 && x.numInserts == old(x.numInserts) + 1
    && x.numInsertToData == old(x.numInsertToData) + conflicts
    && x.contents == old(x.contents)[key := value]
    && SameSpot(x) && x.isTwo == old(x.isTwo) && x.buildSize == old(x.buildSize) && x.fixed == old(x.fixed)
    && |x.items| == old(|x.items|) >= 1
    && forall i :: 0 <= i < |x.items| && i != x.Pos(key) ==> x.items[i] == old(x.items[i])
  }

  /** Only the slot for the key changes. */
  twostate predicate SlotsBut(x: Node, key: int)
    reads x
  {
    && x.size == old(x.size) && x.numInserts == old(x.numInserts) && x.numInsertToData == old(x.numInsertToData)
    && x.contents == old(x.contents)
    && SameSpot(x) && x.isTwo == old(x.isTwo) && x.buildSize == old(x.buildSize) && x.fixed == old(x.fixed)
    && |x.items| == old(|x.items|) >= 1
    && forall i :: 0 <= i < |x.items| && i != x.Pos(key) ==> x.items[i] == old(x.items[i])
  }

  /** The nodes on the way count the key in, the others stay as they are. */
  twostate predicate AllCountedIn(new path: seq<Node>, before: set<Node>, key: int, value: int, conflicts: int)
    reads before
  {
    forall x :: x in before ==> if x in path then CountedIn(x, key, value, conflicts) else unchanged(x)
  }

  /** A free slot takes the key; a key in the slot shares a two-key node with the new one. */
  twostate predicate SlotTaken(n: Node, key: int, value: int, new born: set<Node>)
    requires old(|n.items|) >= 1
    reads n, born
  {
    var pos := old(n.Pos(key));
    && |n.items| == old(|n.items|)
    && match old(n.items[pos])
       case None => n.items[pos] == Data(key, value)
       case Data(k, v) =>
         && n.items[pos].Child? && n.items[pos].child in born && k != key
         && TwoKeys(n.items[pos].child, key, value, k, v)
       case Child(_) => false
  }

  /** The counters with which a node goes into the rebuild test after the next insert. */
  predicate DueNext(n: Node, conflicts: int)
    reads n
  {
    && !n.fixed && n.size + 1 >= 4 * n.buildSize && n.size + 1 >= 64
    && 10 * (n.numInsertToData + conflicts) >= n.numInserts + 1
  }

  /** The walk enters a node: its subtree gains the key. */
  method Visit(node: Node, key: int, value: int, ghost nodes: set<Node>)
    requires node in nodes && key !in node.contents
    requires forall x :: x in nodes && x != node.parent ==> LocalOk(x, nodes)
    requires node.parent != node && (node.parent != null ==> Hanging(node.parent, node, key, value, nodes))
    modifies node`size, node`numInserts, node`contents
    ensures node.contents == old(node.contents)[key := value]
    ensures node.size == old(node.size) + 1 && node.numInserts == old(node.numInserts) + 1
    ensures forall x :: x in nodes && x != node ==> LocalOk(x, nodes)
    ensures |node.items| >= 1 && LocalBut(node, node.Pos(key), nodes)
    ensures SlotTakes(node, node.Pos(key), key, value, nodes)
  {
    hide LocalOk, LocalBut, Hanging, SlotTakes, PredictPos;
    node.size, node.numInserts := node.size + 1, node.numInserts + 1;
    node.contents := node.contents[key := value];
    Passed(node, nodes, key, value);
  }

  /** An empty slot takes the key. */
  method FillEmpty(node: Node, pos: int, key: int, value: int, ghost nodes: set<Node>)
    requires node in nodes && 0 <= pos < |node.items| && node.items[pos] == None
    requires LocalBut(node, pos, nodes) && SlotTakes(node, pos, key, value, nodes)
    requires forall x :: x in nodes && x != node ==> LocalOk(x, nodes)
    modifies node`items
    ensures AllOk(nodes) && node.items == old(node.items)[pos := Data(key, value)]
  {
    hide Part, LocalBut, LocalOk;
    node.items := node.items[pos := Data(key, value)];
    FillSlot(node, pos, nodes, nodes);
  }

  lemma NextHangs(node: Node, c: Node, key: int, value: int, nodes: set<Node>)
    requires node in nodes && |node.items| >= 1 && node.items[node.Pos(key)] == Child(c)
    requires LocalBut(node, node.Pos(key), nodes) && SlotTakes(node, node.Pos(key), key, value, nodes)
    ensures c in nodes && key !in c.contents && c.parent == node && c.slot == node.Pos(key) && c.depth == node.depth + 1
    ensures Hanging(node, c, key, value, nodes)
  {
    hide Part, PredictPos;
  }

  lemma PathGrows(path: seq<Node>, c: Node, key: int, nodes: set<Node>)
    requires PathOk(path, key, nodes) && c in nodes && c.depth == |path|
    requires |path[|path| - 1].items| >= 1 && c.slot == path[|path| - 1].Pos(key) && c.parent == path[|path| - 1]
    requires path[|path| - 1].items[c.slot] == Child(c)
    ensures PathOk(path + [c], key, nodes)
  {
    hide PredictPos;
    var q := path + [c];
    forall i | 0 <= i < |q| - 1 ensures LinkOk(q, i, key) {
      if i < |path| - 1 { assert LinkOk(path, i, key); }
    }
  }

  /** A walk stays a walk when only its last node's slots change. */
  twostate lemma PathKept(path: seq<Node>, new key: int, new before: set<Node>, new after: set<Node>)
    requires old(allocated(before)) && old(PathOk(path, key, before)) && before <= after
    requires forall i :: 0 <= i < |path| ==> SameSpot(path[i])
    requires forall i :: 0 <= i < |path| - 1 ==> path[i].items == old(path[i].items)
    ensures PathOk(path, key, after)
  {
    hide PredictPos;
    forall i | 0 <= i < |path| - 1 ensures LinkOk(path, i, key) {
      assert old(LinkOk(path, i, key));
    }
  }

  lemma PathDistinct(path: seq<Node>, key: int, nodes: set<Node>)
    requires PathOk(path, key, nodes)
    ensures forall i :: 0 <= i < |path| ==> path[i] in nodes
    ensures forall i :: 0 <= i < |path| - 1 ==> path[i] != path[|path| - 1]
  {
    hide LinkOk;
  }

  twostate predicate SameSpot(x: Node)
    reads x
  {
    x.depth == old(x.depth) && x.parent == old(x.parent) && x.slot == old(x.slot) && x.model == old(x.model)
  }

  /** Whoever takes out a node of the walk takes out all that follows. */
  twostate lemma {:induction false} PathDies(path: seq<Node>, new key: int, new nodes: set<Node>, new dead: set<Node>,
      new i: int, new j: int)
    requires old(allocated(nodes)) && old(allocated(dead)) && 0 <= i <= j < |path|
    requires old(PathOk(path, key, nodes)) && dead <= nodes && old(Cut(path[i], nodes, dead, {}))
    ensures path[j] in dead
  {
    if j > i {
      PathDies(path, key, nodes, dead, i, j - 1);
      assert old(LinkOk(path, j - 1, key));
    }
  }

  twostate lemma RestDies(path: seq<Node>, new key: int, new nodes: set<Node>, new dead: set<Node>, new i: int)
    requires old(allocated(nodes)) && old(allocated(dead)) && 0 <= i < |path|
    requires old(PathOk(path, key, nodes)) && dead <= nodes && old(Cut(path[i], nodes, dead, {}))
    ensures forall j :: i <= j < |path| ==> path[j] in dead
    ensures forall x :: x in dead ==> old(x.depth) >= i
  {
    forall j | i <= j < |path| ensures path[j] in dead {
      PathDies(path, key, nodes, dead, i, j);
    }
  }

  lemma {:induction false} PathShrinks(path: seq<Node>, i: nat, key: int, nodes: set<Node>)
    requires AllOk(nodes) && PathOk(path, key, nodes) && i < |path|
    ensures path[i].size == |path[i].contents| <= |path[0].contents|
  {
    hide Part, PredictPos;
    assert LocalOk(path[i], nodes);
    if i > 0 {
      PathShrinks(path, i - 1, key, nodes);
      var p := path[i - 1];
      assert LinkOk(path, i - 1, key);
      ChildShown(p, path[i].slot, path[i], nodes);
      PartSize(p.contents, p.model, |p.items|, path[i].slot);
    }
  }

  /** Subtrees on the walk need no more slots than the whole tree. */
  lemma PathRepresentable(path: seq<Node>, i: nat, key: int, nodes: set<Node>, size: nat, fraction: real)
    requires AllOk(nodes) && PathOk(path, key, nodes) && i < |path| && |path[0].contents| <= size
    requires fraction >= 0.0 && Representable(size, fraction)
    ensures path[i].size >= 0 && Representable(path[i].size, fraction)
  {
    hide NumItems, AllOk, PathOk;
    PathShrinks(path, i, key, nodes);
  }

  /** A node on the walk holds its parent's part for the key's slot. */
  lemma PathLink(path: seq<Node>, i: nat, key: int, nodes: set<Node>)
    requires AllOk(nodes) && PathOk(path, key, nodes) && 0 < i < |path|
    ensures var p, c := path[i - 1], path[i];
            && p in nodes && |p.items| >= 1 && c.parent == p && c.slot == p.Pos(key) && c.depth == p.depth + 1
            && c.contents == Part(p.contents, p.model, |p.items|, c.slot)
  {
    hide LocalOk, Part, PredictPos;
    assert LinkOk(path, i - 1, key);
    assert LocalOk(path[i - 1], nodes);
    ChildShown(path[i - 1], path[i].slot, path[i], nodes);
  }

  /** Hangs a new subtree into the slot in the making. */
  method Graft(p: Node, pos: int, child: Node, ghost rest: set<Node>, ghost made: set<Node>)
    requires p in rest && 0 <= pos < |p.items| && LocalBut(p, pos, rest)
    requires forall x :: x in rest && x != p ==> LocalOk(x, rest)
    requires AllOk(made) && child in made && rest !! made
    requires child.parent == p && child.slot == pos && child.depth == p.depth + 1
    requires child.contents == Part(p.contents, p.model, |p.items|, pos)
    modifies p`items
    ensures AllOk(rest + made) && p.items == old(p.items)[pos := Child(child)]
  {
    hide LocalOk, LocalBut, Part;
    p.items := p.items[pos := Child(child)];
    FillSlot(p, pos, rest, rest + made);
    AllGrows(made, rest + made);
  }

  /** A walk was a walk before its nodes took the key in. */
  twostate lemma PathWas(path: seq<Node>, new key: int, new nodes: set<Node>)
    requires old(allocated(nodes)) && PathOk(path, key, nodes)
    requires forall i :: 0 <= i < |path| ==> SameSpot(path[i]) && path[i].items == old(path[i].items)
    ensures old(PathOk(path, key, nodes))
  {
    hide PredictPos;
    forall i | 0 <= i < |path| - 1 ensures old(LinkOk(path, i, key)) {
      assert LinkOk(path, i, key);
    }
  }

  /** The next node of a walk is a new one. */
  lemma NotOnPath(path: seq<Node>, c: Node, key: int, nodes: set<Node>)
    requires PathOk(path, key, nodes) && c.depth >= |path|
    ensures c !in path
  {
    hide LinkOk;
  }

  // ---- The tree hangs together ----

  twostate lemma RootedSame(root: Node, new nodes: set<Node>)
    requires old(allocated(nodes)) && old(Rooted(root, nodes))
    requires forall x :: x in nodes ==> x.items == old(x.items) && x.parent == old(x.parent) && x.slot == old(x.slot)
    ensures Rooted(root, nodes)
  {
    forall n | n in nodes && n != root ensures Hung(n, nodes) {
      assert old(Hung(n, nodes));
    }
  }

  /** A node's slot that held no child may take anything, a new child of its own included. */
  twostate lemma RootedGrows(root: Node, new node: Node, new pos: int, new before: set<Node>, new after: set<Node>)
    requires old(allocated(node)) && old(allocated(before)) && old(Rooted(root, before)) && before <= after
    requires node in before && |node.items| == old(|node.items|)
    requires 0 <= pos < |node.items| && !old(node.items[pos]).Child?
    requires forall i :: 0 <= i < |node.items| && i != pos ==> node.items[i] == old(node.items[i])
    requires node.parent == old(node.parent) && node.slot == old(node.slot)
    requires forall x :: x in before && x != node ==> unchanged(x)
    requires forall x :: x in after - before ==> Hung(x, before)
    ensures Rooted(root, after)
  {
    forall n | n in after && n != root ensures Hung(n, after) {
      if n in before { assert old(Hung(n, before)); } else { assert Hung(n, before); }
    }
  }

  /** Taking a subtree out leaves the other nodes hanging. */
  twostate lemma RestHangs(root: Node, new r: Node, new nodes: set<Node>, new dead: set<Node>)
    requires old(allocated(r)) && old(allocated(nodes)) && old(allocated(dead)) && dead <= nodes
    requires old(Rooted(root, nodes)) && old(Cut(r, nodes, dead, {}))
    requires forall x :: x in nodes - dead ==> unchanged(x)
    ensures forall x :: x in nodes - dead && x != root ==> Hung(x, nodes - dead)
    ensures forall x :: x in nodes - dead && x != root && r != root ==>
              x.parent != old(r.parent) || x.slot != old(r.slot)
  {
    forall x | x in nodes - dead && x != root ensures Hung(x, nodes - dead) {
      assert old(Hung(x, nodes));
      KidOf(x, nodes);
    }
    if r != root {
      assert old(Hung(r, nodes));
      forall x | x in nodes - dead && x != root ensures x.parent != old(r.parent) || x.slot != old(r.slot) {
        assert old(Hung(x, nodes));
      }
    }
  }

  lemma UnionRooted(root: Node, rest: set<Node>, made: set<Node>)
    requires forall x :: x in rest ==> Hung(x, rest)
    requires Rooted(root, made)
    ensures Rooted(root, rest + made)
  {
    forall x | x in rest + made && x != root ensures Hung(x, rest + made) {
      if x in rest { assert Hung(x, rest); } else { assert Hung(x, made); }
    }
  }

  twostate lemma KidOf(x: Node, new nodes: set<Node>)
    requires old(allocated(nodes)) && old(Hung(x, nodes))
    ensures old(x in Kids(x.parent))
  {}

  /** The new subtree hangs where the old one did. */
  twostate lemma GraftHangs(root: Node, new p: Node, new pos: int, new child: Node, new rest: set<Node>,
      new made: set<Node>)
    requires old(allocated(p)) && old(allocated(child)) && old(allocated(rest)) && old(allocated(made))
    requires p in rest && child in made && 0 <= pos < old(|p.items|)
    requires old(forall x :: x in rest && x != root ==> Hung(x, rest) && (x.parent != p || x.slot != pos))
    requires old(Rooted(child, made)) && child.parent == p && child.slot == pos
    requires p.items == old(p.items)[pos := Child(child)] && p.parent == old(p.parent) && p.slot == old(p.slot)
    requires forall x :: x in rest + made && x != p ==> unchanged(x)
    requires p !in made
    ensures Rooted(root, rest + made)
  {
    forall x | x in rest + made && x != root ensures Hung(x, rest + made) {
      if x in rest { assert old(Hung(x, rest)); } else if x != child { assert old(Hung(x, made)); }
    }
  }

  lemma PoolApart(pool: set<Node>, before: set<Node>, all: set<Node>, dead: set<Node>, made: set<Node>)
    requires pool <= before + dead && before !! all && dead <= all && made !! before && made !! all
    ensures pool !! all - dead + made
  {}

  lemma PoolOutside(pool: seq<Node>, nodes: set<Node>)
    requires NodeSet(pool) !! nodes
    ensures forall x :: x in nodes ==> x !in pool
  {
    assert forall x :: x in pool ==> x in NodeSet(pool);
  }

  lemma KidsInside(nodes: set<Node>)
    requires AllOk(nodes)
    ensures forall x :: x in nodes ==> Kids(x) <= nodes
  {
    hide Part;
    forall x, c | x in nodes && c in Kids(x) ensures c in nodes {
      var i :| 0 <= i < |x.items| && x.items[i] == Child(c);
      assert LocalOk(x, nodes) && SlotOk(x, i, nodes);
    }
  }

  /** A subtree cut out after the key was put in, without what the key brought, is a subtree
      as it was before. */
  twostate lemma CutEarlier(r: Node, new root: Node, new before: set<Node>, new after: set<Node>, new dead: set<Node>)
    requires old(allocated(root)) && old(allocated(before)) && r in before && before <= after
    requires old(Rooted(root, before)) && old(root.parent) == null && old(forall x :: x in before ==> Kids(x) <= before)
    requires dead <= after && Cut(r, after, dead, {})
    requires forall x :: x in before ==> x.depth == old(x.depth) && x.parent == old(x.parent) && old(Kids(x)) <= Kids(x)
    ensures old(Cut(r, before, dead * before, {}))
  {
    hide Kids;
    var gone := dead * before;
    forall x | x in gone ensures old(x.depth >= r.depth && (x == r || x.parent in gone)) {
      if x != r && x != root { assert old(Hung(x, before)); }
    }
    forall x | x in gone ensures old(Kids(x) <= gone) {
      assert Kids(x) <= dead;
    }
  }

  /** Whatever key is looked up, its walk meets a node that is cut out exactly from the root
      of the cut on. */
  lemma {:induction false} CutIsSubtree(path: seq<Node>, key: int, nodes: set<Node>, r: Node, dead: set<Node>, j: nat)
    requires PathOk(path, key, nodes) && path[0].parent == null && j < |path|
    requires r in nodes && Cut(r, nodes, dead, {})
    ensures path[j] in dead <==> r in path[..j + 1]
  {
    if j > 0 {
      CutIsSubtree(path, key, nodes, r, dead, j - 1);
      assert path[..j + 1] == path[..j] + [path[j]];
      assert LinkOk(path, j - 1, key);
      assert path[j] in Kids(path[j - 1]);
    }
  }
}
