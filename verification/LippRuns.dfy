/** Whole runs of the updatable tree: bulk loading or an empty start, then any number of
    inserts of fresh keys. */
module LippRuns {
  import opened LippModel
  import opened LippMaps
  import opened LippNode
  import opened LippBuild
  import opened LippBulk
  import opened LippInsert
  import opened LippScan
  import opened LippTree

  /** The map after inserting the pairs in order. */
  function Inserted(c: map<int, int>, vs: seq<(int, int)>): map<int, int> {
    if |vs| == 0 then c else Inserted(c, vs[..|vs| - 1])[vs[|vs| - 1].0 := vs[|vs| - 1].1]
  }

  /** No key of the list is in the map or occurs twice. */
  predicate Fresh(c: map<int, int>, vs: seq<(int, int)>) {
    && (forall i :: 0 <= i < |vs| ==> vs[i].0 !in c)
    && (forall i, j :: 0 <= i < j < |vs| ==> vs[i].0 != vs[j].0)
  }

  predicate Among(vs: seq<(int, int)>, k: int) {
    exists i :: 0 <= i < |vs| && vs[i].0 == k
  }

  lemma AmongMore(vs: seq<(int, int)>, n: nat, k: int)
    requires |vs| == n + 1
    ensures Among(vs, k) <==> Among(vs[..n], k) || vs[n].0 == k
  {
    if Among(vs[..n], k) {
      var i :| 0 <= i < n && vs[..n][i].0 == k;
      assert vs[i].0 == k;
    }
    if Among(vs, k) {
      var i :| 0 <= i < |vs| && vs[i].0 == k;
      if i < n { assert vs[..n][i].0 == k; }
    }
  }

  lemma FreshShorter(c: map<int, int>, vs: seq<(int, int)>, n: nat)
    requires Fresh(c, vs) && |vs| == n + 1
    ensures Fresh(c, vs[..n]) && vs[n].0 !in c && !Among(vs[..n], vs[n].0)
  {
    assert forall i :: 0 <= i < n ==> vs[..n][i] == vs[i];
  }

  /** The keys after a run are the old ones and the inserted ones. */
  lemma {:induction false} InsertedKeys(c: map<int, int>, vs: seq<(int, int)>)
    requires Fresh(c, vs)
    ensures |Inserted(c, vs)| == |c| + |vs|
    ensures forall k :: k in Inserted(c, vs) <==> k in c || Among(vs, k)
    ensures forall k :: k in c ==> k in Inserted(c, vs) && Inserted(c, vs)[k] == c[k]
  {
    if |vs| > 0 {
      var n := |vs| - 1;
      FreshShorter(c, vs, n);
      hide Among, Fresh;
      InsertedKeys(c, vs[..n]);
      forall k ensures k in Inserted(c, vs) <==> k in c || Among(vs, k) {
        AmongMore(vs, n, k);
      }
    }
  }

  /** Every inserted key is found with its value. */
  lemma {:induction false} InsertedValue(c: map<int, int>, vs: seq<(int, int)>, i: nat)
    requires Fresh(c, vs) && i < |vs|
    ensures vs[i].0 in Inserted(c, vs) && Inserted(c, vs)[vs[i].0] == vs[i].1
    decreases |vs|
  {
    var n := |vs| - 1;
    if i < n {
      FreshShorter(c, vs, n);
      InsertedValue(c, vs[..n], i);
    }
  }

  lemma NextFresh(c: map<int, int>, vs: seq<(int, int)>, i: nat)
    requires Fresh(c, vs) && i < |vs|
    ensures Inserted(c, vs[..i + 1]) == Inserted(c, vs[..i])[vs[i].0 := vs[i].1]
    ensures vs[i].0 !in Inserted(c, vs[..i]) && |Inserted(c, vs[..i])| == |c| + i
  {
    assert vs[..i + 1][..i] == vs[..i] && vs[..i + 1][i] == vs[i];
    FreshShorter(c, vs[..i + 1], i);
    InsertedKeys(c, vs[..i]);
  }

  /** Any sequence of inserts of fresh keys, rebuilds included, adds exactly those pairs. */
  method InsertAll(lipp: LIPP, vs: seq<(int, int)>)
    requires lipp.Valid() && Fresh(lipp.Contents(), vs)
    requires Representable(|lipp.Contents()| + |vs|, lipp.buildLrRemain)
    modifies lipp`root, lipp`pendingTwo, lipp`nodes, lipp`maxDepth, lipp.nodes, NodeSet(lipp.pendingTwo)
    ensures lipp.Valid() && lipp.Contents() == Inserted(old(lipp.Contents()), vs)
  {
    hide LocalOk, Settled, NumItems, FreeListOk, Rooted, LookupPath, Conflicts, DueNext, Cut, BuiltRight, SlotTaken,
         AllCountedIn;
    ghost var c := lipp.Contents();
    assert vs[..0] == [];
    for i := 0 to |vs|
      invariant lipp.Valid() && lipp.Contents() == Inserted(c, vs[..i])
      invariant fresh(lipp.nodes + NodeSet(lipp.pendingTwo) - old(lipp.nodes) - old(NodeSet(lipp.pendingTwo)))
    {
      NextFresh(c, vs, i);
      ghost var path, at, gone, grown := lipp.Insert(vs[i].0, vs[i].1);
    }
    assert vs[..|vs|] == vs;
  }

  // ---- A small load, slot by slot ----

  /** Three consecutive keys: degree 1 is accepted with the smallest unit, and the steep line
      sends the keys to the first, the middle and the last of 18 slots. */
  lemma ThreeKeySlots(n: Node)
    requires n.contents.Keys == {0, 1, 2} && BuiltRight(n, 0.0, true)
    ensures |n.items| == 18 && n.Pos(0) == 0 && n.Pos(1) == 9 && n.Pos(2) == 17
  {
    hide Chosen, Listing, PredictPos, TwoModel;
    var keys := [0, 1, 2];
    ListingUnique(keys, n.contents.Keys);
    assert NumItems(3, 0.0) == 18;
    hide NumItems;
    ThreeKeyModel(n.model);
    SteepSlots(n.model);
  }

  lemma SteepSlots(m: LinearModel)
    requires m.a == 1000000.0 && m.b == 9.0 - 1000000.0
    ensures PredictPos(m, 18, 0) == 0 && PredictPos(m, 18, 1) == 9 && PredictPos(m, 18, 2) == 17
  {
    assert Value(m, 0) == -999991.0 && Value(m, 1) == 9.0 && Value(m, 2) == 1000009.0;
  }

  lemma ThreeKeyModel(m: LinearModel)
    requires Chosen([0, 1, 2], 0.0, true, m)
    ensures m.a == 1000000.0 && m.b == 9.0 - 1000000.0
  {
    var keys := [0, 1, 2];
    assert GapCount(3) == 5 && Remains(3, 0.0) == 0;
    assert Unit(keys, 18, 1) == TINY;
    assert AllWide(keys, 18, 1);
    var d :| LeastAccepted(keys, 18, d) && Unit(keys, 18, d) > 0.0 && m == FmcdModel(keys, 18, d, Unit(keys, 18, d), 0);
    assert d == 1;
    assert 1.0 / TINY == 1000000.0;
  }

  /** Where every node holds at least two keys, a key alone in its slot is data there. */
  lemma AloneIsData(n: Node, nodes: set<Node>, key: int)
    requires LocalOk(n, nodes) && key in n.contents && forall x :: x in nodes ==> |x.contents| >= 2
    requires forall k :: k in n.contents && k != key ==> n.Pos(k) != n.Pos(key)
    ensures n.items[n.Pos(key)] == Data(key, n.contents[key])
  {
    hide PredictPos;
    var pos := n.Pos(key);
    var part := Part(n.contents, n.model, |n.items|, pos);
    assert SlotOk(n, pos, nodes);
    assert part == map[key := n.contents[key]];
    assert |part| == 1;
  }

  lemma TwoAtLeast(n: Node, nodes: set<Node>, fraction: real, useFmcd: bool)
    requires LocalOk(n, nodes) && fraction >= 0.0 && BuiltRight(n, fraction, useFmcd)
    ensures |n.contents| >= 2
  {
    hide LocalOk, Listing, Chosen, NumItems, TwoModel;
    SizeIs(n, nodes);
  }

  method LoadThree(lipp: LIPP, v0: int, v1: int, v2: int)
    requires lipp.Valid() && lipp.useFmcd && lipp.buildLrRemain == 0.0
    modifies lipp`root, lipp`pendingTwo, lipp`nodes, lipp`maxDepth, lipp.nodes, NodeSet(lipp.pendingTwo)
    ensures lipp.Valid() && |lipp.root.items| == 18
    ensures lipp.root.items[0] == Data(0, v0) && lipp.root.items[9] == Data(1, v1) && lipp.root.items[17] == Data(2, v2)
  {
    hide LocalOk, Settled, FreeListOk, Rooted, BuiltRight, PredictPos;
    assert Representable(3, 0.0);
    var vs := [(0, v0), (1, v1), (2, v2)];
    var ok := lipp.BulkLoad(vs);
    var root := lipp.root;
    ThreeKeys(root.contents, vs);
    ThreeKeySlots(root);
    forall x | x in lipp.nodes ensures |x.contents| >= 2 { TwoAtLeast(x, lipp.nodes, 0.0, true); }
    AloneIsData(root, lipp.nodes, 0);
    AloneIsData(root, lipp.nodes, 1);
    AloneIsData(root, lipp.nodes, 2);
  }

  lemma ThreeKeys(c: Contents, vs: seq<(int, int)>)
    requires IsMapOf(c, vs) && |vs| == 3 && vs[0].0 == 0 && vs[1].0 == 1 && vs[2].0 == 2
    ensures c.Keys == {0, 1, 2} && c[0] == vs[0].1 && c[1] == vs[1].1 && c[2] == vs[2].1
  {
    assert |c.Keys| == 3;
    var rest := c.Keys - {0, 1, 2};
    assert c.Keys == {0, 1, 2} + rest;
    assert |{0, 1, 2}| == 3;
  }
}
