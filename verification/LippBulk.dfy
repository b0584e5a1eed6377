/** Filling nodes: two keys into a blank node, and a sorted run of keys into the slots of a
    node in the making, with child nodes for the runs that share a slot. */
module LippBulk {
  import opened SortedSeq
  import opened LippModel
  import opened LippMaps
  import opened LippNode
  import opened LippBuild

  /** The shape of a freshly filled two-key node. */
  ghost predicate TwoKeys(n: Node, k1: int, v1: int, k2: int, v2: int)
    requires k1 != k2
    reads n
  {
    && n.isTwo && n.buildSize == 2 && n.size == 2 && !n.fixed && n.numInserts == 0 && n.numInsertToData == 0
    && n.contents == map[k1 := v1, k2 := v2]
    && n.model == (if k1 < k2 then TwoModel(k1, k2) else TwoModel(k2, k1))
    && LocalOk(n, {})
  }

  /** A node as its builder makes it for exactly the keys it shows: model, number of slots,
      build size, and counters at zero. */
  ghost predicate BuiltRight(n: Node, fraction: real, useFmcd: bool)
    requires fraction >= 0.0
    reads n
  {
    var keys := Listing(n.contents.Keys);
    && n.numInserts == 0 && n.numInsertToData == 0 && n.buildSize == |keys| >= 2
    && (if |keys| == 2 then
          n.isTwo && !n.fixed && |n.items| == 8 && n.model == TwoModel(keys[0], keys[1])
        else
          && !n.isTwo && n.fixed == (|keys| > 1000000) && |n.items| == NumItems(|keys|, fraction)
          && Chosen(keys, fraction, useFmcd, n.model))
  }

  lemma TwoBuiltRight(n: Node, k1: int, v1: int, k2: int, v2: int, fraction: real, useFmcd: bool)
    requires k1 != k2 && TwoKeys(n, k1, v1, k2, v2) && fraction >= 0.0
    ensures BuiltRight(n, fraction, useFmcd)
  {
    LocalFrame(n, {});
    hide LocalOk, TwoModel, Listing, Chosen, NumItems;
    var keys := if k1 < k2 then [k1, k2] else [k2, k1];
    assert n.contents.Keys == {k1, k2};
    ListingUnique(keys, n.contents.Keys);
  }

  lemma BuiltCopy(from: Node, to: Node, fraction: real, useFmcd: bool)
    requires fraction >= 0.0 && BuiltRight(from, fraction, useFmcd)
    requires to.numInserts == from.numInserts && to.numInsertToData == from.numInsertToData && to.isTwo == from.isTwo
    requires to.buildSize == from.buildSize && to.fixed == from.fixed && to.items == from.items
    requires to.model == from.model && to.contents == from.contents
    ensures BuiltRight(to, fraction, useFmcd)
  {
    hide Listing, Chosen, NumItems, TwoModel;
  }

  lemma ManyBuiltRight(n: Node, keys: seq<int>, values: seq<int>, fraction: real, useFmcd: bool)
    requires Increasing(keys) && |values| == |keys| >= 3 && fraction >= 0.0 && n.contents == MapOf(keys, values)
    requires n.numInserts == 0 && n.numInsertToData == 0 && n.buildSize == |keys|
    requires !n.isTwo && n.fixed == (|keys| > 1000000) && |n.items| == NumItems(|keys|, fraction)
    requires Chosen(keys, fraction, useFmcd, n.model)
    ensures BuiltRight(n, fraction, useFmcd)
  {
    hide Chosen, NumItems, MapOf, Listing;
    MapListing(keys, values);
  }

  /** Nothing has been inserted into it since, so it is not due for a rebuild. */
  lemma BuiltSettled(n: Node, nodes: set<Node>, fraction: real, useFmcd: bool)
    requires LocalOk(n, nodes) && fraction >= 0.0 && BuiltRight(n, fraction, useFmcd)
    ensures Settled(n)
  {
    hide Listing, Chosen, NumItems, TwoModel;
    SizeIs(n, nodes);
  }

  // ---- Bulk building ----

  /** Keys begin..end still to be built into node. */
  datatype Segment = Segment(begin: nat, end: nat, level: nat, node: Node)

  ghost function SegNodes(segs: seq<Segment>): set<Node> { set s | s in segs :: s.node }

  /** A pending segment covers at least two keys, and its node already shows their map. */
  ghost predicate SegOk(s: Segment, keys: seq<int>, values: seq<int>)
    requires Increasing(keys) && |values| == |keys|
    reads s.node
  {
    && s.begin + 2 <= s.end <= |keys|
    && s.node.contents == SliceMap(keys, values, s.begin, s.end)
  }

  ghost predicate SegsOk(segs: seq<Segment>, keys: seq<int>, values: seq<int>)
    requires Increasing(keys) && |values| == |keys|
    reads SegNodes(segs)
  {
    && (forall i :: 0 <= i < |segs| ==> SegOk(segs[i], keys, values))
    && (forall i, j :: 0 <= i < j < |segs| ==> segs[i].node != segs[j].node)
  }

  /** Strictly decreases when a segment is replaced by smaller ones covering no more. */
  function Weight(segs: seq<Segment>): int {
    if |segs| == 0 then 0
    else Weight(segs[..|segs| - 1]) + 2 * (segs[|segs| - 1].end - segs[|segs| - 1].begin) - 1
  }

  lemma {:induction false} WeightAppend(a: seq<Segment>, b: seq<Segment>)
    ensures Weight(a + b) == Weight(a) + Weight(b)
  {
    if |b| == 0 {
      assert a + b == a;
    } else {
      WeightAppend(a, b[..|b| - 1]);
      assert (a + b)[..|a + b| - 1] == a + b[..|b| - 1];
    }
  }

  lemma {:induction false} WeightNonNegative(segs: seq<Segment>)
    requires forall i :: 0 <= i < |segs| ==> segs[i].begin < segs[i].end
    ensures Weight(segs) >= 0
  {
    if |segs| > 0 { WeightNonNegative(segs[..|segs| - 1]); }
  }

  /** The slots filled so far hold exactly the keys consumed so far. */
  ghost predicate Filled(n: Node, keys: seq<int>, values: seq<int>, offset: nat, born: set<Node>)
    requires Increasing(keys) && |values| == |keys| && offset <= |keys|
    reads n, born
  {
    && |n.items| >= 1
    && forall i :: 0 <= i < |n.items| ==>
         SlotHolds(n, i, Part(SliceMap(keys, values, 0, offset), n.model, |n.items|, i), born)
  }

  /** Storing a key group at its slot extends the filled prefix. */
  twostate lemma GroupStored(n: Node, new keys: seq<int>, new values: seq<int>, new offset: nat, new next: nat,
                             new item: int, new before: set<Node>, new after: set<Node>)
    requires old(allocated(before))
    requires Increasing(keys) && |values| == |keys| && offset < next <= |keys|
    requires old(Filled(n, keys, values, offset, before)) && before <= after
    requires |n.items| == old(|n.items|) && n.model == old(n.model) && n.depth == old(n.depth)
    requires 0 <= item < |n.items|
    requires forall i :: 0 <= i < |n.items| && i != item ==> n.items[i] == old(n.items[i])
    requires forall x :: x in before ==> SameFace(x)
    requires forall j :: 0 <= j < offset ==> PredictPos(n.model, |n.items|, keys[j]) < item
    requires forall j :: offset <= j < next ==> PredictPos(n.model, |n.items|, keys[j]) == item
    requires SlotHolds(n, item, SliceMap(keys, values, offset, next), after)
    ensures Filled(n, keys, values, next, after)
  {
    hide PredictPos, SliceMap;
    GroupPart(keys, values, n.model, |n.items|, offset, next, item);
    forall i | 0 <= i < |n.items|
      ensures SlotHolds(n, i, Part(SliceMap(keys, values, 0, next), n.model, |n.items|, i), after)
    {
      assert old(SlotHolds(n, i, Part(SliceMap(keys, values, 0, offset), n.model, |n.items|, i), before));
    }
  }

  /** Puts two keys into a blank node under the model that keeps them apart. */
  method FillTwo(node: Node, k1: int, v1: int, k2: int, v2: int, ghost depth: nat, ghost parent: Node?, ghost slot: int)
    requires k1 < k2 && Blank(node)
    modifies node
    ensures TwoKeys(node, k1, v1, k2, v2) && node.depth == depth && node.parent == parent && node.slot == slot
  {
    node.depth, node.parent, node.slot := depth, parent, slot;
    node.model := TwoModel(k1, k2);
    TwoKeySlots(k1, k2);
    hide PredictPos, TwoModel;
    var pos := node.Pos(k1);
    assert node.items[pos] == None;
    node.items := node.items[pos := Data(k1, v1)];
    pos := node.Pos(k2);
    assert node.items[pos] == None;
    node.items := node.items[pos := Data(k2, v2)];
    node.contents := map[k1 := v1, k2 := v2];
    TwoPartsOk(node, k1, v1, k2, v2);
  }

  /** Two keys in slots 2 and 5 of eight. */
  lemma TwoPartsOk(n: Node, k1: int, v1: int, k2: int, v2: int)
    requires k1 < k2 && n.contents == map[k1 := v1, k2 := v2]
    requires |n.items| == 8 && n.items[2] == Data(k1, v1) && n.items[5] == Data(k2, v2)
    requires forall i :: 0 <= i < 8 && i != 2 && i != 5 ==> n.items[i] == None
    requires n.Pos(k1) == 2 && n.Pos(k2) == 5
    ensures forall i :: 0 <= i < 8 ==> SlotOk(n, i, {})
    ensures |n.contents| == 2
  {
    hide PredictPos;
    var c := n.contents;
    assert c.Keys == {k1, k2};
    forall i | 0 <= i < 8 ensures SlotOk(n, i, {}) {
      var part := Part(c, n.model, 8, i);
      if i == 2 { assert part == map[k1 := v1]; } else if i == 5 { assert part == map[k2 := v2]; }
    }
  }

  // ---- A sorted run into the slots of a node ----

  /** A segment of a run that starts at `begin` in the whole array: at least two of its
      keys but not all, and a node that already shows their map. */
  ghost predicate RunSeg(s: Segment, keys: seq<int>, values: seq<int>, begin: nat)
    requires Increasing(keys) && |values| == |keys|
    reads s.node
  {
    && begin <= s.begin && s.begin + 2 <= s.end <= begin + |keys|
    && s.end - s.begin < |keys|
    && s.node.contents == SliceMap(keys, values, s.begin - begin, s.end - begin)
  }

  ghost predicate RunSegs(segs: seq<Segment>, keys: seq<int>, values: seq<int>, begin: nat, level: nat, depth: nat)
    requires Increasing(keys) && |values| == |keys|
    reads SegNodes(segs)
  {
    && (forall i :: 0 <= i < |segs| ==> RunSeg(segs[i], keys, values, begin))
    && (forall i :: 0 <= i < |segs| ==> segs[i].level == level && segs[i].node.depth == depth)
    && (forall i, j :: 0 <= i < j < |segs| ==> segs[i].node != segs[j].node)
  }

  /** The end of the run of keys that share the slot of keys[offset]. */
  method GroupEnd(node: Node, keys: seq<int>, offset: nat, item: int) returns (next: nat, nextItem: int)
    requires offset < |keys| && |node.items| >= 1 && item == node.Pos(keys[offset])
    ensures offset < next <= |keys|
    ensures forall j :: offset <= j < next ==> node.Pos(keys[j]) == item
    ensures next < |keys| ==> nextItem == node.Pos(keys[next]) != item
  {
    hide PredictPos;
    next, nextItem := offset + 1, -1;
    while next < |keys|
      invariant offset < next <= |keys|
      invariant forall j :: offset <= j < next ==> node.Pos(keys[j]) == item
    {
      nextItem := node.Pos(keys[next]);
      if nextItem == item {
        next := next + 1;
      } else {
        break;
      }
    }
  }

  /** Stores the key at offset as data in its slot. */
  method PlaceData(node: Node, keys: seq<int>, values: seq<int>, offset: nat, item: int, ghost before: set<Node>)
    requires Increasing(keys) && |values| == |keys| && offset < |keys|
    requires Filled(node, keys, values, offset, before) && node !in before
    requires forall j :: 0 <= j < offset ==> node.Pos(keys[j]) < item
    requires node.Pos(keys[offset]) == item
    modifies node`items
    ensures 0 <= item < old(|node.items|)
    ensures node.items == old(node.items)[item := Data(keys[offset], values[offset])]
    ensures Filled(node, keys, values, offset + 1, before)
  {
    hide PredictPos, Increasing, SliceMap, Filled;
    OneKeySlice(keys, values, offset);
    node.items := node.items[item := Data(keys[offset], values[offset])];
    GroupStored(node, keys, values, offset, offset + 1, item, before, before);
  }

  /** Stores the group offset..next as a child in its slot. */
  method PlaceChild(node: Node, keys: seq<int>, values: seq<int>, offset: nat, next: nat, item: int,
      ghost before: set<Node>)
    returns (child: Node)
    requires Increasing(keys) && |values| == |keys| && offset < next <= |keys|
    requires Filled(node, keys, values, offset, before) && node !in before
    requires forall j :: 0 <= j < offset ==> node.Pos(keys[j]) < item
    requires forall j :: offset <= j < next ==> node.Pos(keys[j]) == item
    modifies node`items
    ensures 0 <= item < old(|node.items|) && node.items == old(node.items)[item := Child(child)]
    ensures fresh(child) && child.contents == SliceMap(keys, values, offset, next) && child.depth == node.depth + 1
    ensures child.parent == node && child.slot == item
    ensures Filled(node, keys, values, next, before + {child})
  {
    hide PredictPos, Increasing, SliceMap, Filled;
    assert node.Pos(keys[offset]) == item;
    child := new Node();
    child.contents, child.depth, child.parent, child.slot :=
        SliceMap(keys, values, offset, next), node.depth + 1, node, item;
    node.items := node.items[item := Child(child)];
    GroupStored(node, keys, values, offset, next, item, before, before + {child});
  }

  lemma OneKeySlice(keys: seq<int>, values: seq<int>, i: nat)
    requires Increasing(keys) && |values| == |keys| && i < |keys|
    ensures SliceMap(keys, values, i, i + 1) == map[keys[i] := values[i]]
  {
    assert keys[i..i + 1] == [keys[i]] && values[i..i + 1] == [values[i]];
    SingleMap(keys[i], values[i]);
  }

  /** The children so far hang in the node's slots before `limit`. */
  ghost predicate Sown(node: Node, born: set<Node>, limit: int)
    reads node, born
  {
    forall x :: x in born ==> Hung(x, {node}) && x.slot < limit
  }

  /** Filling the next slot, with a child or without. */
  twostate lemma Sow(node: Node, new born: set<Node>, new more: set<Node>, new item: int, new limit: int)
    requires old(allocated(born)) && old(Sown(node, born, item)) && 0 <= item < limit
    requires |node.items| == old(|node.items|)
    requires forall i :: 0 <= i < |node.items| && i != item ==> node.items[i] == old(node.items[i])
    requires forall x :: x in born ==> SameFace(x)
    requires Sown(node, more, item + 1) && forall x :: x in more ==> x.slot == item
    ensures Sown(node, born + more, limit)
  {
    forall x | x in born ensures Hung(x, {node}) && x.slot < limit {
      assert old(Hung(x, {node}));
    }
  }

  /** One group goes to its slot: a lone key as data, more as a child whose keys wait. */
  method PlaceGroup(node: Node, keys: seq<int>, values: seq<int>, begin: nat, level: nat, offset: nat, next: nat,
      item: int, ghost limit: int, segs: seq<Segment>, ghost born: set<Node>)
    returns (segs': seq<Segment>, ghost born': set<Node>)
    requires Increasing(keys) && |values| == |keys| && offset < next <= |keys| && (offset == 0 ==> next < |keys|)
    requires Filled(node, keys, values, offset, born) && Sown(node, born, item) && item < limit && node !in born
    requires forall j :: 0 <= j < offset ==> node.Pos(keys[j]) < item
    requires forall j :: offset <= j < next ==> node.Pos(keys[j]) == item
    requires born == SegNodes(segs) && RunSegs(segs, keys, values, begin, level + 1, node.depth + 1)
    modifies node`items
    ensures |node.items| == old(|node.items|) && Filled(node, keys, values, next, born') && Sown(node, born', limit)
    ensures fresh(born' - born) && born' == SegNodes(segs')
    ensures RunSegs(segs', keys, values, begin, level + 1, node.depth + 1)
    ensures Weight(segs') <= Weight(segs) + 2 * (next - offset) - 1
  {
    hide PredictPos, SliceMap, Filled, RunSegs, Weight, Sown;
    segs', born' := segs, born;
    ghost var more := {};
    if next == offset + 1 {
      PlaceData(node, keys, values, offset, item, born);
      NoneSown(node, item + 1);
    } else {
      var child := PlaceChild(node, keys, values, offset, next, item, born);
      var seg := Segment(begin + offset, begin + next, level + 1, child);
      AddSeg(segs, seg, keys, values, begin, level + 1, node.depth + 1);
      segs', more := segs + [seg], {child};
      OneSown(node, child);
    }
    Sow(node, born, more, item, limit);
    born' := born + more;
    assert more == {} ==> born' == born;
  }

  /** Every key of the run goes to its slot: a lone key as data, a group as a child whose
      keys become a pending segment. The segments weigh less than the run itself. */
  method Distribute(node: Node, keys: seq<int>, values: seq<int>, begin: nat, level: nat)
    returns (segs: seq<Segment>, ghost born: set<Node>)
    requires Increasing(keys) && |values| == |keys| && |keys| >= 2
    requires Separates(node.model, |node.items|, keys)
    requires forall i :: 0 <= i < |node.items| ==> node.items[i] == None
    modifies node`items
    ensures |node.items| == old(|node.items|)
    ensures Filled(node, keys, values, |keys|, born)
    ensures fresh(born) && born == SegNodes(segs)
    ensures RunSegs(segs, keys, values, begin, level + 1, node.depth + 1)
    ensures Sown(node, born, |node.items|)
    ensures Weight(segs) < 2 * |keys| - 1
  {
    hide PredictPos, SliceMap, Filled, RunSegs, Weight, Sown;
    var size := |keys|;
    var item, offset := node.Pos(keys[0]), 0;
    ghost var groups := 0;
    segs, born := [], {};
    NoneSown(node, item);
    NothingFilled(node, keys, values);
    NoSegs(keys, values, begin, level + 1, node.depth + 1);
    while offset < size
      invariant offset <= size && |node.items| == old(|node.items|)
      invariant Filled(node, keys, values, offset, born)
      invariant offset < size ==> item == node.Pos(keys[offset])
      invariant forall j :: 0 <= j < offset < size ==> node.Pos(keys[j]) < item
      invariant fresh(born) && born == SegNodes(segs)
      invariant Sown(node, born, if offset < size then item else |node.items|)
      invariant RunSegs(segs, keys, values, begin, level + 1, node.depth + 1)
      invariant 0 <= groups && (groups == 0 <==> offset == 0)
      invariant groups <= 1 ==> offset < size
      invariant Weight(segs) <= 2 * offset - groups
    {
      var next, nextItem := GroupEnd(node, keys, offset, item);
      if next < size {
        PredictMonotone(node.model, |node.items|, keys[offset], keys[next]);
      }
      segs, born := PlaceGroup(node, keys, values, begin, level, offset, next, item,
                               if next < size then nextItem else |node.items|, segs, born);
      groups := groups + 1;
      item, offset := nextItem, next;
    }
  }

  lemma NoneSown(node: Node, limit: int)
    ensures Sown(node, {}, limit)
  {}

  lemma OneSown(node: Node, child: Node)
    requires Hung(child, {node})
    ensures Sown(node, {child}, child.slot + 1)
  {}

  lemma SownHang(node: Node, born: set<Node>, limit: int)
    requires Sown(node, born, limit)
    ensures forall x :: x in born ==> Hung(x, {node})
  {}

  lemma NoSegs(keys: seq<int>, values: seq<int>, begin: nat, level: nat, depth: nat)
    requires Increasing(keys) && |values| == |keys|
    ensures RunSegs([], keys, values, begin, level, depth) && SegNodes([]) == {} && Weight([]) == 0
  {}

  lemma AddSeg(a: seq<Segment>, s: Segment, keys: seq<int>, values: seq<int>, begin: nat, level: nat, depth: nat)
    requires Increasing(keys) && |values| == |keys|
    requires RunSegs(a, keys, values, begin, level, depth) && RunSeg(s, keys, values, begin)
    requires s.level == level && s.node.depth == depth && s.node !in SegNodes(a)
    ensures RunSegs(a + [s], keys, values, begin, level, depth) && SegNodes(a + [s]) == SegNodes(a) + {s.node}
    ensures Weight(a + [s]) == Weight(a) + 2 * (s.end - s.begin) - 1
  {
    hide SliceMap, Increasing;
    assert forall i :: 0 <= i < |a| ==> a[i].node in SegNodes(a);
    assert (a + [s])[..|a|] == a;
  }

  lemma NothingFilled(n: Node, keys: seq<int>, values: seq<int>)
    requires Increasing(keys) && |values| == |keys| && |n.items| >= 1
    requires forall i :: 0 <= i < |n.items| ==> n.items[i] == None
    ensures Filled(n, keys, values, 0, {})
  {
    assert keys[0..0] == [];
  }

  // ---- One node of a bulk build ----

  /** Shapes a node for three or more keys and hands its groups on as segments. */
  method BuildNode(node: Node, keys: seq<int>, values: seq<int>, begin: nat, level: nat, fraction: real, useFmcd: bool)
    returns (segs: seq<Segment>, ghost born: set<Node>)
    requires Increasing(keys) && |values| == |keys| && |keys| >= 3
    requires fraction >= 0.0 && NumItems(|keys|, fraction) <= INT_MAX
    requires node.contents == MapOf(keys, values)
    modifies node`isTwo, node`buildSize, node`size, node`fixed, node`numInserts, node`numInsertToData, node`model,
             node`items
    ensures LocalOk(node, born) && BuiltRight(node, fraction, useFmcd)
    ensures fresh(born) && born == SegNodes(segs) && forall x :: x in born ==> Hung(x, {node})
    ensures RunSegs(segs, keys, values, begin, level + 1, node.depth + 1)
    ensures Weight(segs) < 2 * |keys| - 1
  {
    hide Increasing, PredictPos, SliceMap, RunSegs, Weight, SegNodes, Filled, LocalOk, Chosen, NumItems, MapOf, Sown,
         Hung, BuiltRight;
    var size := |keys|;
    node.isTwo, node.buildSize, node.size, node.fixed := false, size, size, false;
    node.numInserts, node.numInsertToData := 0, 0;
    var model, numItems := ChooseModel(keys, fraction, useFmcd);
    node.model := model;
    if size > 1000000 {
      node.fixed := true;
    }
    node.items := seq(numItems, _ => None);
    segs, born := Distribute(node, keys, values, begin, level);
    FilledLocal(node, keys, values, born);
    SownHang(node, born, |node.items|);
    ManyBuiltRight(node, keys, values, fraction, useFmcd);
  }

  /** A node whose slots are filled from a whole run meets the local invariant. */
  lemma FilledLocal(n: Node, keys: seq<int>, values: seq<int>, born: set<Node>)
    requires Increasing(keys) && |values| == |keys| && Filled(n, keys, values, |keys|, born)
    requires n.contents == MapOf(keys, values) && n.size == |keys| && n.model.a >= 0.0 && !n.isTwo
    ensures LocalOk(n, born)
  {
    WholeSlice(keys, values);
    hide SliceMap, PredictPos, Increasing, Part;
  }

  lemma WholeSlice(keys: seq<int>, values: seq<int>)
    requires Increasing(keys) && |values| == |keys|
    ensures SliceMap(keys, values, 0, |keys|) == MapOf(keys, values)
  {
    assert keys[0..|keys|] == keys && values[0..|keys|] == values;
  }

  lemma SliceOfSlice(keys: seq<int>, values: seq<int>, b: nat, e: nat, from: nat, to: nat)
    requires Increasing(keys) && |values| == |keys| && b <= from <= to <= e <= |keys|
    ensures Increasing(keys[b..e])
    ensures SliceMap(keys[b..e], values[b..e], from - b, to - b) == SliceMap(keys, values, from, to)
  {
    SubSlice(keys, b, e, from, to);
    SubSlice(values, b, e, from, to);
  }

  lemma SubSlice(s: seq<int>, b: nat, e: nat, from: nat, to: nat)
    requires b <= from <= to <= e <= |s|
    ensures s[b..e][from - b..to - b] == s[from..to]
  {
    var x, y := s[b..e][from - b..to - b], s[from..to];
    forall i | 0 <= i < |x| ensures x[i] == y[i] {
      assert x[i] == s[b..e][from - b + i];
    }
  }

  /** The segments of a run are segments of the whole array. */
  lemma RunSegsOk(segs: seq<Segment>, keys: seq<int>, values: seq<int>, b: nat, e: nat, level: nat, depth: nat)
    requires Increasing(keys) && |values| == |keys| && b <= e <= |keys| && Increasing(keys[b..e])
    requires RunSegs(segs, keys[b..e], values[b..e], b, level, depth)
    ensures SegsOk(segs, keys, values) && forall x :: x in SegNodes(segs) ==> x.depth == depth
  {
    hide Increasing, SliceMap;
    forall i | 0 <= i < |segs| ensures SegOk(segs[i], keys, values) {
      assert RunSeg(segs[i], keys[b..e], values[b..e], b);
      SliceOfSlice(keys, values, b, e, segs[i].begin, segs[i].end);
    }
  }

  lemma JoinSegs(a: seq<Segment>, b: seq<Segment>, keys: seq<int>, values: seq<int>)
    requires Increasing(keys) && |values| == |keys|
    requires SegsOk(a, keys, values) && SegsOk(b, keys, values) && SegNodes(a) !! SegNodes(b)
    ensures SegsOk(a + b, keys, values) && SegNodes(a + b) == SegNodes(a) + SegNodes(b)
  {
    hide SliceMap, Increasing;
    forall i, j | 0 <= i < j < |a + b| ensures (a + b)[i].node != (a + b)[j].node {
      if i < |a| <= j { assert a[i].node in SegNodes(a) && b[j - |a|].node in SegNodes(b); }
    }
  }

  lemma SegTop(s: seq<Segment>)
    requires |s| > 0
    ensures s[|s| - 1].node in SegNodes(s)
  {}

  lemma PopSeg(segs: seq<Segment>, keys: seq<int>, values: seq<int>)
    requires Increasing(keys) && |values| == |keys| && |segs| > 0 && SegsOk(segs, keys, values)
    ensures var s, rest := segs[|segs| - 1], segs[..|segs| - 1];
            && SegOk(s, keys, values) && SegsOk(rest, keys, values)
            && s.node !in SegNodes(rest) && SegNodes(segs) == SegNodes(rest) + {s.node}
            && Weight(segs) == Weight(rest) + 2 * (s.end - s.begin) - 1
  {
    hide Increasing, SegOk;
    var rest := segs[..|segs| - 1];
    assert forall x :: x in SegNodes(segs) ==> x in SegNodes(rest) || x == segs[|segs| - 1].node;
    assert forall i :: 0 <= i < |rest| ==> rest[i] == segs[i];
  }

  lemma FirstSeg(keys: seq<int>, values: seq<int>, node: Node)
    requires Increasing(keys) && |values| == |keys| >= 2 && node.contents == MapOf(keys, values)
    ensures SegsOk([Segment(0, |keys|, 1, node)], keys, values)
    ensures SegNodes([Segment(0, |keys|, 1, node)]) == {node}
  {
    var seg := Segment(0, |keys|, 1, node);
    hide Increasing, MapOf, SliceMap;
    WholeSlice(keys, values);
    OneSeg(seg, keys, values);
  }

  lemma OneSeg(seg: Segment, keys: seq<int>, values: seq<int>)
    requires Increasing(keys) && |values| == |keys| && SegOk(seg, keys, values)
    ensures SegsOk([seg], keys, values) && SegNodes([seg]) == {seg.node}
  {
    hide SegOk, Increasing, SliceMap;
    assert [seg][0] == seg;
  }

  lemma SegWeights(segs: seq<Segment>, keys: seq<int>, values: seq<int>)
    requires Increasing(keys) && |values| == |keys| && SegsOk(segs, keys, values)
    ensures Weight(segs) >= 0
  {
    hide SliceMap, Increasing;
    forall i | 0 <= i < |segs| ensures segs[i].begin < segs[i].end {
      assert SegOk(segs[i], keys, values);
    }
    WeightNonNegative(segs);
  }

  /** A tree in the making: all its nodes but the waiting ones are complete, and those hold
      all others but the root. */
  ghost predicate Building(ret: Node, made: set<Node>, waiting: set<Node>, deep: nat, fraction: real, useFmcd: bool)
    requires fraction >= 0.0
    reads made
  {
    && ret in made && waiting <= made
    && (forall x :: x in made && x !in waiting ==> LocalOk(x, made) && BuiltRight(x, fraction, useFmcd))
    && (forall x :: x in made ==> ret.depth <= x.depth <= deep)
    && forall x :: x in made && x != ret ==> Hung(x, made - waiting)
  }

  lemma FirstBuilding(node: Node, fraction: real, useFmcd: bool)
    requires fraction >= 0.0
    ensures Building(node, {node}, {node}, node.depth, fraction, useFmcd)
  {}

  lemma LastBuilding(ret: Node, made: set<Node>, deep: nat, fraction: real, useFmcd: bool)
    requires fraction >= 0.0 && Building(ret, made, {}, deep, fraction, useFmcd)
    ensures AllOk(made) && Rooted(ret, made)
    ensures forall x :: x in made ==> BuiltRight(x, fraction, useFmcd) && Settled(x) && ret.depth <= x.depth <= deep
  {
    hide LocalOk, Settled, BuiltRight, Hung;
    assert made - {} == made;
    forall x | x in made ensures Settled(x) { BuiltSettled(x, made, fraction, useFmcd); }
  }

  /** One waiting node is completed, with newborn children that wait in its stead. */
  twostate lemma BuildStep(new ret: Node, made: set<Node>, new waiting: set<Node>, new rest: set<Node>, new node: Node,
      new born: set<Node>, new deep: nat, new fraction: real, new useFmcd: bool)
    requires fraction >= 0.0 && old(allocated(ret)) && old(allocated(waiting))
    requires old(Building(ret, made, waiting, deep, fraction, useFmcd))
    requires waiting == rest + {node} && node !in rest && fresh(born)
    requires forall x :: x in made && x != node ==> unchanged(x)
    requires old(allocated(node)) && SameFace(node) && LocalOk(node, born) && BuiltRight(node, fraction, useFmcd)
    requires forall x :: x in born ==> x.depth == node.depth + 1 && Hung(x, {node})
    ensures Building(ret, made + born, rest + born, if deep > node.depth then deep else node.depth + 1, fraction,
        useFmcd)
  {
    hide LocalOk, BuiltRight, Hung, AllOk;
    StepComplete(ret, made, waiting, rest, node, born, deep, fraction, useFmcd);
    StepHangs(ret, made, waiting, rest, node, born, deep, fraction, useFmcd);
  }

  twostate lemma StepComplete(new ret: Node, made: set<Node>, new waiting: set<Node>, new rest: set<Node>,
      new node: Node, new born: set<Node>, new deep: nat, new fraction: real, new useFmcd: bool)
    requires fraction >= 0.0 && old(allocated(ret)) && old(allocated(waiting))
    requires old(Building(ret, made, waiting, deep, fraction, useFmcd))
    requires waiting == rest + {node}
    requires forall x :: x in made && x != node ==> unchanged(x)
    requires old(allocated(node)) && SameFace(node) && LocalOk(node, born) && BuiltRight(node, fraction, useFmcd)
    ensures forall x :: x in made + born && x !in rest + born ==>
              LocalOk(x, made + born) && BuiltRight(x, fraction, useFmcd)
  {
    hide LocalOk, BuiltRight, Hung, AllOk;
    KeepAll(made, made + born, {node}, waiting);
    LocalGrows(node, born, made + born);
    forall x | x in made + born && x !in rest + born ensures BuiltRight(x, fraction, useFmcd) {
      if x != node { assert old(BuiltRight(x, fraction, useFmcd)); }
    }
  }

  twostate lemma StepHangs(new ret: Node, made: set<Node>, new waiting: set<Node>, new rest: set<Node>, new node: Node,
      new born: set<Node>, new deep: nat, new fraction: real, new useFmcd: bool)
    requires fraction >= 0.0 && old(allocated(ret)) && old(allocated(waiting))
    requires old(Building(ret, made, waiting, deep, fraction, useFmcd))
    requires waiting == rest + {node} && node !in rest && fresh(born)
    requires forall x :: x in made && x != node ==> unchanged(x)
    requires old(allocated(node)) && SameFace(node)
    requires forall x :: x in born ==> Hung(x, {node})
    ensures forall x :: x in made + born && x != ret ==> Hung(x, made + born - (rest + born))
  {
    hide LocalOk, BuiltRight;
    var left := made + born - (rest + born);
    forall x | x in made + born && x != ret ensures Hung(x, left) {
      if x in made { assert old(Hung(x, made - waiting)); }
    }
  }
}
