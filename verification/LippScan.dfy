/** Flattening one node: its data goes to the output arrays, its children are put aside
    with the positions their keys will take. */
module LippScan {
  import opened SortedSeq
  import opened LippModel
  import opened LippMaps
  import opened LippNode

  /** A subtree still to be written, from position begin on, and the map it stands for. */
  datatype Piece = Piece(begin: nat, node: Node, ghost part: Contents)

  /** The children in the first i slots. */
  ghost function KidsBelow(n: Node, i: nat): set<Node>
    requires i <= |n.items|
    reads n
  {
    set l | 0 <= l < i && n.items[l].Child? :: n.items[l].child
  }

  ghost function Kids(n: Node): set<Node>
    reads n
  {
    KidsBelow(n, |n.items|)
  }

  lemma KidsStep(n: Node, i: nat)
    requires i < |n.items|
    ensures KidsBelow(n, 0) == {}
    ensures KidsBelow(n, i + 1) == KidsBelow(n, i) + if n.items[i].Child? then {n.items[i].child} else {}
  {}

  ghost function PieceNodes(s: seq<Piece>): set<Node> { set p | p in s :: p.node }

  /** The keys of part, in order, are those of whole from position begin on. */
  ghost predicate Fits(begin: nat, part: Contents, whole: Contents) {
    && begin + |part| <= |Listing(whole.Keys)|
    && Listing(whole.Keys)[begin..begin + |part|] == Listing(part.Keys)
    && forall k :: k in part ==> k in whole && whole[k] == part[k]
  }

  /** At position j, key k is the j-th key of whole and v its value. */
  ghost predicate Right(k: int, v: int, j: int, whole: Contents) {
    0 <= j < |Listing(whole.Keys)| && k == Listing(whole.Keys)[j] && k in whole && v == whole[k]
  }

  /** A position is either written once, rightly, or not at all. */
  ghost predicate OutputAt(done: bool, times: nat, k: int, v: int, oldK: int, oldV: int, j: int, whole: Contents) {
    if done then times == 1 && Right(k, v, j, whole) else times == 0 && k == oldK && v == oldV
  }

  ghost function End(p: Piece): int { p.begin + |p.part| }

  /** Position j belongs to a piece that is still waiting. */
  ghost predicate Pending(s: seq<Piece>, j: int) {
    exists q :: 0 <= q < |s| && s[q].begin <= j < End(s[q])
  }

  /** Pieces in order of position, without overlap, inside from..to. */
  ghost predicate Ordered(s: seq<Piece>, from: int, to: int) {
    && (forall q :: 0 <= q < |s| ==> from <= s[q].begin <= End(s[q]) <= to)
    && (forall q, r :: 0 <= q < r < |s| ==> End(s[q]) <= s[r].begin && s[q].node != s[r].node)
  }

  ghost predicate PiecesOk(s: seq<Piece>, whole: Contents) {
    forall q :: 0 <= q < |s| ==> Fits(s[q].begin, s[q].part, whole)
  }

  lemma FitsPart(begin: nat, c: Contents, m: LinearModel, n: nat, i: nat, whole: Contents)
    requires Fits(begin, c, whole) && n >= 1 && m.a >= 0.0 && i < n
    ensures Fits(begin + |Below(c, m, n, i)|, Part(c, m, n, i), whole)
    ensures |Below(c, m, n, i + 1)| == |Below(c, m, n, i)| + |Part(c, m, n, i)|
    ensures |Below(c, m, n, i + 1)| <= |c|
  {
    hide Below, Part, Listing, Increasing, Fits, PredictPos;
    PartIncluded(c, m, n, i);
    PartPlace(c, m, n, i);
    ListingLengths(c, m, n, i);
    BelowPrefix(c, m, n, i + 1);
    assert |c| == |c.Keys|;
    FitsWithin(begin, c, Part(c, m, n, i), |Below(c, m, n, i)|, whole);
  }

  lemma PartIncluded(c: Contents, m: LinearModel, n: nat, i: int)
    requires n >= 1
    ensures forall k :: k in Part(c, m, n, i) ==> k in c && c[k] == Part(c, m, n, i)[k]
  {}

  lemma FitsWithin(begin: nat, c: Contents, part: Contents, b: nat, whole: Contents)
    requires Fits(begin, c, whole) && b + |part| <= |Listing(c.Keys)|
    requires Listing(c.Keys)[b..b + |part|] == Listing(part.Keys)
    requires forall k :: k in part ==> k in c && c[k] == part[k]
    ensures Fits(begin + b, part, whole)
  {
    hide Listing, Increasing;
    assert |c| == |c.Keys|;
    SliceWithin(Listing(whole.Keys), Listing(c.Keys), begin, b, b + |part|);
  }

  lemma SliceWithin(full: seq<int>, own: seq<int>, begin: nat, from: nat, to: nat)
    requires begin + |own| <= |full| && full[begin..begin + |own|] == own && from <= to <= |own|
    ensures full[begin + from..begin + to] == own[from..to]
  {
    var x, y := full[begin + from..begin + to], own[from..to];
    forall i | 0 <= i < |x| ensures x[i] == y[i] {
      assert own[from + i] == full[begin..begin + |own|][from + i];
    }
  }

  lemma OneKeyRight(begin: nat, k: int, v: int, whole: Contents)
    requires Fits(begin, map[k := v], whole)
    ensures begin < |Listing(whole.Keys)| && Right(k, v, begin, whole)
  {
    hide Listing, Increasing;
    var part: Contents := map[k := v];
    assert part.Keys == {k} && k in part;
    SingleListing(k);
    var full := Listing(whole.Keys);
    assert full[begin..begin + 1][0] == full[begin];
  }

  lemma SingleListing(k: int)
    ensures Listing({k}) == [k]
  {
    ListingUnique([k], {k});
  }

  lemma PendingJoin(a: seq<Piece>, b: seq<Piece>, j: int)
    ensures Pending(a + b, j) <==> Pending(a, j) || Pending(b, j)
  {
    hide End;
    var c := a + b;
    if Pending(a, j) {
      var q :| 0 <= q < |a| && a[q].begin <= j < End(a[q]);
      assert c[q] == a[q];
    }
    if Pending(b, j) {
      var q :| 0 <= q < |b| && b[q].begin <= j < End(b[q]);
      assert c[|a| + q] == b[q];
    }
  }

  lemma OrderedJoin(a: seq<Piece>, b: seq<Piece>, from: int, middle: int, to: int)
    requires Ordered(a, from, middle) && Ordered(b, middle, to) && from <= middle <= to
    requires PieceNodes(a) !! PieceNodes(b)
    ensures Ordered(a + b, from, to)
  {
    hide End;
    var c := a + b;
    assert forall q :: 0 <= q < |a| ==> c[q] == a[q] && a[q].node in PieceNodes(a);
    assert forall q :: |a| <= q < |c| ==> c[q] == b[q - |a|] && b[q - |a|].node in PieceNodes(b);
  }

  lemma PieceNodesJoin(a: seq<Piece>, b: seq<Piece>)
    ensures PieceNodes(a + b) == PieceNodes(a) + PieceNodes(b)
  {}

  lemma OnePiece(p: Piece, from: int)
    requires from <= p.begin
    ensures Ordered([p], p.begin, End(p)) && PieceNodes([p]) == {p.node}
    ensures forall j :: Pending([p], j) <==> p.begin <= j < End(p)
  {
    forall j ensures Pending([p], j) <==> p.begin <= j < End(p) {
      if p.begin <= j < End(p) { assert [p][0].begin <= j < End([p][0]); }
    }
  }

  lemma AddPiece(s: seq<Piece>, p: Piece, from: int)
    requires Ordered(s, from, p.begin) && from <= p.begin && p.node !in PieceNodes(s)
    ensures Ordered(s + [p], from, End(p))
    ensures PieceNodes(s + [p]) == PieceNodes(s) + {p.node}
    ensures forall j :: Pending(s + [p], j) <==> Pending(s, j) || p.begin <= j < End(p)
  {
    OnePiece(p, from);
    hide Ordered, Pending, PieceNodes;
    OrderedJoin(s, [p], from, p.begin, End(p));
    PieceNodesJoin(s, [p]);
    forall j { PendingJoin(s, [p], j); }
  }

  lemma AddChild(s: seq<Piece>, p: Piece, from: int, to: int, whole: Contents)
    requires Ordered(s, from, p.begin) && from <= p.begin && p.node !in PieceNodes(s)
    requires PiecesOk(s, whole) && Fits(p.begin, p.part, whole) && to == p.begin + |p.part|
    ensures PiecesOk(s + [p], whole) && Ordered(s + [p], from, to)
    ensures PieceNodes(s + [p]) == PieceNodes(s) + {p.node}
    ensures forall j :: Pending(s + [p], j) <==> Pending(s, j) || p.begin <= j < to
  {
    hide Fits, Ordered, Pending;
    AddPiece(s, p, from);
  }

  lemma PendingInside(s: seq<Piece>, from: int, to: int)
    requires Ordered(s, from, to)
    ensures forall j :: Pending(s, j) ==> from <= j < to
  {}

  lemma NoPieces(whole: Contents, at: int)
    ensures PieceNodes([]) == {} && PiecesOk([], whole) && Ordered([], at, at)
    ensures forall j :: !Pending([], j)
  {}

  lemma OrderedGrows(s: seq<Piece>, from: int, to: int, more: int)
    requires Ordered(s, from, to) && to <= more
    ensures Ordered(s, from, more)
  {}

  lemma PopPiece(s: seq<Piece>, whole: Contents, to: int)
    requires |s| > 0 && PiecesOk(s, whole) && Ordered(s, 0, to)
    ensures var top, rest := s[|s| - 1], s[..|s| - 1];
            && Fits(top.begin, top.part, whole) && PiecesOk(rest, whole)
            && Ordered(rest, 0, top.begin) && top.begin <= End(top) <= to
            && top.node !in PieceNodes(rest) && PieceNodes(s) == PieceNodes(rest) + {top.node}
            && forall j :: Pending(s, j) <==> Pending(rest, j) || top.begin <= j < End(top)
  {
    hide Fits;
    var top, rest := s[|s| - 1], s[..|s| - 1];
    assert s == rest + [top];
    assert forall q :: 0 <= q < |rest| ==> rest[q] == s[q];
    AddPiece(rest, top, 0);
  }

  lemma TopWaits(s: seq<Piece>)
    requires |s| > 0
    ensures s[|s| - 1].node in PieceNodes(s)
  {}

  lemma JoinPieces(a: seq<Piece>, b: seq<Piece>, whole: Contents, middle: int, to: int)
    requires PiecesOk(a, whole) && PiecesOk(b, whole)
    requires Ordered(a, 0, middle) && Ordered(b, middle, to) && 0 <= middle <= to
    requires PieceNodes(a) !! PieceNodes(b)
    ensures PiecesOk(a + b, whole) && Ordered(a + b, 0, to)
    ensures PieceNodes(a + b) == PieceNodes(a) + PieceNodes(b)
    ensures forall j :: Pending(a + b, j) <==> Pending(a, j) || Pending(b, j)
  {
    hide Fits;
    assert forall q :: |a| <= q < |a + b| ==> (a + b)[q] == b[q - |a|];
    hide Ordered, Pending, PieceNodes, PiecesOk;
    OrderedJoin(a, b, 0, middle, to);
    PieceNodesJoin(a, b);
    forall j { PendingJoin(a, b, j); }
  }

  /** The whole tree as a single piece covers every position. */
  lemma FirstPiece(r: Node)
    ensures var s := [Piece(0, r, r.contents)];
            && PiecesOk(s, r.contents) && Ordered(s, 0, |r.contents|) && PieceNodes(s) == {r}
            && forall j :: 0 <= j < |r.contents| ==> Pending(s, j)
    ensures |r.contents| == |Listing(r.contents.Keys)|
  {
    hide Increasing;
    var full := Listing(r.contents.Keys);
    assert |r.contents| == |r.contents.Keys|;
    assert full[0..0 + |full|] == full;
    var s := [Piece(0, r, r.contents)];
    assert s[0] == Piece(0, r, r.contents);
    hide Listing;
    forall j | 0 <= j < |r.contents| ensures Pending(s, j) {
      assert s[0].begin <= j < End(s[0]);
    }
  }

  /** What the slot at position `pos` of the output contributes. */
  lemma SlotPiece(node: Node, i: nat, begin: nat, pos: int, nodes: set<Node>, whole: Contents)
    requires LocalOk(node, nodes) && (forall x :: x in nodes ==> FrameOk(x))
    requires Fits(begin, node.contents, whole) && i < |node.items|
    requires pos == begin + |Below(node.contents, node.model, |node.items|, i)|
    ensures begin + |Below(node.contents, node.model, |node.items|, i + 1)| <= begin + |node.contents|
    ensures var next := begin + |Below(node.contents, node.model, |node.items|, i + 1)|;
            match node.items[i]
            case None => next == pos
            case Data(k, v) => next == pos + 1 && pos < |Listing(whole.Keys)| && Right(k, v, pos, whole)
            case Child(c) =>
              && next == pos + c.size && Fits(pos, c.contents, whole) && c.size == |c.contents| && c in nodes
              && c.parent == node && c.depth == node.depth + 1 && c.slot == i
  {
    hide Below, Part, Fits, Listing, PredictPos, Increasing, Right;
    FitsPart(begin, node.contents, node.model, |node.items|, i, whole);
    assert SlotOk(node, i, nodes);
    if node.items[i].Data? { OneKeyRight(pos, node.items[i].key, node.items[i].value, whole); }
  }

  lemma ScanEnds(n: Node)
    requires FrameOk(n)
    ensures |n.items| >= 1 && n.size == |n.contents|
    ensures |Below(n.contents, n.model, |n.items|, 0)| == 0
    ensures |Below(n.contents, n.model, |n.items|, |n.items|)| == |n.contents|
  {
    BelowEnds(n.contents, n.model, |n.items|);
    assert |n.contents| == |n.contents.Keys|;
  }

  /** Between from and to, what no child piece covers has been written; nothing else has. */
  ghost predicate Output(keys: seq<int>, values: seq<int>, writes: multiset<int>, s: seq<Piece>, from: int, to: int,
                         k0: seq<int>, v0: seq<int>, whole: Contents)
    requires |keys| == |values| == |k0| == |v0|
  {
    forall j :: 0 <= j < |keys| ==>
      OutputAt(from <= j < to && !Pending(s, j), writes[j], keys[j], values[j], k0[j], v0[j], j, whole)
  }

  lemma OutputStart(keys: seq<int>, values: seq<int>, from: int, whole: Contents)
    requires |keys| == |values|
    ensures Output(keys, values, multiset{}, [], from, from, keys, values, whole)
  {}

  lemma OutputChild(keys: seq<int>, values: seq<int>, writes: multiset<int>, s: seq<Piece>, s': seq<Piece>, from: int,
      to: int, to': int, k0: seq<int>, v0: seq<int>, whole: Contents)
    requires |keys| == |values| == |k0| == |v0| && Output(keys, values, writes, s, from, to, k0, v0, whole)
    requires to <= to' && forall j :: Pending(s', j) <==> Pending(s, j) || to <= j < to'
    ensures Output(keys, values, writes, s', from, to', k0, v0, whole)
  {
    hide Pending, OutputAt;
  }

  lemma OutputData(keys: seq<int>, values: seq<int>, writes: multiset<int>, s: seq<Piece>, from: int, pos: nat,
      next: nat, k: int, v: int, k0: seq<int>, v0: seq<int>, whole: Contents)
    requires |keys| == |values| == |k0| == |v0| && from <= pos < |keys| && next == pos + 1 && Ordered(s, from, pos)
    requires Right(k, v, pos, whole) && Output(keys, values, writes, s, from, pos, k0, v0, whole)
    ensures Output(keys[pos := k], values[pos := v], writes + multiset{pos}, s, from, next, k0, v0, whole)
  {
    hide Right, Pending, Ordered;
    PendingInside(s, from, pos);
  }

  /** Pieces cut off from the slots of one node so far, up to position pos. */
  ghost predicate Cutting(node: Node, i: nat, nodes: set<Node>, s: seq<Piece>, begin: int, pos: int, whole: Contents)
    requires i <= |node.items|
    reads node, PieceNodes(s)
  {
    && PiecesOk(s, whole) && Ordered(s, begin, pos)
    && (forall p :: p in s ==> p.node.contents == p.part)
    && (forall x :: x in PieceNodes(s) ==> x in nodes && x.parent == node && x.depth == node.depth + 1 && x.slot < i)
    && KidsBelow(node, i) <= PieceNodes(s)
  }

  lemma CutStart(node: Node, nodes: set<Node>, begin: int, whole: Contents)
    ensures Cutting(node, 0, nodes, [], begin, begin, whole)
  {
    NoPieces(whole, begin);
  }

  lemma CutMeans(node: Node, nodes: set<Node>, s: seq<Piece>, begin: int, pos: int, whole: Contents)
    requires Cutting(node, |node.items|, nodes, s, begin, pos, whole)
    ensures PiecesOk(s, whole) && Ordered(s, begin, pos) && forall p :: p in s ==> p.node.contents == p.part
    ensures forall x :: x in PieceNodes(s) ==> x in nodes && x.parent == node && x.depth == node.depth + 1
    ensures Kids(node) <= PieceNodes(s)
  {
    hide PieceNodes, KidsBelow;
  }

  method WriteData(node: Node, ghost i: nat, keys: array<int>, values: array<int>, ghost nodes: set<Node>,
      ghost s: seq<Piece>, ghost begin: int, pos: nat, ghost next: nat, k: int, v: int, ghost writes: multiset<int>,
      ghost k0: seq<int>, ghost v0: seq<int>, ghost whole: Contents)
    requires keys != values && keys.Length == values.Length == |k0| == |v0| && begin <= pos < keys.Length
             && next == pos + 1
    requires Right(k, v, pos, whole) && Output(keys[..], values[..], writes, s, begin, pos, k0, v0, whole)
    requires Ordered(s, begin, pos) && i < |node.items| && Cutting(node, i + 1, nodes, s, begin, next, whole)
    modifies keys, values
    ensures Output(keys[..], values[..], writes + multiset{pos}, s, begin, next, k0, v0, whole)
    ensures Cutting(node, i + 1, nodes, s, begin, next, whole)
  {
    hide PiecesOk, Ordered, KidsBelow, PieceNodes, Right, Output;
    OutputData(keys[..], values[..], writes, s, begin, pos, next, k, v, k0, v0, whole);
    keys[pos], values[pos] := k, v;
  }

  lemma CutNone(node: Node, i: nat, nodes: set<Node>, s: seq<Piece>, begin: int, pos: int, next: int, whole: Contents)
    requires i < |node.items| && !node.items[i].Child? && pos <= next && Cutting(node, i, nodes, s, begin, pos, whole)
    ensures Cutting(node, i + 1, nodes, s, begin, next, whole) && Ordered(s, begin, pos)
  {
    hide PiecesOk, Ordered, KidsBelow, PieceNodes;
    KidsStep(node, i);
    OrderedGrows(s, begin, pos, next);
  }

  lemma CutChild(node: Node, i: nat, nodes: set<Node>, s: seq<Piece>, begin: int, pos: nat, next: int, c: Node,
      whole: Contents)
    requires i < |node.items| && node.items[i] == Child(c) && Cutting(node, i, nodes, s, begin, pos, whole)
             && begin <= pos
    requires c in nodes && c.parent == node && c.depth == node.depth + 1 && c.slot == i
    requires Fits(pos, c.contents, whole) && next == pos + |c.contents|
    ensures Cutting(node, i + 1, nodes, s + [Piece(pos, c, c.contents)], begin, next, whole)
    ensures forall j :: Pending(s + [Piece(pos, c, c.contents)], j) <==> Pending(s, j) || pos <= j < next
  {
    hide PiecesOk, Ordered, KidsBelow, PieceNodes, Fits, Pending;
    KidsStep(node, i);
    AddChild(s, Piece(pos, c, c.contents), begin, next, whole);
  }

  /** Writes a node's data from position begin on, leaving room for the keys of each child.
      Every position of the node's span is either written, once and correctly, or belongs to
      exactly one of the child pieces and is left alone. */
  method ScanNode(node: Node, begin: nat, keys: array<int>, values: array<int>, ghost nodes: set<Node>,
      ghost whole: Contents)
    returns (pushed: seq<Piece>, ghost writes: multiset<int>)
    requires LocalOk(node, nodes) && (forall x :: x in nodes ==> FrameOk(x))
    requires Fits(begin, node.contents, whole)
    requires keys != values && keys.Length == values.Length == |Listing(whole.Keys)|
    modifies keys, values
    ensures PiecesOk(pushed, whole) && Ordered(pushed, begin, begin + node.size)
    ensures forall p :: p in pushed ==> p.node.contents == p.part
    ensures forall x :: x in PieceNodes(pushed) ==> x in nodes && x.parent == node && x.depth == node.depth + 1
    ensures Kids(node) <= PieceNodes(pushed)
    ensures Output(keys[..], values[..], writes, pushed, begin, begin + node.size, old(keys[..]), old(values[..]),
            whole)
  {
    hide Below, Part, Fits, Listing, PredictPos, Increasing, Pending, Ordered, Right, PieceNodes, SlotOk, PiecesOk,
         LocalOk, FrameOk, KidsBelow, End, Output, Cutting;
    LocalFrame(node, nodes);
    ghost var k0, v0 := keys[..], values[..];
    ghost var c, m, n := node.contents, node.model, |node.items|;
    ScanEnds(node);
    var pos := begin;
    pushed, writes := [], multiset{};
    OutputStart(k0, v0, begin, whole);
    CutStart(node, nodes, begin, whole);
    for i := 0 to |node.items|
      invariant pos == begin + |Below(c, m, n, i)| <= begin + |c|
      invariant Cutting(node, i, nodes, pushed, begin, pos, whole)
      invariant Output(keys[..], values[..], writes, pushed, begin, pos, k0, v0, whole)
    {
      SlotPiece(node, i, begin, pos, nodes, whole);
      match node.items[i] {
        case None =>
          CutNone(node, i, nodes, pushed, begin, pos, pos, whole);
        case Data(k, v) =>
          var next := pos + 1;
          CutNone(node, i, nodes, pushed, begin, pos, next, whole);
          WriteData(node, i, keys, values, nodes, pushed, begin, pos, next, k, v, writes, k0, v0, whole);
          writes := writes + multiset{pos};
          pos := next;
        case Child(child) =>
          var next, piece := pos + child.size, Piece(pos, child, child.contents);
          CutChild(node, i, nodes, pushed, begin, pos, next, child, whole);
          OutputChild(keys[..], values[..], writes, pushed, pushed + [piece], begin, pos, next, k0, v0, whole);
          pushed := pushed + [piece];
          pos := next;
      }
    }
    assert pos == begin + node.size;
    CutMeans(node, nodes, pushed, begin, pos, whole);
  }

  /** Every position is either still pending, and untouched, or was written once, rightly. */
  ghost predicate Progress(s: seq<Piece>, keys: seq<int>, values: seq<int>, writes: multiset<int>, whole: Contents) {
    && PiecesOk(s, whole) && Ordered(s, 0, |keys|) && |values| == |keys|
    && forall j :: 0 <= j < |keys| ==>
         if Pending(s, j) then writes[j] == 0 else writes[j] == 1 && Right(keys[j], values[j], j, whole)
  }

  /** Every position has been written exactly once, with its key and value. */
  ghost predicate Written(keys: seq<int>, values: seq<int>, writes: multiset<int>, whole: Contents) {
    && |keys| == |values| == |Listing(whole.Keys)|
    && forall j :: 0 <= j < |keys| ==> writes[j] == 1 && Right(keys[j], values[j], j, whole)
  }

  lemma AllWritten(keys: seq<int>, values: seq<int>, writes: multiset<int>, whole: Contents)
    requires Progress([], keys, values, writes, whole) && |keys| == |values| == |Listing(whole.Keys)|
    ensures PieceNodes([]) == {}
    ensures Written(keys, values, writes, whole)
  {
    hide Right;
  }

  lemma FirstProgress(r: Node, nodes: set<Node>, keys: seq<int>, values: seq<int>)
    requires LocalOk(r, nodes) && |keys| == |values| == r.size
    ensures var s := [Piece(0, r, r.contents)];
            Progress(s, keys, values, multiset{}, r.contents) && PieceNodes(s) == {r}
    ensures r.size == |Listing(r.contents.Keys)|
  {
    LocalFrame(r, nodes);
    FirstPiece(r);
    hide LocalOk, Right, Pending, Fits, Ordered;
  }

  lemma ProgressTop(s: seq<Piece>, keys: seq<int>, values: seq<int>, writes: multiset<int>, whole: Contents)
    requires |s| > 0 && Progress(s, keys, values, writes, whole)
    ensures var top, rest := s[|s| - 1], s[..|s| - 1];
            && Fits(top.begin, top.part, whole)
            && top.node !in PieceNodes(rest) && PieceNodes(s) == PieceNodes(rest) + {top.node}
  {
    hide Right, Pending, Fits, Ordered, PiecesOk, PieceNodes;
    PopPiece(s, whole, |keys|);
  }

  /** The topmost piece has been written, except for the pieces cut off from it. */
  lemma ProgressStep(s: seq<Piece>, pushed: seq<Piece>, k0: seq<int>, v0: seq<int>, k1: seq<int>, v1: seq<int>,
                     writes: multiset<int>, more: multiset<int>, whole: Contents)
    requires |s| > 0 && Progress(s, k0, v0, writes, whole) && |k1| == |v1| == |k0|
    requires var top := s[|s| - 1];
             && PiecesOk(pushed, whole) && Ordered(pushed, top.begin, End(top))
             && Output(k1, v1, more, pushed, top.begin, End(top), k0, v0, whole)
    requires PieceNodes(pushed) !! PieceNodes(s[..|s| - 1])
    ensures Progress(s[..|s| - 1] + pushed, k1, v1, writes + more, whole)
    ensures PieceNodes(s[..|s| - 1] + pushed) == PieceNodes(s[..|s| - 1]) + PieceNodes(pushed)
  {
    hide Right, Pending, Fits, Ordered, PiecesOk, PieceNodes, End;
    var top, rest := s[|s| - 1], s[..|s| - 1];
    PopPiece(s, whole, |k0|);
    PendingInside(rest, 0, top.begin);
    PendingInside(pushed, top.begin, End(top));
    JoinPieces(rest, pushed, whole, top.begin, End(top));
    OrderedGrows(rest + pushed, 0, End(top), |k0|);
  }

  /** What verify() counts for a slot. */
  ghost function SlotCount(n: Node, i: nat): int
    requires i < |n.items|
    reads n, KidsBelow(n, i + 1)
  {
    match n.items[i] case None => 0 case Data(_, _) => 1 case Child(c) => c.size
  }

  lemma SlotCountIsPart(n: Node, nodes: set<Node>, i: nat)
    requires LocalOk(n, nodes) && (forall x :: x in nodes ==> FrameOk(x)) && i < |n.items|
    ensures SlotCount(n, i) == |Part(n.contents, n.model, |n.items|, i)|
  {
    assert SlotOk(n, i, nodes);
    hide Part, PredictPos, LocalOk;
  }

  /** What verify() adds up over the first i slots of a node. */
  ghost function SumSize(n: Node, i: nat): int
    requires i <= |n.items|
    reads n, Kids(n)
  {
    if i == 0 then 0 else SumSize(n, i - 1) + SlotCount(n, i - 1)
  }

  /** The sum that verify() checks at a node is the node's size. */
  lemma VerifyHolds(n: Node, nodes: set<Node>)
    requires LocalOk(n, nodes) && forall x :: x in nodes ==> FrameOk(x)
    ensures SumSize(n, |n.items|) == n.size
  {
    LocalFrame(n, nodes);
    SumIsBelow(n, nodes, |n.items|);
    ScanEnds(n);
  }

  lemma {:induction false} SumIsBelow(n: Node, nodes: set<Node>, i: nat)
    requires LocalOk(n, nodes) && (forall x :: x in nodes ==> FrameOk(x)) && i <= |n.items|
    ensures SumSize(n, i) == |Below(n.contents, n.model, |n.items|, i)|
  {
    LocalFrame(n, nodes);
    SumStep(n, i);
    hide Below, Part, PredictPos, LocalOk, SlotCount, Kids, KidsBelow, SumSize;
    if i > 0 {
      SumIsBelow(n, nodes, i - 1);
      BelowCount(n.contents, n.model, |n.items|, i - 1);
      SlotCountIsPart(n, nodes, i - 1);
    } else {
      ScanEnds(n);
    }
  }

  lemma SumStep(n: Node, i: nat)
    requires i <= |n.items|
    ensures SumSize(n, i) == if i == 0 then 0 else SumSize(n, i - 1) + SlotCount(n, i - 1)
  {
    hide KidsBelow;
  }

  // ---- Taking a subtree out ----

  /** The nodes already taken out and those waiting are the top of the subtree at r: dead
      nodes have dead parents up to r, and the children of dead nodes are dead or waiting. */
  ghost predicate Cut(r: Node, nodes: set<Node>, dead: set<Node>, waiting: set<Node>)
    reads r, nodes
  {
    && dead <= nodes && waiting <= nodes - dead
    && (r in dead || (dead == {} && waiting == {r}))
    && (forall x :: x in dead ==> x.depth >= r.depth && (x == r || x.parent in dead))
    && (forall x :: x in waiting ==> x.depth >= r.depth && (x == r || x.parent in dead))
    && (forall x :: x in dead ==> Kids(x) <= dead + waiting)
  }

  /** One more node is taken out, and its children wait. */
  twostate lemma CutStep(r: Node, new nodes: set<Node>, new dead: set<Node>, new waiting: set<Node>, new top: Node,
      new kids: set<Node>)
    requires old(allocated(nodes)) && old(allocated(dead)) && old(allocated(waiting)) && old(allocated(top))
             && old(allocated(kids))
    requires old(Cut(r, nodes, dead, waiting)) && top in waiting
    requires kids <= nodes - dead - {top} && top.depth == old(top.depth)
    requires forall x :: x in nodes - dead - {top} ==> unchanged(x)
    requires forall x :: x in kids ==> x.parent == top && x.depth == top.depth + 1
    requires old(Kids(top)) <= kids
    ensures old(Cut(r, nodes, dead + {top}, waiting - {top} + kids))
  {
    hide Kids;
  }

  /** Puts a node's children on a stack of nodes to delete. */
  method PushKids(node: Node, s: seq<Node>, ghost nodes: set<Node>) returns (s': seq<Node>)
    requires LocalOk(node, nodes)
    requires forall x :: x in NodeSet(s) ==> x.parent != node
    ensures NodeSet(s') == NodeSet(s) + Kids(node) && (Distinct(s) ==> Distinct(s'))
    ensures Kids(node) <= nodes && forall x :: x in Kids(node) ==> x.parent == node && x.depth == node.depth + 1
  {
    hide Part, PredictPos;
    s' := s;
    ghost var kids: set<Node> := {};
    for i := 0 to |node.items|
      invariant NodeSet(s') == NodeSet(s) + kids && (Distinct(s) ==> Distinct(s'))
      invariant kids == KidsBelow(node, i)
      invariant forall x :: x in kids ==> x in nodes && x.parent == node && x.depth == node.depth + 1 && x.slot < i
    {
      KidsStep(node, i);
      assert SlotOk(node, i, nodes);
      if node.items[i].Child? {
        var c := node.items[i].child;
        NodeSetAppend(s', c);
        s' := s' + [c];
        kids := kids + {c};
      }
    }
  }

  lemma FirstCut(r: Node, nodes: set<Node>)
    requires r in nodes
    ensures Cut(r, nodes, {}, {r})
  {}

  ghost function Twos(nodes: set<Node>): (twos: set<Node>)
    reads nodes
    ensures twos <= nodes
  {
    set x | x in nodes && x.isTwo
  }

  twostate lemma MoreTwos(dead: set<Node>, new top: Node)
    requires old(allocated(top))
    ensures old(Twos(dead + {top}) == Twos(dead) + if top.isTwo then {top} else {})
  {}

  /** The state of a subtree's removal: what is dead, what waits, what is recycled, and
      what is left. */
  ghost predicate Felled(r: Node, all: set<Node>, dead: set<Node>, waiting: set<Node>, twos: set<Node>, now: set<Node>)
    requires dead <= all
    reads r, all
  {
    Cut(r, all, dead, waiting) && twos == Twos(dead) && now == all - dead
  }

  twostate lemma FelledRest(r: Node, new all: set<Node>, new dead: set<Node>, new twos: set<Node>, new now: set<Node>)
    requires old(allocated(all)) && old(allocated(dead)) && old(allocated(twos)) && old(allocated(now))
    requires dead <= all && old(Felled(r, all, dead, {}, twos, now))
    ensures now == all - dead
  {}

  lemma FirstFelled(r: Node, all: set<Node>)
    requires r in all
    ensures Felled(r, all, {}, {r}, {}, all)
  {
    FirstCut(r, all);
  }

  twostate lemma FelledGives(r: Node, new all: set<Node>, new dead: set<Node>, new waiting: set<Node>,
      new twos: set<Node>, new now: set<Node>)
    requires old(allocated(all)) && old(allocated(dead)) && old(allocated(waiting)) && old(allocated(twos))
             && old(allocated(now))
    requires dead <= all && old(Felled(r, all, dead, waiting, twos, now))
    ensures old(Cut(r, all, dead, waiting)) && twos == old(Twos(dead)) && now == all - dead
  {}

  /** The bookkeeping of one round: node top has left, its children wait. */
  twostate lemma Prune(r: Node, new all: set<Node>, new dead: set<Node>, new waiting: set<Node>, new twos: set<Node>,
                       new before: set<Node>, new top: Node, new kids: set<Node>, new now: set<Node>)
    requires old(allocated(all)) && old(allocated(dead)) && old(allocated(waiting)) && old(allocated(top))
             && old(allocated(kids))
    requires old(allocated(twos)) && old(allocated(before)) && old(allocated(now))
    requires dead <= all && old(Felled(r, all, dead, waiting, twos, before)) && top in waiting && now == before - {top}
    requires kids <= now && top.depth == old(top.depth)
    requires forall x :: x in now ==> unchanged(x)
    requires forall x :: x in kids ==> x.parent == top && x.depth == top.depth + 1
    requires old(Kids(top)) <= kids
    ensures dead + {top} <= all && now <= all && waiting - {top} + kids <= all
    ensures old(Felled(r, all, dead + {top}, waiting - {top} + kids, twos + if top.isTwo then {top} else {}, now))
  {
    CutStep(r, all, dead, waiting, top, kids);
    MoreTwos(dead, top);
    hide Kids, Twos;
    assert waiting <= all - dead;
  }

  /** The rest of the tree does not notice, except for the slot of r in its parent. */
  twostate lemma Uproot(r: Node, new nodes: set<Node>, new dead: set<Node>, new waiting: set<Node>, new twos: set<Node>,
      new now: set<Node>)
    requires old(allocated(nodes)) && old(AllOk(nodes)) && old(allocated(dead)) && old(allocated(waiting))
    requires old(allocated(twos)) && old(allocated(now))
    requires dead <= nodes && old(Felled(r, nodes, dead, waiting, twos, now))
    requires old(r.parent != null ==> r.parent in nodes && r.parent.depth < r.depth)
    requires forall x :: x in now ==> unchanged(x)
    ensures waiting <= now && twos <= dead && now !! dead
    ensures forall x :: x in now && x != old(r.parent) ==> LocalOk(x, now)
    ensures forall x :: x in now ==> FrameOk(x)
    ensures forall x, y :: x in waiting && y in waiting ==> x.parent != y
    ensures forall x :: x in waiting ==> x != old(r.parent) && x.depth >= old(r.depth)
    ensures old(r.parent) != null ==>
              old(r.parent) in now && LocalBut(old(r.parent), old(r.slot), now)
  {
    hide LocalOk, FrameOk;
    ghost var p := old(r.parent);
    ghost var exempt: set<Node> := if p == null then {} else {p};
    KeepAll(nodes, now, dead, exempt);
    FramesKept(nodes, now);
    if p != null {
      assert old(LocalOk(p, nodes));
      OldBut(p, old(r.slot), nodes);
      KeepBut(p, old(r.slot), nodes, now, dead);
    }
  }

  /** Arrays right at every position list the whole map. */
  lemma WrittenIsMap(keys: seq<int>, values: seq<int>, writes: multiset<int>, whole: Contents)
    requires Written(keys, values, writes, whole)
    ensures Increasing(keys) && MapOf(keys, values) == whole
  {
    hide Listing, Increasing, MapOf;
    assert forall j :: 0 <= j < |keys| ==> Right(keys[j], values[j], j, whole) && keys[j] == Listing(whole.Keys)[j];
    assert keys == Listing(whole.Keys);
    assert forall j :: 0 <= j < |keys| ==> keys[j] in whole && values[j] == whole[keys[j]];
    hide Right;
    SameMap(keys, values, whole);
  }

  lemma SameMap(keys: seq<int>, values: seq<int>, whole: Contents)
    requires Increasing(keys) && |keys| == |values| && forall k :: k in whole <==> k in keys
    requires forall j :: 0 <= j < |keys| ==> keys[j] in whole && values[j] == whole[keys[j]]
    ensures MapOf(keys, values) == whole
  {
    hide MapOf, Increasing;
    var m := MapOf(keys, values);
    forall k | k in m ensures m[k] == whole[k] {
      var j :| 0 <= j < |keys| && keys[j] == k;
    }
    forall k ensures k in m.Keys <==> k in whole.Keys {
      assert k in m <==> k in keys;
      assert k in whole <==> k in keys;
    }
    assert m.Keys == whole.Keys;
    assert m == whole;
  }
}
