/** The index: segmentations stacked into levels, the descent to the segment responsible
    for a key, and the window in which the key's rank is certain to lie. */
module PgmIndex {
  import opened Geometry
  import opened SortedSeq
  import opened PiecewiseLinearModel
  import opened Segmentation
  import opened PgmSegment
  import opened PgmLevel

  /** Recursive epsilons up to this bound scan a level linearly (8 cache lines of packed
      16-byte segments). */
  const LINEAR_SEARCH_THRESHOLD: nat := 8 * 64 / 16

  datatype ApproxPos = ApproxPos(pos: int, lo: int, hi: int)

  /** A level as the proof sees it: what it was built on, where its runs start, and the
      segments the fit gave them. */
  datatype Level = Level(entries: seq<int>, starts: seq<nat>, fits: seq<CanonicalSegment>)

  /** First segment in [lo, hi) whose key exceeds k, else hi, when the keys are sorted
      there. */
  method UpperBound(segs: seq<Segment>, lo: nat, hi: nat, k: int) returns (r: nat)
    requires lo <= hi <= |segs|
    ensures lo <= r <= hi
    ensures SortedKeys(segs, lo, hi) ==> forall i :: lo <= i < r ==> segs[i].key <= k
    ensures SortedKeys(segs, lo, hi) ==> forall i :: r <= i < hi ==> k < segs[i].key
    ensures (r > lo ==> segs[r - 1].key <= k) && (r < hi ==> k < segs[r].key)
  {
    var a, b := lo, hi;
    while a < b
      invariant lo <= a <= b <= hi
      invariant SortedKeys(segs, lo, hi) ==> forall i :: lo <= i < a ==> segs[i].key <= k
      invariant SortedKeys(segs, lo, hi) ==> forall i :: b <= i < hi ==> k < segs[i].key
      invariant (a > lo ==> segs[a - 1].key <= k) && (b < hi ==> k < segs[b].key)
    {
      var mid := (a + b) / 2;
      if k < segs[mid].key { b := mid; } else { a := mid + 1; }
    }
    r := a;
  }

  /** The offsets cut the segments into consecutive levels. */
  ghost predicate OffsetsOk(count: nat, offsets: seq<nat>, total: nat) {
    && |offsets| == count + 1
    && offsets[0] == 0 && offsets[count] == total
    && forall i, j :: 0 <= i < j <= count ==> offsets[i] <= offsets[j]
  }

  ghost function LevelSegs(segments: seq<Segment>, offsets: seq<nat>, l: nat): seq<Segment>
    requires l + 1 < |offsets| && offsets[l] <= offsets[l + 1] <= |segments|
  {
    segments[offsets[l]..offsets[l + 1]]
  }

  function EpsAt(eps: nat, epsRec: nat, l: nat): nat { if l == 0 then eps else epsRec }

  function Last(keys: seq<int>): int
    requires |keys| > 0
  {
    keys[|keys| - 1]
  }

  ghost predicate LevelValid(segments: seq<Segment>, offsets: seq<nat>, levels: seq<Level>, l: nat,
                             eps: nat, epsRec: nat, last: int, sentinel: int)
  {
    && l < |levels| && l + 1 < |offsets| && offsets[l] <= offsets[l + 1] <= |segments|
    && LevelOk(levels[l].entries, EpsAt(eps, epsRec, l), levels[l].starts, LevelSegs(segments, offsets, l), last,
       sentinel)
  }

  ghost predicate StackedOn(segments: seq<Segment>, offsets: seq<nat>, levels: seq<Level>, l: nat, sentinel: int)
  {
    && l + 1 < |levels| && l + 1 < |offsets| && offsets[l] <= offsets[l + 1] <= |segments|
    && Indexes(levels[l + 1].entries, |levels[l].starts|, LevelSegs(segments, offsets, l), sentinel)
  }

  ghost predicate Stack(segments: seq<Segment>, offsets: seq<nat>, levels: seq<Level>,
                        eps: nat, epsRec: nat, keys: seq<int>, sentinel: int) {
    && |levels| > 0 && |keys| > 0 && levels[0].entries == keys
    && OffsetsOk(|levels|, offsets, |segments|)
    && (forall l :: 0 <= l < |levels| ==>
          LevelValid(segments, offsets, levels, l, eps, epsRec, Last(keys), sentinel))
    && (forall l :: 0 <= l < |levels| - 1 ==> StackedOn(segments, offsets, levels, l, sentinel))
  }

  /** The fitted segments, as stored. */
  ghost predicate StoredAs(cs: seq<CanonicalSegment>, segs: seq<Segment>) {
    |cs| <= |segs| && forall i :: 0 <= i < |cs| ==> Convertible(cs[i]) && segs[i] == FromCanonical(cs[i])
  }

  /** Level l is the segmentation of its entries, and above the bottom there is more than
      one of them. */
  ghost predicate FittedAt(segments: seq<Segment>, offsets: seq<nat>, levels: seq<Level>, l: nat, eps: nat,
      epsRec: nat) {
    && l < |levels| && l + 1 < |offsets| && offsets[l] <= offsets[l + 1] <= |segments|
    && |levels[l].entries| > 0 && (l > 0 ==> |levels[l].entries| > 1)
    && IsSegmentation(EpsAt(eps, epsRec, l), Points(levels[l].entries), levels[l].starts, levels[l].fits)
    && StoredAs(levels[l].fits, LevelSegs(segments, offsets, l))
  }

  ghost predicate Fitted(segments: seq<Segment>, offsets: seq<nat>, levels: seq<Level>, eps: nat, epsRec: nat) {
    forall l :: 0 <= l < |levels| ==> FittedAt(segments, offsets, levels, l, eps, epsRec)
  }

  /** The number of entries the next level up would index. */
  ghost function TopCount(segments: seq<Segment>, offsets: seq<nat>, levels: seq<Level>,
                          eps: nat, epsRec: nat, keys: seq<int>, sentinel: int): int
    requires Stack(segments, offsets, levels, eps, epsRec, keys, sentinel)
  {
    var top := |levels| - 1;
    assert LevelValid(segments, offsets, levels, top, eps, epsRec, Last(keys), sentinel);
    Counted(|levels[top].starts|, LevelSegs(segments, offsets, top), sentinel)
  }

  class PGMIndex {
    const epsilon: nat
    const epsilonRecursive: nat
    const sentinel: int
    var n: nat
    var firstKey: int
    var segments: seq<Segment>
    var levelsOffsets: seq<nat>
    ghost var keys: seq<int>
    ghost var levels: seq<Level>

    constructor (epsilon: nat, epsilonRecursive: nat, sentinel: int)
      ensures this.epsilon == epsilon && this.epsilonRecursive == epsilonRecursive && this.sentinel == sentinel
      ensures n == 0 && segments == [] && levelsOffsets == [] && keys == [] && levels == []
    {
      this.epsilon, this.epsilonRecursive, this.sentinel := epsilon, epsilonRecursive, sentinel;
      n, firstKey, segments, levelsOffsets := 0, 0, [], [];
      keys, levels := [], [];
    }

    /** Ready for queries: built over at least one key, stacked up to a root of one
        segment unless recursion is off. */
    ghost predicate Built()
      reads this
    {
      && n == |keys| && n > 0 && firstKey == keys[0]
      && Sorted(keys) && keys[n - 1] < sentinel && 1 <= epsilon
      && Stack(segments, levelsOffsets, levels, epsilon, epsilonRecursive, keys, sentinel)
      && Fitted(segments, levelsOffsets, levels, epsilon, epsilonRecursive)
      && (if epsilonRecursive == 0 then |levels| == 1
          else TopCount(segments, levelsOffsets, levels, epsilon, epsilonRecursive, keys, sentinel) == 1)
    }

    ghost function Segs(l: nat): seq<Segment>
      requires Built() && l < |levels|
      reads this
    {
      LevelSegs(segments, levelsOffsets, l)
    }

    function Height(): int
      reads this
    {
      |levelsOffsets| - 1
    }

    /** Stores the fitted segments of a level. */
    method AppendSegments(cs: seq<CanonicalSegment>)
      requires forall i :: 0 <= i < |cs| ==> Convertible(cs[i])
      modifies `segments
      ensures segments == old(segments) + Converted(cs, |cs|)
    {
      hide FromCanonical, Convertible;
      var i := 0;
      while i < |cs|
        invariant 0 <= i <= |cs|
        invariant segments == old(segments) + Converted(cs, i)
      {
        segments := segments + [FromCanonical(cs[i])];
        i := i + 1;
      }
    }

    /** Ends a level over n entries: nothing after a segment that doubles as the sentinel,
        else the sentinel, after an end segment when the last line falls short. */
    method AppendTail(n: nat, last: int) returns (uncounted: nat)
      requires |segments| > 0 && segments[|segments| - 1].den > 0
      modifies `segments
      ensures segments == old(segments) + TailAfter(n, old(segments)[|old(segments)| - 1], last, sentinel)
      ensures uncounted == if old(segments)[|old(segments)| - 1].key == sentinel then 1 else 0
    {
      var back := segments[|segments| - 1];
      uncounted := 0;
      if back.key == sentinel {
        uncounted := 1;
      } else {
        if Position(back, sentinel - 1) < n {
          segments := segments + [Segment(last + 1, 0, 1, n)];
        }
        segments := segments + [Segment(sentinel, 0, 1, n)];
      }
    }

    /** Appends one level and returns how many of its segments the next one indexes. */
    method BuildLevel(eps: nat, e: seq<int>, last: int)
        returns (nSegments: int, ghost starts: seq<nat>, ghost fits: seq<CanonicalSegment>)
      requires Sorted(e) && 0 < |e| && 1 <= eps && |e| + eps <= MAX_Y
      requires EntriesOk(e, last, sentinel)
      modifies `segments
      ensures |old(segments)| <= |segments| && segments[..|old(segments)|] == old(segments)
      ensures LevelOk(e, eps, starts, segments[|old(segments)|..], last, sentinel)
      ensures nSegments == Counted(|starts|, segments[|old(segments)|..], sentinel)
      ensures IsSegmentation(eps, Points(e), starts, fits) && StoredAs(fits, segments[|old(segments)|..])
      ensures nSegments <= |e| + 1
    {
      hide IsSegmentation, StoredAs, Points, LevelOk, ModelledAt, TailAfter, EntriesOk, FromCanonical, Convertible;
      ghost var base := segments;
      var cs;
      cs, starts := MakeSegmentation(e, eps);
      fits := cs;
      AllModelled(e, eps, starts, cs);
      CutNonEmpty(e, eps, starts, cs);
      AppendSegments(cs);
      ghost var main := Converted(cs, |cs|);
      assert segments[|segments| - 1] == main[|cs| - 1];
      var uncounted := AppendTail(|e|, last);
      nSegments := |cs| - uncounted;
      ghost var out := main + TailAfter(|e|, main[|cs| - 1], last, sentinel);
      assert segments == base + out && segments[|base|..] == out;
      LevelFromParts(e, eps, starts, cs, out, last, sentinel);
    }

    /** Builds the index over sorted data. Fails exactly when the greatest key is the
        sentinel. */
    method Build(data: seq<int>) returns (ok: bool)
      requires segments == [] && levelsOffsets == [] && 1 <= epsilon
      requires Sorted(data) && (forall i :: 0 <= i < |data| ==> data[i] <= sentinel)
      requires |data| + 1 + epsilon + epsilonRecursive <= MAX_Y
      modifies this
      ensures ok <==> (|data| > 0 ==> data[|data| - 1] != sentinel)
      ensures ok && |data| > 0 ==> Built() && keys == data
      ensures ok && |data| == 0 ==> n == 0 && segments == []
    {
      hide IsSegmentation, Points, LevelOk, Stack, Fitted, StoredAs;
      n := |data|;
      firstKey := if n > 0 then data[0] else 0;
      keys := data;
      if n == 0 {
        return true;
      }
      levelsOffsets := [0];
      if data[n - 1] == sentinel {
        return false;
      }
      var lastN, starts, fits := BuildLevel(epsilon, data, data[n - 1]);
      levels := [Level(data, starts, fits)];
      levelsOffsets := levelsOffsets + [|segments|];
      assert segments[0..] == segments;
      FirstLevel(segments, levelsOffsets, levels, epsilon, epsilonRecursive, data, sentinel);
      while epsilonRecursive > 0 && lastN > 1
        invariant n == |data| && keys == data && firstKey == data[0]
        invariant Stack(segments, levelsOffsets, levels, epsilon, epsilonRecursive, data, sentinel)
        invariant Fitted(segments, levelsOffsets, levels, epsilon, epsilonRecursive)
        invariant lastN == TopCount(segments, levelsOffsets, levels, epsilon, epsilonRecursive, data, sentinel)
        invariant 1 <= lastN <= n + 1 && (epsilonRecursive == 0 ==> |levels| == 1)
        decreases lastN
      {
        lastN := BuildUpperLevel(data, lastN);
      }
      return true;
    }

    /** One more level, over the keys of the counted segments of the current top. */
    method BuildUpperLevel(data: seq<int>, lastN: int) returns (newN: int)
      requires data == keys && |keys| > 0 && Sorted(keys) && Last(keys) < sentinel && epsilonRecursive > 0
      requires lastN + epsilonRecursive <= MAX_Y
      requires Stack(segments, levelsOffsets, levels, epsilon, epsilonRecursive, keys, sentinel)
      requires Fitted(segments, levelsOffsets, levels, epsilon, epsilonRecursive)
      requires lastN == TopCount(segments, levelsOffsets, levels, epsilon, epsilonRecursive, keys, sentinel) > 1
      modifies `segments, `levelsOffsets, `levels
      ensures Stack(segments, levelsOffsets, levels, epsilon, epsilonRecursive, keys, sentinel)
      ensures Fitted(segments, levelsOffsets, levels, epsilon, epsilonRecursive)
      ensures newN == TopCount(segments, levelsOffsets, levels, epsilon, epsilonRecursive, keys, sentinel)
      ensures 1 <= newN < lastN
    {
      hide IsSegmentation, Points, LevelOk, Stack, Fitted, StoredAs, Counted;
      TopBounds(segments, levelsOffsets, levels, epsilon, epsilonRecursive, keys, sentinel);
      TopFacts(segments, levelsOffsets, levels, epsilon, epsilonRecursive, keys, sentinel);
      var offset := levelsOffsets[|levelsOffsets| - 2];
      var segs := segments;
      var e := seq(lastN, i requires 0 <= i < lastN => segs[offset + i].key);
      TopEntries(segments, levelsOffsets, levels, epsilon, epsilonRecursive, keys, sentinel, e);
      ghost var oldSegs := segments;
      ghost var starts, fits;
      newN, starts, fits := BuildLevel(epsilonRecursive, e, data[|data| - 1]);
      SegmentationShrinks(e, epsilonRecursive, starts, fits);
      ghost var level := Level(e, starts, fits);
      PushLevel(oldSegs, levelsOffsets, levels, epsilon, epsilonRecursive, keys, sentinel, segments, level);
      PushFitted(oldSegs, levelsOffsets, levels, epsilon, epsilonRecursive, segments, level);
      CountedAtMost(|starts|, fits, segments[|oldSegs|..], sentinel);
      levels := levels + [level];
      levelsOffsets := levelsOffsets + [|segments|];
    }

    function SegmentsCount(): int
      requires segments != [] ==> |levelsOffsets| > 1
      reads this
    {
      if segments == [] then 0 else levelsOffsets[1] as int - 1
    }

    /** The level-local answer relation, on indices into the whole segment vector. */
    ghost predicate Answers(l: nat, it: int, k: int)
      requires Built() && l < |levels|
      reads this
    {
      Responsible(|levels[l].starts|, Segs(l), it - levelsOffsets[l], k)
    }

    ghost predicate ScanEnd(l: nat, it: int, k: int)
      requires Built() && l < |levels|
      reads this
    {
      Rightmost(|levels[l].starts|, Segs(l), it - levelsOffsets[l], k)
    }

    /** One level down from the position the parent predicts: by a linear scan of at most
        2 * epsilonRecursive + 3 steps, or for a large epsilon by a binary search. Both
        find the rightmost segment not beyond k; only above the bottom may the binary
        search stop at the last run instead of an end segment with the same key. */
    method Descend(l: nat, it: nat, k: int) returns (lo: nat)
      requires Built() && epsilonRecursive > 0 && l + 1 < |levels|
      requires firstKey <= k < sentinel && Answers(l + 1, it, k)
      requires it + 1 < |segments| && segments[it].den > 0
      ensures Answers(l, lo, k) && lo + 1 < |segments| && segments[lo].den > 0
      ensures l == 0 || epsilonRecursive <= 32 ==> ScanEnd(l, lo, k)
      ensures var pos := Min(Position(segments[it], k), segments[it + 1].intercept);
              var begin := levelsOffsets[l] + SubEps(pos, epsilonRecursive + 1);
              begin <= lo <= begin + 2 * epsilonRecursive + 3
    {
      hide LevelOk, Responsible, Rightmost, Position, Fitted, Stack, TopCount, LevelSegs, SubEps, AddEps, EndTwin;
      LevelFacts(this, l);
      var levelBegin := levelsOffsets[l];
      var pos := Min(Position(segments[it], k), segments[it + 1].intercept);
      ghost var target := DescentTarget(this, l, it, k, pos);
      ghost var begin := levelBegin + SubEps(pos, epsilonRecursive + 1);
      lo := levelBegin + SubEps(pos, epsilonRecursive + 1);
      if epsilonRecursive <= LINEAR_SEARCH_THRESHOLD {
        while segments[lo + 1].key <= k
          invariant begin <= lo <= levelBegin + target
          decreases |segments| - lo
        {
          lo := lo + 1;
        }
      } else {
        var levelSize := levelsOffsets[l + 1] - levelsOffsets[l] - 1;
        var hi := levelBegin + AddEps(pos, epsilonRecursive, levelSize);
        EndsOrder(pos, epsilonRecursive, levelSize);
        var r := UpperBound(segments, lo, hi, k);
        BinaryAnswer(this, l, k, pos, target, r);
        lo := r - 1;
      }
    }

    /** The segment responsible for a key, at or right of the first key. It is the
        rightmost one with key not beyond k, except in an index of a single level that
        has an end segment, for the keys past the greatest one. */
    method SegmentForKey(k: int) returns (it: nat)
      requires Built() && firstKey <= k < sentinel
      ensures it + 1 < |segments| && segments[it].den > 0
      ensures Answers(0, it, k)
      ensures !ScanEnd(0, it, k) <==> epsilonRecursive > 0 && Height() == 1 && SegmentsCount() == 2 && k > Last(keys)
    {
      hide LevelOk, Responsible, Rightmost, Fitted;
      if epsilonRecursive == 0 {
        SingleLevel(this);
        SortedPrefix(segments, SegmentsCount());
        var u := UpperBound(segments, 0, SegmentsCount(), k);
        FlatAnswer(this, u, k);
        return u - 1;
      }
      it := levelsOffsets[|levelsOffsets| - 2];
      RootAnswers(this, k);
      var l := Height() - 2;
      while l >= 0
        invariant -1 <= l <= Height() - 2
        invariant Answers(l + 1, it, k)
        invariant it + 1 < |segments| && segments[it].den > 0
        invariant if l == Height() - 2 then it == levelsOffsets[l + 1] else l == -1 ==> ScanEnd(0, it, k)
      {
        it := Descend(l, it, k);
        l := l - 1;
      }
    }

    /** The search key, not left of the first one. */
    function Clamped(key: int): int
      reads this
    {
      if firstKey >= key then firstKey else key
    }

    /** pos is the lesser of what the segment that answers for the key predicts and the next
        one's intercept. */
    ghost predicate PredictedFor(key: int, pos: int)
      requires Built()
      reads this
    {
      exists it: nat ::
        && Answers(0, it, Clamped(key)) && it + 1 < |segments| && segments[it].den > 0
        && pos <= Position(segments[it], Clamped(key)) && pos <= segments[it + 1].intercept
        && (pos == Position(segments[it], Clamped(key)) || pos == segments[it + 1].intercept)
        && (!ScanEnd(0, it, Clamped(key)) <==>
              epsilonRecursive > 0 && Height() == 1 && SegmentsCount() == 2 && key > Last(keys))
    }

    /** A window that holds the key's rank: lower-bound search inside it ends where it
        would over all keys. */
    method Search(key: int) returns (r: ApproxPos)
      requires Built() && key < sentinel
      ensures 0 <= r.lo <= Rank(keys, key) <= r.hi <= n
      ensures r.hi - r.lo <= 2 * epsilon + 2
      ensures r.lo == (if r.pos <= epsilon then 0 else r.pos - epsilon)
      ensures r.hi == (if r.pos + epsilon + 2 >= n then n else r.pos + epsilon + 2)
      ensures PredictedFor(key, r.pos)
    {
      var k := Clamped(key);
      var it := SegmentForKey(k);
      var pos := Min(Position(segments[it], k), segments[it + 1].intercept);
      SearchWindow(this, it, k, key);
      CapNeutral(this, key);
      hide Built, Answers, ScanEnd, Position;
      r := ApproxPos(pos, SubEps(pos, epsilon), AddEps(pos, epsilon, n));
    }
  }

  /** Raising a key to the first one does not move it past the greatest one. */
  lemma CapNeutral(x: PGMIndex, key: int)
    requires x.Built()
    ensures x.Clamped(key) > Last(x.keys) <==> key > Last(x.keys)
  {
    hide Stack, Fitted, TopCount;
  }

  /** Every segment the index stores for a run of a level is the steepest line of that run,
      with the nearest intercept. */
  lemma StoredLines(x: PGMIndex, l: nat, i: nat)
    requires x.Built() && l < |x.levels| && i < |x.levels[l].starts|
    ensures |x.levels[l].entries| > 0
    ensures var p, starts := Points(x.levels[l].entries), x.levels[l].starts;
            && starts[i] < RunEnd(|p|, starts, i) <= |p| && i < |x.Segs(l)|
            && StoresLine(EpsAt(x.epsilon, x.epsilonRecursive, l), p[starts[i]..RunEnd(|p|, starts, i)], x.Segs(l)[i])
  {
    var level, eps := x.levels[l], EpsAt(x.epsilon, x.epsilonRecursive, l);
    var e, starts := level.entries, level.starts;
    LevelFacts(x, l);
    LevelBase(e, eps, starts, x.Segs(l), Last(x.keys), x.sentinel);
    assert FittedAt(x.segments, x.levelsOffsets, x.levels, l, x.epsilon, x.epsilonRecursive);
    hide LevelOk, Stack, Fitted, TopCount, Points, SegmentFits, FromCanonical, StoresLine, LevelSegs;
    var p := Points(e);
    assert FitsAt(eps, p, starts, level.fits, i);
    CutBounds(|p|, starts, i);
    RunValid(e, starts[i], RunEnd(|p|, starts, i));
    SegmentModels(eps, p[starts[i]..RunEnd(|p|, starts, i)], level.fits[i]);
  }

  lemma LevelBase(e: seq<int>, eps: nat, starts: seq<nat>, segs: seq<Segment>, last: int, sentinel: int)
    requires LevelOk(e, eps, starts, segs, last, sentinel)
    ensures Sorted(e) && 0 < |e| && 1 <= eps && |e| + eps <= MAX_Y
  {}

  function Converted(cs: seq<CanonicalSegment>, k: nat): (r: seq<Segment>)
    requires k <= |cs|
    requires forall i :: 0 <= i < k ==> Convertible(cs[i])
    ensures |r| == k && forall i :: 0 <= i < k ==> r[i] == FromCanonical(cs[i])
  {
    seq(k, j requires 0 <= j < k => FromCanonical(cs[j]))
  }

  lemma CutNonEmpty(e: seq<int>, eps: nat, starts: seq<nat>, cs: seq<CanonicalSegment>)
    requires |e| > 0 && IsSegmentation(eps, Points(e), starts, cs)
    ensures 0 < |starts| == |cs| <= |e| + 1
  {
    PointsLength(e);
    CutLength(|Points(e)|, starts, |starts| - 1);
  }

  lemma SegmentationShrinks(e: seq<int>, eps: nat, starts: seq<nat>, fits: seq<CanonicalSegment>)
    requires Increasing(e) && 1 < |e| <= MAX_Y && 1 <= eps <= MAX_Y
    requires IsSegmentation(eps, Points(e), starts, fits)
    ensures 0 < |starts| == |fits| < |e|
  {
    hide Points, Greedy, Segments;
    LevelShrinks(e, eps, starts);
  }

  lemma CountedAtMost(c: nat, fits: seq<CanonicalSegment>, segs: seq<Segment>, sentinel: int)
    requires 0 < c == |fits| && StoredAs(fits, segs)
    ensures c <= |segs| && Counted(c, segs, sentinel) <= c
  {}

  lemma PushFitted(oldSegs: seq<Segment>, offsets: seq<nat>, levels: seq<Level>, eps: nat, epsRec: nat,
                   segments: seq<Segment>, level: Level)
    requires Fitted(oldSegs, offsets, levels, eps, epsRec) && |levels| > 0 && |offsets| == |levels| + 1
    requires offsets[|levels|] == |oldSegs| <= |segments| && segments[..|oldSegs|] == oldSegs
    requires |level.entries| > 1 && IsSegmentation(epsRec, Points(level.entries), level.starts, level.fits)
    requires StoredAs(level.fits, segments[|oldSegs|..])
    ensures Fitted(segments, offsets + [|segments|], levels + [level], eps, epsRec)
  {
    hide IsSegmentation, Points, StoredAs;
    var offs, levs := offsets + [|segments|], levels + [level];
    forall l | 0 <= l < |levs| ensures FittedAt(segments, offs, levs, l, eps, epsRec) {
      if l < |levels| {
        assert FittedAt(oldSegs, offsets, levels, l, eps, epsRec);
        KeepSlice(oldSegs, segments, offsets[l], offsets[l + 1]);
      } else {
        assert LevelSegs(segments, offs, l) == segments[|oldSegs|..];
      }
    }
  }

  ghost predicate ModelledAt(e: seq<int>, eps: nat, starts: seq<nat>, cs: seq<CanonicalSegment>, i: nat)
    requires |e| > 0
  {
    var p := Points(e);
    && i < |starts| && i < |cs| && Convertible(cs[i])
    && starts[i] < RunEnd(|p|, starts, i) <= |p|
    && Models(eps, p[starts[i]..RunEnd(|p|, starts, i)], FromCanonical(cs[i]))
  }

  lemma LevelFromParts(e: seq<int>, eps: nat, starts: seq<nat>, cs: seq<CanonicalSegment>, segs: seq<Segment>,
      last: int, sentinel: int)
    requires Sorted(e) && 0 < |e| && 1 <= eps && |e| + eps <= MAX_Y
    requires EntriesOk(e, last, sentinel)
    requires IsSegmentation(eps, Points(e), starts, cs)
    requires forall i :: 0 <= i < |cs| ==>
               ModelledAt(e, eps, starts, cs, i) && Convertible(cs[i]) && FromCanonical(cs[i]).den > 0
    requires |cs| > 0 && segs == Converted(cs, |cs|) + TailAfter(|e|, FromCanonical(cs[|cs| - 1]), last, sentinel)
    ensures LevelOk(e, eps, starts, segs, last, sentinel) && StoredAs(cs, segs)
  {
    hide Points, FromCanonical, Position, Models, Segments, Greedy, IsCut;
    var main, tail := Converted(cs, |cs|), TailAfter(|e|, FromCanonical(cs[|cs| - 1]), last, sentinel);
    assert segs[|cs|..] == tail;
    forall i | 0 <= i < |cs|
      ensures RunModelled(e, eps, starts, segs, i) && segs[i].den > 0
    {
      assert ModelledAt(e, eps, starts, cs, i);
      assert segs[i] == main[i] == FromCanonical(cs[i]);
    }
    EndAfterEntry(e, eps, starts, cs, last, sentinel);
    EarlierKeys(e, eps, starts, segs, last, sentinel);
  }

  lemma EarlierKeys(e: seq<int>, eps: nat, starts: seq<nat>, segs: seq<Segment>, last: int, sentinel: int)
    requires Sorted(e) && 0 < |e| <= MAX_Y && 1 <= eps <= MAX_Y && EntriesOk(e, last, sentinel)
    requires IsCut(|Points(e)|, starts) && Greedy(eps, Points(e), starts)
    requires |starts| <= |segs| && forall i :: 0 <= i < |starts| ==> RunModelled(e, eps, starts, segs, i)
    ensures forall i :: 0 <= i < |starts| - 1 ==> segs[i].key <= last
  {
    hide Points, IsCut, Greedy, EntriesOk;
    forall i | 0 <= i < |starts| - 1 ensures segs[i].key <= last {
      assert RunModelled(e, eps, starts, segs, i);
      EarlierKey(e, eps, starts, last, sentinel, i);
      var run := Points(e)[starts[i]..RunEnd(|Points(e)|, starts, i)];
      assert run[0] == Points(e)[starts[i]];
    }
  }

  /** Where the last line falls short of the end, its run starts at an entry: a run of the
      end point alone has a flat line at the very end. */
  lemma EndAfterEntry(e: seq<int>, eps: nat, starts: seq<nat>, cs: seq<CanonicalSegment>, last: int, sentinel: int)
    requires Sorted(e) && 0 < |e| && 1 <= eps && |e| + eps <= MAX_Y
    requires IsSegmentation(eps, Points(e), starts, cs)
    requires Convertible(cs[|cs| - 1]) && FromCanonical(cs[|cs| - 1]).den > 0
    ensures var back := FromCanonical(cs[|cs| - 1]);
            back.key <= e[|e| - 1] || Position(back, sentinel - 1) >= |e|
  {
    var p, c := Points(e), |cs|;
    PointsOk(e);
    hide Points, FeedOk, Greedy, Models;
    assert FitsAt(eps, p, starts, cs, c - 1);
    var run := p[starts[c - 1]..|p|];
    assert run[0] == p[starts[c - 1]];
    if starts[c - 1] == |p| - 1 {
      EndSegmentFlat(eps, run, cs[c - 1], |e|, sentinel);
    } else {
      BeforeEnd(e, starts[c - 1]);
    }
  }

  lemma BeforeEnd(e: seq<int>, j: nat)
    requires Sorted(e) && |e| > 0 && j + 1 < |Points(e)|
    ensures Points(e)[j].x <= e[|e| - 1]
  {
    PointsOk(e);
    hide Points, PointOk, GapOk;
    assert Points(e)[j].x < Points(e)[|Points(e)| - 1].x;
  }

  lemma EndSegmentFlat(eps: nat, run: seq<Point>, cs: CanonicalSegment, n: nat, sentinel: int)
    requires |run| == 1 && run[0].y == n && n + eps <= MAX_Y && SegmentFits(eps, run, cs)
    ensures Convertible(cs) && FromCanonical(cs).den > 0 && Position(FromCanonical(cs), sentinel - 1) >= n
  {
    var s := FromCanonical(cs);
    assert s == Segment(run[0].x, 0, 1, TruncDiv(Up(eps, run[0]).y + Low(eps, run[0]).y, 2));
    PositionFlat(s, sentinel - 1);
  }

  /** Only the last run can start past the data: every other covers several points. */
  lemma EarlierKey(e: seq<int>, eps: nat, starts: seq<nat>, last: int, sentinel: int, i: nat)
    requires Sorted(e) && 0 < |e| <= MAX_Y && 1 <= eps <= MAX_Y && EntriesOk(e, last, sentinel)
    requires IsCut(|Points(e)|, starts) && Greedy(eps, Points(e), starts) && i + 1 < |starts|
    ensures starts[i] < |Points(e)| && Points(e)[starts[i]].x <= last
  {
    hide Greedy;
    var p, n := Points(e), |e|;
    PointsOk(e);
    if e[n - 1] <= last {
      hide Points, PointOk, GapOk;
      assert starts[i] < starts[i + 1] < |p|;
      assert p[starts[i]].x < p[|p| - 1].x;
    } else {
      RunCoversTwoEps(e, eps, starts, i);
      DistinctPoints(e);
      hide Points, FeedOk;
      assert starts[i] + 3 <= starts[i + 1] < n + 1;
    }
  }

  lemma AllModelled(e: seq<int>, eps: nat, starts: seq<nat>, cs: seq<CanonicalSegment>)
    requires Sorted(e) && 0 < |e| && 1 <= eps && |e| + eps <= MAX_Y
    requires IsSegmentation(eps, Points(e), starts, cs)
    ensures forall i :: 0 <= i < |cs| ==> Convertible(cs[i])
    ensures forall i :: 0 <= i < |cs| ==> ModelledAt(e, eps, starts, cs, i)
    ensures forall i :: 0 <= i < |cs| ==> FromCanonical(cs[i]).den > 0
  {
    forall i | 0 <= i < |cs|
      ensures Convertible(cs[i]) && ModelledAt(e, eps, starts, cs, i) && FromCanonical(cs[i]).den > 0
    {
      assert FitsAt(eps, Points(e), starts, cs, i);
      OneModelled(e, eps, starts, cs, i);
    }
  }

  lemma OneModelled(e: seq<int>, eps: nat, starts: seq<nat>, cs: seq<CanonicalSegment>, i: nat)
    requires Sorted(e) && 0 < |e| && 1 <= eps && |e| + eps <= MAX_Y
    requires IsCut(|Points(e)|, starts) && |starts| == |cs| && i < |cs| && FitsAt(eps, Points(e), starts, cs, i)
    ensures Convertible(cs[i]) && ModelledAt(e, eps, starts, cs, i) && FromCanonical(cs[i]).den > 0
  {
    hide Points, SegmentFits, FromCanonical;
    var p := Points(e);
    CutBounds(|p|, starts, i);
    var run := p[starts[i]..RunEnd(|p|, starts, i)];
    RunValid(e, starts[i], RunEnd(|p|, starts, i));
    SegmentModels(eps, run, cs[i]);
  }

  lemma RunValid(e: seq<int>, from: nat, to: nat)
    requires Sorted(e) && 0 < |e| <= MAX_Y && from <= to <= |Points(e)|
    ensures ValidRun(Points(e)[from..to]) && NonDecreasingY(Points(e)[from..to])
  {
    PointsOk(e);
    hide Points, PointOk, GapOk;
  }

  lemma FirstLevel(segments: seq<Segment>, offsets: seq<nat>, levels: seq<Level>,
                   eps: nat, epsRec: nat, keys: seq<int>, sentinel: int)
    requires |keys| > 0 && |levels| == 1 && levels[0].entries == keys && offsets == [0, |segments|]
    requires LevelOk(keys, eps, levels[0].starts, segments, Last(keys), sentinel)
    requires IsSegmentation(eps, Points(keys), levels[0].starts, levels[0].fits) && StoredAs(levels[0].fits, segments)
    ensures Stack(segments, offsets, levels, eps, epsRec, keys, sentinel)
    ensures Fitted(segments, offsets, levels, eps, epsRec)
    ensures TopCount(segments, offsets, levels, eps, epsRec, keys, sentinel)
         == Counted(|levels[0].starts|, segments, sentinel) >= 1
  {
    LevelKeys(keys, eps, levels[0].starts, segments, Last(keys), sentinel);
    hide LevelOk, IsSegmentation, StoredAs;
    assert segments[0..|segments|] == segments;
    assert FittedAt(segments, offsets, levels, 0, eps, epsRec);
    assert LevelValid(segments, offsets, levels, 0, eps, epsRec, Last(keys), sentinel);
  }

  /** The keys the next level is built on. */
  lemma TopEntries(segments: seq<Segment>, offsets: seq<nat>, levels: seq<Level>,
                   eps: nat, epsRec: nat, keys: seq<int>, sentinel: int, e: seq<int>)
    requires Stack(segments, offsets, levels, eps, epsRec, keys, sentinel)
    requires |e| == TopCount(segments, offsets, levels, eps, epsRec, keys, sentinel)
    requires |offsets| >= 2 && offsets[|offsets| - 2] + |e| <= |segments|
    requires forall i :: 0 <= i < |e| ==> e[i] == segments[offsets[|offsets| - 2] + i].key
    ensures Increasing(e) && |e| > 0 && EntriesOk(e, Last(keys), sentinel)
  {
    var top := |levels| - 1;
    assert LevelValid(segments, offsets, levels, top, eps, epsRec, Last(keys), sentinel);
    var low := LevelSegs(segments, offsets, top);
    assert forall i :: 0 <= i < |e| ==> e[i] == low[i].key;
    hide Stack, LevelOk;
    CountedEntries(levels[top].entries, EpsAt(eps, epsRec, top), levels[top].starts, low, Last(keys), sentinel, e);
  }

  lemma CountedEntries(le: seq<int>, leps: nat, lstarts: seq<nat>, low: seq<Segment>, last: int, sentinel: int,
      e: seq<int>)
    requires LevelOk(le, leps, lstarts, low, last, sentinel) && Indexes(e, |lstarts|, low, sentinel)
    ensures Increasing(e) && |e| > 0 && EntriesOk(e, last, sentinel)
  {
    LevelKeys(le, leps, lstarts, low, last, sentinel);
    hide RunModelled, Tail, IsCut;
  }

  lemma TopBounds(segments: seq<Segment>, offsets: seq<nat>, levels: seq<Level>,
                  eps: nat, epsRec: nat, keys: seq<int>, sentinel: int)
    requires Stack(segments, offsets, levels, eps, epsRec, keys, sentinel)
    ensures |offsets| >= 2
    ensures offsets[|offsets| - 2] + TopCount(segments, offsets, levels, eps, epsRec, keys, sentinel) <= |segments|
  {
    var top := |levels| - 1;
    assert LevelValid(segments, offsets, levels, top, eps, epsRec, Last(keys), sentinel);
    hide LevelOk;
  }

  lemma PushLevel(oldSegs: seq<Segment>, offsets: seq<nat>, levels: seq<Level>,
                  eps: nat, epsRec: nat, keys: seq<int>, sentinel: int, segments: seq<Segment>, level: Level)
    requires Stack(oldSegs, offsets, levels, eps, epsRec, keys, sentinel)
    requires |oldSegs| <= |segments| && segments[..|oldSegs|] == oldSegs
    requires LevelOk(level.entries, epsRec, level.starts, segments[|oldSegs|..], Last(keys), sentinel)
    requires |level.entries| == TopCount(oldSegs, offsets, levels, eps, epsRec, keys, sentinel)
    requires |offsets| >= 2 && offsets[|offsets| - 2] + |level.entries| <= |oldSegs|
    requires forall i :: 0 <= i < |level.entries| ==> level.entries[i] == oldSegs[offsets[|offsets| - 2] + i].key
    ensures Stack(segments, offsets + [|segments|], levels + [level], eps, epsRec, keys, sentinel)
    ensures TopCount(segments, offsets + [|segments|], levels + [level], eps, epsRec, keys, sentinel)
         == Counted(|level.starts|, segments[|oldSegs|..], sentinel) >= 1
  {
    LevelKeys(level.entries, epsRec, level.starts, segments[|oldSegs|..], Last(keys), sentinel);
    PushedStack(oldSegs, offsets, levels, eps, epsRec, keys, sentinel, segments, level);
    StackParts(oldSegs, offsets, levels, eps, epsRec, keys, sentinel);
    hide LevelOk, Counted, TopCount, Stack;
    var offs, levs := offsets + [|segments|], levels + [level];
    assert LevelSegs(segments, offs, |levels|) == segments[|oldSegs|..];
    TopFacts(segments, offs, levs, eps, epsRec, keys, sentinel);
  }

  lemma PushedStack(oldSegs: seq<Segment>, offsets: seq<nat>, levels: seq<Level>,
                  eps: nat, epsRec: nat, keys: seq<int>, sentinel: int, segments: seq<Segment>, level: Level)
    requires Stack(oldSegs, offsets, levels, eps, epsRec, keys, sentinel)
    requires |oldSegs| <= |segments| && segments[..|oldSegs|] == oldSegs
    requires LevelOk(level.entries, epsRec, level.starts, segments[|oldSegs|..], Last(keys), sentinel)
    requires |level.entries| == TopCount(oldSegs, offsets, levels, eps, epsRec, keys, sentinel)
    requires |offsets| >= 2 && offsets[|offsets| - 2] + |level.entries| <= |oldSegs|
    requires forall i :: 0 <= i < |level.entries| ==> level.entries[i] == oldSegs[offsets[|offsets| - 2] + i].key
    ensures Stack(segments, offsets + [|segments|], levels + [level], eps, epsRec, keys, sentinel)
  {
    StackTop(oldSegs, offsets, levels, eps, epsRec, keys, sentinel, segments, level);
    StackParts(oldSegs, offsets, levels, eps, epsRec, keys, sentinel);
    AllKept(oldSegs, offsets, levels, eps, epsRec, keys, sentinel, segments, level);
    hide LevelOk, LevelValid, StackedOn, Counted, TopCount, Stack, OffsetsOk;
    OffsetsSnoc(|levels|, offsets, |oldSegs|, |segments|);
    StackSnoc(segments, offsets + [|segments|], levels + [level], |levels|, eps, epsRec, keys, sentinel);
  }

  lemma OffsetsSnoc(count: nat, offsets: seq<nat>, total: nat, more: nat)
    requires OffsetsOk(count, offsets, total) && total <= more
    ensures OffsetsOk(count + 1, offsets + [more], more)
  {
    forall i | 0 <= i < count ensures offsets[i] <= total {
      assert offsets[i] <= offsets[count];
    }
  }

  lemma AllKept(oldSegs: seq<Segment>, offsets: seq<nat>, levels: seq<Level>,
                  eps: nat, epsRec: nat, keys: seq<int>, sentinel: int, segments: seq<Segment>, level: Level)
    requires Stack(oldSegs, offsets, levels, eps, epsRec, keys, sentinel)
    requires |oldSegs| <= |segments| && segments[..|oldSegs|] == oldSegs
    ensures |offsets| == |levels| + 1 && |levels| > 0
    ensures var offs, levs := offsets + [|segments|], levels + [level];
            && (forall l :: 0 <= l < |levels| ==>
                 LevelValid(segments, offs, levs, l, eps, epsRec, Last(keys), sentinel))
            && (forall l :: 0 <= l < |levels| - 1 ==> StackedOn(segments, offs, levs, l, sentinel))
  {
    StackParts(oldSegs, offsets, levels, eps, epsRec, keys, sentinel);
    hide LevelOk, LevelValid, StackedOn, Stack;
    var offs, levs := offsets + [|segments|], levels + [level];
    forall l | 0 <= l < |levels|
      ensures LevelValid(segments, offs, levs, l, eps, epsRec, Last(keys), sentinel)
      ensures l < |levels| - 1 ==> StackedOn(segments, offs, levs, l, sentinel)
    {
      KeepLevel(oldSegs, offsets, levels, eps, epsRec, keys, sentinel, segments, level, l);
    }
  }

  lemma StackParts(segments: seq<Segment>, offsets: seq<nat>, levels: seq<Level>,
                   eps: nat, epsRec: nat, keys: seq<int>, sentinel: int)
    requires Stack(segments, offsets, levels, eps, epsRec, keys, sentinel)
    ensures |levels| > 0 && |keys| > 0 && levels[0].entries == keys && OffsetsOk(|levels|, offsets, |segments|)
  {}

  /** A stack of n levels with one more on top. */
  lemma StackSnoc(segments: seq<Segment>, offsets: seq<nat>, levels: seq<Level>, n: nat,
                  eps: nat, epsRec: nat, keys: seq<int>, sentinel: int)
    requires |levels| == n + 1 && n > 0 && |keys| > 0 && levels[0].entries == keys
    requires OffsetsOk(n + 1, offsets, |segments|)
    requires forall l :: 0 <= l < n ==> LevelValid(segments, offsets, levels, l, eps, epsRec, Last(keys), sentinel)
    requires forall l :: 0 <= l < n - 1 ==> StackedOn(segments, offsets, levels, l, sentinel)
    requires LevelValid(segments, offsets, levels, n, eps, epsRec, Last(keys), sentinel)
    requires StackedOn(segments, offsets, levels, n - 1, sentinel)
    ensures Stack(segments, offsets, levels, eps, epsRec, keys, sentinel)
  {
    hide LevelValid, StackedOn, OffsetsOk;
  }

  /** The new level is valid and sits on the old top. */
  lemma StackTop(oldSegs: seq<Segment>, offsets: seq<nat>, levels: seq<Level>,
                 eps: nat, epsRec: nat, keys: seq<int>, sentinel: int, segments: seq<Segment>, level: Level)
    requires Stack(oldSegs, offsets, levels, eps, epsRec, keys, sentinel)
    requires |oldSegs| <= |segments| && segments[..|oldSegs|] == oldSegs
    requires LevelOk(level.entries, epsRec, level.starts, segments[|oldSegs|..], Last(keys), sentinel)
    requires |level.entries| == TopCount(oldSegs, offsets, levels, eps, epsRec, keys, sentinel)
    requires |offsets| >= 2 && offsets[|offsets| - 2] + |level.entries| <= |oldSegs|
    requires forall i :: 0 <= i < |level.entries| ==> level.entries[i] == oldSegs[offsets[|offsets| - 2] + i].key
    ensures var offs, levs := offsets + [|segments|], levels + [level];
            && LevelValid(segments, offs, levs, |levels|, eps, epsRec, Last(keys), sentinel)
            && StackedOn(segments, offs, levs, |levels| - 1, sentinel)
  {
    hide LevelOk, Stack, TopCount, Counted;
    var top := |levels| - 1;
    var offs, levs := offsets + [|segments|], levels + [level];
    TopFacts(oldSegs, offsets, levels, eps, epsRec, keys, sentinel);
    var low := LevelSegs(oldSegs, offsets, top);
    KeepSlice(oldSegs, segments, offsets[top], offsets[top + 1]);
    assert LevelSegs(segments, offs, |levels|) == segments[|oldSegs|..];
    assert LevelSegs(segments, offs, top) == low;
    assert Indexes(level.entries, |levels[top].starts|, low, sentinel);
  }

  lemma TopFacts(segments: seq<Segment>, offsets: seq<nat>, levels: seq<Level>,
                 eps: nat, epsRec: nat, keys: seq<int>, sentinel: int)
    requires Stack(segments, offsets, levels, eps, epsRec, keys, sentinel)
    ensures |levels| > 0 && |offsets| == |levels| + 1
    ensures var top := |levels| - 1;
            && offsets[top] <= offsets[top + 1] == |segments|
            && 0 < |levels[top].starts| <= |LevelSegs(segments, offsets, top)|
            && TopCount(segments, offsets, levels, eps, epsRec, keys, sentinel)
               == Counted(|levels[top].starts|, LevelSegs(segments, offsets, top), sentinel)
  {
    assert LevelValid(segments, offsets, levels, |levels| - 1, eps, epsRec, Last(keys), sentinel);
  }

  lemma KeepSlice(before: seq<Segment>, after: seq<Segment>, from: nat, to: nat)
    requires from <= to <= |before| <= |after| && after[..|before|] == before
    ensures after[from..to] == before[from..to]
    ensures forall i :: 0 <= i < to - from ==> before[from..to][i] == before[from + i]
  {
    forall i | 0 <= i < to - from ensures after[from..to][i] == before[from..to][i] {
      assert after[from + i] == after[..|before|][from + i];
    }
  }

  lemma KeepLevel(oldSegs: seq<Segment>, offsets: seq<nat>, levels: seq<Level>,
                  eps: nat, epsRec: nat, keys: seq<int>, sentinel: int, segments: seq<Segment>, level: Level, l: nat)
    requires Stack(oldSegs, offsets, levels, eps, epsRec, keys, sentinel) && l < |levels|
    requires |oldSegs| <= |segments| && segments[..|oldSegs|] == oldSegs
    ensures var offs, levs := offsets + [|segments|], levels + [level];
            && LevelValid(segments, offs, levs, l, eps, epsRec, Last(keys), sentinel)
            && (l < |levels| - 1 ==> StackedOn(segments, offs, levs, l, sentinel))
  {
    hide LevelOk, Indexes;
    var offs, levs := offsets + [|segments|], levels + [level];
    assert LevelValid(oldSegs, offsets, levels, l, eps, epsRec, Last(keys), sentinel);
    assert LevelSegs(oldSegs, offsets, l) == LevelSegs(segments, offs, l);
    if l < |levels| - 1 { assert StackedOn(oldSegs, offsets, levels, l, sentinel); }
  }

  // ---- Facts about a built index ----

  lemma LevelFacts(x: PGMIndex, l: nat)
    requires x.Built() && l < |x.levels|
    ensures |x.levelsOffsets| == |x.levels| + 1 && x.levelsOffsets[l] <= x.levelsOffsets[l + 1] <= |x.segments|
    ensures LevelOk(x.levels[l].entries, EpsAt(x.epsilon, x.epsilonRecursive, l), x.levels[l].starts, x.Segs(l),
                    Last(x.keys), x.sentinel)
    ensures |x.Segs(l)| == x.levelsOffsets[l + 1] - x.levelsOffsets[l]
    ensures forall i :: 0 <= i < |x.Segs(l)| ==> x.Segs(l)[i] == x.segments[x.levelsOffsets[l] + i]
  {
    hide LevelOk, TopCount, Fitted;
    assert LevelValid(x.segments, x.levelsOffsets, x.levels, l, x.epsilon, x.epsilonRecursive, Last(x.keys),
           x.sentinel);
  }

  /** The first entry of every level is the first key. */
  lemma {:induction false} FirstEntries(x: PGMIndex, l: nat)
    requires x.Built() && l < |x.levels|
    ensures |x.levels[l].entries| > 0 && x.levels[l].entries[0] == x.firstKey
  {
    LevelFacts(x, l);
    if l > 0 {
      FirstEntries(x, l - 1);
      LevelFacts(x, l - 1);
      assert StackedOn(x.segments, x.levelsOffsets, x.levels, l - 1, x.sentinel);
      var low := x.levels[l - 1];
      LevelKeys(low.entries, EpsAt(x.epsilon, x.epsilonRecursive, l - 1), low.starts, x.Segs(l - 1), Last(x.keys),
          x.sentinel);
    }
  }

  /** Where the search of level l must stop, and that its range reaches from there or
      further left to there or further right. */
  lemma DescentTarget(x: PGMIndex, l: nat, it: nat, k: int, pos: int) returns (target: nat)
    requires x.Built() && l + 1 < |x.levels| && x.epsilonRecursive > 0
    requires x.firstKey <= k < x.sentinel && x.Answers(l + 1, it, k)
    requires it + 1 < |x.segments| && x.segments[it].den > 0
    requires pos == Min(Position(x.segments[it], k), x.segments[it + 1].intercept)
    ensures var b := x.levelsOffsets[l];
            && target + 1 < |x.Segs(l)| && b + target + 1 < |x.segments|
            && x.ScanEnd(l, b + target, k) && x.Answers(l, b + target, k)
            && (forall i :: b <= i <= b + target ==> x.segments[i].key <= k && x.segments[i].den > 0)
            && k < x.segments[b + target + 1].key
    ensures InReach(x, l, k, pos, target)
  {
    hide LevelOk, TopCount, Fitted, LevelSegs, Position, Min, Rightmost, Responsible, InReach;
    var low := x.levels[l];
    var ls := x.Segs(l);
    var last, eps := Last(x.keys), EpsAt(x.epsilon, x.epsilonRecursive, l);
    LevelFacts(x, l);
    FirstEntries(x, l);
    target := RightmostExists(low.entries, eps, low.starts, ls, last, x.sentinel, k);
    RightmostIsResponsible(|low.starts|, ls, target, k);
    RightmostFacts(|low.starts|, ls, target, k);
    Denominators(low.entries, eps, low.starts, ls, last, x.sentinel);
    assert ls[target + 1] == x.segments[x.levelsOffsets[l] + target + 1];
    TargetInReach(x, l, it, k, pos, target);
    KeysToTarget(low.entries, eps, low.starts, ls, last, x.sentinel, target, k);
    forall i | x.levelsOffsets[l] <= i <= x.levelsOffsets[l] + target
      ensures x.segments[i].key <= k && x.segments[i].den > 0
    {
      assert x.segments[i] == ls[i - x.levelsOffsets[l]];
    }
  }

  /** The range around a predicted position goes from the target or further left to right
      of it, or up to it if it is an end twin. */
  ghost predicate InReach(x: PGMIndex, l: nat, k: int, pos: int, target: int)
    requires x.Built() && l < |x.levels|
    reads x
  {
    var lo, hi := SubEps(pos, x.epsilonRecursive + 1), AddEps(pos, x.epsilonRecursive, |x.Segs(l)| - 1);
    && 0 <= lo <= target <= lo + 2 * x.epsilonRecursive + 3 && lo < hi
    && hi <= lo + 2 * x.epsilonRecursive + 3 && hi <= |x.Segs(l)| - 1
    && (target < hi || EndTwin(x, l, k, pos, target))
  }

  lemma TargetInReach(x: PGMIndex, l: nat, it: nat, k: int, pos: int, target: nat)
    requires x.Built() && l + 1 < |x.levels| && x.epsilonRecursive > 0
    requires x.firstKey <= k < x.sentinel && x.Answers(l + 1, it, k)
    requires it + 1 < |x.segments| && x.segments[it].den > 0
    requires pos == Min(Position(x.segments[it], k), x.segments[it + 1].intercept)
    requires Rightmost(|x.levels[l].starts|, x.Segs(l), target, k)
    ensures InReach(x, l, k, pos, target)
  {
    hide LevelOk, TopCount, Fitted, LevelSegs, Position, SubEps, AddEps, Min, Rightmost, Responsible;
    var low, up := x.levels[l], x.levels[l + 1];
    var ls, us := x.Segs(l), x.Segs(l + 1);
    var last, eps, i := Last(x.keys), EpsAt(x.epsilon, x.epsilonRecursive, l), it - x.levelsOffsets[l + 1];
    LevelFacts(x, l);
    LevelFacts(x, l + 1);
    FirstEntries(x, l + 1);
    assert StackedOn(x.segments, x.levelsOffsets, x.levels, l, x.sentinel);
    ResponsibleFacts(|up.starts|, us, i, k);
    SamePrediction(x.segments, us, it, x.levelsOffsets[l + 1], k);
    DescentStart(low.entries, eps, low.starts, ls, up.entries, x.epsilonRecursive, up.starts, us, last, x.sentinel, i,
        k, target);
    DescentEnd(low.entries, eps, low.starts, ls, up.entries, x.epsilonRecursive, up.starts, us, last, x.sentinel, i, k,
        target);
    hide Stack;
    TargetTwin(x, l, k, pos, target);
    EndsOrder(pos, x.epsilonRecursive, |ls| - 1);
  }

  /** The target is an end segment that follows a run with the very key sought, just
      outside the range of a binary search. */
  ghost predicate EndTwin(x: PGMIndex, l: nat, k: int, pos: int, target: int)
    requires x.Built() && l < |x.levels|
    reads x
  {
    && l > 0 && target == |x.levels[l].starts| && HasEnd(|x.levels[l].starts|, x.Segs(l))
    && AddEps(pos, x.epsilonRecursive, |x.Segs(l)| - 1) == target
  }

  /** At the bottom an end segment never shares its key with a run. */
  lemma TargetTwin(x: PGMIndex, l: nat, k: int, pos: int, target: nat)
    requires x.Built() && l < |x.levels| && target <= pos + x.epsilonRecursive + 2
    requires 0 < |x.levels[l].starts| <= |x.Segs(l)|
    requires Rightmost(|x.levels[l].starts|, x.Segs(l), target, k)
    requires target < AddEps(pos, x.epsilonRecursive, |x.Segs(l)| - 1)
          || (target == |x.levels[l].starts| && HasEnd(|x.levels[l].starts|, x.Segs(l))
             && k == x.Segs(l)[target - 1].key)
    ensures target < AddEps(pos, x.epsilonRecursive, |x.Segs(l)| - 1) || EndTwin(x, l, k, pos, target)
  {
    if target >= AddEps(pos, x.epsilonRecursive, |x.Segs(l)| - 1) && l == 0 {
      LevelFacts(x, 0);
      BottomLevel(x);
      EndSegment(x.keys, x.epsilon, x.levels[0].starts, x.Segs(0), Last(x.keys), x.sentinel);
      assert false;
    }
  }

  lemma BinaryAnswer(x: PGMIndex, l: nat, k: int, pos: int, target: nat, r: nat)
    requires x.Built() && l < |x.levels| && k < x.sentinel
    requires |x.levelsOffsets| == |x.levels| + 1 && x.levelsOffsets[l] <= x.levelsOffsets[l + 1] <= |x.segments|
    requires x.ScanEnd(l, x.levelsOffsets[l] + target, k) && InReach(x, l, k, pos, target)
    requires var lo := SubEps(pos, x.epsilonRecursive + 1); var hi := AddEps(pos, x.epsilonRecursive, |x.Segs(l)| - 1);
             var b := x.levelsOffsets[l];
             && b + lo <= r <= b + hi <= |x.segments|
             && (r > b + lo ==> x.segments[r - 1].key <= k) && (r < b + hi ==> k < x.segments[r].key)
    ensures r > x.levelsOffsets[l] + SubEps(pos, x.epsilonRecursive + 1)
    ensures x.Answers(l, r - 1, k) && x.segments[r - 1].den > 0 && r < |x.segments|
    ensures l == 0 ==> x.ScanEnd(l, r - 1, k)
  {
    hide LevelOk, TopCount, Stack, Position, Fitted, Rightmost, Responsible, SortedKeys, SubEps, AddEps, LevelSegs,
         HasEnd;
    var ss, b := x.Segs(l), x.levelsOffsets[l];
    LevelFacts(x, l);
    ScannedLevel(x, l, k, target);
    var lo, hi := SubEps(pos, x.epsilonRecursive + 1), AddEps(pos, x.epsilonRecursive, |ss| - 1);
    EndsOrder(pos, x.epsilonRecursive, |ss| - 1);
    assert r > b + lo ==> ss[r - 1 - b] == x.segments[r - 1];
    assert r < b + hi ==> ss[r - b] == x.segments[r];
    BinaryStop(|x.levels[l].starts|, ss, target, k, lo, hi, r - b);
    ResponsibleFacts(|x.levels[l].starts|, ss, r - 1 - b, k);
  }

  lemma EndsOrder(pos: int, eps: nat, size: int)
    ensures 0 < AddEps(pos, eps, size) < size ==> SubEps(pos, eps + 1) < AddEps(pos, eps, size)
    ensures AddEps(pos, eps, size) <= size
    ensures 0 <= SubEps(pos, eps + 1)
    ensures pos - eps - 1 <= SubEps(pos, eps + 1) && AddEps(pos, eps, size) <= SubEps(pos, eps + 1) + 2 * eps + 3
  {}

  lemma ScannedLevel(x: PGMIndex, l: nat, k: int, target: nat)
    requires x.Built() && l < |x.levels| && k < x.sentinel
    requires Rightmost(|x.levels[l].starts|, x.Segs(l), target, k)
    ensures var c, ss := |x.levels[l].starts|, x.Segs(l);
            && 0 < c <= |ss| <= c + 2 && k < ss[|ss| - 1].key
            && (forall i, j :: 0 <= i < j < c ==> ss[i].key < ss[j].key)
            && (forall i :: 0 <= i <= target < |ss| ==> ss[i].key <= k)
            && (forall i :: 0 <= i < |ss| ==> ss[i].den > 0)
            && (l == 0 ==> SortedKeys(ss, 0, |ss|))
  {
    hide LevelOk, TopCount, Stack, Fitted, Rightmost, SortedKeys, LevelSegs;
    var level, ss := x.levels[l], x.Segs(l);
    var eps := EpsAt(x.epsilon, x.epsilonRecursive, l);
    LevelFacts(x, l);
    LevelKeys(level.entries, eps, level.starts, ss, Last(x.keys), x.sentinel);
    Denominators(level.entries, eps, level.starts, ss, Last(x.keys), x.sentinel);
    KeysToTarget(level.entries, eps, level.starts, ss, Last(x.keys), x.sentinel, target, k);
    CutCounts(level.entries, eps, level.starts, ss, Last(x.keys), x.sentinel);
    if l == 0 {
      BottomLevel(x);
      BottomKeysSorted(level.entries, eps, level.starts, ss, Last(x.keys), x.sentinel);
    }
  }

  lemma CutCounts(e: seq<int>, eps: nat, starts: seq<nat>, segs: seq<Segment>, last: int, sentinel: int)
    requires LevelOk(e, eps, starts, segs, last, sentinel)
    ensures 0 < |starts| <= |segs|
  {}

  lemma SamePrediction(segments: seq<Segment>, segs: seq<Segment>, it: nat, base: nat, k: int)
    requires base <= it && base + |segs| <= |segments| && it - base < |segs| - 1
    requires forall i :: 0 <= i < |segs| ==> segs[i] == segments[base + i]
    requires segments[it].den > 0
    ensures segs[it - base].den > 0
    ensures Predict(segs, it - base, k) == Min(Position(segments[it], k), segments[it + 1].intercept)
  {
    hide Position;
    var i := it - base;
    assert segs[i] == segments[it] && segs[i + 1] == segments[it + 1];
  }

  lemma RightmostFacts(c: nat, segs: seq<Segment>, t: int, k: int)
    requires Rightmost(c, segs, t, k)
    ensures 0 <= t < |segs| - 1 && segs[t].key <= k < segs[t + 1].key
  {}

  lemma ResponsibleFacts(c: nat, segs: seq<Segment>, t: int, k: int)
    requires Responsible(c, segs, t, k)
    ensures 0 <= t < |segs| - 1 && segs[t].key <= k
  {}

  lemma Denominators(e: seq<int>, eps: nat, starts: seq<nat>, segs: seq<Segment>, last: int, sentinel: int)
    requires LevelOk(e, eps, starts, segs, last, sentinel)
    ensures forall i :: 0 <= i < |segs| ==> segs[i].den > 0
  {}

  /** Without recursion the one level is all there is, and its keys are sorted. */
  lemma SingleLevel(x: PGMIndex)
    requires x.Built() && |x.levels| == 1
    ensures |x.levelsOffsets| == 2 && x.Segs(0) == x.segments && |x.segments| == x.levelsOffsets[1] >= 2
    ensures x.segments[0].key == x.firstKey && x.segments[|x.segments| - 1].key == x.sentinel
    ensures SortedKeys(x.segments, 0, |x.segments|)
    ensures forall i :: 0 <= i < |x.segments| ==> x.segments[i].den > 0
  {
    hide LevelOk, TopCount, Fitted;
    var level := x.levels[0];
    LevelFacts(x, 0);
    assert x.Segs(0) == x.segments;
    Denominators(level.entries, x.epsilon, level.starts, x.segments, Last(x.keys), x.sentinel);
    LevelKeys(level.entries, x.epsilon, level.starts, x.segments, Last(x.keys), x.sentinel);
    BottomKeysSorted(level.entries, x.epsilon, level.starts, x.segments, Last(x.keys), x.sentinel);
  }

  lemma FlatRightmost(c: nat, segs: seq<Segment>, u: nat, k: int)
    requires |segs| >= 2 && segs[0].key <= k < segs[|segs| - 1].key && u < |segs|
    requires forall i :: 0 <= i < u ==> segs[i].key <= k
    requires forall i :: u <= i < |segs| - 1 ==> k < segs[i].key
    ensures u > 0 && Rightmost(c, segs, u - 1, k) && Responsible(c, segs, u - 1, k)
  {}

  lemma FlatAnswer(x: PGMIndex, u: nat, k: int)
    requires x.Built() && |x.levels| == 1 && x.firstKey <= k < x.sentinel
    requires u < |x.segments|
    requires forall i :: 0 <= i < u ==> x.segments[i].key <= k
    requires forall i :: u <= i < |x.segments| - 1 ==> k < x.segments[i].key
    ensures u > 0 && x.segments[u - 1].den > 0 && x.ScanEnd(0, u - 1, k) && x.Answers(0, u - 1, k)
  {
    SingleLevel(x);
    BottomLevel(x);
    FlatRightmost(|x.levels[0].starts|, x.segments, u, k);
    hide LevelOk, TopCount, Fitted, LevelSegs, Stack, Rightmost, Responsible;
  }

  /** The root answers for every key with its first segment. */
  lemma RootAnswers(x: PGMIndex, k: int)
    requires x.Built() && x.epsilonRecursive > 0 && x.firstKey <= k < x.sentinel
    ensures |x.levelsOffsets| >= 2
    ensures var it := x.levelsOffsets[|x.levelsOffsets| - 2];
            && x.Answers(|x.levels| - 1, it, k) && it + 1 < |x.segments| && x.segments[it].den > 0
            && (x.Height() == 1 ==> (x.ScanEnd(0, it, k) <==> x.SegmentsCount() != 2 || k <= Last(x.keys)))
  {
    var top := |x.levels| - 1;
    var level, ss := x.levels[top], x.Segs(top);
    LevelFacts(x, top);
    FirstEntries(x, top);
    LevelKeys(level.entries, EpsAt(x.epsilon, x.epsilonRecursive, top), level.starts, ss, Last(x.keys), x.sentinel);
    assert Counted(|level.starts|, ss, x.sentinel) == 1;
    assert ss[0] == x.segments[x.levelsOffsets[top]] && ss[1] == x.segments[x.levelsOffsets[top] + 1];
    hide LevelOk, Stack, Fitted;
  }

  lemma BottomLevel(x: PGMIndex)
    requires x.Built()
    ensures |x.levels| > 0 && x.levels[0].entries == x.keys && x.levelsOffsets[0] == 0
  {}

  lemma SearchWindow(x: PGMIndex, it: nat, k: int, key: int)
    requires x.Built() && k == (if x.firstKey >= key then x.firstKey else key) && k < x.sentinel
    requires it + 1 < |x.segments| && x.segments[it].den > 0 && x.Answers(0, it, k)
    ensures var pos := Min(Position(x.segments[it], k), x.segments[it + 1].intercept);
            && 0 <= SubEps(pos, x.epsilon) <= Rank(x.keys, key) <= AddEps(pos, x.epsilon, x.n) <= x.n
            && AddEps(pos, x.epsilon, x.n) - SubEps(pos, x.epsilon) <= 2 * x.epsilon + 2
  {
    hide LevelOk, TopCount, Fitted, LevelSegs, Stack, SubEps, AddEps, Position, Min;
    BottomLevel(x);
    var level, ss := x.levels[0], x.Segs(0);
    LevelFacts(x, 0);
    ResponsibleFacts(|level.starts|, ss, it - x.levelsOffsets[0], k);
    SamePrediction(x.segments, ss, it, x.levelsOffsets[0], k);
    WindowHolds(level.entries, x.epsilon, level.starts, ss, Last(x.keys), x.sentinel, it - x.levelsOffsets[0], k);
    if key < x.firstKey {
      RankIs(x.keys, key, 0);
      RankIs(x.keys, k, 0);
    }
  }

  lemma BottomSorted(x: PGMIndex)
    requires x.Built()
    ensures |x.levels| > 0 && |x.levelsOffsets| > 1 && x.levelsOffsets[0] == 0
            && 2 <= x.levelsOffsets[1] <= |x.segments|
    ensures SortedKeys(x.segments, 0, x.levelsOffsets[1])
    ensures x.segments[0].key == x.firstKey && x.segments[x.levelsOffsets[1] - 1].key == x.sentinel
    ensures forall i :: 0 <= i < x.levelsOffsets[1] ==> x.segments[i].den > 0
  {
    hide LevelOk, TopCount, Fitted, LevelSegs, Stack, SortedKeys;
    BottomLevel(x);
    var level, ss := x.levels[0], x.Segs(0);
    LevelFacts(x, 0);
    Denominators(level.entries, x.epsilon, level.starts, ss, Last(x.keys), x.sentinel);
    LevelEnds(level.entries, x.epsilon, level.starts, ss, Last(x.keys), x.sentinel);
    BottomKeysSorted(level.entries, x.epsilon, level.starts, ss, Last(x.keys), x.sentinel);
    SortedSlice(x.segments, ss, x.levelsOffsets[1]);
  }

  lemma SortedSlice(segments: seq<Segment>, segs: seq<Segment>, to: nat)
    requires |segs| == to <= |segments| && forall i :: 0 <= i < to ==> segs[i] == segments[0 + i]
    requires SortedKeys(segs, 0, to)
    requires forall i :: 0 <= i < |segs| ==> segs[i].den > 0
    ensures SortedKeys(segments, 0, to)
    ensures forall i :: 0 <= i < to ==> segments[i] == segs[i] && segments[i].den > 0
  {
    assert segs == segments[..to];
  }

  /** A search over the whole bottom level predicts the rank of a present key closely
      enough, without the clamp. */
  lemma PresentKeyPosition(x: PGMIndex, u: nat, k: int)
    requires x.Built() && k in x.keys && |x.levelsOffsets| > 1 && u <= x.levelsOffsets[1] <= |x.segments|
    requires forall i :: 0 <= i < u ==> x.segments[i].key <= k
    requires forall i :: u <= i < x.levelsOffsets[1] ==> k < x.segments[i].key
    ensures u > 0 && x.segments[u - 1].den > 0 && x.segments[u - 1].key <= k
    ensures var pos := Position(x.segments[u - 1], k); pos - x.epsilon <= Rank(x.keys, k) <= pos + x.epsilon + 1
  {
    hide LevelOk, TopCount, Fitted, LevelSegs, Stack, Rank, Position;
    BottomSorted(x);
    BottomLevel(x);
    var level, ss := x.levels[0], x.Segs(0);
    LevelFacts(x, 0);
    var i :| 0 <= i < |x.keys| && x.keys[i] == k;
    assert x.firstKey <= k < x.sentinel;
    assert forall j :: 0 <= j < |ss| ==> ss[j] == x.segments[x.levelsOffsets[0] + j];
    FlatRightmost(|level.starts|, ss, u, k);
    PresentKeyWindow(level.entries, x.epsilon, level.starts, ss, Last(x.keys), x.sentinel, u - 1, k);
  }
}
