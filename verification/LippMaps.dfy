/** Key-value contents of a subtree: their split over a node's slots and their listing in
    key order. */
module LippMaps {
  import opened SortedSeq
  import opened LippModel

  type Contents = map<int, int>

  /** The keys a node sends to slot i, with their values. */
  ghost function Part(c: Contents, m: LinearModel, n: nat, i: int): Contents
    requires n >= 1
  {
    map k | k in c && PredictPos(m, n, k) == i :: c[k]
  }

  /** The keys a node sends to slots before i. */
  ghost function Below(c: Contents, m: LinearModel, n: nat, i: int): set<int>
    requires n >= 1
  {
    set k | k in c && PredictPos(m, n, k) < i
  }

  /** Adding a key changes the part of its own slot only. */
  lemma PartGrows(c: Contents, m: LinearModel, n: nat, i: int, key: int, value: int)
    requires n >= 1
    ensures Part(c[key := value], m, n, i) ==
            if PredictPos(m, n, key) == i then Part(c, m, n, i)[key := value] else Part(c, m, n, i)
  {}

  lemma PartSize(c: Contents, m: LinearModel, n: nat, i: int)
    requires n >= 1
    ensures |Part(c, m, n, i)| <= |c|
  {
    var part := Part(c, m, n, i);
    assert c.Keys == part.Keys + (c.Keys - part.Keys);
    assert |part| == |part.Keys| && |c| == |c.Keys|;
  }

  lemma BelowStep(c: Contents, m: LinearModel, n: nat, i: int)
    requires n >= 1
    ensures Below(c, m, n, i + 1) == Below(c, m, n, i) + Part(c, m, n, i).Keys
    ensures Below(c, m, n, i) !! Part(c, m, n, i).Keys
    ensures |Below(c, m, n, i + 1)| == |Below(c, m, n, i)| + |Part(c, m, n, i)|
  {
    hide PredictPos;
    assert |Part(c, m, n, i)| == |Part(c, m, n, i).Keys|;
  }

  lemma BelowCount(c: Contents, m: LinearModel, n: nat, i: int)
    requires n >= 1
    ensures |Below(c, m, n, i + 1)| == |Below(c, m, n, i)| + |Part(c, m, n, i)|
  {
    hide Below, Part;
    BelowStep(c, m, n, i);
  }

  lemma BelowEnds(c: Contents, m: LinearModel, n: nat)
    requires n >= 1
    ensures Below(c, m, n, 0) == {} && Below(c, m, n, n) == c.Keys
  {}

  // ---- Listings ----

  lemma NonEmpty(s: set<int>)
    requires s != {}
    ensures exists x :: x in s
  {
    if forall x :: x !in s { assert false; }
  }

  ghost function MaxOf(s: set<int>): (m: int)
    requires s != {}
    ensures m in s && forall x :: x in s ==> x <= m
  {
    NonEmpty(s);
    var x :| x in s;
    var rest := s - {x};
    assert s == rest + {x};
    if rest == {} then x
    else
      var y := MaxOf(rest);
      if x <= y then y else x
  }

  /** The elements in increasing order. */
  ghost function Listing(s: set<int>): (r: seq<int>)
    ensures |r| == |s| && Increasing(r)
    ensures forall x :: x in r <==> x in s
  {
    if s == {} then []
    else
      var m := MaxOf(s);
      Listing(s - {m}) + [m]
  }

  lemma ListingMax(s: set<int>, m: int)
    requires m in s && forall x :: x in s ==> x <= m
    ensures Listing(s) == Listing(s - {m}) + [m]
  {
    assert MaxOf(s) == m;
  }

  lemma {:induction false} ListingUnique(q: seq<int>, s: set<int>)
    requires Increasing(q) && forall x :: x in q <==> x in s
    ensures q == Listing(s)
    decreases |q|
  {
    hide Listing;
    if |q| == 0 {
      if s != {} { NonEmpty(s); }
    } else {
      var n := |q| - 1;
      var m, p := q[n], q[..n];
      assert q == p + [m];
      assert m in q;
      PrefixElements(p, m, s);
      ListingUnique(p, s - {m});
      ListingMax(s, m);
    }
  }

  /** All but the last element of an increasing listing. */
  lemma PrefixElements(p: seq<int>, m: int, s: set<int>)
    requires Increasing(p + [m]) && forall x :: x in p + [m] <==> x in s
    ensures Increasing(p) && forall x :: x in p <==> x in s - {m}
    ensures forall x :: x in s ==> x <= m
  {
    var q := p + [m];
    assert forall i :: 0 <= i < |p| ==> q[i] == p[i] && q[i] < q[|p|];
  }

  /** Lower keys first. */
  lemma ListingSplit(a: set<int>, b: set<int>)
    requires forall x, y :: x in a && y in b ==> x < y
    ensures Listing(a + b) == Listing(a) + Listing(b)
  {
    var p, q := Listing(a), Listing(b);
    var r := p + q;
    forall i, j | 0 <= i < j < |r| ensures r[i] < r[j] {
      if i < |p| { assert r[i] in a; }
      if j >= |p| { assert r[j] in b; }
    }
    ListingUnique(r, a + b);
  }

  /** The next slot's keys follow those of the slots before. */
  lemma ListingStep(c: Contents, m: LinearModel, n: nat, i: int)
    requires n >= 1 && m.a >= 0.0
    ensures Listing(Below(c, m, n, i + 1)) == Listing(Below(c, m, n, i)) + Listing(Part(c, m, n, i).Keys)
  {
    BelowStep(c, m, n, i);
    forall x, y | x in Below(c, m, n, i) && y in Part(c, m, n, i).Keys ensures x < y {
      if y <= x { PredictMonotone(m, n, y, x); }
    }
    ListingSplit(Below(c, m, n, i), Part(c, m, n, i).Keys);
  }

  /** Listings of successive slots lie one after another in the listing of the whole. */
  lemma {:induction false} BelowPrefix(c: Contents, m: LinearModel, n: nat, i: nat)
    requires n >= 1 && m.a >= 0.0 && i <= n
    ensures var full := Listing(c.Keys);
            |Below(c, m, n, i)| <= |full| && full[..|Below(c, m, n, i)|] == Listing(Below(c, m, n, i))
    decreases n - i
  {
    hide Below, Part, Listing, Increasing;
    var full := Listing(c.Keys);
    if i == n {
      BelowEnds(c, m, n);
      assert full[..|full|] == full;
    } else {
      BelowPrefix(c, m, n, i + 1);
      ListingStep(c, m, n, i);
      ListingLengths(c, m, n, i);
      CutSlices(full, Listing(Below(c, m, n, i)), Listing(Part(c, m, n, i).Keys));
    }
  }

  lemma ListingLengths(c: Contents, m: LinearModel, n: nat, i: nat)
    requires n >= 1
    ensures |Listing(Below(c, m, n, i))| == |Below(c, m, n, i)|
    ensures |Listing(Part(c, m, n, i).Keys)| == |Part(c, m, n, i)|
    ensures |Below(c, m, n, i + 1)| == |Below(c, m, n, i)| + |Part(c, m, n, i)|
  {
    hide Below, Part, Listing, Increasing;
    BelowStep(c, m, n, i);
    assert |Part(c, m, n, i)| == |Part(c, m, n, i).Keys|;
  }

  lemma CutSlices(full: seq<int>, a: seq<int>, b: seq<int>)
    requires |a| + |b| <= |full| && full[..|a| + |b|] == a + b
    ensures full[..|a|] == a && full[|a|..|a| + |b|] == b
  {
    assert full[..|a|] == full[..|a| + |b|][..|a|];
    assert full[|a|..|a| + |b|] == full[..|a| + |b|][|a|..];
  }

  /** The listing of slot i's keys sits where the keys of earlier slots end. */
  lemma PartPlace(c: Contents, m: LinearModel, n: nat, i: nat)
    requires n >= 1 && m.a >= 0.0 && i < n
    ensures var b, full := |Below(c, m, n, i)|, Listing(c.Keys);
            && b + |Part(c, m, n, i)| <= |full|
            && full[b..b + |Part(c, m, n, i)|] == Listing(Part(c, m, n, i).Keys)
  {
    hide Below, Part, Listing, Increasing;
    BelowPrefix(c, m, n, i + 1);
    ListingStep(c, m, n, i);
    ListingLengths(c, m, n, i);
    var full, a, b := Listing(c.Keys), Listing(Below(c, m, n, i)), Listing(Part(c, m, n, i).Keys);
    assert |a| + |b| == |Below(c, m, n, i + 1)|;
    CutSlices(full, a, b);
  }

  // ---- Sorted arrays as contents ----

  /** The map a strictly increasing key array and its values stand for. */
  ghost function MapOf(keys: seq<int>, values: seq<int>): (c: Contents)
    requires Increasing(keys) && |values| == |keys|
    ensures |c| == |keys|
    ensures forall k :: k in c <==> k in keys
    ensures forall i :: 0 <= i < |keys| ==> keys[i] in c && c[keys[i]] == values[i]
  {
    var c := map i | 0 <= i < |keys| :: keys[i] := values[i];
    KeysAreAll(keys, c.Keys);
    c
  }

  /** The keys of that map, listed, are the array again. */
  lemma MapListing(keys: seq<int>, values: seq<int>)
    requires Increasing(keys) && |values| == |keys|
    ensures Listing(MapOf(keys, values).Keys) == keys
  {
    hide Increasing, Listing;
    ListingUnique(keys, MapOf(keys, values).Keys);
  }

  lemma {:induction false} KeysAreAll(keys: seq<int>, s: set<int>)
    requires Increasing(keys) && forall k :: k in s <==> k in keys
    ensures |s| == |keys|
  {
    ListingUnique(keys, s);
  }
}
