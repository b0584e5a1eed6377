/** One new constraint: the two extreme lines and the two chains before and after it. */
module HullStep {
  import opened Geometry
  import opened Hull

  /** near and far are all constraint points seen, nearChain and farChain the live parts
      of their hulls. The first of one chain and the last of the other span the two
      extreme lines, both of which respect every constraint; and no constraint was lost
      by keeping only the chains. */
  ghost predicate HullOk(s: int, near: seq<Point>, far: seq<Point>, nearChain: seq<Point>, farChain: seq<Point>) {
    && |nearChain| > 0 && |farChain| > 0
    && Chain(s, nearChain) && Chain(-s, farChain)
    && (forall i :: 0 <= i < |nearChain| ==> nearChain[i] in near)
    && (forall i :: 0 <= i < |farChain| ==> farChain[i] in far)
    && Fits(s, nearChain[0], farChain[|farChain| - 1], near, far)
    && Fits(s, farChain[0], nearChain[|nearChain| - 1], near, far)
    && Complete(s, near, far, nearChain, farChain)
  }

  lemma MirrorHull(s: int, near: seq<Point>, far: seq<Point>, nearChain: seq<Point>, farChain: seq<Point>)
    requires HullOk(s, near, far, nearChain, farChain)
    ensures HullOk(-s, far, near, farChain, nearChain)
  {
    hide Chain, Fits, Complete, Clears, Cross, Height;
    MirrorFits(s, nearChain[0], farChain[|farChain| - 1], near, far);
    MirrorFits(s, farChain[0], nearChain[|nearChain| - 1], near, far);
    MirrorComplete(s, near, far, nearChain, farChain);
    assert -(-s) == s;
  }

  /** The weighted sum of two lines that passes through p. */
  function Mix(m: Line, k: int, h: Line, j: int): Line {
    Line(k * m.dx + j * h.dx, k * m.dy + j * h.dy, k * m.c + j * h.c)
  }

  lemma MixHeight(m: Line, k: int, h: Line, j: int, z: Point)
    ensures Height(Mix(m, k, h, j), z) == k * Height(m, z) + j * Height(h, z)
  {}

  /** When p lies between two feasible lines there is a feasible line through p. */
  lemma FeasibleThrough(s: int, r0: Point, r2: Point, r1: Point, r3: Point, p: Point, near: seq<Point>, far: seq<Point>)
      returns (g: Line)
    requires s == 1 || s == -1
    requires Fits(s, r0, r2, near, far) && Fits(s, r1, r3, near, far)
    requires s * Cross(r0, r2, p) >= 0 && s * Cross(r1, r3, p) < 0
    ensures g.dx > 0 && Height(g, p) == 0
    ensures Clears(s, g, near) && Clears(-s, g, far)
  {
    hide Cross, Height, Mix;
    var m, h := Through(r0, r2), Through(r1, r3);
    var j, k := s * Cross(r0, r2, p), -(s * Cross(r1, r3, p));
    g := Mix(m, k, h, j);
    HeightIsCross(r0, r2, p);
    HeightIsCross(r1, r3, p);
    MixHeight(m, k, h, j, p);
    assert g.dx > 0 by { MixSlope(m, k, h, j); }
    forall i | 0 <= i < |near| ensures s * Height(g, near[i]) >= 0 {
      var z := near[i];
      HeightIsCross(r0, r2, z);
      HeightIsCross(r1, r3, z);
      MixHeight(m, k, h, j, z);
      MixSign(s, k, Height(m, z), j, Height(h, z));
    }
    forall i | 0 <= i < |far| ensures -s * Height(g, far[i]) >= 0 {
      var z := far[i];
      HeightIsCross(r0, r2, z);
      HeightIsCross(r1, r3, z);
      MixHeight(m, k, h, j, z);
      MixSign(-s, k, Height(m, z), j, Height(h, z));
    }
  }

  lemma MixSlope(m: Line, k: int, h: Line, j: int)
    requires m.dx > 0 && h.dx > 0 && k > 0 && j >= 0
    ensures Mix(m, k, h, j).dx > 0
  {
    assert k * m.dx > 0 && j * h.dx >= 0;
  }

  lemma MixSign(s: int, k: int, a: int, j: int, b: int)
    requires s == 1 || s == -1
    requires k >= 0 && j >= 0 && s * a >= 0 && s * b >= 0
    ensures s * (k * a + j * b) >= 0
  {
    assert k * (s * a) >= 0 && j * (s * b) >= 0;
  }

  /** The new extreme line, tangent from p to the near chain, stays within the far side. */
  lemma TangentWithinFar(s: int, g: Line, l: Point, p: Point, u: Point)
    requires s == 1 || s == -1
    requires g.dx > 0 && l.x < p.x && u.x <= p.x
    requires Height(g, p) == 0 && s * Height(g, l) >= 0 && s * Height(g, u) <= 0
    ensures s * Cross(l, p, u) >= 0
  {
    hide Cross, Height;
    Interpolate(g, l, p, u);
    var a, b, c := Height(g, l), Height(g, u), Cross(l, p, u);
    ScaleSum(s, g.dx, c, p.x - u.x, a, 0, 0, p.x - l.x, b);
    MulNonNeg(p.x - u.x, s * a);
    MulNonNeg(p.x - l.x, -(s * b));
    MulSign(g.dx, -(s * c));
  }

  /** No constraint is lost when the near chain drops its points left of the tangent,
      the far chain is popped, and p joins it. */
  lemma CompleteTaken(s: int, near: seq<Point>, far: seq<Point>, nc: seq<Point>, fc: seq<Point>, p: Point, m: nat,
      end: nat)
    requires s == 1 || s == -1
    requires Complete(s, near, far, nc, fc) && Chain(s, nc) && Chain(-s, fc)
    requires m < |nc| && 1 <= end <= |fc| && nc[m].x < p.x
    requires forall j :: 0 <= j < |fc| ==> fc[j].x < p.x
    requires forall k :: 0 <= k < |nc| ==> s * Cross(nc[m], p, nc[k]) <= 0
    requires forall j :: end <= j < |fc| ==> -s * Cross(fc[j - 1], fc[j], p) >= 0
    ensures Complete(s, near, far + [p], nc[m..], fc[..end] + [p])
  {
    hide Cross, Height;
    var fc' := fc[..end] + [p];
    forall g: Line | g.dx > 0 && Clears(s, g, nc[m..]) && Clears(-s, g, fc')
      ensures Clears(s, g, near) && Clears(-s, g, far + [p])
    {
      assert fc'[end] == p;
      assert -s * Height(g, p) >= 0;
      assert nc[m..][0] == nc[m];
      forall i | 0 <= i < end ensures fc'[i] == fc[i] {}
      PopSound(-s, g, fc, end, p);
      forall k | 0 <= k < |nc| ensures s * Height(g, nc[k]) >= 0 {
        if k < m {
          Outside(s, g, nc[m], p, nc[k]);
        } else {
          assert nc[k] == nc[m..][k - m];
        }
      }
    }
  }

  lemma TangentFitsFar(s: int, near: seq<Point>, far: seq<Point>, nc: seq<Point>, fc: seq<Point>, p: Point, l: Point)
    requires s == 1 || s == -1
    requires HullOk(s, near, far, nc, fc)
    requires forall i :: 0 <= i < |far| ==> far[i].x < p.x
    requires s * Cross(nc[0], fc[|fc| - 1], p) < 0 && s * Cross(fc[0], nc[|nc| - 1], p) >= 0
    requires l in near && l.x < p.x
    ensures forall u :: u in far ==> s * Cross(l, p, u) >= 0
  {
    hide Cross, Height, Chain, Complete;
    var g := FeasibleThrough(s, fc[0], nc[|nc| - 1], nc[0], fc[|fc| - 1], p, near, far);
    forall u | u in far ensures s * Cross(l, p, u) >= 0 {
      assert -s * Height(g, u) >= 0;
      TangentWithinFar(s, g, l, p, u);
    }
  }

  lemma TangentFitsNear(s: int, near: seq<Point>, far: seq<Point>, nc: seq<Point>, fc: seq<Point>, p: Point, l: Point)
    requires s == 1 || s == -1
    requires Complete(s, near, far, nc, fc) && l.x < p.x
    requires forall i :: 0 <= i < |nc| ==> s * Cross(l, p, nc[i]) <= 0
    requires forall i :: 0 <= i < |fc| ==> s * Cross(l, p, fc[i]) >= 0
    ensures forall i :: 0 <= i < |near| ==> s * Cross(l, p, near[i]) <= 0
  {
    hide Cross, Height;
    var h := Through(l, p);
    forall z { HeightIsCross(l, p, z); }
    assert Clears(s, h, nc) && Clears(-s, h, fc);
  }

  lemma FitsTangent(s: int, near: seq<Point>, far: seq<Point>, nc: seq<Point>, fc: seq<Point>, p: Point, m: nat)
    requires s == 1 || s == -1
    requires HullOk(s, near, far, nc, fc)
    requires forall i :: 0 <= i < |far| ==> far[i].x < p.x
    requires s * Cross(nc[0], fc[|fc| - 1], p) < 0 && s * Cross(fc[0], nc[|nc| - 1], p) >= 0
    requires m < |nc| && nc[m].x < p.x
    requires m > 0 ==> s * Cross(nc[m - 1], nc[m], p) <= 0
    requires m + 1 < |nc| ==> s * Cross(nc[m], nc[m + 1], p) > 0
    ensures Fits(s, nc[m], p, near, far + [p])
  {
    hide Cross, Height, Complete;
    var l := nc[m];
    Tangent(s, nc, m, p);
    TangentFitsFar(s, near, far, nc, fc, p, l);
    forall i | 0 <= i < |fc| ensures s * Cross(l, p, fc[i]) >= 0 { assert fc[i] in far; }
    TangentFitsNear(s, near, far, nc, fc, p, l);
    DegenerateCross(l, p);
  }

  lemma FitsOneMore(s: int, a: Point, b: Point, near: seq<Point>, far: seq<Point>, p: Point)
    requires Fits(s, a, b, near, far) && s * Cross(a, b, p) >= 0
    ensures Fits(s, a, b, near, far + [p])
  {
    hide Cross;
  }

  lemma ChainTaken(s: int, c: seq<Point>, end: nat, p: Point)
    requires s == 1 || s == -1
    requires Chain(s, c) && 1 <= end <= |c| && c[end - 1].x < p.x
    requires end >= 2 ==> s * Cross(c[end - 2], c[end - 1], p) < 0
    ensures Chain(s, c[..end] + [p])
  {
    hide Cross;
    SubChain(s, c, 0, end);
    assert c[0..end] == c[..end];
    Push(s, c[..end], p);
  }

  lemma TakeStep(s: int, near: seq<Point>, far: seq<Point>, nc: seq<Point>, fc: seq<Point>, p: Point, m: nat, end: nat)
    requires s == 1 || s == -1
    requires HullOk(s, near, far, nc, fc)
    requires forall i :: 0 <= i < |far| ==> far[i].x < p.x
    requires s * Cross(nc[0], fc[|fc| - 1], p) < 0 && s * Cross(fc[0], nc[|nc| - 1], p) >= 0
    requires m < |nc| && nc[m].x < p.x
    requires m > 0 ==> s * Cross(nc[m - 1], nc[m], p) <= 0
    requires m + 1 < |nc| ==> s * Cross(nc[m], nc[m + 1], p) > 0
    requires 1 <= end <= |fc|
    requires forall j :: end <= j < |fc| ==> -s * Cross(fc[j - 1], fc[j], p) >= 0
    requires end >= 2 ==> -s * Cross(fc[end - 2], fc[end - 1], p) < 0
    ensures HullOk(s, near, far + [p], nc[m..], fc[..end] + [p])
  {
    hide Cross, Height, Complete, Chain, Fits;
    var nc', fc' := nc[m..], fc[..end] + [p];
    SubChain(s, nc, m, |nc|);
    assert nc[m..|nc|] == nc';
    assert fc[end - 1] in far;
    ChainTaken(-s, fc, end, p);
    FitsTangent(s, near, far, nc, fc, p, m);
    FitsOneMore(s, fc[0], nc[|nc| - 1], near, far, p);
    assert Complete(s, near, far + [p], nc', fc') by {
      forall j | 0 <= j < |fc| ensures fc[j].x < p.x { assert fc[j] in far; }
      Tangent(s, nc, m, p);
      CompleteTaken(s, near, far, nc, fc, p, m, end);
    }
    assert fc'[0] == fc[0] && nc'[|nc'| - 1] == nc[|nc| - 1];
    assert nc'[0] == nc[m] && fc'[|fc'| - 1] == p;
  }

  lemma SubChain(s: int, c: seq<Point>, from: nat, to: nat)
    requires Chain(s, c) && from <= to <= |c|
    ensures Chain(s, c[from..to])
  {
    hide Cross;
    var d := c[from..to];
    forall i, j, k | 0 <= i < j < k < |d| ensures s * Cross(d[i], d[j], d[k]) < 0 {
      assert s * Cross(c[from + i], c[from + j], c[from + k]) < 0;
    }
  }

  lemma DegenerateCross(l: Point, p: Point)
    ensures Cross(l, p, p) == 0 && Cross(l, p, l) == 0
  {}

  /** A constraint that both extreme lines already respect changes nothing. */
  lemma SkipStep(s: int, near: seq<Point>, far: seq<Point>, nc: seq<Point>, fc: seq<Point>, p: Point)
    requires s == 1 || s == -1
    requires HullOk(s, near, far, nc, fc)
    requires forall i :: 0 <= i < |far| ==> far[i].x < p.x
    requires s * Cross(nc[0], fc[|fc| - 1], p) >= 0 && s * Cross(fc[0], nc[|nc| - 1], p) >= 0
    ensures HullOk(s, near, far + [p], nc, fc)
  {
    hide Cross, Height;
    var r1, r3 := nc[0], fc[|fc| - 1];
    forall g: Line | g.dx > 0 && Clears(s, g, nc) && Clears(-s, g, fc)
      ensures Clears(s, g, near) && Clears(-s, g, far + [p])
    {
      assert s * Height(g, r1) >= 0 && -s * Height(g, r3) >= 0;
      assert r3 in far;
      Outside(s, g, r1, r3, p);
    }
  }
}
