/** One iteration of FISTA and ISTcomplete on values. */
module Ist {
  // The inverse transform is the synthesis operator, some of the pixels are sampled, and a step is one of
  // iterative soft thresholding.

  import opened Vectors
  import opened Haar
  import opened Image

  function Abs(x: real): real { if x < 0.0 then -x else x }

  function Sign(x: real): real { if x < 0.0 then -1.0 else if x > 0.0 then 1.0 else 0.0 }

  /** C's abs takes an int, so its argument is first cut off towards zero. */
  function IntAbs(x: real): int { if x < 0.0 then (-x).Floor else x.Floor }

  /** Against an integer bound, the cut-off absolute value decides as the exact one does. */
  lemma IntAbsDecides(x: real, cut: int)
    ensures IntAbs(x) < cut <==> Abs(x) < cut as real
  {
  }

  function Soft(x: real, cut: int): real {
    if IntAbs(x) < cut then 0.0 else x - Sign(x) * cut as real
  }

  function SoftAll(x: seq<real>, cut: int): (y: seq<real>)
    ensures |y| == |x|
  {
    seq(|x|, i requires 0 <= i < |x| => Soft(x[i], cut))
  }

  /** cut times the l1 norm. */
  function Penalty(x: seq<real>, cut: int): real {
    if |x| == 0 then 0.0 else Times(cut as real, Abs(x[0])) + Penalty(x[1..], cut)
  }

  ghost predicate Samples(idx: seq<nat>, n: nat) {
    && (forall i :: 0 <= i < |idx| ==> idx[i] < n)
    && forall i, j :: 0 <= i < j < |idx| ==> idx[i] != idx[j]
  }

  /** copySelectedInstances. */
  function Gather(x: seq<real>, idx: seq<nat>): (y: seq<real>)
    requires forall i :: 0 <= i < |idx| ==> idx[i] < |x|
    ensures |y| == |idx|
  {
    seq(|idx|, i requires 0 <= i < |idx| => x[idx[i]])
  }

  function Zeros(n: nat): (z: seq<real>)
    ensures |z| == n
  {
    seq(n, i => 0.0)
  }

  /** The residual written back at the sampled pixels of an image of zeros. */
  function Scatter(v: seq<real>, idx: seq<nat>, n: nat): (x: seq<real>)
    requires |v| == |idx| && forall i :: 0 <= i < |idx| ==> idx[i] < n
    ensures |x| == n
  {
    if |v| == 0 then Zeros(n)
    else Scatter(v[..|v| - 1], idx[..|v| - 1], n)[idx[|v| - 1] := v[|v| - 1]]
  }

  lemma {:induction false} ScatterElsewhere(v: seq<real>, idx: seq<nat>, n: nat, p: nat)
    requires |v| == |idx| && (forall i :: 0 <= i < |idx| ==> idx[i] < n) && p < n
    requires p !in idx
    ensures Scatter(v, idx, n)[p] == 0.0
  {
    if |v| > 0 {
      ScatterElsewhere(v[..|v| - 1], idx[..|v| - 1], n, p);
    }
  }

  lemma {:induction false} DotUpdate(a: seq<real>, p: nat, x: real, b: seq<real>)
    requires |a| == |b| && p < |a| && a[p] == 0.0
    ensures Dot(a[p := x], b) == Dot(a, b) + Times(x, b[p])
  {
    if p == 0 {
      assert a[p := x][1..] == a[1..];
    } else {
      assert a[p := x][1..] == a[1..][p - 1 := x];
      DotUpdate(a[1..], p - 1, x, b[1..]);
    }
  }

  lemma {:induction false} DotZeros(b: seq<real>)
    ensures Dot(Zeros(|b|), b) == 0.0
  {
    if |b| > 0 {
      assert Zeros(|b|)[1..] == Zeros(|b[1..]|);
      DotZeros(b[1..]);
    }
  }

  lemma {:induction false} DotInit(a: seq<real>, b: seq<real>)
    requires |a| == |b| > 0
    ensures Dot(a, b) == Dot(a[..|a| - 1], b[..|b| - 1]) + Times(a[|a| - 1], b[|b| - 1])
  {
    var k := |a| - 1;
    assert a == a[..k] + [a[k]] && b == b[..k] + [b[k]];
    DotConcat(a[..k], b[..k], [a[k]], [b[k]]);
    DotCons([a[k]], [b[k]], a[k], b[k], [], []);
  }

  /** Scatter is the transpose of Gather, because the sampled pixels are distinct. */
  lemma {:induction false} ScatterAdjoint(v: seq<real>, idx: seq<nat>, b: seq<real>)
    requires |v| == |idx| && Samples(idx, |b|)
    ensures Dot(Scatter(v, idx, |b|), b) == Dot(v, Gather(b, idx))
  {
    if |v| == 0 {
      DotZeros(b);
    } else {
      var k := |v| - 1;
      ScatterAdjoint(v[..k], idx[..k], b);
      ScatterElsewhere(v[..k], idx[..k], |b|, idx[k]);
      DotUpdate(Scatter(v[..k], idx[..k], |b|), idx[k], v[k], b);
      DotInit(v, Gather(b, idx));
      assert Gather(b, idx)[..k] == Gather(b, idx[..k]);
    }
  }

  /** Sampling distinct pixels does not lengthen a vector. */
  lemma GatherShrinks(b: seq<real>, idx: seq<nat>)
    requires Samples(idx, |b|)
    ensures Norm2(Gather(b, idx)) <= Norm2(b)
  {
    // With s = Scatter(Gather(b)): <s,s> == <Gather s, Gather s> == <s,b>, so 0 <= |b - s|^2 == |b|^2 - |s|^2.
    var g := Gather(b, idx);
    var s := Scatter(g, idx, |b|);
    ScatterAdjoint(g, idx, b);
    ScatterAdjoint(g, idx, s);
    GatherScatter(g, idx, |b|);
    Norm2Sub(b, s);
    DotSymmetric(b, s);
    Norm2Zero(Sub(b, s));
  }

  lemma {:induction false} GatherScatter(v: seq<real>, idx: seq<nat>, n: nat)
    requires |v| == |idx| && Samples(idx, n)
    ensures Gather(Scatter(v, idx, n), idx) == v
  {
    if |v| > 0 {
      var k := |v| - 1;
      GatherScatter(v[..k], idx[..k], n);
      var s := Scatter(v[..k], idx[..k], n);
      forall i | 0 <= i < |v| ensures Gather(Scatter(v, idx, n), idx)[i] == v[i] {
        if i < k {
          assert Gather(s, idx[..k])[i] == v[i];
        }
      }
    }
  }

  // ---- pixels measured more than once ---------------------------------------------

  ghost predicate Pixels(idx: seq<nat>, n: nat) { forall i :: 0 <= i < |idx| ==> idx[i] < n }

  /** The measurements that count: of a pixel that occurs more than once, the last one. */
  function LastOnly(y: seq<real>, idx: seq<nat>): (m: (seq<real>, seq<nat>))
    requires |y| == |idx|
    ensures |m.0| == |m.1|
  {
    if |y| == 0 then ([], [])
    else
      var m := LastOnly(y[1..], idx[1..]);
      if idx[0] in idx[1..] then m else ([y[0]] + m.0, [idx[0]] + m.1)
  }

  lemma {:induction false} LastOnlySamples(y: seq<real>, idx: seq<nat>, n: nat)
    requires |y| == |idx| && Pixels(idx, n)
    ensures Samples(LastOnly(y, idx).1, n)
    ensures forall q :: q in LastOnly(y, idx).1 <==> q in idx
    ensures Samples(idx, n) ==> LastOnly(y, idx) == (y, idx)
  {
    if |y| > 0 {
      LastOnlySamples(y[1..], idx[1..], n);
      assert idx == [idx[0]] + idx[1..] && y == [y[0]] + y[1..];
      if Samples(idx, n) {
        assert idx[0] !in idx[1..] by { assert forall j :: 0 < j < |idx| ==> idx[0] != idx[j]; }
        assert forall i, j :: 0 <= i < j < |idx[1..]| ==> idx[1..][i] != idx[1..][j];
      }
    }
  }

  // What the write-back loop leaves at pixel q.
  function Written(v: seq<real>, idx: seq<nat>, q: nat): real
    requires |v| == |idx|
  {
    if |v| == 0 then 0.0
    else if idx[0] == q && q !in idx[1..] then v[0]
    else Written(v[1..], idx[1..], q)
  }

  lemma {:induction false} WrittenLast(v: seq<real>, idx: seq<nat>, q: nat)
    requires |v| == |idx| > 0
    ensures var k := |v| - 1;
      Written(v, idx, q) == if idx[k] == q then v[k] else Written(v[..k], idx[..k], q)
  {
    var k := |v| - 1;
    if k > 0 {
      WrittenLast(v[1..], idx[1..], q);
      assert v[1..][..k - 1] == v[..k][1..] && idx[1..][..k - 1] == idx[..k][1..];
      assert idx[1..] == idx[1..][..k - 1] + [idx[k]];
    }
  }

  lemma {:induction false} ScatterWrites(v: seq<real>, idx: seq<nat>, n: nat, q: nat)
    requires |v| == |idx| && Pixels(idx, n) && q < n
    ensures Scatter(v, idx, n)[q] == Written(v, idx, q)
  {
    if |v| > 0 {
      ScatterWrites(v[..|v| - 1], idx[..|v| - 1], n, q);
      WrittenLast(v, idx, q);
    }
  }

  lemma {:induction false} WrittenNowhere(v: seq<real>, idx: seq<nat>, q: nat)
    requires |v| == |idx| && q !in idx
    ensures Written(v, idx, q) == 0.0
  {
    if |v| > 0 { WrittenNowhere(v[1..], idx[1..], q); }
  }

  lemma ResidualCons(y: seq<real>, x: seq<real>, idx: seq<nat>)
    requires |y| == |idx| > 0 && Pixels(idx, |x|)
    ensures Sub(y, Gather(x, idx)) == [y[0] - x[idx[0]]] + Sub(y[1..], Gather(x, idx[1..]))
  {
  }

  lemma WrittenCons(a: real, v: seq<real>, i: nat, idx: seq<nat>, q: nat)
    requires |v| == |idx|
    ensures Written([a] + v, [i] + idx, q) == if i == q && q !in idx then a else Written(v, idx, q)
  {
    assert ([a] + v)[1..] == v && ([i] + idx)[1..] == idx;
  }

  lemma {:induction false} WrittenByLast(y: seq<real>, x: seq<real>, idx: seq<nat>, q: nat)
    requires |y| == |idx| && Pixels(idx, |x|)
    ensures var m := LastOnly(y, idx);
      && Pixels(m.1, |x|)
      && Written(Sub(y, Gather(x, idx)), idx, q) == Written(Sub(m.0, Gather(x, m.1)), m.1, q)
  {
    LastOnlySamples(y, idx, |x|);
    if |y| > 0 {
      var m, k := LastOnly(y, idx), LastOnly(y[1..], idx[1..]);
      WrittenByLast(y[1..], x, idx[1..], q);
      LastOnlySamples(y[1..], idx[1..], |x|);
      var a, rest := y[0] - x[idx[0]], Sub(y[1..], Gather(x, idx[1..]));
      hide LastOnly, Written, Sub, Gather;
      ResidualCons(y, x, idx);
      WrittenCons(a, rest, idx[0], idx[1..], q);
      assert idx == [idx[0]] + idx[1..];
      if idx[0] !in idx[1..] {
        ResidualCons(m.0, x, m.1);
        assert m.0[1..] == k.0 && m.1[1..] == k.1;
        WrittenCons(a, Sub(k.0, Gather(x, k.1)), idx[0], k.1, q);
        assert m.1 == [idx[0]] + k.1;
      }
    }
  }

  /** Writing back the residual of all measurements is writing back that of the ones that count. */
  lemma ScatterByLast(y: seq<real>, x: seq<real>, idx: seq<nat>)
    requires |y| == |idx| && Pixels(idx, |x|)
    ensures var m := LastOnly(y, idx);
      && Samples(m.1, |x|)
      && Scatter(Sub(y, Gather(x, idx)), idx, |x|) == Scatter(Sub(m.0, Gather(x, m.1)), m.1, |x|)
  {
    var m := LastOnly(y, idx);
    LastOnlySamples(y, idx, |x|);
    forall q: nat | q < |x|
      ensures Scatter(Sub(y, Gather(x, idx)), idx, |x|)[q] == Scatter(Sub(m.0, Gather(x, m.1)), m.1, |x|)[q]
    {
      ScatterWrites(Sub(y, Gather(x, idx)), idx, |x|, q);
      ScatterWrites(Sub(m.0, Gather(x, m.1)), m.1, |x|, q);
      WrittenByLast(y, x, idx, q);
    }
  }

  // ---- one step and its objective -------------------------------------------------

  datatype Problem = Problem(n: nat, y: seq<real>, idx: seq<nat>, cut: int, r: real) {
    ghost predicate Valid() {
      PowerOfTwo(n) && |y| == |idx| && Samples(idx, Cells(n, n)) && cut > 0 && IsRoot2(r)
    }
  }

  /** The difference between the measurements and the synthesised image at the sampled pixels. */
  ghost function Residual(p: Problem, x: seq<real>): (v: seq<real>)
    requires p.Valid() && SquareImage(x, p.n)
    ensures |v| == |p.y|
  {
    Sub(p.y, Gather(WInv(x, p.n, p.r), p.idx))
  }

  ghost function Gradient(p: Problem, x: seq<real>): (g: seq<real>)
    requires p.Valid() && SquareImage(x, p.n)
    ensures SquareImage(g, p.n)
  {
    W(Scatter(Residual(p, x), p.idx, Cells(p.n, p.n)), p.n, p.r)
  }

  ghost function Step(p: Problem, x: seq<real>): (z: seq<real>)
    requires p.Valid() && SquareImage(x, p.n)
    ensures SquareImage(z, p.n)
  {
    SoftAll(Add(Gradient(p, x), x), p.cut)
  }

  /** Half the squared misfit plus cut times the l1 norm of the coefficients. */
  ghost function Objective(p: Problem, x: seq<real>): real
    requires p.Valid() && SquareImage(x, p.n)
  {
    Norm2(Residual(p, x)) / 2.0 + Penalty(x, p.cut)
  }

  // ---- the data term --------------------------------------------------------------

  /** What the sampled pixels change by when x moves to z. */
  ghost function Moved(p: Problem, x: seq<real>, z: seq<real>): (e: seq<real>)
    requires p.Valid() && SquareImage(x, p.n) && SquareImage(z, p.n)
    ensures |e| == Cells(p.n, p.n)
  {
    Sub(WInv(z, p.n, p.r), WInv(x, p.n, p.r))
  }

  lemma SubGather(y: seq<real>, u: seq<real>, v: seq<real>, idx: seq<nat>)
    requires |y| == |idx| && |u| == |v| && forall i :: 0 <= i < |idx| ==> idx[i] < |u|
    ensures Sub(y, Gather(v, idx)) == Sub(Sub(y, Gather(u, idx)), Gather(Sub(v, u), idx))
  {
  }

  lemma ResidualMoves(p: Problem, x: seq<real>, z: seq<real>)
    requires p.Valid() && SquareImage(x, p.n) && SquareImage(z, p.n)
    ensures Residual(p, z) == Sub(Residual(p, x), Gather(Moved(p, x, z), p.idx))
  {
    SubGather(p.y, WInv(x, p.n, p.r), WInv(z, p.n, p.r), p.idx);
  }

  // <res, S W^T (z - x)> == <W S^T res, z - x>, through the two transposes.
  lemma GradientPairs(p: Problem, x: seq<real>, z: seq<real>)
    requires p.Valid() && SquareImage(x, p.n) && SquareImage(z, p.n)
    ensures Dot(Residual(p, x), Gather(Moved(p, x, z), p.idx)) == Dot(Gradient(p, x), Sub(z, x))
  {
    var n, r, res := p.n, p.r, Residual(p, x);
    var s := Scatter(res, p.idx, Cells(n, n));
    ScatterAdjoint(res, p.idx, Moved(p, x, z));
    DotSub(WInv(z, n, r), WInv(x, n, r), s);
    Orthonormal(s, z, n, r);
    Orthonormal(s, x, n, r);
    DotSub(z, x, W(s, n, r));
  }

  /** The misfit at z is at most its linearisation at x plus half the squared distance, and at
      least its linearisation. */
  lemma DataTerm(p: Problem, x: seq<real>, z: seq<real>)
    requires p.Valid() && SquareImage(x, p.n) && SquareImage(z, p.n)
    ensures Norm2(Residual(p, z)) / 2.0
         <= Norm2(Residual(p, x)) / 2.0 - Dot(Gradient(p, x), Sub(z, x)) + Norm2(Sub(z, x)) / 2.0
    ensures Norm2(Residual(p, z)) / 2.0 >= Norm2(Residual(p, x)) / 2.0 - Dot(Gradient(p, x), Sub(z, x))
  {
    var ge := Gather(Moved(p, x, z), p.idx);
    ResidualMoves(p, x, z);
    GradientPairs(p, x, z);
    Norm2Sub(Residual(p, x), ge);
    GatherShrinks(Moved(p, x, z), p.idx);
    SynthesisIsometry(z, x, p.n, p.r);
    Norm2Zero(ge);
  }

  lemma SynthesisIsometry(z: seq<real>, x: seq<real>, n: nat, r: real)
    requires SquareImage(x, n) && SquareImage(z, n) && IsRoot2(r)
    ensures Norm2(Sub(WInv(z, n, r), WInv(x, n, r))) == Norm2(Sub(z, x))
  {
    Norm2Sub(WInv(z, n, r), WInv(x, n, r));
    Norm2Sub(z, x);
    Orthonormal(z, z, n, r);
    Orthonormal(z, x, n, r);
    Orthonormal(x, x, n, r);
  }

  // ---- the threshold term ---------------------------------------------------------

  // What thresholding takes away, k == u - Soft(u), is a slope of cut * |.| at Soft(u).
  lemma SoftScalar(u: real, z: real, cut: int)
    requires cut > 0
    ensures var s := Soft(u, cut);
      Times(cut as real, Abs(s)) <= Times(cut as real, Abs(z)) + Times(u - s, s - z)
  {
    var c, s := cut as real, Soft(u, cut);
    var k := u - s;
    IntAbsDecides(u, cut);
    assert -c <= k <= c;
    assert k * s == c * Abs(s) by {
      if s > 0.0 { assert k == c; } else if s < 0.0 { assert k == -c; } else { assert s == 0.0; }
    }
    SlopeBound(k, z, c);
    assert k * (s - z) == k * s - k * z;
  }

  lemma SlopeBound(k: real, x: real, c: real)
    requires -c <= k <= c
    ensures k * x <= c * Abs(x)
  {
    if x >= 0.0 {
      assert (c - k) * x >= 0.0;
    } else {
      assert (c + k) * -x >= 0.0;
    }
  }

  lemma SubCons(x: seq<real>, z: seq<real>)
    requires |x| == |z| > 0
    ensures Sub(z, x) == [z[0] - x[0]] + Sub(z[1..], x[1..])
  {
  }

  lemma {:induction false} SoftVector(u: seq<real>, s: seq<real>, z: seq<real>, cut: int)
    requires |u| == |z| && cut > 0 && s == SoftAll(u, cut)
    ensures |s| == |u|
    ensures Penalty(s, cut) <= Penalty(z, cut) + Dot(Sub(u, s), Sub(s, z))
  {
    if |u| > 0 {
      assert s[1..] == SoftAll(u[1..], cut);
      SoftVector(u[1..], s[1..], z[1..], cut);
      SoftScalar(u[0], z[0], cut);
      SubCons(s, u);
      SubCons(z, s);
      DotCons(Sub(u, s), Sub(s, z), u[0] - s[0], s[0] - z[0], Sub(u[1..], s[1..]), Sub(s[1..], z[1..]));
    }
  }

  // <u - s, s - z> with u = g + x, in terms of squared distances.
  lemma ThreePointAlgebra(g: seq<real>, x: seq<real>, s: seq<real>, z: seq<real>)
    requires |g| == |x| == |s| == |z|
    ensures Dot(Sub(Add(g, x), s), Sub(s, z))
         == Dot(g, Sub(s, x)) - Dot(g, Sub(z, x))
          + Norm2(Sub(x, z)) / 2.0 - Norm2(Sub(s, x)) / 2.0 - Norm2(Sub(s, z)) / 2.0
  {
    var d := Sub(s, z);
    assert Sub(Add(g, x), s) == Sub(g, Sub(s, x));
    DotSub(g, Sub(s, x), d);
    DotSub(s, x, d);
    DotSub(s, z, g);
    DotSub(s, z, s);
    DotSub(s, z, x);
    DotSub(s, x, g);
    DotSub(z, x, g);
    Norm2Sub(x, z);
    Norm2Sub(s, x);
    Norm2Sub(s, z);
    DotSymmetric(s, x);
  }

  /** The inequality behind everything below: against any image z, one step gains at least what
      it loses in squared distance to z. */
  lemma ThreePoint(p: Problem, x: seq<real>, z: seq<real>)
    requires p.Valid() && SquareImage(x, p.n) && SquareImage(z, p.n)
    ensures Objective(p, Step(p, x))
         <= Objective(p, z) + Norm2(Sub(x, z)) / 2.0 - Norm2(Sub(Step(p, x), z)) / 2.0
  {
    var g, s := Gradient(p, x), Step(p, x);
    DataTerm(p, x, s);
    DataTerm(p, x, z);
    SoftVector(Add(g, x), s, z, p.cut);
    ThreePointAlgebra(g, x, s, z);
  }

  lemma DistanceZero(x: seq<real>, z: seq<real>)
    requires |x| == |z|
    ensures Norm2(Sub(z, x)) >= 0.0
    ensures Norm2(Sub(z, x)) == 0.0 <==> z == x
  {
    var e := Sub(z, x);
    Norm2Zero(e);
    assert forall i :: 0 <= i < |x| ==> e[i] == z[i] - x[i];
  }

  /** One step lowers the objective by at least half the squared distance it moves. */
  lemma Descent(p: Problem, x: seq<real>)
    requires p.Valid() && SquareImage(x, p.n)
    ensures Objective(p, Step(p, x)) <= Objective(p, x) - Norm2(Sub(Step(p, x), x)) / 2.0
    ensures Objective(p, Step(p, x)) <= Objective(p, x)
  {
    ThreePoint(p, x, x);
    DistanceZero(x, x);
    DistanceZero(x, Step(p, x));
  }

  ghost predicate Minimiser(p: Problem, x: seq<real>)
    requires p.Valid() && SquareImage(x, p.n)
  {
    forall z :: SquareImage(z, p.n) ==> Objective(p, x) <= Objective(p, z)
  }

  /** The iteration stands still exactly at the global minimisers of its objective. */
  lemma FixedPointsAreMinimisers(p: Problem, x: seq<real>)
    requires p.Valid() && SquareImage(x, p.n)
    ensures Step(p, x) == x <==> Minimiser(p, x)
  {
    if Step(p, x) == x {
      forall z | SquareImage(z, p.n) ensures Objective(p, x) <= Objective(p, z) {
        ThreePoint(p, x, z);
      }
    }
    if Minimiser(p, x) {
      Descent(p, x);
      DistanceZero(x, Step(p, x));
      assert Objective(p, x) <= Objective(p, Step(p, x));
    }
  }

  // ---- whole runs -----------------------------------------------------------------

  /** its iterations from x. */
  ghost function Iterate(p: Problem, x: seq<real>, its: nat): (z: seq<real>)
    requires p.Valid() && SquareImage(x, p.n)
    ensures SquareImage(z, p.n)
    decreases its
  {
    if its == 0 then x else Step(p, Iterate(p, x, its - 1))
  }

  lemma LastDescent(p: Problem, x: seq<real>, its: nat)
    requires p.Valid() && SquareImage(x, p.n) && its > 0
    ensures Objective(p, Iterate(p, x, its)) <= Objective(p, Iterate(p, x, its - 1))
  {
    Descent(p, Iterate(p, x, its - 1));
  }

  lemma {:induction false} FallingSequence(f: seq<real>, k: nat)
    requires k < |f| && forall i :: 0 < i < |f| ==> f[i] <= f[i - 1]
    ensures f[|f| - 1] <= f[k]
    decreases |f| - k
  {
    if k < |f| - 1 {
      FallingSequence(f, k + 1);
    }
  }

  /** Over a whole run the objective never rises. */
  lemma RunDescends(p: Problem, x: seq<real>, its: nat, k: nat)
    requires p.Valid() && SquareImage(x, p.n) && k <= its
    ensures Objective(p, Iterate(p, x, its)) <= Objective(p, Iterate(p, x, k))
  {
    var f := seq(its + 1, i requires 0 <= i <= its => Objective(p, Iterate(p, x, i)));
    forall i | 0 < i < |f| ensures f[i] <= f[i - 1] {
      LastDescent(p, x, i);
    }
    FallingSequence(f, k);
  }

  // The gap to z in the objective, and half the squared distance to z, after its iterations.
  ghost function Gap(p: Problem, x: seq<real>, its: nat, z: seq<real>): real
    requires p.Valid() && SquareImage(x, p.n) && SquareImage(z, p.n)
  {
    Objective(p, Iterate(p, x, its)) - Objective(p, z)
  }

  ghost function HalfDistance(p: Problem, x: seq<real>, its: nat, z: seq<real>): real
    requires p.Valid() && SquareImage(x, p.n) && SquareImage(z, p.n)
  {
    Norm2(Sub(Iterate(p, x, its), z)) / 2.0
  }

  lemma LastGap(p: Problem, x: seq<real>, its: nat, z: seq<real>)
    requires p.Valid() && SquareImage(x, p.n) && SquareImage(z, p.n) && its > 0
    ensures Gap(p, x, its, z) <= Gap(p, x, its - 1, z)
    ensures Gap(p, x, its, z) <= HalfDistance(p, x, its - 1, z) - HalfDistance(p, x, its, z)
  {
    LastDescent(p, x, its);
    ThreePoint(p, Iterate(p, x, its - 1), z);
  }

  lemma {:induction false} RateSequence(gap: seq<real>, half: seq<real>, k: nat)
    requires k < |gap| == |half|
    requires forall i :: 0 < i < |gap| ==> gap[i] <= gap[i - 1] && gap[i] <= half[i - 1] - half[i]
    ensures Times(k as real, gap[k]) <= half[0] - half[k]
  {
    if k > 0 {
      RateSequence(gap, half, k - 1);
      RateStep(k - 1, gap[k - 1], gap[k]);
    }
  }

  /** After its iterations the objective is within |x - z|^2 / (2 its) of its value at any z,
      a minimiser included. */
  lemma Rate(p: Problem, x: seq<real>, its: nat, z: seq<real>)
    requires p.Valid() && SquareImage(x, p.n) && SquareImage(z, p.n)
    ensures Times(its as real, Gap(p, x, its, z)) <= HalfDistance(p, x, 0, z) - HalfDistance(p, x, its, z)
  {
    var gap := seq(its + 1, i requires 0 <= i <= its => Gap(p, x, i, z));
    var half := seq(its + 1, i requires 0 <= i <= its => HalfDistance(p, x, i, z));
    forall i | 0 < i < |gap| ensures gap[i] <= gap[i - 1] && gap[i] <= half[i - 1] - half[i] {
      LastGap(p, x, i, z);
    }
    RateSequence(gap, half, its);
  }

  lemma RateStep(k: nat, before: real, after: real)
    requires after <= before
    ensures Times((k + 1) as real, after) <= Times(k as real, before) + after
  {
    assert k as real * (before - after) >= 0.0;
  }
}
