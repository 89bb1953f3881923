/** The optimisation loops of brain.c on arrays, tied to Ist. */
module Fista {
  // rand() and sqrt() are parameters: any source of naturals, and any function that is never negative.

  import opened Vectors
  import opened Haar
  import opened Image
  import opened Ist
  import opened Brain

  const CUT := 8

  method CopyArray(input: array<real>, out: array<real>, len: nat)
    requires len <= input.Length && len <= out.Length && input != out
    modifies out
    ensures out[..len] == input[..len]
    ensures out[len..] == old(out[len..])
  {
    for i := 0 to len
      invariant out[..i] == input[..i]
      invariant out[i..] == old(out[i..])
      invariant input[..] == old(input[..])
    {
      out[i] := input[i];
    }
  }

  method CopySelectedInstances(input: array<real>, out: array<real>, indices: array<nat>, len: nat)
    requires len <= indices.Length && len <= out.Length && input != out
    requires forall i :: 0 <= i < len ==> indices[i] < input.Length
    modifies out
    ensures out[..len] == Gather(input[..], indices[..len])
  {
    ghost var idx := indices[..len];
    for i := 0 to len
      invariant input[..] == old(input[..]) && indices[..len] == idx
      invariant forall k :: 0 <= k < i ==> out[k] == input[idx[k]]
    {
      out[i] := input[indices[i]];
    }
  }

  // ---- shuffle --------------------------------------------------------------------

  /** Every index below n, each exactly once. */
  ghost predicate Permutation(s: seq<nat>) { Samples(s, |s|) }

  lemma SwapKeepsPermutation(s: seq<nat>, i: nat, j: nat)
    requires Permutation(s) && i < |s| && j < |s|
    ensures Permutation(s[i := s[j]][j := s[i]])
  {
  }

  function Exchanged(s: seq<nat>, i: nat, j: nat): (t: seq<nat>)
    requires i < |s| && j < |s|
    ensures |t| == |s|
  {
    s[i := s[j]][j := s[i]]
  }

  /** After k exchanges: entry i is exchanged with the one that rand() picks among all of them. */
  function Shuffled(len: nat, rand: nat -> nat, k: nat): (s: seq<nat>)
    requires k <= len
    ensures |s| == len
  {
    if k == 0 then seq(len, i => i) else Exchanged(Shuffled(len, rand, k - 1), k - 1, rand(k - 1) % len)
  }

  /** The picks that bring the first k entries of p to their places, one after the other. */
  lemma {:induction false} PicksFor(p: seq<nat>, k: nat) returns (picks: seq<nat>)
    requires Permutation(p) && k <= |p|
    ensures |picks| == k && forall i :: 0 <= i < k ==> picks[i] < |p|
    ensures forall rand: nat -> nat :: (forall i: nat :: i < k ==> rand(i) == picks[i]) ==>
      Permutation(Shuffled(|p|, rand, k)) && Shuffled(|p|, rand, k)[..k] == p[..k]
  {
    if k == 0 {
      picks := [];
      assert forall rand: nat -> nat :: Shuffled(|p|, rand, 0) == seq(|p|, i => i);
    } else {
      var before := PicksFor(p, k - 1);
      var some := (i: nat) => if i < k - 1 then before[i] else 0;
      assert forall i: nat :: i < k - 1 ==> some(i) == before[i];
      var s := Shuffled(|p|, some, k - 1);
      assert Permutation(s) && s[..k - 1] == p[..k - 1];
      var j := PlaceOf(s, p, k - 1);
      picks := before + [j];
      forall rand: nat -> nat | forall i: nat :: i < k ==> rand(i) == picks[i]
        ensures Permutation(Shuffled(|p|, rand, k)) && Shuffled(|p|, rand, k)[..k] == p[..k]
      {
        assert forall i: nat :: i < k - 1 ==> rand(i) == picks[i] == before[i];
        SamePicks(|p|, rand, some, k - 1);
        assert rand(k - 1) == j;
        ExchangeFinds(s, p, k - 1, j);
        SmallMod(j, |p|);
      }
    }
  }

  lemma {:induction false} SamePicks(len: nat, a: nat -> nat, b: nat -> nat, k: nat)
    requires k <= len && forall i: nat :: i < k ==> a(i) == b(i)
    ensures Shuffled(len, a, k) == Shuffled(len, b, k)
  {
    if k > 0 { SamePicks(len, a, b, k - 1); }
  }

  // Entry k of p is not among the first k of s, so it stands behind them.
  lemma PlaceOf(s: seq<nat>, p: seq<nat>, k: nat) returns (j: nat)
    requires Permutation(s) && Permutation(p) && |s| == |p| && k < |p| && s[..k] == p[..k]
    ensures k <= j < |s| && s[j] == p[k]
  {
    Everywhere(s, p[k]);
    forall i | 0 <= i < k ensures s[i] != p[k] { assert s[i] == s[..k][i] == p[..k][i] == p[i]; }
    j :| 0 <= j < |s| && s[j] == p[k];
  }

  lemma ExchangeFinds(s: seq<nat>, p: seq<nat>, k: nat, j: nat)
    requires Permutation(s) && |s| == |p| && k <= j < |s| && s[..k] == p[..k] && s[j] == p[k]
    ensures Permutation(Exchanged(s, k, j)) && Exchanged(s, k, j)[..k + 1] == p[..k + 1]
  {
    SwapKeepsPermutation(s, k, j);
    ExchangedFront(s, k, j);
    hide Permutation, Exchanged;
    assert p[..k + 1] == p[..k] + [p[k]];
  }

  lemma SmallMod(j: nat, n: nat)
    requires j < n
    ensures j % n == j
  {
  }

  lemma ExchangedFront(s: seq<nat>, k: nat, j: nat)
    requires k <= j < |s|
    ensures Exchanged(s, k, j)[..k + 1] == s[..k] + [s[j]]
  {
  }

  // A permutation takes every value.
  lemma Everywhere(s: seq<nat>, v: nat)
    requires Permutation(s) && v < |s|
    ensures exists j :: 0 <= j < |s| && s[j] == v
  {
    if forall j :: 0 <= j < |s| ==> s[j] != v {
      var values := set j | 0 <= j < |s| :: s[j];
      CountValues(s, |s|);
      InBelow(|s|);
      assert values <= Below(|s|) - {v};
      CountBelow(|s|);
      Subset(values, Below(|s|) - {v});
    }
  }

  function Below(n: nat): (b: set<nat>) { if n == 0 then {} else Below(n - 1) + {n - 1} }

  lemma {:induction false} InBelow(n: nat)
    ensures forall i: nat :: i in Below(n) <==> i < n
  {
    if n > 0 { InBelow(n - 1); }
  }

  lemma {:induction false} CountBelow(n: nat)
    ensures |Below(n)| == n
  {
    if n > 0 {
      CountBelow(n - 1);
      InBelow(n - 1);
    }
  }

  lemma {:induction false} CountValues(s: seq<nat>, n: nat)
    requires Permutation(s) && n <= |s|
    ensures |set j | 0 <= j < n :: s[j]| == n
  {
    if n > 0 {
      CountValues(s, n - 1);
      var a, b := set j | 0 <= j < n - 1 :: s[j], set j | 0 <= j < n :: s[j];
      assert b == a + {s[n - 1]} && s[n - 1] !in a;
    }
  }

  lemma {:induction false} Subset(a: set<nat>, b: set<nat>)
    requires a <= b
    ensures |a| <= |b|
  {
    if a != {} {
      var x :| x in a;
      Subset(a - {x}, b - {x});
    }
  }

  /** Every order can come out of the shuffle. */
  lemma EveryOrder(p: seq<nat>) returns (rand: nat -> nat)
    requires Permutation(p)
    ensures Shuffled(|p|, rand, |p|) == p
  {
    var picks := PicksFor(p, |p|);
    rand := (i: nat) => if i < |p| then picks[i] else 0;
    assert forall i: nat :: i < |p| ==> rand(i) == picks[i];
    var s := Shuffled(|p|, rand, |p|);
    assert s == s[..|p|] == p[..|p|] == p;
  }

  lemma ShuffledFirst(len: nat, rand: nat -> nat)
    ensures Shuffled(len, rand, 0) == seq(len, i => i) && Permutation(seq(len, i => i))
  {
  }

  lemma ShuffledNext(len: nat, rand: nat -> nat, k: nat)
    requires k < len
    ensures Shuffled(len, rand, k + 1) == Exchanged(Shuffled(len, rand, k), k, rand(k) % len)
  {
  }

  /** shuffle: whatever rand() returns, the result is a permutation of 0 .. len-1. */
  method Shuffle(a: array<nat>, rand: nat -> nat)
    modifies a
    ensures Permutation(a[..]) && a[..] == Shuffled(a.Length, rand, a.Length)
  {
    hide Shuffled;
    for i := 0 to a.Length
      invariant forall k :: 0 <= k < i ==> a[k] == k
    {
      a[i] := i;
    }
    assert a[..] == seq(a.Length, i => i);
    ShuffledFirst(a.Length, rand);
    for i := 0 to a.Length
      invariant Permutation(a[..]) && a[..] == Shuffled(a.Length, rand, i)
    {
      var j := rand(i) % a.Length;
      ghost var s := a[..];
      SwapKeepsPermutation(s, i, j);
      ShuffledNext(a.Length, rand, i);
      var temp := a[i];
      a[i] := a[j];
      a[j] := temp;
      assert a[..] == s[i := s[j]][j := s[i]];
    }
  }

  // ---- one iteration --------------------------------------------------------------

  function WithMomentum(x: real, x1: real, tn: real, tn1: real): real
    requires tn1 != 0.0
  {
    x + (tn - 1.0) / tn1 * (x - x1)
  }

  // The momentum term is zero: tn is 1 in the first iteration and xold1 equals xold in the others.
  lemma NoMomentum(x: real, x1: real, tn: real, tn1: real)
    requires tn1 != 0.0 && (tn == 1.0 || x == x1)
    ensures WithMomentum(x, x1, tn, tn1) == x
  {
    if tn == 1.0 {
      assert 0.0 / tn1 == 0.0;
    }
  }

  method AddMomentum(xold: array<real>, xold1: array<real>, tn: real, tn1: real)
    requires xold.Length == xold1.Length && xold != xold1 && tn1 != 0.0
    requires tn == 1.0 || xold[..] == xold1[..]
    modifies xold
    ensures xold[..] == old(xold[..])
  {
    for i := 0 to xold.Length
      invariant xold[..] == old(xold[..]) && xold1[..] == old(xold1[..])
    {
      ghost var s := xold[..];
      assert tn == 1.0 || s[i] == xold1[..][i];
      NoMomentum(xold[i], xold1[i], tn, tn1);
      xold[i] := WithMomentum(xold[i], xold1[i], tn, tn1);
      assert xold[..] == s[i := s[i]];
    }
  }

  method WriteResidual(y: array<real>, temp: array<real>, idx: array<nat>, upper: nat, temp3: array<real>)
    requires upper <= y.Length && upper <= temp.Length && upper <= idx.Length && temp3 != y && temp3 != temp
    requires forall i :: 0 <= i < upper ==> idx[i] < temp3.Length
    modifies temp3
    ensures temp3[..] == Scatter(Sub(y[..upper], temp[..upper]), idx[..upper], temp3.Length)
  {
    ghost var v, ix := Sub(y[..upper], temp[..upper]), idx[..upper];
    var temp2 := new real[upper];
    for i := 0 to upper
      invariant forall k :: 0 <= k < i ==> temp2[k] == v[k]
    {
      temp2[i] := y[i] - temp[i];
    }
    for i := 0 to temp3.Length
      invariant temp2[..] == v
      invariant forall k :: 0 <= k < i ==> temp3[k] == 0.0
    {
      temp3[i] := 0.0;
    }
    assert temp3[..] == Zeros(temp3.Length);
    for i := 0 to upper
      invariant temp2[..] == v && idx[..upper] == ix
      invariant temp3[..] == Scatter(v[..i], ix[..i], temp3.Length)
    {
      assert v[..i + 1][..i] == v[..i] && ix[..i + 1][..i] == ix[..i];
      temp3[idx[i]] := temp2[i];
    }
    assert v[..upper] == v && ix[..upper] == ix;
  }

  method AddAndThreshold(xold: array<real>, temp3: array<real>, cut: int)
    requires xold.Length == temp3.Length && xold != temp3
    modifies xold
    ensures xold[..] == SoftAll(Add(temp3[..], old(xold[..])), cut)
  {
    ghost var u := Add(temp3[..], xold[..]);
    for i := 0 to xold.Length
      invariant forall k :: 0 <= k < i ==> xold[k] == u[k]
      invariant forall k :: i <= k < xold.Length ==> xold[k] == old(xold[k])
    {
      xold[i] := temp3[i] + xold[i];
    }
    for i := 0 to xold.Length
      invariant forall k :: 0 <= k < i ==> xold[k] == Soft(u[k], cut)
      invariant forall k :: i <= k < xold.Length ==> xold[k] == u[k]
    {
      if IntAbs(xold[i]) < cut {
        xold[i] := 0.0;
      } else {
        xold[i] := xold[i] - Sign(xold[i]) * cut as real;
      }
    }
  }

  /** p asks for the pixels idx to be y; of a pixel measured twice, the last measurement counts. */
  ghost predicate Measures(p: Problem, y: seq<real>, idx: seq<nat>) {
    |y| == |idx| && Pixels(idx, Cells(p.n, p.n)) && (p.y, p.idx) == LastOnly(y, idx)
  }

  lemma GradientByLast(p: Problem, x: seq<real>, y: seq<real>, idx: seq<nat>)
    requires p.Valid() && SquareImage(x, p.n) && Measures(p, y, idx)
    ensures var t := WInv(x, p.n, p.r);
      W(Scatter(Sub(y, Gather(t, idx)), idx, Cells(p.n, p.n)), p.n, p.r) == Gradient(p, x)
  {
    ScatterByLast(y, WInv(x, p.n, p.r), idx);
  }

  method Synthesise(xold: array<real>, width: nat, height: nat, r: real) returns (t1: array<real>)
    requires width == height && SquareImage(xold[..], width) && r != 0.0
    ensures fresh(t1) && t1[..] == WInv(xold[..], width, r)
  {
    ghost var x := xold[..];
    t1 := NewImage(width, height);
    CopyArray(xold, t1, xold.Length);
    assert t1[..] == x;
    Idwt2Full(t1, width, height, r);
  }

  // The middle of the loop body: synthesise, compare at the sampled pixels, analyse the residual.
  method ResidualTransform(xold: array<real>, y: array<real>, idx: array<nat>, width: nat, height: nat,
                           upper: nat, r: real, ghost p: Problem) returns (temp3: array<real>)
    requires width == height == p.n && p.Valid() && p.r == r && xold.Length == Cells(width, height)
    requires upper <= y.Length && upper <= idx.Length && Measures(p, y[..upper], idx[..upper])
    ensures fresh(temp3) && temp3.Length == xold.Length && temp3[..] == Gradient(p, xold[..])
  {
    hide Gradient, W, WInv, Scatter, Gather, Sub, Samples;
    ghost var x := xold[..];
    temp3 := SampledResidual(xold, y, idx, width, height, upper, r);
    Dwt2Full(temp3, width, height, r);
    GradientByLast(p, x, y[..upper], idx[..upper]);
  }

  // The measurements less what the synthesised image has at their pixels, written to these pixels.
  method SampledResidual(xold: array<real>, y: array<real>, idx: array<nat>, width: nat, height: nat, upper: nat, r: real)
    returns (temp3: array<real>)
    requires width == height && SquareImage(xold[..], width) && r != 0.0 && upper <= y.Length && upper <= idx.Length
    requires forall i :: 0 <= i < upper ==> idx[i] < xold.Length
    ensures fresh(temp3) && temp3.Length == xold.Length
    ensures temp3[..] == Scatter(Sub(y[..upper], Gather(WInv(xold[..], width, r), idx[..upper])), idx[..upper], temp3.Length)
  {
    hide WInv, Scatter, Gather, Sub;
    var t1 := Synthesise(xold, width, height, r);
    var temp := new real[upper];
    CopySelectedInstances(t1, temp, idx, upper);
    temp3 := NewImage(width, height);
    WriteResidual(y, temp, idx, upper, temp3);
  }

  /** The body of the loop in FISTA and ISTcomplete: one step of iterative soft thresholding. */
  method Iteration(xold: array<real>, xold1: array<real>, y: array<real>, idx: array<nat>, width: nat,
                   height: nat, upper: nat, cut: int, tn: real, tn1: real, r: real, ghost p: Problem)
    requires width == height == p.n && p.Valid() && p.cut == cut && p.r == r
    requires upper <= y.Length && upper <= idx.Length && Measures(p, y[..upper], idx[..upper])
    requires xold.Length == xold1.Length == Cells(width, height)
    requires xold != xold1 && xold != y && xold1 != y
    requires tn1 != 0.0 && (tn == 1.0 || xold[..] == xold1[..])
    modifies xold, xold1
    ensures xold[..] == Step(p, old(xold[..])) && xold1[..] == xold[..]
  {
    AddMomentum(xold, xold1, tn, tn1);
    var temp3 := ResidualTransform(xold, y, idx, width, height, upper, r, p);
    AddAndThreshold(xold, temp3, cut);
    CopyArray(xold, xold1, xold.Length);
    assert xold1[..] == xold1[..xold.Length] && xold[..] == xold[..xold.Length];
  }

  method NextTn(tn: real, sqrt: real -> real) returns (tn1: real)
    requires forall v :: sqrt(v) >= 0.0
    ensures tn1 > 0.0
  {
    tn1 := (1.0 + sqrt(1.0 + 4.0 * tn * tn)) / 2.0;
  }

  /** n = width * height. */
  function Area(width: nat, height: nat): (n: nat)
    ensures n == Cells(width, height)
  {
    CellsIsProduct(width, height);
    width * height
  }

  /** upper = (int)(p * n). */
  function SampleCount(p: real, n: nat): int { (p * n as real).Floor }

  /** As many whole samples as fit into the share p of the pixels, so half of them for p = 0.5. */
  lemma SamplesInShare(p: real, n: nat)
    requires 0.0 <= p <= 1.0
    ensures 0 <= SampleCount(p, n) <= n
    ensures SampleCount(p, n) as real <= p * n as real < (SampleCount(p, n) + 1) as real
    ensures SampleCount(0.5, n) == n / 2
  {
    var v, m := p * n as real, (1.0 - p) * n as real;
    assert v >= 0.0 && m >= 0.0 && v + m == n as real;
    HalfOf(n);
  }

  lemma HalfOf(n: nat)
    ensures SampleCount(0.5, n) == n / 2
  {
    assert 0.5 * n as real == (n / 2) as real + (n % 2) as real / 2.0;
  }

  lemma IterateNext(p: Problem, x: seq<real>, k: nat)
    requires p.Valid() && SquareImage(x, p.n)
    ensures Iterate(p, x, k + 1) == Step(p, Iterate(p, x, k))
  {
  }

  /** its iterations from xold, whatever the momentum numbers turn out to be. */
  method Iterations(xold: array<real>, xold1: array<real>, y: array<real>, idx: array<nat>, width: nat,
                    height: nat, upper: nat, cut: int, tn0: real, its: nat, r: real,
                    sqrt: real -> real, ghost p: Problem)
    requires width == height == p.n && p.Valid() && p.cut == cut && p.r == r
    requires upper <= y.Length && upper <= idx.Length && Measures(p, y[..upper], idx[..upper])
    requires xold.Length == xold1.Length == Cells(width, height)
    requires xold != xold1 && xold != y && xold1 != y
    requires (forall v :: sqrt(v) >= 0.0) && (tn0 == 1.0 || xold[..] == xold1[..])
    modifies xold, xold1
    ensures xold[..] == Iterate(p, old(xold[..]), its)
  {
    hide Step;
    ghost var x0 := xold[..];
    var tn := tn0;
    for k := 0 to its
      invariant Measures(p, y[..upper], idx[..upper])
      invariant tn == 1.0 || xold[..] == xold1[..]
      invariant xold[..] == Iterate(p, x0, k)
    {
      var tn1 := NextTn(tn, sqrt);
      IterateNext(p, x0, k);
      Iteration(xold, xold1, y, idx, width, height, upper, cut, tn, tn1, r, p);
      tn := tn1;
    }
  }

  function MeasuredProblem(n: nat, y: seq<real>, idx: seq<nat>, cut: int, r: real): (p: Problem)
    requires |y| == |idx| && Pixels(idx, Cells(n, n)) && PowerOfTwo(n) && cut > 0 && IsRoot2(r)
    ensures p.Valid() && Measures(p, y, idx)
    ensures Samples(idx, Cells(n, n)) ==> p == Problem(n, y, idx, cut, r)
  {
    LastOnlySamples(y, idx, Cells(n, n));
    var m := LastOnly(y, idx);
    Problem(n, m.0, m.1, cut, r)
  }

  /** FISTA as mainIST calls it, which may measure a pixel twice: tn == 1, and the image is synthesised from the coefficients. */
  method FISTA(xold: array<real>, xold1: array<real>, y: array<real>, idx: array<nat>, width: nat, height: nat,
               p: real, tn: real, its: nat, r: real, sqrt: real -> real)
    returns (upper: nat)
    requires width == height && PowerOfTwo(width) && IsRoot2(r)
    requires var u := SampleCount(p, Area(width, height));
      0 <= u <= y.Length && u <= idx.Length && Pixels(idx[..u], Cells(width, height))
    requires xold.Length == xold1.Length == Cells(width, height)
    requires xold != xold1 && xold != y && xold1 != y
    requires (forall v :: sqrt(v) >= 0.0) && (tn == 1.0 || xold[..] == xold1[..])
    modifies xold, xold1
    ensures upper == SampleCount(p, Area(width, height))
    ensures var prob := MeasuredProblem(width, y[..upper], idx[..upper], CUT, r);
      prob.Valid() && xold[..] == WInv(Iterate(prob, old(xold[..]), its), width, r)
  {
    var n := Area(width, height);
    upper := SampleCount(p, n);
    ghost var prob := MeasuredProblem(width, y[..upper], idx[..upper], CUT, r);
    Iterations(xold, xold1, y, idx, width, height, upper, CUT, tn, its, r, sqrt, prob);
    Idwt2Full(xold, width, height, r);
  }

  // The first half of ISTcomplete: a ramp image measured at the first half of a shuffle.
  method MeasureRamp(n: nat, upper: nat, rand: nat -> nat) returns (y: array<real>, rp: array<nat>)
    requires upper <= n
    ensures fresh(y) && fresh(rp) && y.Length == upper && rp.Length == n
    ensures Permutation(rp[..])
    ensures forall i :: 0 <= i < upper ==> y[i] == rp[i] as real
  {
    var x := new real[n];
    for i := 0 to n
      invariant forall k :: 0 <= k < i ==> x[k] == k as real
    {
      x[i] := i as real;
    }
    rp := new nat[n];
    Shuffle(rp, rand);
    y := new real[upper];
    for i := 0 to upper
      invariant Permutation(rp[..])
      invariant forall k :: 0 <= k < i ==> y[k] == rp[k] as real
      invariant forall k :: 0 <= k < n ==> x[k] == k as real
    {
      assert rp[..][i] < n;
      y[i] := x[rp[i]];
    }
  }

  method ZeroImage(width: nat, height: nat) returns (a: array<real>)
    ensures fresh(a) && a.Length == Cells(width, height) && a[..] == Zeros(a.Length)
  {
    a := NewImage(width, height);
    for i := 0 to a.Length
      invariant forall k :: 0 <= k < i ==> a[k] == 0.0
    {
      a[i] := 0.0;
    }
  }

  lemma PrefixSamples(s: seq<nat>, k: nat)
    requires Permutation(s) && k <= |s|
    ensures Samples(s[..k], |s|)
  {
    assert forall i :: 0 <= i < k ==> s[..k][i] == s[i];
  }

  /** ISTcomplete, with its fixed width of 256 and its 100 iterations as parameters: measures half of
      the pixels of a ramp image, chosen by shuffle, and returns the image whose wavelet coefficients the iterations
      end with. */
  method ISTcomplete(width: nat, height: nat, its: nat, r: real, rand: nat -> nat, sqrt: real -> real)
    returns (xold: array<real>, y: array<real>, rp: array<nat>)
    requires width == height && PowerOfTwo(width) && IsRoot2(r) && forall v :: sqrt(v) >= 0.0
    ensures Permutation(rp[..]) && rp.Length == Area(width, height)
    ensures y.Length == SampleCount(0.5, rp.Length) && 0 <= y.Length <= rp.Length
    ensures forall i :: 0 <= i < y.Length ==> y[i] == rp[i] as real
    ensures var prob := Problem(width, y[..], rp[..y.Length], 6, r);
      prob.Valid() && xold[..] == WInv(Iterate(prob, Zeros(Cells(width, height)), its), width, r)
  {
    var n := Area(width, height);
    var upper := SampleCount(0.5, n);
    y, rp := MeasureRamp(n, upper, rand);
    xold := ZeroImage(width, height);
    var xold1 := ZeroImage(width, height);
    PrefixSamples(rp[..], upper);
    assert rp[..][..upper] == rp[..upper];
    assert y[..upper] == y[..];
    ghost var prob := MeasuredProblem(width, y[..upper], rp[..upper], 6, r);
    assert prob == Problem(width, y[..], rp[..upper], 6, r);
    Iterations(xold, xold1, y, rp, width, height, upper, 6, 1.0, its, r, sqrt, prob);
    Idwt2Full(xold, width, height, r);
  }
}
