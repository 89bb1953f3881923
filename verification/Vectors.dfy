/** Inner products of real vectors, and of matrices held as sequences of rows. The images of brain.c are
    single-precision floats; here they are exact reals, so that nothing is rounded: the inner product is
    symmetric and bilinear, and only the zero vector has norm zero. */
module Vectors {

  type Mat = seq<seq<real>>

  // Products are named, so that equal factors give equal products without nonlinear search.
  function Times(p: real, q: real): real { p * q }

  function Dot(a: seq<real>, b: seq<real>): real
    requires |a| == |b|
  {
    if |a| == 0 then 0.0 else Times(a[0], b[0]) + Dot(a[1..], b[1..])
  }

  function Norm2(a: seq<real>): real { Dot(a, a) }

  function Add(a: seq<real>, b: seq<real>): (c: seq<real>)
    requires |a| == |b|
  {
    seq(|a|, i requires 0 <= i < |a| => a[i] + b[i])
  }

  function Sub(a: seq<real>, b: seq<real>): (c: seq<real>)
    requires |a| == |b|
  {
    seq(|a|, i requires 0 <= i < |a| => a[i] - b[i])
  }

  ghost predicate Rect(m: Mat, rows: nat, cols: nat) {
    |m| == rows && forall i :: 0 <= i < rows ==> |m[i]| == cols
  }

  function DotM(a: Mat, b: Mat): real
    requires |a| == |b|
    requires forall i :: 0 <= i < |a| ==> |a[i]| == |b[i]|
  {
    if |a| == 0 then 0.0 else Dot(a[0], b[0]) + DotM(a[1..], b[1..])
  }

  lemma {:induction false} DotConcat(a: seq<real>, b: seq<real>, c: seq<real>, d: seq<real>)
    requires |a| == |b| && |c| == |d|
    ensures Dot(a + c, b + d) == Dot(a, b) + Dot(c, d)
  {
    if |a| == 0 {
      assert a + c == c && b + d == d;
    } else {
      assert (a + c)[1..] == a[1..] + c && (b + d)[1..] == b[1..] + d;
      DotConcat(a[1..], b[1..], c, d);
    }
  }

  lemma DotCons(x: seq<real>, y: seq<real>, p: real, q: real, a: seq<real>, b: seq<real>)
    requires |a| == |b| && x == [p] + a && y == [q] + b
    ensures |x| == |y| && Dot(x, y) == Times(p, q) + Dot(a, b)
  {
    assert x[1..] == a && y[1..] == b;
  }

  lemma DotMCons(x: Mat, y: Mat, a: seq<real>, b: seq<real>, m: Mat, n: Mat)
    requires |a| == |b| && |m| == |n| && forall i :: 0 <= i < |m| ==> |m[i]| == |n[i]|
    requires x == [a] + m && y == [b] + n
    ensures |x| == |y| && (forall i :: 0 <= i < |x| ==> |x[i]| == |y[i]|)
    ensures DotM(x, y) == Dot(a, b) + DotM(m, n)
  {
    assert x[1..] == m && y[1..] == n;
  }

  lemma {:induction false} DotMConcat(a: Mat, b: Mat, c: Mat, d: Mat)
    requires |a| == |b| && |c| == |d|
    requires forall i :: 0 <= i < |a| ==> |a[i]| == |b[i]|
    requires forall i :: 0 <= i < |c| ==> |c[i]| == |d[i]|
    ensures DotM(a + c, b + d) == DotM(a, b) + DotM(c, d)
  {
    if |a| == 0 {
      assert a + c == c && b + d == d;
    } else {
      assert (a + c)[1..] == a[1..] + c && (b + d)[1..] == b[1..] + d;
      DotMConcat(a[1..], b[1..], c, d);
    }
  }

  lemma {:induction false} DotSymmetric(a: seq<real>, b: seq<real>)
    requires |a| == |b|
    ensures Dot(a, b) == Dot(b, a)
  {
    if |a| > 0 { DotSymmetric(a[1..], b[1..]); }
  }

  lemma {:induction false} DotSub(a: seq<real>, b: seq<real>, c: seq<real>)
    requires |a| == |b| == |c|
    ensures Dot(Sub(a, b), c) == Dot(a, c) - Dot(b, c)
    ensures Dot(c, Sub(a, b)) == Dot(c, a) - Dot(c, b)
  {
    if |a| > 0 {
      assert Sub(a, b)[1..] == Sub(a[1..], b[1..]);
      DotSub(a[1..], b[1..], c[1..]);
    }
  }

  lemma Norm2Sub(a: seq<real>, b: seq<real>)
    requires |a| == |b|
    ensures Norm2(Sub(a, b)) == Norm2(a) - 2.0 * Dot(a, b) + Norm2(b)
  {
    DotSub(a, b, Sub(a, b));
    DotSub(a, b, a);
    DotSub(a, b, b);
    DotSymmetric(a, b);
  }

  lemma PositiveProduct(y: real, z: real)
    requires y > 0.0 && z > 0.0
    ensures Times(y, z) > 0.0
  {
  }

  lemma SquareZero(x: real)
    ensures Times(x, x) >= 0.0
    ensures x != 0.0 ==> Times(x, x) > 0.0
  {
    if x > 0.0 {
      PositiveProduct(x, x);
    } else if x < 0.0 {
      PositiveProduct(-x, -x);
      assert Times(-x, -x) == Times(x, x);
    }
  }

  lemma {:induction false} Norm2Zero(a: seq<real>)
    ensures Norm2(a) >= 0.0
    ensures (forall i :: 0 <= i < |a| ==> a[i] == 0.0) <==> Norm2(a) == 0.0
  {
    if |a| > 0 {
      var rest := a[1..];
      Norm2Zero(rest);
      SquareZero(a[0]);
      if a[0] == 0.0 {
        assert Times(a[0], a[0]) == 0.0;
        assert a == [a[0]] + rest;
      } else {
      }
    }
  }
}
