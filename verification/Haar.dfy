/** The Haar transform of brain.c on rows and matrices. */
module Haar {
  // Its two laws: the inverse undoes it, and it keeps inner products. The number r stands for sqrt(2).

  import opened Vectors

  predicate IsRoot2(r: real) { r > 0.0 && r * r == 2.0 }

  /** The two outputs of one butterfly: (p + q) / sqrt(2) and (p - q) / sqrt(2). */
  function Plus(p: real, q: real, r: real): real
    requires r != 0.0
  {
    (p + q) / r
  }

  function Minus(p: real, q: real, r: real): real
    requires r != 0.0
  {
    (p - q) / r
  }

  lemma DivAdds(x: real, y: real, r: real)
    requires r != 0.0
    ensures x / r + y / r == (x + y) / r && x / r - y / r == (x - y) / r
  {
    var a, b := x / r, y / r;
    assert a * r == x && b * r == y;
    QuotientIs(a + b, x + y, r);
    QuotientIs(a - b, x - y, r);
  }

  lemma QuotientIs(q: real, a: real, r: real)
    requires r != 0.0 && q * r == a
    ensures a / r == q
  {
  }

  lemma HalvesOf(p: real, r: real)
    requires IsRoot2(r)
    ensures 2.0 * p / r / r == p
  {
    assert (p * r) * r == p * (r * r);
    QuotientIs(p * r, 2.0 * p, r);
    QuotientIs(p, p * r, r);
  }

  // The identity (p+q)(s+t) + (p-q)(s-t) == 2ps + 2qt behind every orthogonality step.
  lemma Butterfly(p: real, q: real, s: real, t: real, r: real)
    requires IsRoot2(r)
    ensures Times(Plus(p, q, r), Plus(s, t, r)) + Times(Minus(p, q, r), Minus(s, t, r)) == Times(p, s) + Times(q, t)
  {
    var a, b, c, d := Plus(p, q, r), Plus(s, t, r), Minus(p, q, r), Minus(s, t, r);
    Doubled(a, b, p + q, s + t, r);
    Doubled(c, d, p - q, s - t, r);
    assert (p + q) * (s + t) + (p - q) * (s - t) == 2.0 * (p * s) + 2.0 * (q * t);
  }

  lemma Doubled(a: real, b: real, x: real, y: real, r: real)
    requires IsRoot2(r) && a == x / r && b == y / r
    ensures 2.0 * Times(a, b) == x * y
  {
    assert a * r == x && b * r == y;
    assert (a * r) * (b * r) == (a * b) * (r * r);
  }

  // A butterfly applied twice is the identity.
  lemma ButterflyInverse(p: real, q: real, r: real)
    requires IsRoot2(r)
    ensures Plus(Plus(p, q, r), Minus(p, q, r), r) == p
    ensures Minus(Plus(p, q, r), Minus(p, q, r), r) == q
  {
    DivAdds(p + q, p - q, r);
    assert (p + q) + (p - q) == 2.0 * p && (p + q) - (p - q) == 2.0 * q;
    HalvesOf(p, r);
    HalvesOf(q, r);
  }

  function Pluses(a: seq<real>, b: seq<real>, r: real): (c: seq<real>)
    requires |a| == |b| && r != 0.0
    ensures |c| == |a|
  {
    seq(|a|, i requires 0 <= i < |a| => Plus(a[i], b[i], r))
  }

  function Minuses(a: seq<real>, b: seq<real>, r: real): (c: seq<real>)
    requires |a| == |b| && r != 0.0
    ensures |c| == |a|
  {
    seq(|a|, i requires 0 <= i < |a| => Minus(a[i], b[i], r))
  }

  // ---- one row -------------------------------------------------------------------

  function Lo(a: seq<real>, r: real): (c: seq<real>)
    requires r != 0.0
    ensures |c| == |a| / 2
  {
    seq(|a| / 2, i requires 0 <= i < |a| / 2 => Plus(a[2 * i], a[2 * i + 1], r))
  }

  function Hi(a: seq<real>, r: real): (c: seq<real>)
    requires r != 0.0
    ensures |c| == |a| / 2
  {
    seq(|a| / 2, i requires 0 <= i < |a| / 2 => Minus(a[2 * i], a[2 * i + 1], r))
  }

  /** dwt: the scaled sums, then the scaled differences. */
  function Dwt(a: seq<real>, r: real): (c: seq<real>)
    requires r != 0.0
    ensures |c| == 2 * (|a| / 2)
  {
    Lo(a, r) + Hi(a, r)
  }

  /** idwt: interleaves sums and differences of the two halves. */
  function Idwt(a: seq<real>, r: real): (c: seq<real>)
    requires r != 0.0
    ensures |c| == 2 * (|a| / 2)
  {
    var l := |a| / 2;
    seq(2 * l, k requires 0 <= k < 2 * l =>
      if k % 2 == 0 then Plus(a[k / 2], a[k / 2 + l], r) else Minus(a[k / 2], a[k / 2 + l], r))
  }

  lemma IdwtDwt(a: seq<real>, r: real)
    requires |a| % 2 == 0 && IsRoot2(r)
    ensures Idwt(Dwt(a, r), r) == a
  {
    var l := |a| / 2;
    var d := Dwt(a, r);
    forall k | 0 <= k < |a| ensures Idwt(d, r)[k] == a[k] {
      var i := k / 2;
      assert d[i] == Plus(a[2 * i], a[2 * i + 1], r) && d[i + l] == Minus(a[2 * i], a[2 * i + 1], r);
      ButterflyInverse(a[2 * i], a[2 * i + 1], r);
    }
  }

  lemma IdwtPair(a: seq<real>, i: nat, r: real)
    requires i < |a| / 2 && r != 0.0
    ensures Idwt(a, r)[2 * i] == Plus(a[i], a[i + |a| / 2], r)
    ensures Idwt(a, r)[2 * i + 1] == Minus(a[i], a[i + |a| / 2], r)
  {
    assert (2 * i) / 2 == i && (2 * i + 1) / 2 == i;
  }

  lemma HalvesIdwt(a: seq<real>, r: real)
    requires |a| % 2 == 0 && IsRoot2(r)
    ensures Lo(Idwt(a, r), r) == a[..|a| / 2]
    ensures Hi(Idwt(a, r), r) == a[|a| / 2..]
  {
    var l := |a| / 2;
    var p, q := Lo(Idwt(a, r), r), Hi(Idwt(a, r), r);
    forall i: nat | i < l ensures p[i] == a[i] && q[i] == a[l..][i] {
      IdwtPair(a, i, r);
      ButterflyInverse(a[i], a[i + l], r);
    }
  }

  lemma DwtFromHalves(a: seq<real>, b: seq<real>, r: real)
    requires r != 0.0
    requires Lo(b, r) == a[..|a| / 2] && Hi(b, r) == a[|a| / 2..]
    ensures Dwt(b, r) == a
  {
  }

  lemma DwtIdwt(a: seq<real>, r: real)
    requires |a| % 2 == 0 && IsRoot2(r)
    ensures Dwt(Idwt(a, r), r) == a
  {
    HalvesIdwt(a, r);
    DwtFromHalves(a, Idwt(a, r), r);
  }

  lemma {:induction false} DwtIsometry(a: seq<real>, b: seq<real>, r: real)
    requires |a| == |b| && |a| % 2 == 0 && IsRoot2(r)
    ensures Dot(Dwt(a, r), Dwt(b, r)) == Dot(a, b)
  {
    DotConcat(Lo(a, r), Lo(b, r), Hi(a, r), Hi(b, r));
    HalvesIsometry(a, b, r);
  }

  lemma HalvesStep(a: seq<real>, r: real)
    requires |a| >= 2 && |a| % 2 == 0 && r != 0.0
    ensures Lo(a, r) == [Plus(a[0], a[1], r)] + Lo(a[2..], r)
    ensures Hi(a, r) == [Minus(a[0], a[1], r)] + Hi(a[2..], r)
  {
  }

  lemma {:induction false} HalvesIsometry(a: seq<real>, b: seq<real>, r: real)
    requires |a| == |b| && |a| % 2 == 0 && IsRoot2(r)
    ensures Dot(Lo(a, r), Lo(b, r)) + Dot(Hi(a, r), Hi(b, r)) == Dot(a, b)
  {
    hide Plus, Minus, Times;
    if |a| > 0 {
      hide Lo, Hi, Dot;
      var a', b' := a[2..], b[2..];
      HalvesIsometry(a', b', r);
      HalvesStep(a, r);
      HalvesStep(b, r);
      DotCons(Lo(a, r), Lo(b, r), Plus(a[0], a[1], r), Plus(b[0], b[1], r), Lo(a', r), Lo(b', r));
      DotCons(Hi(a, r), Hi(b, r), Minus(a[0], a[1], r), Minus(b[0], b[1], r), Hi(a', r), Hi(b', r));
      DotCons(a[1..], b[1..], a[1], b[1], a', b');
      DotCons(a, b, a[0], b[0], a[1..], b[1..]);
      Butterfly(a[0], a[1], b[0], b[1], r);
    }
  }

  // ---- row pass and column pass --------------------------------------------------

  function Rows(m: Mat, r: real): (n: Mat)
    requires r != 0.0
    ensures |n| == |m|
  {
    seq(|m|, i requires 0 <= i < |m| => Dwt(m[i], r))
  }

  function RowsInv(m: Mat, r: real): (n: Mat)
    requires r != 0.0
    ensures |n| == |m|
  {
    seq(|m|, i requires 0 <= i < |m| => Idwt(m[i], r))
  }

  // A column pass acts on whole rows at once: the column transform of every column.
  function ColsLo(m: Mat, w: nat, r: real): (n: Mat)
    requires Rect(m, |m|, w) && r != 0.0
    ensures Rect(n, |m| / 2, w)
  {
    seq(|m| / 2, i requires 0 <= i < |m| / 2 => Pluses(m[2 * i], m[2 * i + 1], r))
  }

  function ColsHi(m: Mat, w: nat, r: real): (n: Mat)
    requires Rect(m, |m|, w) && r != 0.0
    ensures Rect(n, |m| / 2, w)
  {
    seq(|m| / 2, i requires 0 <= i < |m| / 2 => Minuses(m[2 * i], m[2 * i + 1], r))
  }

  function Cols(m: Mat, w: nat, r: real): (n: Mat)
    requires Rect(m, |m|, w) && r != 0.0
    ensures Rect(n, 2 * (|m| / 2), w)
  {
    ColsLo(m, w, r) + ColsHi(m, w, r)
  }

  function ColsInv(m: Mat, w: nat, r: real): (n: Mat)
    requires Rect(m, |m|, w) && r != 0.0
    ensures Rect(n, 2 * (|m| / 2), w)
  {
    var l := |m| / 2;
    seq(2 * l, k requires 0 <= k < 2 * l =>
      if k % 2 == 0 then Pluses(m[k / 2], m[k / 2 + l], r) else Minuses(m[k / 2], m[k / 2 + l], r))
  }

  function Column(m: Mat, j: nat, w: nat): (c: seq<real>)
    requires Rect(m, |m|, w) && j < w
    ensures |c| == |m|
  {
    seq(|m|, i requires 0 <= i < |m| => m[i][j])
  }

  /** Cols and ColsInv are dwt and idwt applied to each column, as the source applies them. */
  lemma ColsByColumn(m: Mat, j: nat, w: nat, r: real)
    requires Rect(m, |m|, w) && j < w && r != 0.0
    ensures Column(Cols(m, w, r), j, w) == Dwt(Column(m, j, w), r)
    ensures Column(ColsInv(m, w, r), j, w) == Idwt(Column(m, j, w), r)
  {
  }

  lemma RowsInvRows(m: Mat, w: nat, r: real)
    requires Rect(m, |m|, w) && w % 2 == 0 && IsRoot2(r)
    ensures RowsInv(Rows(m, r), r) == m
    ensures Rows(RowsInv(m, r), r) == m
  {
    forall i | 0 <= i < |m|
      ensures Idwt(Dwt(m[i], r), r) == m[i] && Dwt(Idwt(m[i], r), r) == m[i]
    {
      IdwtDwt(m[i], r);
      DwtIdwt(m[i], r);
    }
  }

  lemma SameByColumns(m: Mat, n: Mat, w: nat)
    requires |m| == |n| && Rect(m, |m|, w) && Rect(n, |n|, w)
    requires forall j :: 0 <= j < w ==> Column(m, j, w) == Column(n, j, w)
    ensures m == n
  {
    forall i | 0 <= i < |m| ensures m[i] == n[i] {
      forall j | 0 <= j < w ensures m[i][j] == n[i][j] {
        assert Column(m, j, w)[i] == Column(n, j, w)[i];
      }
    }
  }

  lemma ColsInvCols(m: Mat, w: nat, r: real)
    requires Rect(m, |m|, w) && |m| % 2 == 0 && IsRoot2(r)
    ensures ColsInv(Cols(m, w, r), w, r) == m
    ensures Cols(ColsInv(m, w, r), w, r) == m
  {
    var c, d := Cols(m, w, r), ColsInv(m, w, r);
    forall j | 0 <= j < w
      ensures Column(ColsInv(c, w, r), j, w) == Column(m, j, w)
      ensures Column(Cols(d, w, r), j, w) == Column(m, j, w)
    {
      ColsByColumn(m, j, w, r);
      ColsByColumn(c, j, w, r);
      ColsByColumn(d, j, w, r);
      IdwtDwt(Column(m, j, w), r);
      DwtIdwt(Column(m, j, w), r);
    }
    SameByColumns(ColsInv(c, w, r), m, w);
    SameByColumns(Cols(d, w, r), m, w);
  }

  /** idwt is linear, so it passes through the scaled sum and difference of two rows. */
  lemma IdwtLinear(a: seq<real>, b: seq<real>, r: real)
    requires |a| == |b| && r != 0.0
    ensures Idwt(Pluses(a, b, r), r) == Pluses(Idwt(a, r), Idwt(b, r), r)
    ensures Idwt(Minuses(a, b, r), r) == Minuses(Idwt(a, r), Idwt(b, r), r)
  {
    var l := |a| / 2;
    forall k | 0 <= k < 2 * l
      ensures Idwt(Pluses(a, b, r), r)[k] == Pluses(Idwt(a, r), Idwt(b, r), r)[k]
      ensures Idwt(Minuses(a, b, r), r)[k] == Minuses(Idwt(a, r), Idwt(b, r), r)[k]
    {
      var p, q, s, t := a[k / 2], a[k / 2 + l], b[k / 2], b[k / 2 + l];
      CrossButterfly(p, q, s, t, r);
    }
  }

  lemma CrossButterfly(p: real, q: real, s: real, t: real, r: real)
    requires r != 0.0
    ensures Plus(Plus(p, s, r), Plus(q, t, r), r) == Plus(Plus(p, q, r), Plus(s, t, r), r)
    ensures Minus(Plus(p, s, r), Plus(q, t, r), r) == Plus(Minus(p, q, r), Minus(s, t, r), r)
    ensures Plus(Minus(p, s, r), Minus(q, t, r), r) == Minus(Plus(p, q, r), Plus(s, t, r), r)
    ensures Minus(Minus(p, s, r), Minus(q, t, r), r) == Minus(Minus(p, q, r), Minus(s, t, r), r)
  {
    DivAdds(p + s, q + t, r);
    DivAdds(p + q, s + t, r);
    DivAdds(p - q, s - t, r);
    DivAdds(p - s, q - t, r);
    assert p + s + (q + t) == p + q + (s + t) && p + s - (q + t) == p - q + (s - t);
    assert p - s + (q - t) == p + q - (s + t) && p - s - (q - t) == p - q - (s - t);
  }

  lemma HalvesCommuteAt(m: Mat, w: nat, r: real, i: nat)
    requires Rect(m, |m|, w) && w % 2 == 0 && |m| % 2 == 0 && r != 0.0 && i < |m| / 2
    ensures RowsInv(ColsLo(m, w, r), r)[i] == ColsLo(RowsInv(m, r), w, r)[i]
    ensures RowsInv(ColsHi(m, w, r), r)[i] == ColsHi(RowsInv(m, r), w, r)[i]
  {
    hide Idwt, Pluses, Minuses;
    var n := RowsInv(m, r);
    RowsInvAt(m, r, 2 * i);
    RowsInvAt(m, r, 2 * i + 1);
    ColsAt(m, w, r, i);
    RowsInvAt(ColsLo(m, w, r), r, i);
    RowsInvAt(ColsHi(m, w, r), r, i);
    ColsAt(n, w, r, i);
    IdwtLinear(m[2 * i], m[2 * i + 1], r);
  }

  lemma RowsInvAt(m: Mat, r: real, i: nat)
    requires i < |m| && r != 0.0
    ensures RowsInv(m, r)[i] == Idwt(m[i], r)
  {
  }

  lemma ColsAt(m: Mat, w: nat, r: real, i: nat)
    requires Rect(m, |m|, w) && i < |m| / 2 && r != 0.0
    ensures ColsLo(m, w, r)[i] == Pluses(m[2 * i], m[2 * i + 1], r)
    ensures ColsHi(m, w, r)[i] == Minuses(m[2 * i], m[2 * i + 1], r)
  {
  }

  lemma HalvesCommute(m: Mat, w: nat, r: real)
    requires Rect(m, |m|, w) && w % 2 == 0 && |m| % 2 == 0 && r != 0.0
    ensures RowsInv(ColsLo(m, w, r), r) == ColsLo(RowsInv(m, r), w, r)
    ensures RowsInv(ColsHi(m, w, r), r) == ColsHi(RowsInv(m, r), w, r)
  {
    var p, q := RowsInv(ColsLo(m, w, r), r), ColsLo(RowsInv(m, r), w, r);
    var s, t := RowsInv(ColsHi(m, w, r), r), ColsHi(RowsInv(m, r), w, r);
    forall i: nat | i < |m| / 2 ensures p[i] == q[i] && s[i] == t[i] {
      HalvesCommuteAt(m, w, r, i);
    }
    assert p == q && s == t;
  }

  lemma RowsInvConcat(m: Mat, n: Mat, r: real)
    requires r != 0.0
    ensures RowsInv(m + n, r) == RowsInv(m, r) + RowsInv(n, r)
  {
  }

  /** The row pass of the inverse commutes with the column pass of the transform. */
  lemma PassesCommute(m: Mat, w: nat, r: real)
    requires Rect(m, |m|, w) && w % 2 == 0 && |m| % 2 == 0 && r != 0.0
    ensures RowsInv(Cols(m, w, r), r) == Cols(RowsInv(m, r), w, r)
  {
    HalvesCommute(m, w, r);
    RowsInvConcat(ColsLo(m, w, r), ColsHi(m, w, r), r);
  }

  lemma {:induction false} RowsIsometry(m: Mat, n: Mat, w: nat, r: real)
    requires |m| == |n| && Rect(m, |m|, w) && Rect(n, |n|, w) && w % 2 == 0 && IsRoot2(r)
    ensures DotM(Rows(m, r), Rows(n, r)) == DotM(m, n)
  {
    if |m| > 0 {
      assert Rows(m, r)[1..] == Rows(m[1..], r) && Rows(n, r)[1..] == Rows(n[1..], r);
      DwtIsometry(m[0], n[0], r);
      RowsIsometry(m[1..], n[1..], w, r);
    }
  }

  lemma ScaledStep(a: seq<real>, b: seq<real>, r: real)
    requires |a| == |b| > 0 && r != 0.0
    ensures Pluses(a, b, r) == [Plus(a[0], b[0], r)] + Pluses(a[1..], b[1..], r)
    ensures Minuses(a, b, r) == [Minus(a[0], b[0], r)] + Minuses(a[1..], b[1..], r)
  {
  }

  lemma {:induction false} RowButterfly(a: seq<real>, b: seq<real>, c: seq<real>, d: seq<real>, r: real)
    requires |a| == |b| == |c| == |d| && IsRoot2(r)
    ensures Dot(Pluses(a, b, r), Pluses(c, d, r)) + Dot(Minuses(a, b, r), Minuses(c, d, r))
         == Dot(a, c) + Dot(b, d)
  {
    if |a| > 0 {
      var a', b', c', d' := a[1..], b[1..], c[1..], d[1..];
      RowButterfly(a', b', c', d', r);
      ScaledStep(a, b, r);
      ScaledStep(c, d, r);
      DotCons(Pluses(a, b, r), Pluses(c, d, r), Plus(a[0], b[0], r), Plus(c[0], d[0], r),
              Pluses(a', b', r), Pluses(c', d', r));
      DotCons(Minuses(a, b, r), Minuses(c, d, r), Minus(a[0], b[0], r), Minus(c[0], d[0], r),
              Minuses(a', b', r), Minuses(c', d', r));
      Butterfly(a[0], b[0], c[0], d[0], r);
    }
  }

  lemma ColsStep(m: Mat, w: nat, r: real)
    requires Rect(m, |m|, w) && |m| >= 2 && |m| % 2 == 0 && r != 0.0
    ensures ColsLo(m, w, r) == [Pluses(m[0], m[1], r)] + ColsLo(m[2..], w, r)
    ensures ColsHi(m, w, r) == [Minuses(m[0], m[1], r)] + ColsHi(m[2..], w, r)
  {
  }

  lemma {:induction false} ColHalvesIsometry(m: Mat, n: Mat, w: nat, r: real)
    requires |m| == |n| && Rect(m, |m|, w) && Rect(n, |n|, w) && |m| % 2 == 0 && IsRoot2(r)
    ensures DotM(ColsLo(m, w, r), ColsLo(n, w, r)) + DotM(ColsHi(m, w, r), ColsHi(n, w, r)) == DotM(m, n)
  {
    if |m| > 0 {
      hide ColsLo, ColsHi, Pluses, Minuses, Dot, DotM;
      var m', n' := m[2..], n[2..];
      ColHalvesIsometry(m', n', w, r);
      RowButterfly(m[0], m[1], n[0], n[1], r);
      ColsStep(m, w, r);
      ColsStep(n, w, r);
      DotMCons(ColsLo(m, w, r), ColsLo(n, w, r), Pluses(m[0], m[1], r), Pluses(n[0], n[1], r),
               ColsLo(m', w, r), ColsLo(n', w, r));
      DotMCons(ColsHi(m, w, r), ColsHi(n, w, r), Minuses(m[0], m[1], r), Minuses(n[0], n[1], r),
               ColsHi(m', w, r), ColsHi(n', w, r));
      DotMCons(m[1..], n[1..], m[1], n[1], m', n');
      DotMCons(m, n, m[0], n[0], m[1..], n[1..]);
    }
  }

  lemma ColsIsometry(m: Mat, n: Mat, w: nat, r: real)
    requires |m| == |n| && Rect(m, |m|, w) && Rect(n, |n|, w) && |m| % 2 == 0 && IsRoot2(r)
    ensures DotM(Cols(m, w, r), Cols(n, w, r)) == DotM(m, n)
  {
    DotMConcat(ColsLo(m, w, r), ColsLo(n, w, r), ColsHi(m, w, r), ColsHi(n, w, r));
    ColHalvesIsometry(m, n, w, r);
  }

  // ---- one level ------------------------------------------------------------------

  ghost predicate EvenSquare(m: Mat, s: nat) { Rect(m, s, s) && s % 2 == 0 }

  /** dwt2: every row, then every column. */
  function Dwt2(m: Mat, s: nat, r: real): (n: Mat)
    requires EvenSquare(m, s) && r != 0.0
    ensures Rect(n, s, s)
  {
    Cols(Rows(m, r), s, r)
  }

  /** idwt2: every row first and then every column, the same order as dwt2. */
  function Idwt2(m: Mat, s: nat, r: real): (n: Mat)
    requires EvenSquare(m, s) && r != 0.0
    ensures Rect(n, s, s)
  {
    ColsInv(RowsInv(m, r), s, r)
  }

  lemma Idwt2Dwt2(m: Mat, s: nat, r: real)
    requires EvenSquare(m, s) && IsRoot2(r)
    ensures Idwt2(Dwt2(m, s, r), s, r) == m
  {
    PassesCommute(Rows(m, r), s, r);
    RowsInvRows(m, s, r);
    ColsInvCols(m, s, r);
  }

  lemma Dwt2Idwt2(m: Mat, s: nat, r: real)
    requires EvenSquare(m, s) && IsRoot2(r)
    ensures Dwt2(Idwt2(m, s, r), s, r) == m
  {
    // Cols(Rows(ColsInv(n))) with n = RowsInv(m): commute through the inverse of each pass.
    var n := RowsInv(m, r);
    var c := ColsInv(n, s, r);
    var d := Rows(c, r);
    PassesCommute(d, s, r);
    RowsInvRows(c, s, r);
    ColsInvCols(n, s, r);
    assert RowsInv(Cols(d, s, r), r) == Cols(c, s, r) == n;
    RowsInvRows(Cols(d, s, r), s, r);
    RowsInvRows(m, s, r);
  }

  lemma Dwt2Isometry(m: Mat, n: Mat, s: nat, r: real)
    requires EvenSquare(m, s) && EvenSquare(n, s) && IsRoot2(r)
    ensures DotM(Dwt2(m, s, r), Dwt2(n, s, r)) == DotM(m, n)
  {
    RowsIsometry(m, n, s, r);
    ColsIsometry(Rows(m, r), Rows(n, r), s, r);
  }

  // ---- all levels, on the shrinking top-left block --------------------------------

  function Block(m: Mat, s: nat): (b: Mat)
    requires s <= |m| && Rect(m, |m|, |m|)
    ensures Rect(b, s, s)
  {
    seq(s, i requires 0 <= i < s => m[i][..s])
  }

  function PutBlock(m: Mat, s: nat, b: Mat): (n: Mat)
    requires s <= |m| && Rect(m, |m|, |m|) && Rect(b, s, s)
    ensures Rect(n, |m|, |m|)
  {
    seq(|m|, i requires 0 <= i < |m| => if i < s then b[i] + m[i][s..] else m[i])
  }

  lemma BlockOfPut(m: Mat, s: nat, b: Mat, b': Mat)
    requires s <= |m| && Rect(m, |m|, |m|) && Rect(b, s, s) && Rect(b', s, s)
    ensures Block(PutBlock(m, s, b), s) == b
    ensures PutBlock(PutBlock(m, s, b), s, b') == PutBlock(m, s, b')
    ensures PutBlock(m, s, Block(m, s)) == m
  {
    var p := PutBlock(m, s, b);
    assert forall i :: 0 <= i < s ==> p[i][..s] == b[i] && p[i][s..] == m[i][s..];
    assert forall i :: 0 <= i < s ==> Block(m, s)[i] + m[i][s..] == m[i];
  }

  ghost predicate PowerOfTwo(s: nat) { s == 1 || (s > 1 && s % 2 == 0 && PowerOfTwo(s / 2)) }

  /** dwt2_full from block size s down to 2. */
  ghost function Full(m: Mat, s: nat, r: real): (n: Mat)
    requires Rect(m, |m|, |m|) && s <= |m| && PowerOfTwo(s) && r != 0.0
    ensures Rect(n, |m|, |m|)
    decreases s
  {
    if s == 1 then m else Full(PutBlock(m, s, Dwt2(Block(m, s), s, r)), s / 2, r)
  }

  /** idwt2_full from block size 2 up to s. */
  ghost function IFull(m: Mat, s: nat, r: real): (n: Mat)
    requires Rect(m, |m|, |m|) && s <= |m| && PowerOfTwo(s) && r != 0.0
    ensures Rect(n, |m|, |m|)
    decreases s
  {
    if s == 1 then m
    else
      var k := IFull(m, s / 2, r);
      PutBlock(k, s, Idwt2(Block(k, s), s, r))
  }

  /** The inverse transform undoes the transform at every depth. */
  lemma {:induction false} IFullFull(m: Mat, s: nat, r: real)
    requires Rect(m, |m|, |m|) && s <= |m| && PowerOfTwo(s) && IsRoot2(r)
    ensures IFull(Full(m, s, r), s, r) == m
    decreases s
  {
    if s > 1 {
      var b := Block(m, s);
      var m1 := PutBlock(m, s, Dwt2(b, s, r));
      IFullFull(m1, s / 2, r);
      BlockOfPut(m, s, Dwt2(b, s, r), b);
      Idwt2Dwt2(b, s, r);
    }
  }

  /** And the transform undoes the inverse, so both are bijections. */
  lemma {:induction false} FullIFull(m: Mat, s: nat, r: real)
    requires Rect(m, |m|, |m|) && s <= |m| && PowerOfTwo(s) && IsRoot2(r)
    ensures Full(IFull(m, s, r), s, r) == m
    decreases s
  {
    if s > 1 {
      var k := IFull(m, s / 2, r);
      var b := Block(k, s);
      BlockOfPut(k, s, Idwt2(b, s, r), b);
      Dwt2Idwt2(b, s, r);
      FullIFull(m, s / 2, r);
    }
  }

  lemma {:induction false} PutBlockDot(m: Mat, n: Mat, s: nat, b: Mat, c: Mat)
    requires |m| == |n| && s <= |m| && Rect(m, |m|, |m|) && Rect(n, |n|, |n|)
    requires Rect(b, s, s) && Rect(c, s, s)
    ensures DotM(PutBlock(m, s, b), PutBlock(n, s, c))
         == DotM(m, n) - DotM(Block(m, s), Block(n, s)) + DotM(b, c)
  {
    hide DotM, DotRight;
    var p, q := PutBlock(m, s, b), PutBlock(n, s, c);
    assert p == p[..s] + m[s..] && q == q[..s] + n[s..];
    assert m == m[..s] + m[s..] && n == n[..s] + n[s..];
    DotMConcat(p[..s], q[..s], m[s..], n[s..]);
    DotMConcat(m[..s], n[..s], m[s..], n[s..]);
    BesideDot(b, c, m[..s], n[..s], p[..s], q[..s], s);
    BesideDot(Block(m, s), Block(n, s), m[..s], n[..s], m[..s], n[..s], s);
  }

  // Rows p[i] == b[i] + m[i][s..]: the products of the left parts replace those of m and n.
  lemma {:induction false} BesideDot(b: Mat, c: Mat, m: Mat, n: Mat, p: Mat, q: Mat, s: nat)
    requires |b| == |c| == |m| == |n| == |p| == |q|
    requires forall i :: 0 <= i < |b| ==> |b[i]| == |c[i]| == s <= |m[i]| == |n[i]|
    requires forall i :: 0 <= i < |b| ==> p[i] == b[i] + m[i][s..] && q[i] == c[i] + n[i][s..]
    ensures DotM(p, q) == DotM(b, c) + DotRight(m, n, s)
  {
    if |b| > 0 {
      DotConcat(b[0], c[0], m[0][s..], n[0][s..]);
      BesideDot(b[1..], c[1..], m[1..], n[1..], p[1..], q[1..], s);
    }
  }

  function DotRight(m: Mat, n: Mat, s: nat): real
    requires |m| == |n| && forall i :: 0 <= i < |m| ==> s <= |m[i]| == |n[i]|
  {
    if |m| == 0 then 0.0 else Dot(m[0][s..], n[0][s..]) + DotRight(m[1..], n[1..], s)
  }

  /** The full transform keeps every inner product: it is orthonormal. */
  lemma {:induction false} FullIsometry(m: Mat, n: Mat, s: nat, r: real)
    requires |m| == |n| && Rect(m, |m|, |m|) && Rect(n, |n|, |n|)
    requires s <= |m| && PowerOfTwo(s) && IsRoot2(r)
    ensures DotM(Full(m, s, r), Full(n, s, r)) == DotM(m, n)
    decreases s
  {
    if s > 1 {
      var b, c := Block(m, s), Block(n, s);
      PutBlockDot(m, n, s, Dwt2(b, s, r), Dwt2(c, s, r));
      Dwt2Isometry(b, c, s, r);
      FullIsometry(PutBlock(m, s, Dwt2(b, s, r)), PutBlock(n, s, Dwt2(c, s, r)), s / 2, r);
    }
  }

  /** The inverse transform is the transpose: <W x, z> == <x, W^-1 z>. */
  lemma FullAdjoint(x: Mat, z: Mat, s: nat, r: real)
    requires |x| == |z| && Rect(x, |x|, |x|) && Rect(z, |z|, |z|)
    requires s <= |x| && PowerOfTwo(s) && IsRoot2(r)
    ensures DotM(Full(x, s, r), z) == DotM(x, IFull(z, s, r))
  {
    FullIsometry(x, IFull(z, s, r), s, r);
    FullIFull(z, s, r);
  }
}
