/** What the coefficients of the Haar transform are, in terms of the pixels. */
module Coefficients {
  import opened Vectors
  import opened Haar
  import opened Image
  import opened Numbers

  // ---- one level ------------------------------------------------------------------

  /** Where the four outputs of a square of four cells go: the average to the upper left quarter, the difference of
      left and right to the upper right one, of upper and lower to the lower left one, of the diagonals to the last. */
  ghost predicate FourOutputs(d: Mat, i: nat, j: nat, h: nat, w: nat, a: real, b: real, c: real, e: real)
    requires Rect(d, 2 * h, 2 * w) && i < h && j < w
  {
    && 2.0 * d[i][j] == a + b + c + e
    && 2.0 * d[i][w + j] == (a + c) - (b + e)
    && 2.0 * d[h + i][j] == (a + b) - (c + e)
    && 2.0 * d[h + i][w + j] == (a + e) - (b + c)
  }

  lemma TwoHalvings(p: real, q: real, r: real)
    requires IsRoot2(r)
    ensures 2.0 * Plus(p / r, q / r, r) == p + q && 2.0 * Minus(p / r, q / r, r) == p - q
  {
    DivAdds(p, q, r);
    TwiceHalved(p + q, r);
    TwiceHalved(p - q, r);
  }

  lemma TwiceHalved(p: real, r: real)
    requires IsRoot2(r)
    ensures 2.0 * (p / r / r) == p
  {
    var a := p / r;
    var b := a / r;
    assert a * r == p && b * r == a;
    assert p == b * r * r == b * (r * r);
  }

  lemma RowPass(m: Mat, w: nat, r: real, i: nat, j: nat)
    requires Rect(m, |m|, 2 * w) && i < |m| && j < w && r != 0.0
    ensures Rect(Rows(m, r), |m|, 2 * w)
    ensures Rows(m, r)[i][j] == (m[i][2 * j] + m[i][2 * j + 1]) / r
    ensures Rows(m, r)[i][w + j] == (m[i][2 * j] - m[i][2 * j + 1]) / r
  {
  }

  lemma ColumnPass(m: Mat, w: nat, r: real, i: nat, j: nat)
    requires Rect(m, |m|, w) && i < |m| / 2 && j < w && r != 0.0
    ensures Cols(m, w, r)[i][j] == Plus(m[2 * i][j], m[2 * i + 1][j], r)
    ensures Cols(m, w, r)[|m| / 2 + i][j] == Minus(m[2 * i][j], m[2 * i + 1][j], r)
  {
  }

  /** One level of the transform, on any image with even sides. */
  lemma OneLevel(m: Mat, h: nat, w: nat, r: real, i: nat, j: nat)
    requires Rect(m, 2 * h, 2 * w) && i < h && j < w && IsRoot2(r)
    ensures Rect(Rows(m, r), 2 * h, 2 * w)
    ensures FourOutputs(Cols(Rows(m, r), 2 * w, r), i, j, h, w,
                        m[2 * i][2 * j], m[2 * i][2 * j + 1], m[2 * i + 1][2 * j], m[2 * i + 1][2 * j + 1])
  {
    hide Rows, Cols, Plus, Minus, IsRoot2;
    var a, b, c, e := m[2 * i][2 * j], m[2 * i][2 * j + 1], m[2 * i + 1][2 * j], m[2 * i + 1][2 * j + 1];
    RootNotZero(r);
    RowPass(m, w, r, 2 * i, j);
    RowPass(m, w, r, 2 * i + 1, j);
    var n := Rows(m, r);
    ColumnPass(n, 2 * w, r, i, j);
    ColumnPass(n, 2 * w, r, i, w + j);
    TwoHalvings(a + b, c + e, r);
    TwoHalvings(a - b, c - e, r);
  }

  lemma RootNotZero(r: real)
    requires IsRoot2(r)
    ensures r != 0.0
  {
  }

  // ---- sums of pixels -------------------------------------------------------------

  /** Every four cells in a square added up. */
  function Pooled(p: Mat): (q: Mat)
    requires Rect(p, |p|, |p|)
    ensures Rect(q, |p| / 2, |p| / 2)
  {
    seq(|p| / 2, i requires 0 <= i < |p| / 2 => seq(|p| / 2, j requires 0 <= j < |p| / 2 =>
      p[2 * i][2 * j] + p[2 * i][2 * j + 1] + p[2 * i + 1][2 * j] + p[2 * i + 1][2 * j + 1]))
  }

  function PooledTimes(p: Mat, k: nat): (q: Mat)
    requires Rect(p, |p|, |p|)
    ensures Rect(q, |q|, |q|)
  {
    if k == 0 then p else Pooled(PooledTimes(p, k - 1))
  }

  /** The coefficients of block size s and below, p being the sums of the pixels that the s * s cells stand for, each of
      them c * c pixels: a detail is the difference of the sums of its two halves, scaled by the side of its square, and
      the first coefficient is the sum of all, scaled the same way. */
  ghost predicate Spectrum(y: Mat, p: Mat, s: nat, c: real)
    requires PowerOfTwo(s) && Rect(p, s, s) && Rect(y, |y|, |y|) && s <= |y|
    decreases s
  {
    if s == 1 then Times(c, y[0][0]) == p[0][0]
    else
      && (forall i: nat, j: nat :: i < s / 2 && j < s / 2 ==> Details(y, p, s, c, i, j))
      && Spectrum(y, Pooled(p), s / 2, 2.0 * c)
  }

  ghost predicate Details(y: Mat, p: Mat, s: nat, c: real, i: nat, j: nat)
    requires s % 2 == 0 && Rect(p, s, s) && Rect(y, |y|, |y|) && s <= |y| && i < s / 2 && j < s / 2
  {
    var l := s / 2;
    var a, b, d, e := p[2 * i][2 * j], p[2 * i][2 * j + 1], p[2 * i + 1][2 * j], p[2 * i + 1][2 * j + 1];
    && Times(2.0 * c, y[i][l + j]) == (a + d) - (b + e)     // left less right
    && Times(2.0 * c, y[l + i][j]) == (a + b) - (d + e)     // upper less lower
    && Times(2.0 * c, y[l + i][l + j]) == (a + e) - (b + d) // one diagonal less the other
  }

  // The corner block holds the sums, scaled.
  ghost predicate Holds(m: Mat, p: Mat, s: nat, c: real)
    requires Rect(p, s, s) && Rect(m, |m|, |m|) && s <= |m|
  {
    forall i, j :: 0 <= i < s && 0 <= j < s ==> Times(c, m[i][j]) == p[i][j]
  }

  lemma Scaled(c: real, v: real, x: real, y: real, z: real, t: real, a: real, b: real, d: real, e: real)
    requires Times(c, x) == a && Times(c, y) == b && Times(c, z) == d && Times(c, t) == e
    ensures 2.0 * v == x + y + z + t ==> Times(2.0 * c, v) == a + b + d + e
    ensures 2.0 * v == (x + z) - (y + t) ==> Times(2.0 * c, v) == (a + d) - (b + e)
    ensures 2.0 * v == (x + y) - (z + t) ==> Times(2.0 * c, v) == (a + b) - (d + e)
    ensures 2.0 * v == (x + t) - (y + z) ==> Times(2.0 * c, v) == (a + e) - (b + d)
  {
    assert 2.0 * c * v == c * (2.0 * v);
    assert c * (x + y + z + t) == c * x + c * y + c * z + c * t;
    assert c * ((x + z) - (y + t)) == c * x + c * z - c * y - c * t;
    assert c * ((x + y) - (z + t)) == c * x + c * y - c * z - c * t;
    assert c * ((x + t) - (y + z)) == c * x + c * t - c * y - c * z;
  }

  lemma BlockOutputs(m: Mat, s: nat, r: real, i: nat, j: nat)
    requires Rect(m, |m|, |m|) && s <= |m| && s % 2 == 0 && IsRoot2(r) && i < s / 2 && j < s / 2
    ensures EvenSquare(Block(m, s), s)
    ensures FourOutputs(Dwt2(Block(m, s), s, r), i, j, s / 2, s / 2,
                        m[2 * i][2 * j], m[2 * i][2 * j + 1], m[2 * i + 1][2 * j], m[2 * i + 1][2 * j + 1])
  {
    hide Rows, Cols, IsRoot2, FourOutputs;
    RootNotZero(r);
    OneLevel(Block(m, s), s / 2, s / 2, r, i, j);
  }

  lemma PutCells(m: Mat, s: nat, d: Mat, i: nat, j: nat)
    requires Rect(m, |m|, |m|) && s <= |m| && Rect(d, s, s) && i < s && j < s
    ensures PutBlock(m, s, d)[i][j] == d[i][j]
  {
  }

  // The same four cells, scaled to the sums a, b, e and f.
  lemma ScaledOutputs(d: Mat, i: nat, j: nat, l: nat, c: real, x: real, y: real, z: real, t: real,
                      a: real, b: real, e: real, f: real)
    requires Rect(d, 2 * l, 2 * l) && i < l && j < l && FourOutputs(d, i, j, l, l, x, y, z, t)
    requires Times(c, x) == a && Times(c, y) == b && Times(c, z) == e && Times(c, t) == f
    ensures Times(2.0 * c, d[i][j]) == a + b + e + f
    ensures Times(2.0 * c, d[i][l + j]) == (a + e) - (b + f)
    ensures Times(2.0 * c, d[l + i][j]) == (a + b) - (e + f)
    ensures Times(2.0 * c, d[l + i][l + j]) == (a + f) - (b + e)
  {
    hide Times;
    Scaled(c, d[i][j], x, y, z, t, a, b, e, f);
    Scaled(c, d[i][l + j], x, y, z, t, a, b, e, f);
    Scaled(c, d[l + i][j], x, y, z, t, a, b, e, f);
    Scaled(c, d[l + i][l + j], x, y, z, t, a, b, e, f);
  }

  // One level on the corner block of side s.
  lemma LevelHolds(m: Mat, p: Mat, s: nat, c: real, r: real, i: nat, j: nat)
    requires Rect(m, |m|, |m|) && s <= |m| && s % 2 == 0 && Rect(p, s, s) && Holds(m, p, s, c) && IsRoot2(r)
    requires i < s / 2 && j < s / 2
    ensures EvenSquare(Block(m, s), s)
    ensures var n := PutBlock(m, s, Dwt2(Block(m, s), s, r));
      Details(n, p, s, c, i, j) && Times(2.0 * c, n[i][j]) == Pooled(p)[i][j]
  {
    hide Times, Dwt2, IsRoot2, FourOutputs, PutBlock;
    var l := s / 2;
    RootNotZero(r);
    BlockOutputs(m, s, r, i, j);
    var d := Dwt2(Block(m, s), s, r);
    PutCells(m, s, d, i, j);
    PutCells(m, s, d, i, l + j);
    PutCells(m, s, d, l + i, j);
    PutCells(m, s, d, l + i, l + j);
    ScaledOutputs(d, i, j, l, c, m[2 * i][2 * j], m[2 * i][2 * j + 1], m[2 * i + 1][2 * j], m[2 * i + 1][2 * j + 1],
                  p[2 * i][2 * j], p[2 * i][2 * j + 1], p[2 * i + 1][2 * j], p[2 * i + 1][2 * j + 1]);
  }

  // ---- all levels -----------------------------------------------------------------

  /** Nothing outside the corner block is touched. */
  lemma {:induction false} OutsideStays(m: Mat, s: nat, r: real, i: nat, j: nat)
    requires Rect(m, |m|, |m|) && s <= |m| && PowerOfTwo(s) && r != 0.0 && i < |m| && j < |m| && (i >= s || j >= s)
    ensures Full(m, s, r)[i][j] == m[i][j]
    decreases s
  {
    if s > 1 { OutsideStays(PutBlock(m, s, Dwt2(Block(m, s), s, r)), s / 2, r, i, j); }
  }

  lemma SpectrumKept(m: Mat, y: Mat, p: Mat, s: nat, c: real, i: nat, j: nat)
    requires s % 2 == 0 && Rect(p, s, s) && Rect(m, |m|, |m|) && Rect(y, |y|, |y|) && s <= |m| == |y| && i < s / 2 && j < s / 2
    requires forall k: nat, t: nat :: k < |m| && t < |m| && (k >= s / 2 || t >= s / 2) ==> y[k][t] == m[k][t]
    requires Details(m, p, s, c, i, j)
    ensures Details(y, p, s, c, i, j)
  {
    hide Times;
  }

  /** From a corner block of scaled sums on, the transform leaves their spectrum. */
  lemma {:induction false} FullSpectrum(m: Mat, p: Mat, s: nat, c: real, r: real)
    requires Rect(m, |m|, |m|) && s <= |m| && PowerOfTwo(s) && Rect(p, s, s) && Holds(m, p, s, c) && IsRoot2(r)
    ensures Spectrum(Full(m, s, r), p, s, c)
    decreases s
  {
    hide Times, Dwt2, Details, PutBlock, Block, Pooled, IsRoot2;
    RootNotZero(r);
    if s > 1 {
      var n := PutBlock(m, s, Dwt2(Block(m, s), s, r));
      forall i: nat, j: nat | i < s / 2 && j < s / 2
        ensures Details(n, p, s, c, i, j) && Times(2.0 * c, n[i][j]) == Pooled(p)[i][j]
      {
        LevelHolds(m, p, s, c, r, i, j);
      }
      FullSpectrum(n, Pooled(p), s / 2, 2.0 * c, r);
      var y := Full(n, s / 2, r);
      forall k: nat, t: nat | k < |n| && t < |n| && (k >= s / 2 || t >= s / 2) ensures y[k][t] == n[k][t] {
        OutsideStays(n, s / 2, r, k, t);
      }
      forall i: nat, j: nat | i < s / 2 && j < s / 2 ensures Details(y, p, s, c, i, j) {
        SpectrumKept(n, y, p, s, c, i, j);
      }
    }
  }

  /** The coefficients of an image are its spectrum. */
  lemma CoefficientsOf(x: Mat, r: real)
    requires Rect(x, |x|, |x|) && PowerOfTwo(|x|) && IsRoot2(r)
    ensures Spectrum(Full(x, |x|, r), x, |x|, 1.0)
  {
    FullSpectrum(x, x, |x|, 1.0, r);
  }

  // ---- in pixels ------------------------------------------------------------------

  function LineSum(a: seq<real>, c: nat, w: nat): real
    requires c + w <= |a|
  {
    if w == 0 then 0.0 else LineSum(a, c, w - 1) + a[c + w - 1]
  }

  /** The sum of the h * w pixels from row t and column c on. */
  function Area(x: Mat, t: nat, c: nat, h: nat, w: nat): real
    requires Rect(x, |x|, |x|) && t + h <= |x| && c + w <= |x|
  {
    if h == 0 then 0.0 else Area(x, t, c, h - 1, w) + LineSum(x[t + h - 1], c, w)
  }

  lemma {:induction false} LineSplit(a: seq<real>, c: nat, w: nat, v: nat)
    requires c + w + v <= |a|
    ensures LineSum(a, c, w + v) == LineSum(a, c, w) + LineSum(a, c + w, v)
  {
    if v > 0 { LineSplit(a, c, w, v - 1); }
  }

  lemma {:induction false} AreaBeside(x: Mat, t: nat, c: nat, h: nat, w: nat, v: nat)
    requires Rect(x, |x|, |x|) && t + h <= |x| && c + w + v <= |x|
    ensures Area(x, t, c, h, w + v) == Area(x, t, c, h, w) + Area(x, t, c + w, h, v)
  {
    if h > 0 {
      AreaBeside(x, t, c, h - 1, w, v);
      LineSplit(x[t + h - 1], c, w, v);
    }
  }

  lemma {:induction false} AreaBelow(x: Mat, t: nat, c: nat, h: nat, g: nat, w: nat)
    requires Rect(x, |x|, |x|) && t + h + g <= |x| && c + w <= |x|
    ensures Area(x, t, c, h + g, w) == Area(x, t, c, h, w) + Area(x, t + h, c, g, w)
  {
    if g > 0 { AreaBelow(x, t, c, h, g - 1, w); }
  }

  /** The first pixel of cell i after k levels, and how many cells there are. */
  function At(i: nat, k: nat): (t: nat)
    decreases k
  {
     if k == 0 then i else At(2 * i, k - 1)
  }

  function Side(n: nat, k: nat): (s: nat) { if k == 0 then n else Side(n, k - 1) / 2 }

  lemma {:induction false} AtNext(i: nat, j: nat, k: nat)
    requires i <= j
    ensures At(i + 1, k) == At(i, k) + Pow2(k) && At(i, k) <= At(j, k)
    decreases k
  {
    if k > 0 {
      AtNext(2 * i, 2 * j, k - 1);
      AtNext(2 * i + 1, 2 * i + 1, k - 1);
    }
  }

  lemma {:induction false} AtIsProduct(i: nat, k: nat)
    ensures At(i, k) == i * Pow2(k)
    decreases k
  {
    if k > 0 {
      AtIsProduct(2 * i, k - 1);
      assert 2 * i * Pow2(k - 1) == i * (2 * Pow2(k - 1));
    }
  }

  lemma {:induction false} AtFits(n: nat, i: nat, k: nat)
    requires i <= Side(n, k)
    ensures At(i, k) <= n
    decreases k
  {
    if k > 0 { AtFits(n, 2 * i, k - 1); }
  }

  lemma CellFits(n: nat, i: nat, k: nat)
    requires i < Side(n, k)
    ensures At(i, k) + Pow2(k) <= n
  {
    AtNext(i, i, k);
    AtFits(n, i + 1, k);
  }

  lemma {:induction false} PooledSide(x: Mat, k: nat)
    requires Rect(x, |x|, |x|)
    ensures |PooledTimes(x, k)| == Side(|x|, k)
  {
    if k > 0 { PooledSide(x, k - 1); }
  }

  /** The sum of the pixels that cell (i, j) stands for after k levels. */
  ghost function CellSum(x: Mat, k: nat, i: nat, j: nat): real
    requires Rect(x, |x|, |x|) && i < Side(|x|, k) && j < Side(|x|, k)
  {
    CellFits(|x|, i, k);
    CellFits(|x|, j, k);
    Area(x, At(i, k), At(j, k), Pow2(k), Pow2(k))
  }

  lemma CellOfFour(x: Mat, k: nat, i: nat, j: nat)
    requires Rect(x, |x|, |x|) && k > 0 && i < Side(|x|, k) && j < Side(|x|, k)
    ensures 2 * i + 1 < Side(|x|, k - 1) && 2 * j + 1 < Side(|x|, k - 1)
    ensures CellSum(x, k, i, j)
         == CellSum(x, k - 1, 2 * i, 2 * j) + CellSum(x, k - 1, 2 * i, 2 * j + 1)
          + CellSum(x, k - 1, 2 * i + 1, 2 * j) + CellSum(x, k - 1, 2 * i + 1, 2 * j + 1)
  {
    hide Area;
    AtNext(2 * i, 2 * i, k - 1);
    AtNext(2 * j, 2 * j, k - 1);
    CellFits(|x|, i, k);
    CellFits(|x|, j, k);
    FourAreas(x, At(i, k), At(j, k), Pow2(k - 1), Pow2(k - 1));
  }

  lemma PooledCell(p: Mat, i: nat, j: nat)
    requires Rect(p, |p|, |p|) && i < |p| / 2 && j < |p| / 2
    ensures Pooled(p)[i][j] == p[2 * i][2 * j] + p[2 * i][2 * j + 1] + p[2 * i + 1][2 * j] + p[2 * i + 1][2 * j + 1]
  {
  }

  /** Pooled k times, a cell is the sum of the 2^k * 2^k pixels it stands for. */
  lemma {:induction false} PooledIsArea(x: Mat, k: nat, i: nat, j: nat)
    requires Rect(x, |x|, |x|) && i < Side(|x|, k) && j < Side(|x|, k)
    ensures |PooledTimes(x, k)| == Side(|x|, k) && PooledTimes(x, k)[i][j] == CellSum(x, k, i, j)
    decreases k
  {
    hide CellSum, Pooled;
    PooledSide(x, k);
    if k == 0 {
      OnePixel(x, i, j);
      NoLevel(x, i, j);
    } else {
      var a, b := 2 * i, 2 * j;
      CellOfFour(x, k, i, j);
      PooledIsArea(x, k - 1, a, b);
      PooledIsArea(x, k - 1, a, b + 1);
      PooledIsArea(x, k - 1, a + 1, b);
      PooledIsArea(x, k - 1, a + 1, b + 1);
      PooledCell(PooledTimes(x, k - 1), i, j);
    }
  }

  lemma NoLevel(x: Mat, i: nat, j: nat)
    requires Rect(x, |x|, |x|) && i < |x| && j < |x|
    ensures CellSum(x, 0, i, j) == Area(x, i, j, 1, 1)
  {
  }

  lemma OnePixel(x: Mat, i: nat, j: nat)
    requires Rect(x, |x|, |x|) && i < |x| && j < |x|
    ensures Area(x, i, j, 1, 1) == x[i][j]
  {
    assert Area(x, i, j, 0, 1) == 0.0 && LineSum(x[i], j, 0) == 0.0;
  }

  lemma FourAreas(x: Mat, t: nat, c: nat, h: nat, w: nat)
    requires Rect(x, |x|, |x|) && t + 2 * h <= |x| && c + 2 * w <= |x|
    ensures Area(x, t, c, 2 * h, w) == Area(x, t, c, h, w) + Area(x, t + h, c, h, w)
    ensures Area(x, t, c + w, 2 * h, w) == Area(x, t, c + w, h, w) + Area(x, t + h, c + w, h, w)
    ensures Area(x, t, c, h, 2 * w) == Area(x, t, c, h, w) + Area(x, t, c + w, h, w)
    ensures Area(x, t + h, c, h, 2 * w) == Area(x, t + h, c, h, w) + Area(x, t + h, c + w, h, w)
    ensures Area(x, t, c, 2 * h, 2 * w) == Area(x, t, c, 2 * h, w) + Area(x, t, c + w, 2 * h, w)
  {
    AreaBelow(x, t, c, h, h, w);
    AreaBelow(x, t, c + w, h, h, w);
    AreaBeside(x, t, c, h, w, w);
    AreaBeside(x, t + h, c, h, w, w);
    AreaBeside(x, t, c, 2 * h, w, w);
  }

  function Scale(k: nat): (c: real) { if k == 0 then 1.0 else 2.0 * Scale(k - 1) }

  lemma {:induction false} SpectrumAt(y: Mat, x: Mat, k: nat)
    requires Rect(x, |x|, |x|) && PowerOfTwo(|x|) && Rect(y, |x|, |x|) && Spectrum(y, x, |x|, 1.0) && Side(|x|, k) > 0
    ensures |PooledTimes(x, k)| == Side(|x|, k) && PowerOfTwo(Side(|x|, k)) && Side(|x|, k) <= |x|
    ensures Spectrum(y, PooledTimes(x, k), Side(|x|, k), Scale(k))
  {
    hide Details;
    PooledSide(x, k);
    if k > 0 { SpectrumAt(y, x, k - 1); }
  }

  /** The four cells in a square, after k levels, and the square itself. */
  lemma SquareOfCells(x: Mat, k: nat, i: nat, j: nat)
    requires Rect(x, |x|, |x|) && i < Side(|x|, k) / 2 && j < Side(|x|, k) / 2
    ensures var t, c, w := At(2 * i, k), At(2 * j, k), Pow2(k);
      && t + 2 * w <= |x| && c + 2 * w <= |x|
      && CellSum(x, k, 2 * i, 2 * j) == Area(x, t, c, w, w)
      && CellSum(x, k, 2 * i, 2 * j + 1) == Area(x, t, c + w, w, w)
      && CellSum(x, k, 2 * i + 1, 2 * j) == Area(x, t + w, c, w, w)
      && CellSum(x, k, 2 * i + 1, 2 * j + 1) == Area(x, t + w, c + w, w, w)
  {
    hide Area;
    AtNext(2 * i, 2 * i, k);
    AtNext(2 * j, 2 * j, k);
    CellFits(|x|, 2 * i + 1, k);
    CellFits(|x|, 2 * j + 1, k);
  }

  lemma DetailsOfCells(x: Mat, r: real, k: nat, i: nat, j: nat)
    requires Rect(x, |x|, |x|) && PowerOfTwo(|x|) && IsRoot2(r) && i < Side(|x|, k) / 2 && j < Side(|x|, k) / 2
    ensures var y, l := Full(x, |x|, r), Side(|x|, k) / 2;
      var a, b := CellSum(x, k, 2 * i, 2 * j), CellSum(x, k, 2 * i, 2 * j + 1);
      var d, e := CellSum(x, k, 2 * i + 1, 2 * j), CellSum(x, k, 2 * i + 1, 2 * j + 1);
      && 2 * l <= |x|
      && Times(Scale(k + 1), y[i][l + j]) == (a + d) - (b + e)
      && Times(Scale(k + 1), y[l + i][j]) == (a + b) - (d + e)
      && Times(Scale(k + 1), y[l + i][l + j]) == (a + e) - (b + d)
  {
    hide Times, Full, IsRoot2, CellSum, PooledTimes, Details, Spectrum, Side, PowerOfTwo;
    RootNotZero(r);
    CoefficientsOf(x, r);
    SpectrumAt(Full(x, |x|, r), x, k);
    SpectrumDetails(Full(x, |x|, r), PooledTimes(x, k), Side(|x|, k), Scale(k), i, j);
    PooledIsArea(x, k, 2 * i, 2 * j);
    PooledIsArea(x, k, 2 * i, 2 * j + 1);
    PooledIsArea(x, k, 2 * i + 1, 2 * j);
    PooledIsArea(x, k, 2 * i + 1, 2 * j + 1);
    DetailsMean(Full(x, |x|, r), PooledTimes(x, k), Side(|x|, k), Scale(k), i, j);
  }

  lemma SpectrumDetails(y: Mat, p: Mat, s: nat, c: real, i: nat, j: nat)
    requires PowerOfTwo(s) && Rect(p, s, s) && Rect(y, |y|, |y|) && s <= |y| && Spectrum(y, p, s, c) && i < s / 2 && j < s / 2
    ensures s % 2 == 0 && Details(y, p, s, c, i, j)
  {
    hide Details, Pooled;
  }

  lemma DetailsMean(y: Mat, p: Mat, s: nat, c: real, i: nat, j: nat)
    requires s % 2 == 0 && Rect(p, s, s) && Rect(y, |y|, |y|) && s <= |y| && i < s / 2 && j < s / 2 && Details(y, p, s, c, i, j)
    ensures var l := s / 2;
      var a, b, d, e := p[2 * i][2 * j], p[2 * i][2 * j + 1], p[2 * i + 1][2 * j], p[2 * i + 1][2 * j + 1];
      && Times(2.0 * c, y[i][l + j]) == (a + d) - (b + e)
      && Times(2.0 * c, y[l + i][j]) == (a + b) - (d + e)
      && Times(2.0 * c, y[l + i][l + j]) == (a + e) - (b + d)
  {
    hide Times;
  }

  /** The details of level k + 1: 2^(k + 1) times a coefficient is the sum of the pixels in the left half of its square
      less that of the right half, or upper less lower, or one diagonal less the other. The square has side 2^(k + 1) and
      begins at pixel (2 * i * 2^k, 2 * j * 2^k). */
  lemma DetailsOf(x: Mat, r: real, k: nat, i: nat, j: nat)
    requires Rect(x, |x|, |x|) && PowerOfTwo(|x|) && IsRoot2(r) && i < Side(|x|, k) / 2 && j < Side(|x|, k) / 2
    ensures var y, l, t, c, w := Full(x, |x|, r), Side(|x|, k) / 2, At(2 * i, k), At(2 * j, k), Pow2(k);
      && t + 2 * w <= |x| && c + 2 * w <= |x| && 2 * l <= |x|
      && Times(Scale(k + 1), y[i][l + j]) == Area(x, t, c, 2 * w, w) - Area(x, t, c + w, 2 * w, w)
      && Times(Scale(k + 1), y[l + i][j]) == Area(x, t, c, w, 2 * w) - Area(x, t + w, c, w, 2 * w)
      && Times(Scale(k + 1), y[l + i][l + j])
         == (Area(x, t, c, w, w) + Area(x, t + w, c + w, w, w)) - (Area(x, t, c + w, w, w) + Area(x, t + w, c, w, w))
  {
    hide Times, Full, IsRoot2, Area, CellSum;
    DetailsOfCells(x, r, k, i, j);
    SquareOfCells(x, k, i, j);
    FourAreas(x, At(2 * i, k), At(2 * j, k), Pow2(k), Pow2(k));
  }

  lemma {:induction false} AreaOfEqual(x: Mat, t: nat, c: nat, h: nat, w: nat, v: real)
    requires Rect(x, |x|, |x|) && t + h <= |x| && c + w <= |x|
    requires forall a, b :: t <= a < t + h && c <= b < c + w ==> x[a][b] == v
    ensures Area(x, t, c, h, w) == Times(h as real, Times(w as real, v))
  {
    if h > 0 {
      AreaOfEqual(x, t, c, h - 1, w, v);
      LineOfEqual(x[t + h - 1], c, w, v);
      OneMore(h, Times(w as real, v));
    }
  }

  lemma OneMore(n: nat, v: real)
    requires n > 0
    ensures Times(n as real, v) == Times((n - 1) as real, v) + v
  {
    assert n as real == (n - 1) as real + 1.0;
  }

  lemma {:induction false} LineOfEqual(a: seq<real>, c: nat, w: nat, v: real)
    requires c + w <= |a| && forall b :: c <= b < c + w ==> a[b] == v
    ensures LineSum(a, c, w) == Times(w as real, v)
  {
    if w > 0 {
      LineOfEqual(a, c, w - 1, v);
      OneMore(w, v);
    }
  }

  lemma {:induction false} ScalePositive(k: nat)
    ensures Scale(k) > 0.0
  {
    if k > 0 { ScalePositive(k - 1); }
  }

  lemma NoDetail(c: real, v: real)
    requires c > 0.0 && Times(c, v) == 0.0
    ensures v == 0.0
  {
    Opposite(c, v);
    if v > 0.0 {
      PositiveProduct(c, v);
    } else if v < 0.0 {
      PositiveProduct(c, -v);
    }
  }

  lemma Opposite(c: real, v: real)
    ensures Times(c, -v) == -Times(c, v)
  {
  }

  /** Where all pixels of the square are equal, its details are zero. */
  lemma FlatHasNoDetails(x: Mat, r: real, k: nat, i: nat, j: nat, v: real)
    requires Rect(x, |x|, |x|) && PowerOfTwo(|x|) && IsRoot2(r) && i < Side(|x|, k) / 2 && j < Side(|x|, k) / 2
    requires var t, c, w := At(2 * i, k), At(2 * j, k), Pow2(k);
      forall a, b :: t <= a < t + 2 * w && c <= b < c + 2 * w && a < |x| && b < |x| ==> x[a][b] == v
    ensures var y, l := Full(x, |x|, r), Side(|x|, k) / 2;
      2 * l <= |x| && y[i][l + j] == 0.0 && y[l + i][j] == 0.0 && y[l + i][l + j] == 0.0
  {
    hide Times, Full, IsRoot2, Scale, Area, CellSum;
    DetailsOfCells(x, r, k, i, j);
    SquareOfCells(x, k, i, j);
    var t, c, w := At(2 * i, k), At(2 * j, k), Pow2(k);
    AreaOfEqual(x, t, c, w, w, v);
    AreaOfEqual(x, t, c + w, w, w, v);
    AreaOfEqual(x, t + w, c, w, w, v);
    AreaOfEqual(x, t + w, c + w, w, w, v);
    ScalePositive(k + 1);
    RootNotZero(r);
    var y, l := Full(x, |x|, r), Side(|x|, k) / 2;
    NoDetail(Scale(k + 1), y[i][l + j]);
    NoDetail(Scale(k + 1), y[l + i][j]);
    NoDetail(Scale(k + 1), y[l + i][l + j]);
  }

  // ---- the first coefficient ------------------------------------------------------

  lemma {:induction false} FirstOfSpectrum(y: Mat, p: Mat, s: nat, c: real, total: real)
    requires PowerOfTwo(s) && Rect(p, s, s) && Rect(y, |y|, |y|) && s <= |y| && Spectrum(y, p, s, c) && Area(p, 0, 0, s, s) == total
    ensures Times(Times(c, s as real), y[0][0]) == total
    decreases s
  {
    hide Details, Area, Times;
    if s == 1 {
      OnePixel(p, 0, 0);
      HalfTwice(c, c, 0, 1);
    } else {
      var h, k := s / 2, 2.0 * c;
      PooledTotal(p, h, h);
      FirstOfSpectrum(y, Pooled(p), h, k, total);
      HalfTwice(c, k, h, s);
    }
  }

  lemma HalfTwice(c: real, k: real, h: nat, s: nat)
    ensures s == 2 * h && k == 2.0 * c ==> Times(k, h as real) == Times(c, s as real)
    ensures Times(c, 1 as real) == c
  {
    if s == 2 * h && k == 2.0 * c {
      assert s as real == 2.0 * (h as real);
      assert 2.0 * c * (h as real) == c * (2.0 * (h as real));
    }
  }

  lemma {:induction false} PooledLines(p: Mat, i: nat, w: nat)
    requires Rect(p, |p|, |p|) && i < |p| / 2 && w <= |p| / 2
    ensures LineSum(Pooled(p)[i], 0, w) == LineSum(p[2 * i], 0, 2 * w) + LineSum(p[2 * i + 1], 0, 2 * w)
  {
    if w > 0 {
      PooledLines(p, i, w - 1);
      PooledCell(p, i, w - 1);
      TwoMore(p[2 * i], w);
      TwoMore(p[2 * i + 1], w);
    }
  }

  lemma TwoMore(a: seq<real>, w: nat)
    requires 0 < 2 * w <= |a|
    ensures LineSum(a, 0, 2 * w) == LineSum(a, 0, 2 * (w - 1)) + a[2 * (w - 1)] + a[2 * (w - 1) + 1]
  {
    assert LineSum(a, 0, 2 * w) == LineSum(a, 0, 2 * w - 1) + a[2 * w - 1];
    assert LineSum(a, 0, 2 * w - 1) == LineSum(a, 0, 2 * w - 2) + a[2 * w - 2];
  }

  /** Pooling keeps the sum of all cells. */
  lemma {:induction false} PooledTotal(p: Mat, h: nat, w: nat)
    requires Rect(p, |p|, |p|) && h <= |p| / 2 && w <= |p| / 2
    ensures Area(Pooled(p), 0, 0, h, w) == Area(p, 0, 0, 2 * h, 2 * w)
  {
    hide LineSum, Pooled;
    if h > 0 {
      PooledTotal(p, h - 1, w);
      PooledLines(p, h - 1, w);
      assert Area(p, 0, 0, 2 * h, 2 * w) == Area(p, 0, 0, 2 * h - 1, 2 * w) + LineSum(p[2 * h - 1], 0, 2 * w);
      assert Area(p, 0, 0, 2 * h - 1, 2 * w) == Area(p, 0, 0, 2 * h - 2, 2 * w) + LineSum(p[2 * h - 2], 0, 2 * w);
    }
  }

  /** The side of the image times the first coefficient is the sum of all pixels. */
  lemma FirstIsTotal(x: Mat, r: real)
    requires Rect(x, |x|, |x|) && PowerOfTwo(|x|) && IsRoot2(r)
    ensures Times(|x| as real, Full(x, |x|, r)[0][0]) == Area(x, 0, 0, |x|, |x|)
  {
    hide Times, Full, IsRoot2, Area, Spectrum;
    RootNotZero(r);
    CoefficientsOf(x, r);
    FirstOfSpectrum(Full(x, |x|, r), x, |x|, 1.0, Area(x, 0, 0, |x|, |x|));
    TimesOne(|x| as real);
  }

  lemma TimesOne(v: real)
    ensures Times(1.0, v) == v
  {
  }

  // ---- between the levels ---------------------------------------------------------

  lemma {:induction false} SidePower(n: nat, k: nat)
    requires PowerOfTwo(n) && Side(n, k) > 0
    ensures PowerOfTwo(Side(n, k)) && Side(n, k) <= n
    ensures k > 0 ==> Side(n, k - 1) == 2 * Side(n, k) && PowerOfTwo(Side(n, k - 1)) && Side(n, k - 1) <= n
  {
    if k > 0 { SidePower(n, k - 1); }
  }

  /** The image after k of the levels. */
  ghost function AfterLevels(x: Mat, k: nat, r: real): (m: Mat)
    requires Rect(x, |x|, |x|) && PowerOfTwo(|x|) && Side(|x|, k) > 0 && r != 0.0
    ensures Rect(m, |x|, |x|)
  {
    if k == 0 then x
    else
      SidePower(|x|, k);
      var m, s := AfterLevels(x, k - 1, r), Side(|x|, k - 1);
      PutBlock(m, s, Dwt2(Block(m, s), s, r))
  }

  lemma {:induction false} LevelsHold(x: Mat, k: nat, r: real)
    requires Rect(x, |x|, |x|) && PowerOfTwo(|x|) && Side(|x|, k) > 0 && IsRoot2(r)
    ensures |PooledTimes(x, k)| == Side(|x|, k) <= |x| && r != 0.0
    ensures Holds(AfterLevels(x, k, r), PooledTimes(x, k), Side(|x|, k), Scale(k))
  {
    hide Times, Dwt2, Details, PutBlock, Block, Pooled, IsRoot2;
    RootNotZero(r);
    PooledSide(x, k);
    SidePower(|x|, k);
    if k > 0 {
      LevelsHold(x, k - 1, r);
      var m, p, s, c := AfterLevels(x, k - 1, r), PooledTimes(x, k - 1), Side(|x|, k - 1), Scale(k - 1);
      forall i: nat, j: nat | i < s / 2 && j < s / 2
        ensures Times(2.0 * c, PutBlock(m, s, Dwt2(Block(m, s), s, r))[i][j]) == Pooled(p)[i][j]
      {
        LevelHolds(m, p, s, c, r, i, j);
      }
    } else {
      forall i, j | 0 <= i < |x| && 0 <= j < |x| ensures Times(1.0, x[i][j]) == x[i][j] { TimesOne(x[i][j]); }
    }
  }

  /** After k levels 2^k times a cell of the corner block is the sum of the 2^k * 2^k pixels it stands for. */
  lemma CornerIsSums(x: Mat, k: nat, r: real, i: nat, j: nat)
    requires Rect(x, |x|, |x|) && PowerOfTwo(|x|) && IsRoot2(r) && i < Side(|x|, k) && j < Side(|x|, k)
    ensures Side(|x|, k) <= |x| && At(i, k) + Pow2(k) <= |x| && At(j, k) + Pow2(k) <= |x|
    ensures Times(Scale(k), AfterLevels(x, k, r)[i][j]) == Area(x, At(i, k), At(j, k), Pow2(k), Pow2(k))
  {
    hide Times, IsRoot2, AfterLevels, PooledTimes, Area;
    LevelsHold(x, k, r);
    PooledIsArea(x, k, i, j);
    CellFits(|x|, i, k);
    CellFits(|x|, j, k);
  }

  /** And the levels that are left make the whole transform of it. */
  lemma {:induction false} LevelsLeft(x: Mat, k: nat, r: real)
    requires Rect(x, |x|, |x|) && PowerOfTwo(|x|) && Side(|x|, k) > 0 && r != 0.0
    ensures PowerOfTwo(Side(|x|, k)) && Side(|x|, k) <= |x|
    ensures Full(x, |x|, r) == Full(AfterLevels(x, k, r), Side(|x|, k), r)
  {
    hide Dwt2, PutBlock, Block, Full;
    SidePower(|x|, k);
    if k > 0 {
      LevelsLeft(x, k - 1, r);
      FullStep(AfterLevels(x, k - 1, r), Side(|x|, k - 1), r);
    } else {
      assert AfterLevels(x, 0, r) == x;
    }
  }

  lemma FullStep(m: Mat, s: nat, r: real)
    requires Rect(m, |m|, |m|) && s <= |m| && PowerOfTwo(s) && s > 1 && r != 0.0
    ensures Full(m, s, r) == Full(PutBlock(m, s, Dwt2(Block(m, s), s, r)), s / 2, r)
  {
  }

  /** On flat images, as the array code leaves them. */
  lemma FlatSpectrum(x: seq<real>, n: nat, r: real)
    requires SquareImage(x, n) && IsRoot2(r)
    ensures r != 0.0 && Spectrum(Rows2D(W(x, n, r), n, n), Rows2D(x, n, n), n, 1.0)
  {
    hide Spectrum, Full;
    RootNotZero(r);
    CoefficientsOf(Rows2D(x, n, n), r);
    FlattenRows(Full(Rows2D(x, n, n), n, r), n);
  }
}
