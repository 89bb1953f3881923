/** Images as the flat row-major arrays of brain.c, and the full transforms on them. The laws of Haar are about
    matrices; here they are carried over to flat square images, where a row is a stretch of the array and the
    inner product runs over all pixels. */
module Image {
  import opened Vectors
  import opened Haar

  /** The number of cells in n rows of width w, n * w, built up row by row. */
  function Cells(n: nat, w: nat): nat {
    if n == 0 then 0 else Cells(n - 1, w) + w
  }

  lemma {:induction false} CellsIsProduct(n: nat, w: nat)
    ensures Cells(n, w) == n * w
  {
    if n > 0 {
      CellsIsProduct(n - 1, w);
      assert (n - 1) * w + w == n * w;
    }
  }

  lemma {:induction false} RowFits(i: nat, h: nat, w: nat)
    requires i < h
    ensures Cells(i, w) + w <= Cells(h, w)
    decreases h
  {
    if i < h - 1 { RowFits(i, h - 1, w); }
  }

  lemma {:induction false} CellsTail(n: nat, w: nat)
    requires n > 0
    ensures Cells(n, w) == w + Cells(n - 1, w)
  {
  }

  /** Row i of the h rows of width w held at the front of a flat sequence. */
  function Row(x: seq<real>, w: nat, h: nat, i: nat): (row: seq<real>)
    requires Cells(h, w) <= |x| && i < h
    ensures |row| == w
  {
    RowFits(i, h, w);
    x[Cells(i, w)..Cells(i, w) + w]
  }

  function Rows2D(x: seq<real>, w: nat, h: nat): (m: Mat)
    requires Cells(h, w) <= |x|
    ensures Rect(m, h, w)
  {
    seq(h, i requires 0 <= i < h => Row(x, w, h, i))
  }

  function Flatten(m: Mat): seq<real> {
    if |m| == 0 then [] else m[0] + Flatten(m[1..])
  }

  // Dropping the first row of a flat sequence drops the first row of the matrix.
  lemma TailRow(x: seq<real>, w: nat, h: nat, i: nat)
    requires i + 1 < h && Cells(h, w) <= |x|
    ensures w <= |x| && Cells(h - 1, w) <= |x[w..]|
    ensures Row(x, w, h, i + 1) == Row(x[w..], w, h - 1, i)
  {
    RowFits(i + 1, h, w);
    RowFits(i, h - 1, w);
    CellsTail(h, w);
  }

  lemma TailRows(x: seq<real>, w: nat, h: nat)
    requires 0 < h && Cells(h, w) <= |x|
    ensures w <= |x| && Cells(h - 1, w) <= |x[w..]|
    ensures Rows2D(x, w, h) == [x[..w]] + Rows2D(x[w..], w, h - 1)
  {
    CellsTail(h, w);
    var m, n := Rows2D(x, w, h), [x[..w]] + Rows2D(x[w..], w, h - 1);
    forall k | 0 <= k < h ensures m[k] == n[k] {
      if k > 0 { TailRow(x, w, h, k - 1); }
    }
  }

  lemma {:induction false} FlattenRows(m: Mat, w: nat)
    requires Rect(m, |m|, w)
    ensures |Flatten(m)| == Cells(|m|, w)
    ensures Rows2D(Flatten(m), w, |m|) == m
  {
    if |m| > 0 {
      FlattenRows(m[1..], w);
      TailRows(Flatten(m), w, |m|);
      assert Flatten(m)[w..] == Flatten(m[1..]);
      assert Flatten(m)[..w] == m[0];
    }
  }

  lemma {:induction false} RowsFlatten(x: seq<real>, w: nat, h: nat)
    requires Cells(h, w) == |x|
    ensures Flatten(Rows2D(x, w, h)) == x
    decreases h
  {
    if h > 0 {
      TailRows(x, w, h);
      CellsTail(h, w);
      RowsFlatten(x[w..], w, h - 1);
      assert Rows2D(x, w, h)[1..] == Rows2D(x[w..], w, h - 1);
    }
  }

  lemma {:induction false} FlattenDot(m: Mat, n: Mat, w: nat)
    requires |m| == |n| && Rect(m, |m|, w) && Rect(n, |n|, w)
    ensures |Flatten(m)| == |Flatten(n)|
    ensures Dot(Flatten(m), Flatten(n)) == DotM(m, n)
  {
    if |m| > 0 {
      FlattenDot(m[1..], n[1..], w);
      DotConcat(m[0], n[0], Flatten(m[1..]), Flatten(n[1..]));
    }
  }

  // ---- the transforms on flat square images ---------------------------------------

  ghost predicate SquareImage(x: seq<real>, n: nat) { |x| == Cells(n, n) && PowerOfTwo(n) }

  /** What dwt2_full leaves in an n by n image. */
  ghost function W(x: seq<real>, n: nat, r: real): (y: seq<real>)
    requires SquareImage(x, n) && r != 0.0
    ensures SquareImage(y, n)
  {
    var m := Full(Rows2D(x, n, n), n, r);
    FlattenRows(m, n);
    Flatten(m)
  }

  /** What idwt2_full leaves in an n by n image. */
  ghost function WInv(x: seq<real>, n: nat, r: real): (y: seq<real>)
    requires SquareImage(x, n) && r != 0.0
    ensures SquareImage(y, n)
  {
    var m := IFull(Rows2D(x, n, n), n, r);
    FlattenRows(m, n);
    Flatten(m)
  }

  /** Perfect reconstruction, in both orders, for every square image of side a power of two. */
  lemma PerfectReconstruction(x: seq<real>, n: nat, r: real)
    requires SquareImage(x, n) && IsRoot2(r)
    ensures WInv(W(x, n, r), n, r) == x
    ensures W(WInv(x, n, r), n, r) == x
  {
    var m := Rows2D(x, n, n);
    FlattenRows(Full(m, n, r), n);
    FlattenRows(IFull(m, n, r), n);
    IFullFull(m, n, r);
    FullIFull(m, n, r);
    RowsFlatten(x, n, n);
  }

  /** The transform is orthonormal and its inverse is its transpose. */
  lemma Orthonormal(x: seq<real>, z: seq<real>, n: nat, r: real)
    requires SquareImage(x, n) && SquareImage(z, n) && IsRoot2(r)
    ensures Dot(W(x, n, r), W(z, n, r)) == Dot(x, z)
    ensures Dot(WInv(x, n, r), WInv(z, n, r)) == Dot(x, z)
    ensures Dot(W(x, n, r), z) == Dot(x, WInv(z, n, r))
  {
    WIsometry(x, z, n, r);
    WIsometry(WInv(x, n, r), WInv(z, n, r), n, r);
    WIsometry(x, WInv(z, n, r), n, r);
    PerfectReconstruction(x, n, r);
    PerfectReconstruction(z, n, r);
  }

  lemma WIsometry(x: seq<real>, z: seq<real>, n: nat, r: real)
    requires SquareImage(x, n) && SquareImage(z, n) && IsRoot2(r)
    ensures Dot(W(x, n, r), W(z, n, r)) == Dot(x, z)
  {
    var m, k := Rows2D(x, n, n), Rows2D(z, n, n);
    RowsFlatten(x, n, n);
    RowsFlatten(z, n, n);
    FlattenDot(m, k, n);
    FlattenDot(Full(m, n, r), Full(k, n, r), n);
    FullIsometry(m, k, n, r);
  }
}
