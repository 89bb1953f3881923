/** The array code of brain.c: helpers on rows, columns and corner blocks, and the one-level and full
    transforms in place. Every method is tied to the functions of Haar and Image on the values of its arrays,
    and says what it leaves as it was. */
module Brain {
  import opened Vectors
  import opened Haar
  import opened Image

  // ---- one cell of a flat array ---------------------------------------------------

  lemma CellIndex(i: nat, j: nat, w: nat, h: nat)
    requires i < h && j < w
    ensures i * w == Cells(i, w) && Cells(i, w) + w <= Cells(h, w)
  {
    CellsIsProduct(i, w);
    RowFits(i, h, w);
  }

  lemma SetCell(a: seq<real>, w: nat, h: nat, i: nat, j: nat, v: real)
    requires i < h && j < w && Cells(h, w) <= |a|
    ensures i * w == Cells(i, w) && Cells(i, w) + j < |a|
    ensures Rows2D(a[Cells(i, w) + j := v], w, h) == Rows2D(a, w, h)[i := Rows2D(a, w, h)[i][j := v]]
  {
    CellIndex(i, j, w, h);
    var b := a[Cells(i, w) + j := v];
    var m, n := Rows2D(a, w, h), Rows2D(b, w, h);
    forall k | 0 <= k < h ensures n[k] == m[i := m[i][j := v]][k] {
      RowFits(k, h, w);
      if k < i { RowFits(k, i, w); }
      if i < k { RowFits(i, k, w); }
    }
  }

  lemma GetCell(a: seq<real>, w: nat, h: nat, i: nat, j: nat)
    requires i < h && j < w && Cells(h, w) <= |a|
    ensures i * w == Cells(i, w) && Cells(i, w) + j < |a|
    ensures a[Cells(i, w) + j] == Rows2D(a, w, h)[i][j]
  {
    CellIndex(i, j, w, h);
  }

  // ---- rows and columns -----------------------------------------------------------

  method GetRow(input: array<real>, row: nat, out: array<real>, width: nat, height: nat)
    requires row < height && Cells(height, width) <= input.Length && width <= out.Length && input != out
    modifies out
    ensures out[..width] == Rows2D(input[..], width, height)[row]
  {
    ghost var m := Rows2D(input[..], width, height);
    for x := 0 to width
      invariant input[..] == old(input[..])
      invariant out[..x] == m[row][..x]
    {
      GetCell(input[..], width, height, row, x);
      out[x] := input[row * width + x];
    }
  }

  method GetCol(input: array<real>, col: nat, out: array<real>, width: nat, height: nat)
    requires col < width && Cells(height, width) <= input.Length && height <= out.Length && input != out
    modifies out
    ensures out[..height] == Column(Rows2D(input[..], width, height), col, width)
  {
    ghost var m := Rows2D(input[..], width, height);
    for y := 0 to height
      invariant input[..] == old(input[..])
      invariant out[..y] == Column(m, col, width)[..y]
    {
      GetCell(input[..], width, height, y, col);
      out[y] := input[y * width + col];
    }
  }

  // One write of putRowIn.
  lemma RowCell(a: seq<real>, m: Mat, w: nat, i: nat, row: seq<real>, x: nat)
    requires Rect(m, |m|, w) && i < |m| && x < w <= |row| && Cells(|m|, w) <= |a|
    requires Rows2D(a, w, |m|) == m[i := row[..x] + m[i][x..]]
    ensures i * w == Cells(i, w) && Cells(i, w) + x < |a|
    ensures Rows2D(a[Cells(i, w) + x := row[x]], w, |m|) == m[i := row[..x + 1] + m[i][x + 1..]]
  {
    SetCell(a, w, |m|, i, x, row[x]);
    assert (row[..x] + m[i][x..])[x := row[x]] == row[..x + 1] + m[i][x + 1..];
  }

  method PutRowIn(row: array<real>, rowNumber: nat, arr: array<real>, width: nat, height: nat)
    requires rowNumber < height && Cells(height, width) <= arr.Length && width <= row.Length && row != arr
    modifies arr
    ensures Rows2D(arr[..], width, height) == old(Rows2D(arr[..], width, height))[rowNumber := row[..width]]
  {
    ghost var m := Rows2D(arr[..], width, height);
    assert row[..0] + m[rowNumber][0..] == m[rowNumber];
    for x := 0 to width
      invariant row[..] == old(row[..])
      invariant Rows2D(arr[..], width, height) == m[rowNumber := row[..x] + m[rowNumber][x..]]
    {
      RowCell(arr[..], m, width, rowNumber, row[..], x);
      ghost var was := arr[..];
      arr[rowNumber * width + x] := row[x];
      assert arr[..] == was[Cells(rowNumber, width) + x := row[x]];
    }
    assert row[..width] + m[rowNumber][width..] == row[..width];
  }

  /** Column j of the first |c| rows replaced by c. */
  function WithColumn(m: Mat, w: nat, j: nat, c: seq<real>): (n: Mat)
    requires Rect(m, |m|, w) && j < w && |c| <= |m|
    ensures Rect(n, |m|, w)
  {
    seq(|m|, i requires 0 <= i < |m| => if i < |c| then m[i][j := c[i]] else m[i])
  }

  // One write of putColIn.
  lemma ColumnCell(a: seq<real>, m: Mat, w: nat, j: nat, c: seq<real>, y: nat)
    requires Rect(m, |m|, w) && y < |m| && j < w && |m| <= |c| && Cells(|m|, w) <= |a|
    requires Rows2D(a, w, |m|) == WithColumn(m, w, j, c[..y])
    ensures y * w == Cells(y, w) && Cells(y, w) + j < |a|
    ensures Rows2D(a[Cells(y, w) + j := c[y]], w, |m|) == WithColumn(m, w, j, c[..y + 1])
  {
    SetCell(a, w, |m|, y, j, c[y]);
    assert WithColumn(m, w, j, c[..y + 1]) == WithColumn(m, w, j, c[..y])[y := m[y][j := c[y]]];
  }

  method PutColIn(col: array<real>, colNumber: nat, arr: array<real>, width: nat, height: nat)
    requires colNumber < width && Cells(height, width) <= arr.Length && height <= col.Length && col != arr
    modifies arr
    ensures Rows2D(arr[..], width, height)
         == WithColumn(old(Rows2D(arr[..], width, height)), width, colNumber, col[..height])
  {
    ghost var m := Rows2D(arr[..], width, height);
    assert WithColumn(m, width, colNumber, col[..0]) == m;
    for y := 0 to height
      invariant col[..] == old(col[..])
      invariant Rows2D(arr[..], width, height) == WithColumn(m, width, colNumber, col[..y])
    {
      ColumnCell(arr[..], m, width, colNumber, col[..], y);
      ghost var was := arr[..];
      arr[y * width + colNumber] := col[y];
      assert arr[..] == was[Cells(y, width) + colNumber := col[y]];
    }
  }

  // ---- corner blocks --------------------------------------------------------------

  // The inner loop of copyPartsOfArray: the first maxX cells of row y.
  method CopyRow(input: array<real>, out: array<real>, start: nat, y: nat, maxX: nat,
                 width: nat, ghost height: nat, ghost maxY: nat) returns (i: nat)
    requires maxX <= width && y < maxY <= height && Cells(height, width) <= input.Length
    requires Cells(maxY, maxX) <= out.Length && input != out && start == Cells(y, maxX)
    modifies out
    ensures i == Cells(y + 1, maxX)
    ensures Rows2D(out[..], maxX, maxY)
         == old(Rows2D(out[..], maxX, maxY))[y := Rows2D(input[..], width, height)[y][..maxX]]
  {
    ghost var c, n := input[..], Rows2D(out[..], maxX, maxY);
    ghost var row := Rows2D(c, width, height)[y];
    i := start;
    var base := y * width;
    assert row[..0] + n[y][0..] == n[y];
    for x := 0 to maxX
      invariant input[..] == c
      invariant i == start + x
      invariant Rows2D(out[..], maxX, maxY) == n[y := row[..x] + n[y][x..]]
    {
      ghost var o := out[..];
      GetCell(c, width, height, y, x);
      RowCell(o, n, maxX, y, row, x);
      out[i] := input[base + x];
      assert out[..] == o[i := row[x]];
      i := i + 1;
    }
    assert row[..maxX] + n[y][maxX..] == row[..maxX];
  }

  method CopyPartsOfArray(input: array<real>, out: array<real>, maxX: nat, maxY: nat, width: nat, height: nat)
    requires maxX <= width && maxY <= height && Cells(height, width) <= input.Length
    requires Cells(maxY, maxX) <= out.Length && input != out
    modifies out
    ensures forall i :: 0 <= i < maxY ==>
      Rows2D(out[..], maxX, maxY)[i] == Rows2D(input[..], width, height)[i][..maxX]
  {
    ghost var m := Rows2D(input[..], width, height);
    var i := 0;
    for y := 0 to maxY
      invariant input[..] == old(input[..])
      invariant i == Cells(y, maxX)
      invariant forall k :: 0 <= k < y ==> Rows2D(out[..], maxX, maxY)[k] == m[k][..maxX]
    {
      i := CopyRow(input, out, i, y, maxX, width, height, maxY);
    }
  }

  // The inner loop of copyPartsOfArrayInverse: row y of the block back into row y.
  method CopyRowInverse(input: array<real>, out: array<real>, start: nat, y: nat, maxX: nat,
                        width: nat, ghost height: nat, ghost maxY: nat) returns (i: nat)
    requires maxX <= width && y < maxY <= height && Cells(height, width) <= out.Length
    requires Cells(maxY, maxX) <= input.Length && input != out && start == Cells(y, maxX)
    modifies out
    ensures i == Cells(y + 1, maxX)
    ensures var n := old(Rows2D(out[..], width, height));
      Rows2D(out[..], width, height) == n[y := Rows2D(input[..], maxX, maxY)[y] + n[y][maxX..]]
  {
    ghost var c, n := input[..], Rows2D(out[..], width, height);
    ghost var row := Rows2D(c, maxX, maxY)[y] + n[y][maxX..];
    i := start;
    var base := y * width;
    assert row[..0] + n[y][0..] == n[y];
    for x := 0 to maxX
      invariant input[..] == c
      invariant i == start + x
      invariant Rows2D(out[..], width, height) == n[y := row[..x] + n[y][x..]]
    {
      ghost var o := out[..];
      GetCell(c, maxX, maxY, y, x);
      RowCell(o, n, width, y, row, x);
      out[base + x] := input[i];
      assert out[..] == o[Cells(y, width) + x := row[x]];
      i := i + 1;
    }
    assert row[..maxX] + n[y][maxX..] == row;
  }

  method CopyPartsOfArrayInverse(input: array<real>, out: array<real>, maxX: nat, maxY: nat, width: nat, height: nat)
    requires maxX <= width && maxY <= height && Cells(height, width) <= out.Length
    requires Cells(maxY, maxX) <= input.Length && input != out
    modifies out
    ensures var b, m := Rows2D(input[..], maxX, maxY), old(Rows2D(out[..], width, height));
      forall i :: 0 <= i < height ==>
        Rows2D(out[..], width, height)[i] == if i < maxY then b[i] + m[i][maxX..] else m[i]
  {
    ghost var b, m := Rows2D(input[..], maxX, maxY), Rows2D(out[..], width, height);
    var i := 0;
    for y := 0 to maxY
      invariant input[..] == old(input[..])
      invariant i == Cells(y, maxX)
      invariant forall k :: 0 <= k < y ==> Rows2D(out[..], width, height)[k] == b[k] + m[k][maxX..]
      invariant forall k :: y <= k < height ==> Rows2D(out[..], width, height)[k] == m[k]
    {
      i := CopyRowInverse(input, out, i, y, maxX, width, height, maxY);
    }
  }

  // ---- the transforms -------------------------------------------------------------

  // The sums and differences before they are scaled.
  function Unscaled(a: seq<real>): (c: seq<real>)
    requires |a| % 2 == 0
    ensures |c| == |a|
  {
    var l := |a| / 2;
    seq(|a|, k requires 0 <= k < |a| =>
      if k < l then a[2 * k] + a[2 * k + 1] else a[2 * (k - l)] - a[2 * (k - l) + 1])
  }

  function Quotient(v: real, r: real): real
    requires r != 0.0
  {
    v / r
  }

  lemma ScaledIsDwt(a: seq<real>, c: seq<real>, r: real)
    requires |a| % 2 == 0 && |c| == |a| && r != 0.0
    requires forall k :: 0 <= k < |a| ==> c[k] == Quotient(Unscaled(a)[k], r)
    ensures c == Haar.Dwt(a, r)
  {
  }

  method DwtInto(x: array<real>, N: nat, y: array<real>, r: real)
    requires N % 2 == 0 && N <= x.Length && N <= y.Length && x != y && r != 0.0
    modifies y
    ensures y[..N] == Haar.Dwt(x[..N], r)
  {
    var l := N / 2;
    ghost var u := Unscaled(x[..N]);
    for i := 0 to l
      invariant x[..] == old(x[..])
      invariant forall k :: 0 <= k < i ==> y[k] == u[k]
      invariant forall k :: l <= k < l + i ==> y[k] == u[k]
    {
      y[i] := x[2 * i] + x[2 * i + 1];
      y[i + l] := x[2 * i] - x[2 * i + 1];
    }
    for i := 0 to N
      invariant x[..] == old(x[..])
      invariant forall k :: 0 <= k < i ==> y[k] == Quotient(u[k], r)
      invariant forall k :: i <= k < N ==> y[k] == u[k]
    {
      y[i] := y[i] / r;
    }
    ScaledIsDwt(x[..N], y[..N], r);
  }

  // Pair i of the interleaved line.
  ghost predicate PairDone(a: seq<real>, c: seq<real>, i: nat, r: real)
    requires i < |a| / 2 && |a| <= |c| && r != 0.0
  {
    c[2 * i] == Plus(a[i], a[i + |a| / 2], r) && c[2 * i + 1] == Minus(a[i], a[i + |a| / 2], r)
  }

  lemma PairNext(a: seq<real>, c: seq<real>, i: nat, r: real)
    requires i < |a| / 2 && |a| <= |c| && r != 0.0 && forall j :: 0 <= j < i ==> PairDone(a, c, j, r)
    ensures var d := c[2 * i := Plus(a[i], a[i + |a| / 2], r)][2 * i + 1 := Minus(a[i], a[i + |a| / 2], r)];
      forall j :: 0 <= j < i + 1 ==> PairDone(a, d, j, r)
  {
    hide Plus, Minus;
    var d := c[2 * i := Plus(a[i], a[i + |a| / 2], r)][2 * i + 1 := Minus(a[i], a[i + |a| / 2], r)];
    forall j | 0 <= j < i ensures PairDone(a, d, j, r) {
      assert PairDone(a, c, j, r);
      assert 2 * j + 1 < 2 * i;
    }
  }

  lemma PairsAreIdwt(a: seq<real>, c: seq<real>, r: real)
    requires |a| % 2 == 0 && |c| == |a| && r != 0.0
    requires forall i :: 0 <= i < |a| / 2 ==> PairDone(a, c, i, r)
    ensures c == Haar.Idwt(a, r)
  {
    forall k | 0 <= k < |a| ensures c[k] == Haar.Idwt(a, r)[k] {
      assert PairDone(a, c, k / 2, r);
      IdwtPair(a, k / 2, r);
      assert k == 2 * (k / 2) || k == 2 * (k / 2) + 1;
    }
  }

  method IdwtInto(x: array<real>, N: nat, y: array<real>, r: real)
    requires N % 2 == 0 && N <= x.Length && N <= y.Length && x != y && r != 0.0
    modifies y
    ensures y[..N] == Haar.Idwt(x[..N], r)
  {
    var le := N / 2;
    ghost var a := x[..N];
    for i := 0 to le
      invariant x[..N] == a
      invariant forall j :: 0 <= j < i ==> PairDone(a, y[..], j, r)
    {
      assert x[i] == a[i] && x[i + le] == a[i + le];
      ghost var c := y[..];
      y[2 * i] := (x[i] + x[i + le]) / r;
      y[2 * i + 1] := (x[i] - x[i + le]) / r;
      PairNext(a, c, i, r);
      assert y[..] == c[2 * i := Plus(a[i], a[i + le], r)][2 * i + 1 := Minus(a[i], a[i + le], r)];
    }
    forall j | 0 <= j < le ensures PairDone(a, y[..N], j, r) {
      assert PairDone(a, y[..], j, r);
    }
    PairsAreIdwt(a, y[..N], r);
  }

  // A matrix whose columns below i are transformed and the others not yet.
  ghost predicate ColumnsDone(m: Mat, before: Mat, after: Mat, w: nat, i: nat)
    requires Rect(m, |m|, w) && Rect(before, |m|, w) && Rect(after, |m|, w)
  {
    forall j :: 0 <= j < w ==> Column(m, j, w) == Column(if j < i then after else before, j, w)
  }

  lemma ColumnsStep(m: Mat, before: Mat, after: Mat, w: nat, i: nat)
    requires Rect(m, |m|, w) && Rect(before, |m|, w) && Rect(after, |m|, w) && i < w
    requires ColumnsDone(m, before, after, w, i)
    ensures ColumnsDone(WithColumn(m, w, i, Column(after, i, w)), before, after, w, i + 1)
  {
    var n := WithColumn(m, w, i, Column(after, i, w));
    assert Column(n, i, w) == Column(after, i, w);
    forall j | 0 <= j < w && j != i ensures Column(n, j, w) == Column(m, j, w) {
    }
  }

  /** dwt2: its line buffers hold width values, so a column must not be longer than a row. */
  method Dwt2Into(x: array<real>, y: array<real>, width: nat, height: nat, r: real)
    requires height <= width && width % 2 == 0 && height % 2 == 0
    requires Cells(height, width) <= x.Length && Cells(height, width) <= y.Length
    requires x != y && r != 0.0
    modifies y
    ensures Rows2D(y[..], width, height) == Cols(Haar.Rows(Rows2D(x[..], width, height), r), width, r)
  {
    hide Haar.Dwt, WithColumn;
    ghost var m := Rows2D(x[..], width, height);
    var k, k1 := new real[width], new real[width];
    for i := 0 to height
      invariant x[..] == old(x[..])
      invariant forall j :: 0 <= j < i ==> Rows2D(y[..], width, height)[j] == Haar.Dwt(m[j], r)
    {
      GetRow(x, i, k, width, height);
      DwtInto(k, width, k1, r);
      PutRowIn(k1, i, y, width, height);
    }
    ghost var rows := Haar.Rows(m, r);
    ghost var cols := Cols(rows, width, r);
    assert Rows2D(y[..], width, height) == rows;
    for i := 0 to width
      invariant ColumnsDone(Rows2D(y[..], width, height), rows, cols, width, i)
    {
      GetCol(y, i, k, width, height);
      DwtInto(k, height, k1, r);
      ColsByColumn(rows, i, width, r);
      ColumnsStep(Rows2D(y[..], width, height), rows, cols, width, i);
      PutColIn(k1, i, y, width, height);
    }
    SameByColumns(Rows2D(y[..], width, height), cols, width);
  }

  method Idwt2Into(x: array<real>, y: array<real>, width: nat, height: nat, r: real)
    requires width == height && width % 2 == 0 && Cells(height, width) <= x.Length && Cells(height, width) <= y.Length
    requires x != y && r != 0.0
    modifies y
    ensures Rows2D(y[..], width, height) == Haar.Idwt2(Rows2D(x[..], width, height), width, r)
  {
    hide Haar.Idwt, WithColumn;
    ghost var m := Rows2D(x[..], width, height);
    var wavelet, wavelet1 := new real[width], new real[width];
    for i := 0 to width
      invariant x[..] == old(x[..])
      invariant forall j :: 0 <= j < i ==> Rows2D(y[..], width, height)[j] == Haar.Idwt(m[j], r)
    {
      GetRow(x, i, wavelet, width, height);
      IdwtInto(wavelet, height, wavelet1, r);
      PutRowIn(wavelet1, i, y, width, height);
    }
    ghost var rows := RowsInv(m, r);
    ghost var cols := ColsInv(rows, width, r);
    assert Rows2D(y[..], width, height) == rows;
    for i := 0 to height
      invariant ColumnsDone(Rows2D(y[..], width, height), rows, cols, width, i)
    {
      GetCol(y, i, wavelet, width, height);
      IdwtInto(wavelet, width, wavelet1, r);
      ColsByColumn(rows, i, width, r);
      ColumnsStep(Rows2D(y[..], width, height), rows, cols, width, i);
      PutColIn(wavelet1, i, y, width, height);
    }
    SameByColumns(Rows2D(y[..], width, height), cols, width);
  }

  // ---- all levels -----------------------------------------------------------------

  /** log2 of a power of two. */
  function Log2(n: nat): nat {
    if n <= 1 then 0 else 1 + Log2(n / 2)
  }

  /** n >> k. */
  function Shift(n: nat, k: nat): nat
    decreases k
  {
    if k == 0 then n else Shift(n, k - 1) / 2
  }

  lemma {:induction false} ShiftedPower(n: nat, k: nat)
    requires PowerOfTwo(n) && k <= Log2(n)
    ensures PowerOfTwo(Shift(n, k)) && Shift(n, k) <= n
    ensures Log2(Shift(n, k)) == Log2(n) - k
  {
    if k > 0 { ShiftedPower(n, k - 1); }
  }

  lemma {:induction false} SameLog(s: nat, t: nat)
    requires PowerOfTwo(s) && PowerOfTwo(t) && Log2(s) == Log2(t)
    ensures s == t
  {
    if s > 1 && t > 1 { SameLog(s / 2, t / 2); }
  }

  lemma ThisSide(n: nat, k: nat, side: nat)
    requires PowerOfTwo(n) && k < Log2(n) && PowerOfTwo(side) && Log2(side) == Log2(n) - k
    ensures Shift(n, k) == side
    ensures 1 < side <= n && side % 2 == 0 && PowerOfTwo(side / 2) && Log2(side / 2) == Log2(n) - (k + 1)
  {
    ShiftedPower(n, k);
    SameLog(Shift(n, k), side);
  }

  lemma NextSide(n: nat, k: nat, side: nat)
    requires PowerOfTwo(n) && k < Log2(n) && PowerOfTwo(side) && Log2(side) == Log2(n) - (k + 1)
    ensures var s := Shift(n, k);
      1 < s <= n && PowerOfTwo(s) && s == 2 * side && Log2(s) == Log2(n) - k
  {
    ShiftedPower(n, k);
    ThisSide(n, k, Shift(n, k));
    SameLog(Shift(n, k) / 2, side);
  }

  // One unfolding of each full transform.
  lemma FullLevel(m: Mat, s: nat, r: real)
    requires Rect(m, |m|, |m|) && 1 < s <= |m| && PowerOfTwo(s) && r != 0.0
    ensures Full(m, s, r) == Full(PutBlock(m, s, Haar.Dwt2(Block(m, s), s, r)), s / 2, r)
  {
  }

  lemma IFullLevel(m: Mat, s: nat, r: real, k: Mat)
    requires Rect(m, |m|, |m|) && 1 < s <= |m| && PowerOfTwo(s) && r != 0.0
    requires k == IFull(m, s / 2, r)
    ensures Rect(k, |m|, |m|) && IFull(m, s, r) == PutBlock(k, s, Haar.Idwt2(Block(k, s), s, r))
  {
  }

  // The levels from side on down are still to be done before x is the full transform of m.
  ghost predicate StillToDo(x: seq<real>, m: Mat, n: nat, side: nat, r: real) {
    && |x| == Cells(n, n) && Rect(m, n, n) && PowerOfTwo(n) && PowerOfTwo(side) && side <= n && r != 0.0
    && Full(Rows2D(x, n, n), side, r) == Full(m, n, r)
  }

  // The levels up to side are undone on the way to the full inverse transform of m.
  ghost predicate Undone(x: seq<real>, m: Mat, n: nat, side: nat, r: real) {
    && |x| == Cells(n, n) && Rect(m, n, n) && PowerOfTwo(n) && PowerOfTwo(side) && side <= n && r != 0.0
    && Rows2D(x, n, n) == IFull(m, side, r)
  }

  lemma StartOfLevels(x: seq<real>, n: nat, r: real)
    requires SquareImage(x, n) && r != 0.0
    ensures n >= 1 && PowerOfTwo(1) && Log2(1) == 0
    ensures StillToDo(x, Rows2D(x, n, n), n, n, r) && Undone(x, Rows2D(x, n, n), n, 1, r)
  {
  }

  // A full transform of rows is one of the flat image.
  lemma EndOfLevels(x: seq<real>, y: seq<real>, n: nat, r: real)
    requires SquareImage(x, n) && r != 0.0
    ensures StillToDo(y, Rows2D(x, n, n), n, 1, r) ==> y == Image.W(x, n, r)
    ensures Undone(y, Rows2D(x, n, n), n, n, r) ==> y == Image.WInv(x, n, r)
  {
    if |y| == Cells(n, n) { RowsFlatten(y, n, n); }
  }

  // malloc of width * height values
  method NewImage(width: nat, height: nat) returns (a: array<real>)
    ensures fresh(a) && a.Length == Cells(width, height)
  {
    CellsIsProduct(width, height);
    a := new real[width * height];
  }

  // The loop body of dwt2_full: one level on the corner block of side s.
  method DwtLevel(x: array<real>, wavelet: array<real>, waveletF: array<real>, s: nat, width: nat, height: nat, r: real)
    requires width == height && x.Length == wavelet.Length == waveletF.Length == Cells(height, width)
    requires x != wavelet && x != waveletF && wavelet != waveletF
    requires s <= width && s % 2 == 0 && r != 0.0
    modifies x, wavelet, waveletF
    ensures var m := old(Rows2D(x[..], width, height));
      Rows2D(x[..], width, height) == PutBlock(m, s, Haar.Dwt2(Block(m, s), s, r))
  {
    ghost var m := Rows2D(x[..], width, height);
    SquareFits(s, width);
    CopyPartsOfArray(x, wavelet, s, s, width, height);
    assert Rows2D(wavelet[..], s, s) == Block(m, s);
    Dwt2Into(wavelet, waveletF, s, s, r);
    CopyPartsOfArrayInverse(waveletF, x, s, s, width, height);
    assert Rows2D(x[..], width, height) == PutBlock(m, s, Rows2D(waveletF[..], s, s));
  }

  // The same with what is still to do.
  method DoLevel(x: array<real>, wavelet: array<real>, waveletF: array<real>, s: nat, width: nat, r: real, ghost m: Mat)
    requires StillToDo(x[..], m, width, s, r) && 1 < s && s % 2 == 0
    requires wavelet.Length == waveletF.Length == Cells(width, width)
    requires x != wavelet && x != waveletF && wavelet != waveletF
    modifies x, wavelet, waveletF
    ensures StillToDo(x[..], m, width, s / 2, r)
  {
    FullLevel(Rows2D(x[..], width, width), s, r);
    DwtLevel(x, wavelet, waveletF, s, width, width, r);
  }

  method Dwt2Full(x: array<real>, width: nat, height: nat, r: real)
    requires width == height && x.Length == Cells(width, height) && PowerOfTwo(width) && r != 0.0
    modifies x
    ensures x[..] == Image.W(old(x[..]), width, r)
  {
    ghost var m := Rows2D(x[..], width, width);
    StartOfLevels(x[..], width, r);
    hide StillToDo, Image.W, Cells, Log2, Shift, PowerOfTwo;
    var order := Log2(width);
    var wavelet := NewImage(width, height);
    var waveletF := NewImage(width, height);
    ghost var side: nat := width;
    for k := 0 to order
      invariant PowerOfTwo(side) && side <= width && Log2(side) == order - k
      invariant StillToDo(x[..], m, width, side, r)
    {
      var s := Shift(width, k);
      ThisSide(width, k, side);
      DoLevel(x, wavelet, waveletF, s, width, r, m);
      side := s / 2;
    }
    SameLog(side, 1);
    EndOfLevels(old(x[..]), x[..], width, r);
  }

  lemma {:induction false} CellsMonotone(s: nat, n: nat, w: nat)
    requires s <= w
    ensures Cells(n, s) <= Cells(n, w)
  {
    if n > 0 { CellsMonotone(s, n - 1, w); }
  }

  lemma SquareFits(s: nat, n: nat)
    requires s <= n
    ensures Cells(s, s) <= Cells(n, n)
  {
    CellsMonotone(s, s, n);
    if s < n { RowFits(s, n, n); }
  }

  // The loop body of idwt2_full: one level on the corner block of side s.
  method IdwtLevel(x: array<real>, wavelet: array<real>, waveletF: array<real>, s: nat, width: nat, height: nat, r: real)
    requires width == height && x.Length == wavelet.Length == waveletF.Length == Cells(height, width)
    requires x != wavelet && x != waveletF && wavelet != waveletF
    requires s <= width && s % 2 == 0 && r != 0.0
    modifies x, wavelet, waveletF
    ensures var m := old(Rows2D(x[..], width, width));
      Rows2D(x[..], width, width) == PutBlock(m, s, Haar.Idwt2(Block(m, s), s, r))
  {
    ghost var m := Rows2D(x[..], width, width);
    SquareFits(s, width);
    CopyPartsOfArray(x, wavelet, s, s, width, height);
    assert Rows2D(wavelet[..], s, s) == Block(m, s);
    Idwt2Into(wavelet, waveletF, s, s, r);
    CopyPartsOfArrayInverse(waveletF, x, s, s, width, height);
    assert Rows2D(x[..], width, width) == PutBlock(m, s, Rows2D(waveletF[..], s, s));
  }

  // The same with what is undone so far.
  method UndoLevel(x: array<real>, wavelet: array<real>, waveletF: array<real>, s: nat, width: nat, r: real, ghost m: Mat,
                   ghost side: nat)
    requires 1 < s <= width && s == 2 * side && PowerOfTwo(s) && Undone(x[..], m, width, side, r)
    requires wavelet.Length == waveletF.Length == Cells(width, width)
    requires x != wavelet && x != waveletF && wavelet != waveletF
    modifies x, wavelet, waveletF
    ensures Undone(x[..], m, width, s, r)
  {
    IFullLevel(m, s, r, Rows2D(x[..], width, width));
    IdwtLevel(x, wavelet, waveletF, s, width, width, r);
  }

  method Idwt2Full(x: array<real>, width: nat, height: nat, r: real)
    requires width == height && x.Length == Cells(width, height) && PowerOfTwo(width) && r != 0.0
    modifies x
    ensures x[..] == Image.WInv(old(x[..]), width, r)
  {
    ghost var m := Rows2D(x[..], width, width);
    StartOfLevels(x[..], width, r);
    hide Undone, Image.WInv, Cells, Log2, Shift, PowerOfTwo;
    var order := Log2(width);
    var wavelet := NewImage(width, height);
    var waveletF := NewImage(width, height);
    ghost var side: nat := 1;
    for k := order downto 0
      invariant PowerOfTwo(side) && side <= width && Log2(side) == order - k
      invariant Undone(x[..], m, width, side, r)
    {
      var s := Shift(width, k);
      NextSide(width, k, side);
      UndoLevel(x, wavelet, waveletF, s, width, r, m, side);
      side := s;
    }
    SameLog(side, width);
    EndOfLevels(old(x[..]), x[..], width, r);
  }
}
