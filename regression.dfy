/**
 * Least-squares fitting built from the engine's primitives.
 *
 * `linear_regression` fits Y ~ X w through the normal equations: it forms
 * w = ((Xᵗ X)⁻¹ Xᵗ) Y, inverting Xᵗ X with the engine's destructive
 * Gauss-Jordan elimination, and reports the first three entries of w's first
 * column.  `_linear_regression` runs the same computation over a batch of
 * point clouds: in each cloud it drops the points whose first three
 * coordinates are all zero, fits z ~ a x + b y + c to the remaining points
 * when more than three remain, and reports zeros otherwise.
 *
 * Both are modelled as methods on Matrix objects and flat buffers, proved
 * against the value functions `LeastSquares` and `CloudFit`; the lemmas state
 * what the fit means (it solves the normal equations, it is their only
 * solution, it recovers an exact plane) and how the filter behaves.
 */
module Regression {
  import opened MatrixAlgebra
  import opened GaussJordan
  import opened Matrices
  import opened Inverter

  // ---------------------------------------------------------------------
  // Least squares on values
  // ---------------------------------------------------------------------

  /**
   * ((Xᵗ X)⁻¹ Xᵗ) Y, where (Xᵗ X)⁻¹ is whatever the elimination leaves in its
   * output matrix (the inverse when it succeeds).
   */
  function LeastSquares(x: Mat, y: Mat): (w: Mat)
    requires Rect(x) && Rect(y) && |y| == |x|
    ensures IsMatrix(w, |x[0]|, |y[0]|)
  {
    var xt := Transposed(x);
    Product(Product(Invert(Product(xt, x)).output, xt), y)
  }

  /** The first three entries of the first column of `w`: what the engine reports. */
  function Coefficients(w: Mat): (c: seq<real>)
    requires 3 <= |w| && forall i | 0 <= i < 3 :: 0 < |w[i]|
    ensures |c| == 3
  {
    [w[0][0], w[1][0], w[2][0]]
  }

  /**
   * When Xᵗ X is invertible, the fit solves the normal equations
   * (Xᵗ X) w = Xᵗ Y, which characterise the least-squares solutions.
   */
  lemma NormalEquationsHold(x: Mat, y: Mat)
    requires Rect(x) && Rect(y) && |y| == |x|
    requires Invert(Product(Transposed(x), x)).ok
    ensures Product(Product(Transposed(x), x), LeastSquares(x, y)) == Product(Transposed(x), y)
  {
    var xt := Transposed(x);
    var g := Product(xt, x);
    var n := Invert(g).output;
    var xty := Product(xt, y);
    InvertCorrect(g);
    ProductAssociative(n, xt, y);
    ProductAssociative(g, n, xty);
    ProductIdentityLeft(xty);
  }

  /**
   * When Xᵗ X is invertible, the fit is the only solution of the normal
   * equations.
   */
  lemma LeastSquaresUnique(x: Mat, y: Mat, w: Mat)
    requires Rect(x) && Rect(y) && |y| == |x|
    requires Rect(w) && |w| == |x[0]|
    requires Invert(Product(Transposed(x), x)).ok
    requires Product(Product(Transposed(x), x), w) == Product(Transposed(x), y)
    ensures w == LeastSquares(x, y)
  {
    var xt := Transposed(x);
    var g := Product(xt, x);
    var n := Invert(g).output;
    InvertCorrect(g);
    ProductAssociative(n, xt, y);
    ProductAssociative(n, g, w);
    ProductIdentityLeft(w);
  }

  /**
   * Data that an exact linear model `v` explains is fitted by `v` itself,
   * whenever Xᵗ X is invertible.
   */
  lemma ExactFitRecovered(x: Mat, v: Mat)
    requires Rect(x) && Rect(v) && |v| == |x[0]|
    requires Invert(Product(Transposed(x), x)).ok
    ensures LeastSquares(x, Product(x, v)) == v
  {
    var xt := Transposed(x);
    ProductAssociative(xt, x, v);
    LeastSquaresUnique(x, Product(x, v), v);
  }

  // ---------------------------------------------------------------------
  // Batched plane fitting on values
  // ---------------------------------------------------------------------

  /** A point is kept when one of its first three coordinates is non-zero. */
  predicate Observed(p: seq<real>)
  {
    3 <= |p| && (p[0] != 0.0 || p[1] != 0.0 || p[2] != 0.0)
  }

  /** The observed points of `s`, in their original order. */
  function Kept(s: seq<seq<real>>): (k: seq<seq<real>>)
    ensures |k| <= |s|
    ensures forall i | 0 <= i < |k| :: Observed(k[i])
  {
    if s == [] then [] else Kept(s[..|s| - 1]) + if Observed(s[|s| - 1]) then [s[|s| - 1]] else []
  }

  /** Every point of `s` has `cols` coordinates. */
  predicate Width(s: seq<seq<real>>, cols: nat)
  {
    forall i | 0 <= i < |s| :: |s[i]| == cols
  }

  /** The `rows` points of one cloud, `cols` coordinates each, held row-major from `start`. */
  function Cloud(points: seq<real>, start: nat, rows: nat, cols: nat): (s: seq<seq<real>>)
    requires start + RowStart(rows, cols) <= |points|
    ensures |s| == rows && Width(s, cols)
  {
    RowsFit(rows, cols);
    seq(rows, i requires 0 <= i < rows => points[start + RowStart(i, cols)..start + RowStart(i, cols) + cols])
  }

  /** Every row of an r x c row-major buffer ends within it. */
  lemma RowsFit(r: nat, c: nat)
    ensures forall i | 0 <= i < r :: RowStart(i, c) + c <= RowStart(r, c)
  {
    forall i | 0 <= i < r
      ensures RowStart(i, c) + c <= RowStart(r, c)
    {
      RowStartMonotone(i, r, c);
    }
  }

  /** The design matrix of a cloud: a row [x, y, 1, 0, ..., 0] of width `cols` per kept point. */
  function Design(k: seq<seq<real>>, cols: nat): (x: Mat)
    requires 3 <= cols && forall i | 0 <= i < |k| :: 3 <= |k[i]|
    ensures IsMatrix(x, |k|, cols)
  {
    seq(|k|, i requires 0 <= i < |k| =>
      seq(cols, j requires 0 <= j < cols => if j < 2 then k[i][j] else if j == 2 then 1.0 else 0.0))
  }

  /** The targets of a cloud: the third coordinate of each kept point. */
  function Targets(k: seq<seq<real>>): (y: Mat)
    requires forall i | 0 <= i < |k| :: 3 <= |k[i]|
    ensures IsMatrix(y, |k|, 1)
  {
    seq(|k|, i requires 0 <= i < |k| => [k[i][2]])
  }

  /** The three coefficients reported for one cloud. */
  function CloudFit(s: seq<seq<real>>, cols: nat): (c: seq<real>)
    requires 3 <= cols && Width(s, cols)
    ensures |c| == 3
  {
    var k := Kept(s);
    KeptWidth(s, cols);
    if |k| > 3 then Coefficients(LeastSquares(Design(k, cols), Targets(k))) else [0.0, 0.0, 0.0]
  }

  /** The three entries of `m` from `at` on. */
  function Triple(m: seq<real>, at: nat): (t: seq<real>)
    requires at + 3 <= |m|
    ensures |t| == 3 && forall k | 0 <= k < 3 :: t[k] == m[at + k]
  {
    [m[at], m[at + 1], m[at + 2]]
  }

  /**
   * m[3 j .. 3 j + 3] holds the coefficients of cloud `j` of the buffer, the
   * clouds being `rows` points of `cols` coordinates each, one after another.
   */
  ghost predicate Reported(m: seq<real>, points: seq<real>, j: nat, rows: nat, cols: nat)
  {
    3 <= cols && RowStart(j + 1, RowStart(rows, cols)) <= |points| && RowStart(j + 1, 3) <= |m|
    && Triple(m, RowStart(j, 3)) == CloudFit(Cloud(points, RowStart(j, RowStart(rows, cols)), rows, cols), cols)
  }

  /** Every kept point is a point of `s`. */
  lemma {:induction false} KeptSound(s: seq<seq<real>>)
    ensures forall p | p in Kept(s) :: p in s
  {
    if s != [] {
      var s' := s[..|s| - 1];
      KeptSound(s');
      assert forall p | p in s' :: p in s;
    }
  }

  /** Every kept point has the width of the cloud's points. */
  lemma KeptWidth(s: seq<seq<real>>, cols: nat)
    requires Width(s, cols)
    ensures Width(Kept(s), cols)
  {
    KeptSound(s);
    forall i | 0 <= i < |Kept(s)|
      ensures |Kept(s)[i]| == cols
    {
      assert Kept(s)[i] in Kept(s);
    }
  }

  /** Filtering a concatenation filters each part: the filter keeps the points' order. */
  lemma {:induction false} KeptConcat(s: seq<seq<real>>, t: seq<seq<real>>)
    ensures Kept(s + t) == Kept(s) + Kept(t)
    decreases |t|
  {
    if t == [] {
      assert s + t == s;
    } else {
      var t' := t[..|t| - 1];
      assert (s + t)[..|s + t| - 1] == s + t';
      KeptConcat(s, t');
    }
  }

  /** Every observed point of `s` is kept. */
  lemma {:induction false} KeptComplete(s: seq<seq<real>>)
    ensures forall p | p in s && Observed(p) :: p in Kept(s)
  {
    if s != [] {
      var s' := s[..|s| - 1];
      KeptComplete(s');
      forall p | p in s && Observed(p)
        ensures p in Kept(s)
      {
        if p != s[|s| - 1] {
          var i :| 0 <= i < |s| && s[i] == p;
          assert s'[i] == p;
        }
      }
    }
  }

  /** A cloud with no unobserved point is kept whole. */
  lemma {:induction false} KeptAllObserved(s: seq<seq<real>>)
    requires forall i | 0 <= i < |s| :: Observed(s[i])
    ensures Kept(s) == s
  {
    if s != [] {
      var s' := s[..|s| - 1];
      KeptAllObserved(s');
      assert s' + [s[|s| - 1]] == s;
    }
  }

  /** Extending the scanned prefix by one point extends the kept points by at most that point. */
  lemma KeptStep(s: seq<seq<real>>, i: nat)
    requires i < |s|
    ensures Observed(s[i]) ==> Kept(s[..i + 1]) == Kept(s[..i]) + [s[i]]
    ensures !Observed(s[i]) ==> Kept(s[..i + 1]) == Kept(s[..i])
  {
    assert s[..i + 1][..i] == s[..i];
  }

  /**
   * A cloud of three-coordinate points whose observed points all lie on the
   * plane z = a x + b y + c reports exactly (a, b, c), provided more than
   * three points are observed and Xᵗ X is invertible.
   */
  lemma PlaneRecovered(s: seq<seq<real>>, a: real, b: real, c: real)
    requires Width(s, 3)
    requires forall p | p in s && Observed(p) :: p[2] == a * p[0] + b * p[1] + c
    requires |Kept(s)| > 3
    requires Invert(Product(Transposed(Design(Kept(s), 3)), Design(Kept(s), 3))).ok
    ensures CloudFit(s, 3) == [a, b, c]
  {
    var k := Kept(s);
    KeptWidth(s, 3);
    KeptSound(s);
    forall i | 0 <= i < |k|
      ensures k[i][2] == a * k[i][0] + b * k[i][1] + c
    {
      assert k[i] in k;
    }
    PlaneFit(k, a, b, c);
  }

  /** The fit of points on the plane z = a x + b y + c is (a, b, c) when Xᵗ X is invertible. */
  lemma PlaneFit(k: seq<seq<real>>, a: real, b: real, c: real)
    requires 0 < |k| && Width(k, 3)
    requires forall i | 0 <= i < |k| :: k[i][2] == a * k[i][0] + b * k[i][1] + c
    requires Invert(Product(Transposed(Design(k, 3)), Design(k, 3))).ok
    ensures LeastSquares(Design(k, 3), Targets(k)) == [[a], [b], [c]]
  {
    var x, v := Design(k, 3), [[a], [b], [c]];
    PlaneTargets(k, a, b, c);
    ExactFitRecovered(x, v);
  }

  /** On points of the plane z = a x + b y + c, the design matrix maps (a, b, c) to the targets. */
  lemma PlaneTargets(k: seq<seq<real>>, a: real, b: real, c: real)
    requires 0 < |k| && Width(k, 3)
    requires forall i | 0 <= i < |k| :: k[i][2] == a * k[i][0] + b * k[i][1] + c
    ensures Product(Design(k, 3), [[a], [b], [c]]) == Targets(k)
  {
    var x, v := Design(k, 3), [[a], [b], [c]];
    var y := Product(x, v);
    forall i | 0 <= i < |k|
      ensures y[i][0] == k[i][2]
    {
      DotThreeTerms(x[i], Column(v, 0));
    }
    MatrixExtensionality(y, Targets(k));
  }

  // ---------------------------------------------------------------------
  // The computations on Matrix objects and flat buffers
  // ---------------------------------------------------------------------

  /**
   * linear_regression: fits the rowsX x colsX matrix held row-major in `xs`
   * to the rowsY x colsY matrix held in `ys` and writes the first three
   * coefficients to m[0..3], leaving the rest of `m` alone.
   */
  method LinearRegression(xs: seq<real>, rowsX: nat, colsX: nat, ys: seq<real>, rowsY: nat, colsY: nat, m: array<real>)
    requires 0 < rowsX && 3 <= colsX && rowsY == rowsX && 0 < colsY
    requires RowStart(rowsX, colsX) <= |xs| && RowStart(rowsY, colsY) <= |ys|
    requires 3 <= m.Length
    modifies m
    ensures Triple(m[..], 0) == LinearFit(xs, rowsX, colsX, ys, rowsY, colsY)
    ensures forall i | 3 <= i < m.Length :: m[i] == old(m[i])
  {
    var c0, c1, c2 := FitBuffers(xs, rowsX, colsX, ys, rowsY, colsY);
    WriteTriple(m, 0, c0, c1, c2);
  }

  /** The coefficients linear_regression reports for the buffers `xs` and `ys`. */
  function LinearFit(xs: seq<real>, rowsX: nat, colsX: nat, ys: seq<real>, rowsY: nat, colsY: nat): (c: seq<real>)
    requires 0 < rowsX && 3 <= colsX && rowsY == rowsX && 0 < colsY
    requires RowStart(rowsX, colsX) <= |xs| && RowStart(rowsY, colsY) <= |ys|
    ensures |c| == 3
  {
    Coefficients(LeastSquares(Unflatten(xs[..RowStart(rowsX, colsX)], rowsX, colsX),
                              Unflatten(ys[..RowStart(rowsY, colsY)], rowsY, colsY)))
  }

  /** Loads X and Y from the buffers, fits, and reads off the coefficients. */
  method FitBuffers(xs: seq<real>, rowsX: nat, colsX: nat, ys: seq<real>, rowsY: nat, colsY: nat) returns (c0: real, c1: real, c2: real)
    requires 0 < rowsX && 3 <= colsX && rowsY == rowsX && 0 < colsY
    requires RowStart(rowsX, colsX) <= |xs| && RowStart(rowsY, colsY) <= |ys|
    ensures [c0, c1, c2] == LinearFit(xs, rowsX, colsX, ys, rowsY, colsY)
  {
    var x := Build(rowsX, colsX, xs[..RowStart(rowsX, colsX)]);
    var y := Build(rowsY, colsY, ys[..RowStart(rowsY, colsY)]);
    ghost var target := LeastSquares(x.Value(), y.Value());
    var w := LeastSquaresFit(x, y, target);
    c0, c1, c2 := Report(w, target);
  }

  /**
   * w := ((Xᵗ X)⁻¹ Xᵗ) Y through xT, xTx, xTx_i and xTx_ixT, inverting xTx
   * destructively and ignoring the success flag.
   */
  method LeastSquaresFit(x: Matrix, y: Matrix, ghost target: Mat) returns (w: Matrix)
    requires x.Valid() && y.Valid() && y.rows == x.rows
    requires target == LeastSquares(x.Value(), y.Value())
    ensures w.Valid() && w.rows == x.cols && w.cols == y.cols && fresh(w.data)
    ensures w.Value() == target
  {
    var xT := Transposition(x);
    var xTxInverse := NormalInverse(x, xT);
    var xTxInverseXT := Multiplied(xTxInverse, xT);
    w := Multiplied(xTxInverseXT, y);
  }

  /** xTx := Xᵗ X, then inverts it destructively into a fresh xTx_i. */
  method NormalInverse(x: Matrix, xT: Matrix) returns (xTxInverse: Matrix)
    requires x.Valid() && xT.Valid() && xT.rows == x.cols && xT.cols == x.rows
    requires xT.Value() == Transposed(x.Value())
    ensures xTxInverse.Valid() && xTxInverse.rows == x.cols && xTxInverse.cols == x.cols && fresh(xTxInverse.data)
    ensures xTxInverse.Value() == Invert(Product(Transposed(x.Value()), x.Value())).output
  {
    var xTx := Multiplied(xT, x);
    xTxInverse := new Matrix(x.cols, x.cols);
    var inverted := DestructiveInvert(xTx, xTxInverse);
  }

  /** Reads w[0, 0], w[1, 0] and w[2, 0]. */
  method Report(w: Matrix, ghost target: Mat) returns (c0: real, c1: real, c2: real)
    requires w.Valid() && 3 <= w.rows && w.Value() == target
    ensures [c0, c1, c2] == Coefficients(target)
  {
    c0, c1, c2 := w.data[0, 0], w.data[1, 0], w.data[2, 0];
  }

  /** Writes three coefficients to m[at], m[at + 1], m[at + 2]. */
  method WriteTriple(m: array<real>, at: nat, c0: real, c1: real, c2: real)
    requires at + 3 <= m.Length
    modifies m
    ensures Triple(m[..], at) == [c0, c1, c2]
    ensures forall i | 0 <= i < m.Length && !(at <= i < at + 3) :: m[i] == old(m[i])
  {
    m[at], m[at + 1], m[at + 2] := c0, c1, c2;
  }

  /**
   * _linear_regression: for each of `counts` clouds of `rows` points with
   * `cols` coordinates, held one after another in `points`, writes the
   * cloud's three coefficients to m[3 index .. 3 index + 3]; the rest of `m`
   * is left as it was.
   */
  method BatchedLinearRegression(points: seq<real>, counts: nat, rows: nat, cols: nat, m: array<real>)
    requires 3 <= cols
    requires RowStart(counts, RowStart(rows, cols)) <= |points| && RowStart(counts, 3) <= m.Length
    modifies m
    ensures forall j | 0 <= j < counts :: Reported(m[..], points, j, rows, cols)
    ensures forall i | RowStart(counts, 3) <= i < m.Length :: m[i] == old(m[i])
  {
    var size := rows * cols;
    RowStartIsProduct(rows, cols);
    var index := 0;
    while index < counts
      invariant 0 <= index <= counts
      invariant forall j | 0 <= j < index :: Reported(m[..], points, j, rows, cols)
      invariant Untouched(m[..], old(m[..]), RowStart(index, 3))
    {
      ReportCloud(points, counts, rows, cols, size, index, m, old(m[..]));
      index := index + 1;
    }
  }

  /** `m` and `initial` have the same length and agree from `at` on. */
  ghost predicate Untouched(m: seq<real>, initial: seq<real>, at: nat)
  {
    |m| == |initial| && forall i | at <= i < |m| :: m[i] == initial[i]
  }

  /** One iteration of the batch loop: fits cloud `index` and writes its three coefficients. */
  method ReportCloud(points: seq<real>, counts: nat, rows: nat, cols: nat, size: nat, index: nat, m: array<real>, ghost initial: seq<real>)
    requires 3 <= cols && size == RowStart(rows, cols) && index < counts
    requires RowStart(counts, size) <= |points| && RowStart(counts, 3) <= m.Length
    requires forall j | 0 <= j < index :: Reported(m[..], points, j, rows, cols)
    requires Untouched(m[..], initial, RowStart(index, 3))
    modifies m
    ensures forall j | 0 <= j < index + 1 :: Reported(m[..], points, j, rows, cols)
    ensures Untouched(m[..], initial, RowStart(index + 1, 3))
  {
    RowStartMonotone(index, counts, size);
    RowStartMonotone(index, counts, 3);
    RowStartIsProduct(index, size);
    RowStartIsProduct(index, 3);
    ghost var cloud := Cloud(points, index * size, rows, cols);
    var c0, c1, c2 := FitCloud(points, index * size, rows, cols, cloud);
    ghost var before := m[..];
    WriteTriple(m, index * 3, c0, c1, c2);
    ReportedKept(before, m[..], points, index, rows, cols);
  }

  /** Rewriting m from 3 index on leaves the reports of clouds 0 .. index - 1 in place. */
  lemma ReportedKept(before: seq<real>, after: seq<real>, points: seq<real>, index: nat, rows: nat, cols: nat)
    requires |after| == |before| && RowStart(index, 3) <= |before|
    requires forall i | 0 <= i < RowStart(index, 3) :: after[i] == before[i]
    requires forall j | 0 <= j < index :: Reported(before, points, j, rows, cols)
    ensures forall j | 0 <= j < index :: Reported(after, points, j, rows, cols)
  {
    forall j | 0 <= j < index
      ensures Reported(after, points, j, rows, cols)
    {
      assert Reported(before, points, j, rows, cols);
      RowStartMonotone(j, index, 3);
    }
  }

  /**
   * One cloud: gathers its observed points into the scratch matrix `raw`,
   * then fits them when more than three remain, or reports zeros.
   */
  method FitCloud(points: seq<real>, start: nat, rows: nat, cols: nat, ghost cloud: seq<seq<real>>) returns (c0: real, c1: real, c2: real)
    requires 3 <= cols && start + RowStart(rows, cols) <= |points|
    requires cloud == Cloud(points, start, rows, cols)
    ensures [c0, c1, c2] == CloudFit(cloud, cols)
  {
    var raw := new real[rows, cols];
    var available;
    ghost var k;
    available, k := Gather(points, start, rows, cols, raw, cloud);
    if available > 3 {
      var x := DesignFrom(raw, available, cols, k);
      var y := TargetsFrom(raw, available, k);
      ghost var target := LeastSquares(Design(k, cols), Targets(k));
      var w := LeastSquaresFit(x, y, target);
      c0, c1, c2 := Report(w, target);
    } else {
      c0, c1, c2 := 0.0, 0.0, 0.0;
    }
  }

  /**
   * Copies the observed points of the cloud, in order, to the leading rows of
   * `raw` and returns how many there are.
   */
  method Gather(points: seq<real>, start: nat, rows: nat, cols: nat, raw: array2<real>, ghost cloud: seq<seq<real>>) returns (available: nat, ghost kept: seq<seq<real>>)
    requires 3 <= cols && start + RowStart(rows, cols) <= |points| && cloud == Cloud(points, start, rows, cols)
    requires raw.Length0 == rows && raw.Length1 == cols
    modifies raw
    ensures kept == Kept(cloud) && available == |kept| && Width(kept, cols)
    ensures forall i, j | 0 <= i < available && 0 <= j < cols :: raw[i, j] == kept[i][j]
  {
    available, kept := 0, [];
    var i := 0;
    while i < rows
      invariant 0 <= i <= rows
      invariant Gathered(raw, cloud, i, available, kept, cols)
    {
      available, kept := GatherPoint(points, start, rows, cols, raw, cloud, i, available, kept);
      i := i + 1;
    }
    assert cloud[..rows] == cloud;
  }

  /** The first `available` rows of `raw` hold the observed points among cloud[..i], in order. */
  ghost predicate Gathered(raw: array2<real>, cloud: seq<seq<real>>, i: nat, available: nat, kept: seq<seq<real>>, cols: nat)
    reads raw
  {
    i <= |cloud| && kept == Kept(cloud[..i]) && available == |kept| <= i && Width(kept, cols)
    && available <= raw.Length0 && raw.Length1 == cols
    && forall a, j | 0 <= a < available && 0 <= j < cols :: raw[a, j] == kept[a][j]
  }

  /** One step of the gathering loop: copies point `i` to row `available` when it is observed. */
  method GatherPoint(points: seq<real>, start: nat, rows: nat, cols: nat, raw: array2<real>, ghost cloud: seq<seq<real>>,
                     i: nat, available: nat, ghost kept: seq<seq<real>>) returns (available': nat, ghost kept': seq<seq<real>>)
    requires 3 <= cols && start + RowStart(rows, cols) <= |points| && cloud == Cloud(points, start, rows, cols)
    requires raw.Length0 == rows && raw.Length1 == cols && i < rows
    requires Gathered(raw, cloud, i, available, kept, cols)
    modifies raw
    ensures Gathered(raw, cloud, i + 1, available', kept', cols)
  {
    RowStartMonotone(i, rows, cols);
    RowStartIsProduct(i, cols);
    var p := start + i * cols;
    ghost var point := cloud[i];
    assert point == points[p..p + cols];
    var observed := points[p] != 0.0 || points[p + 1] != 0.0 || points[p + 2] != 0.0;
    assert observed == Observed(point);
    KeptStep(cloud, i);
    if observed {
      CopyPoint(points, p, raw, available, cols, point);
      available', kept' := available + 1, kept + [point];
    } else {
      available', kept' := available, kept;
    }
  }

  /** raw[row, 0 .. cols] := points[p .. p + cols], which is `point`. */
  method CopyPoint(points: seq<real>, p: nat, raw: array2<real>, row: nat, cols: nat, ghost point: seq<real>)
    requires p + cols <= |points| && row < raw.Length0 && raw.Length1 == cols
    requires point == points[p..p + cols]
    modifies raw
    ensures forall j | 0 <= j < cols :: raw[row, j] == point[j]
    ensures forall a, j | 0 <= a < raw.Length0 && 0 <= j < cols && a != row :: raw[a, j] == old(raw[a, j])
  {
    var j := 0;
    while j < cols
      invariant 0 <= j <= cols
      invariant forall j' | 0 <= j' < j :: raw[row, j'] == point[j']
      invariant forall a, j' | 0 <= a < raw.Length0 && 0 <= j' < cols && a != row :: raw[a, j'] == old(raw[a, j'])
    {
      raw[row, j] := points[p + j];
      j := j + 1;
    }
  }

  /** x := the design matrix of the gathered points: [raw[i, 0], raw[i, 1], 1, 0, ..., 0]. */
  method DesignFrom(raw: array2<real>, available: nat, cols: nat, ghost k: seq<seq<real>>) returns (x: Matrix)
    requires 0 < available <= raw.Length0 && 3 <= cols && raw.Length1 == cols
    requires |k| == available && forall i | 0 <= i < available :: |k[i]| == cols
    requires forall i, j | 0 <= i < available && 0 <= j < cols :: raw[i, j] == k[i][j]
    ensures x.Valid() && x.rows == available && x.cols == cols && fresh(x.data)
    ensures x.Value() == Design(k, cols)
  {
    x := new Matrix(available, cols);
    ghost var d := Design(k, cols);
    var i := 0;
    while i < available
      invariant 0 <= i <= available
      invariant forall a, j | 0 <= a < i && 0 <= j < cols :: x.data[a, j] == d[a][j]
      invariant forall a, j | i <= a < available && 0 <= j < cols :: x.data[a, j] == 0.0
    {
      x.data[i, 0] := raw[i, 0];
      x.data[i, 1] := raw[i, 1];
      x.data[i, 2] := 1.0;
      i := i + 1;
    }
    MatrixExtensionality(x.Value(), d);
  }

  /** y := the targets of the gathered points: raw[i, 2]. */
  method TargetsFrom(raw: array2<real>, available: nat, ghost k: seq<seq<real>>) returns (y: Matrix)
    requires 0 < available <= raw.Length0 && 3 <= raw.Length1
    requires |k| == available && forall i | 0 <= i < available :: |k[i]| == raw.Length1
    requires forall i, j | 0 <= i < available && 0 <= j < raw.Length1 :: raw[i, j] == k[i][j]
    ensures y.Valid() && y.rows == available && y.cols == 1 && fresh(y.data)
    ensures y.Value() == Targets(k)
  {
    y := new Matrix(available, 1);
    ghost var t := Targets(k);
    var i := 0;
    while i < available
      invariant 0 <= i <= available
      invariant forall a | 0 <= a < i :: y.data[a, 0] == t[a][0]
    {
      y.data[i, 0] := raw[i, 2];
      i := i + 1;
    }
    MatrixExtensionality(y.Value(), t);
  }
}
