/**
 * Exact matrix algebra over the reals: the values that the in-place matrix
 * engine computes. Every primitive of the engine is specified by one of the
 * functions here, and the algebraic facts the algorithms rely on (identity,
 * transposition, associativity, row operations as elementary matrices) are
 * proved here once.
 */
module MatrixAlgebra {

  /** A matrix value, as a sequence of rows. */
  type Mat = seq<seq<real>>

  /** `a` has `r` rows of `c` entries each. */
  predicate IsMatrix(a: Mat, r: nat, c: nat)
  {
    |a| == r && forall i | 0 <= i < r :: |a[i]| == c
  }

  /** A matrix with at least one row and one column (the engine's shape invariant). */
  predicate Rect(a: Mat)
  {
    |a| > 0 && |a[0]| > 0 && IsMatrix(a, |a|, |a[0]|)
  }

  predicate SameShape(a: Mat, b: Mat)
  {
    |a| == |b| && forall i | 0 <= i < |a| :: |a[i]| == |b[i]|
  }

  /** Two matrices of the same shape with equal entries are equal. */
  lemma MatrixExtensionality(a: Mat, b: Mat)
    requires SameShape(a, b)
    requires forall i, j | 0 <= i < |a| && 0 <= j < |a[i]| :: a[i][j] == b[i][j]
    ensures a == b
  {
    forall i | 0 <= i < |a|
      ensures a[i] == b[i]
    {
      assert |a[i]| == |b[i]|;
    }
  }

  // ---------------------------------------------------------------------
  // Vectors and dot products
  // ---------------------------------------------------------------------

  /** The sum of the entries, accumulated from the first one upwards. */
  function Sum(s: seq<real>): real
  {
    if |s| == 0 then 0.0 else Sum(s[..|s| - 1]) + s[|s| - 1]
  }

  /** The entry-by-entry products u[k] * v[k]. */
  function Products(u: seq<real>, v: seq<real>): (p: seq<real>)
    requires |u| == |v|
    ensures |p| == |u|
    ensures forall k | 0 <= k < |u| :: p[k] == u[k] * v[k]
  {
    seq(|u|, k requires 0 <= k < |u| => u[k] * v[k])
  }

  /** The dot product: the sum of u[k] * v[k], accumulated from k = 0 upwards as the engine's inner loops do. */
  function Dot(u: seq<real>, v: seq<real>): real
    requires |u| == |v|
  {
    Sum(Products(u, v))
  }

  function ScaleVec(u: seq<real>, s: real): (r: seq<real>)
    ensures |r| == |u|
    ensures forall k | 0 <= k < |u| :: r[k] == u[k] * s
  {
    seq(|u|, k requires 0 <= k < |u| => u[k] * s)
  }

  /** u + s * w, entry by entry. */
  function AddScaled(u: seq<real>, s: real, w: seq<real>): (r: seq<real>)
    requires |u| == |w|
    ensures |r| == |u|
    ensures forall k | 0 <= k < |u| :: r[k] == u[k] + s * w[k]
  {
    seq(|u|, k requires 0 <= k < |u| => u[k] + s * w[k])
  }

  function Column(b: Mat, j: nat): (col: seq<real>)
    requires forall k | 0 <= k < |b| :: j < |b[k]|
    ensures |col| == |b|
    ensures forall k | 0 <= k < |b| :: col[k] == b[k][j]
  {
    seq(|b|, k requires 0 <= k < |b| => b[k][j])
  }

  /** A sum whose every entry is zero is zero. */
  lemma {:induction false} SumZero(s: seq<real>)
    requires forall k | 0 <= k < |s| :: s[k] == 0.0
    ensures Sum(s) == 0.0
    decreases |s|
  {
    if |s| > 0 {
      SumZero(s[..|s| - 1]);
    }
  }

  /** A sum with a single non-zero entry is that entry. */
  lemma {:induction false} SumOne(s: seq<real>, p: nat)
    requires p < |s|
    requires forall k | 0 <= k < |s| && k != p :: s[k] == 0.0
    ensures Sum(s) == s[p]
    decreases |s|
  {
    var n := |s| - 1;
    if p == n {
      SumZero(s[..n]);
    } else {
      SumOne(s[..n], p);
    }
  }

  /** A sum with two non-zero entries is their sum. */
  lemma {:induction false} SumTwo(s: seq<real>, p: nat, q: nat)
    requires p < |s| && q < |s| && p != q
    requires forall k | 0 <= k < |s| && k != p && k != q :: s[k] == 0.0
    ensures Sum(s) == s[p] + s[q]
    decreases |s|
  {
    var n := |s| - 1;
    if p == n {
      SumOne(s[..n], q);
    } else if q == n {
      SumOne(s[..n], p);
    } else {
      SumTwo(s[..n], p, q);
    }
  }

  lemma Distribute(c: real, x: real, y: real)
    ensures c * (x + y) == c * x + c * y
  {
  }

  /** Sum is linear. */
  lemma {:induction false} SumAddScaled(s: seq<real>, c: real, t: seq<real>)
    requires |s| == |t|
    ensures Sum(AddScaled(s, c, t)) == Sum(s) + c * Sum(t)
    decreases |s|
  {
    if |s| > 0 {
      var n := |s| - 1;
      var a, a' := AddScaled(s, c, t), AddScaled(s[..n], c, t[..n]);
      forall k | 0 <= k < n
        ensures a[..n][k] == a'[k]
      {
      }
      assert a[..n] == a';
      SumAddScaled(s[..n], c, t[..n]);
      Distribute(c, Sum(t[..n]), t[n]);
    }
  }

  /** A dot product whose every term vanishes is zero. */
  lemma DotZeroTerms(u: seq<real>, v: seq<real>)
    requires |u| == |v|
    requires forall k | 0 <= k < |u| :: u[k] * v[k] == 0.0
    ensures Dot(u, v) == 0.0
  {
    SumZero(Products(u, v));
  }

  /** A dot product with a single non-vanishing term is that term. */
  lemma DotOneTerm(u: seq<real>, v: seq<real>, p: nat)
    requires |u| == |v| && p < |u|
    requires forall k | 0 <= k < |u| && k != p :: u[k] * v[k] == 0.0
    ensures Dot(u, v) == u[p] * v[p]
  {
    SumOne(Products(u, v), p);
  }

  /** A dot product with two non-vanishing terms is their sum. */
  lemma DotTwoTerms(u: seq<real>, v: seq<real>, p: nat, q: nat)
    requires |u| == |v| && p < |u| && q < |u| && p != q
    requires forall k | 0 <= k < |u| && k != p && k != q :: u[k] * v[k] == 0.0
    ensures Dot(u, v) == u[p] * v[p] + u[q] * v[q]
  {
    SumTwo(Products(u, v), p, q);
  }

  lemma DotThreeTerms(u: seq<real>, v: seq<real>)
    requires |u| == 3 && |v| == 3
    ensures Dot(u, v) == u[0] * v[0] + u[1] * v[1] + u[2] * v[2]
  {
    DotSplitLast(u, v);
    DotSplitLast(u[..2], v[..2]);
    DotSplitLast(u[..1], v[..1]);
    assert u[..2][..1] == u[..1] && v[..2][..1] == v[..1];
    assert u[..1][..0] == [] && v[..1][..0] == [];
  }

  /** Splitting off the last term of a dot product. */
  lemma DotSplitLast(u: seq<real>, v: seq<real>)
    requires |u| == |v| > 0
    ensures Dot(u, v) == Dot(u[..|u| - 1], v[..|u| - 1]) + u[|u| - 1] * v[|u| - 1]
  {
    var n := |u| - 1;
    var p, p' := Products(u, v), Products(u[..n], v[..n]);
    forall k | 0 <= k < n
      ensures p[..n][k] == p'[k]
    {
    }
    assert p[..n] == p';
  }

  lemma TermDistributes(a: real, s: real, w: real, z: real)
    ensures (a + s * w) * z == a * z + s * (w * z)
  {
  }

  /** The dot product is linear in its first argument. */
  lemma DotAddScaled(u: seq<real>, s: real, w: seq<real>, z: seq<real>)
    requires |u| == |w| == |z|
    ensures Dot(AddScaled(u, s, w), z) == Dot(u, z) + s * Dot(w, z)
  {
    var l := Products(AddScaled(u, s, w), z);
    var r := AddScaled(Products(u, z), s, Products(w, z));
    forall k | 0 <= k < |u|
      ensures l[k] == r[k]
    {
      TermDistributes(u[k], s, w[k], z[k]);
    }
    assert l == r;
    SumAddScaled(Products(u, z), s, Products(w, z));
  }

  // ---------------------------------------------------------------------
  // Element-wise operations
  // ---------------------------------------------------------------------

  function Zero(r: nat, c: nat): (z: Mat)
    ensures IsMatrix(z, r, c)
    ensures forall i, j | 0 <= i < r && 0 <= j < c :: z[i][j] == 0.0
  {
    seq(r, i => seq(c, j => 0.0))
  }

  function Identity(n: nat): (e: Mat)
    ensures IsMatrix(e, n, n)
    ensures forall i, j | 0 <= i < n && 0 <= j < n :: e[i][j] == if i == j then 1.0 else 0.0
  {
    seq(n, i => seq(n, j => if i == j then 1.0 else 0.0))
  }

  function Plus(a: Mat, b: Mat): (c: Mat)
    requires SameShape(a, b)
    ensures SameShape(c, a)
    ensures forall i, j | 0 <= i < |a| && 0 <= j < |a[i]| :: c[i][j] == a[i][j] + b[i][j]
  {
    seq(|a|, i requires 0 <= i < |a| => seq(|a[i]|, j requires 0 <= j < |a[i]| => a[i][j] + b[i][j]))
  }

  function Minus(a: Mat, b: Mat): (c: Mat)
    requires SameShape(a, b)
    ensures SameShape(c, a)
    ensures forall i, j | 0 <= i < |a| && 0 <= j < |a[i]| :: c[i][j] == a[i][j] - b[i][j]
  {
    seq(|a|, i requires 0 <= i < |a| => seq(|a[i]|, j requires 0 <= j < |a[i]| => a[i][j] - b[i][j]))
  }

  /** I - a, computed entry by entry without a separate identity matrix. */
  function IdentityMinus(a: Mat): (c: Mat)
    requires IsMatrix(a, |a|, |a|)
    ensures IsMatrix(c, |a|, |a|)
  {
    seq(|a|, i requires 0 <= i < |a| =>
      seq(|a|, j requires 0 <= j < |a| => if i == j then 1.0 - a[i][j] else 0.0 - a[i][j]))
  }

  function Scaled(a: Mat, s: real): (c: Mat)
    ensures SameShape(c, a)
  {
    seq(|a|, i requires 0 <= i < |a| => ScaleVec(a[i], s))
  }

  /** The subtraction undoes the addition. */
  lemma MinusUndoesPlus(a: Mat, b: Mat)
    requires SameShape(a, b)
    ensures Minus(Plus(a, b), b) == a
  {
    MatrixExtensionality(Minus(Plus(a, b), b), a);
  }

  /** Adding a zero matrix changes nothing. */
  lemma PlusZeroLeft(a: Mat)
    requires Rect(a)
    ensures Plus(Zero(|a|, |a[0]|), a) == a
  {
    MatrixExtensionality(Plus(Zero(|a|, |a[0]|), a), a);
  }

  /** `IdentityMinus` is the subtraction from an identity of matching size. */
  lemma IdentityMinusIsMinus(a: Mat)
    requires IsMatrix(a, |a|, |a|)
    ensures IdentityMinus(a) == Minus(Identity(|a|), a)
  {
    MatrixExtensionality(IdentityMinus(a), Minus(Identity(|a|), a));
  }

  /** A non-zero scaling is undone by scaling with the reciprocal. */
  lemma ScaledByReciprocal(a: Mat, s: real)
    requires s != 0.0
    ensures Scaled(Scaled(a, s), 1.0 / s) == a
  {
    forall i, j | 0 <= i < |a| && 0 <= j < |a[i]|
      ensures Scaled(Scaled(a, s), 1.0 / s)[i][j] == a[i][j]
    {
      assert a[i][j] * s * (1.0 / s) == a[i][j] * (s * (1.0 / s));
    }
    MatrixExtensionality(Scaled(Scaled(a, s), 1.0 / s), a);
  }

  // ---------------------------------------------------------------------
  // Products and transposition
  // ---------------------------------------------------------------------

  /** The matrix product: entry (i, j) is the dot product of row i of `a` with column j of `b`. */
  function Product(a: Mat, b: Mat): (c: Mat)
    requires Rect(b) && IsMatrix(a, |a|, |b|)
    ensures IsMatrix(c, |a|, |b[0]|)
    ensures forall i, j | 0 <= i < |a| && 0 <= j < |b[0]| :: c[i][j] == Dot(a[i], Column(b, j))
  {
    seq(|a|, i requires 0 <= i < |a| =>
      seq(|b[0]|, j requires 0 <= j < |b[0]| => Dot(a[i], Column(b, j))))
  }

  /** a * b^T without forming b^T: entry (i, j) dots row i of `a` with row j of `b`. */
  function ProductByTranspose(a: Mat, b: Mat): (c: Mat)
    requires Rect(b) && IsMatrix(a, |a|, |b[0]|)
    ensures IsMatrix(c, |a|, |b|)
  {
    seq(|a|, i requires 0 <= i < |a| => seq(|b|, j requires 0 <= j < |b| => Dot(a[i], b[j])))
  }

  function Transposed(a: Mat): (t: Mat)
    requires Rect(a)
    ensures Rect(t) && IsMatrix(t, |a[0]|, |a|)
    ensures forall i, j | 0 <= i < |a[0]| && 0 <= j < |a| :: t[i][j] == a[j][i]
  {
    seq(|a[0]|, j requires 0 <= j < |a[0]| => seq(|a|, i requires 0 <= i < |a| => a[i][j]))
  }

  /** Transposing twice gives back the original matrix. */
  lemma TransposeInvolution(a: Mat)
    requires Rect(a)
    ensures Transposed(Transposed(a)) == a
  {
    MatrixExtensionality(Transposed(Transposed(a)), a);
  }

  /** Multiplying by the transpose is the product with the transposed matrix. */
  lemma ProductByTransposeIsProduct(a: Mat, b: Mat)
    requires Rect(b) && IsMatrix(a, |a|, |b[0]|)
    ensures ProductByTranspose(a, b) == Product(a, Transposed(b))
  {
    var bt := Transposed(b);
    forall j | 0 <= j < |b|
      ensures Column(bt, j) == b[j]
    {
    }
    MatrixExtensionality(ProductByTranspose(a, b), Product(a, bt));
  }

  /** An identity on the right leaves a matrix unchanged. */
  lemma ProductIdentityRight(a: Mat)
    requires Rect(a)
    ensures Product(a, Identity(|a[0]|)) == a
  {
    var n := |a[0]|;
    var p := Product(a, Identity(n));
    forall i, j | 0 <= i < |a| && 0 <= j < n
      ensures p[i][j] == a[i][j]
    {
      DotOneTerm(a[i], Column(Identity(n), j), j);
    }
    MatrixExtensionality(p, a);
  }

  /** An identity on the left leaves a matrix unchanged. */
  lemma ProductIdentityLeft(b: Mat)
    requires Rect(b)
    ensures Product(Identity(|b|), b) == b
  {
    var n := |b|;
    var p := Product(Identity(n), b);
    forall i, j | 0 <= i < n && 0 <= j < |b[0]|
      ensures p[i][j] == b[i][j]
    {
      DotOneTerm(Identity(n)[i], Column(b, j), i);
    }
    MatrixExtensionality(p, b);
  }

  /** A zero matrix on the right gives a zero product. */
  lemma ProductZeroRight(a: Mat, k: nat, c: nat)
    requires 0 < k && 0 < c && IsMatrix(a, |a|, k)
    ensures Product(a, Zero(k, c)) == Zero(|a|, c)
  {
    var p := Product(a, Zero(k, c));
    forall i, j | 0 <= i < |a| && 0 <= j < c
      ensures p[i][j] == 0.0
    {
      DotZeroTerms(a[i], Column(Zero(k, c), j));
    }
    MatrixExtensionality(p, Zero(|a|, c));
  }

  /** A zero matrix on the left gives a zero product. */
  lemma ProductZeroLeft(r: nat, b: Mat)
    requires Rect(b)
    ensures Product(Zero(r, |b|), b) == Zero(r, |b[0]|)
  {
    var p := Product(Zero(r, |b|), b);
    forall i, j | 0 <= i < r && 0 <= j < |b[0]|
      ensures p[i][j] == 0.0
    {
      DotZeroTerms(Zero(r, |b|)[i], Column(b, j));
    }
    MatrixExtensionality(p, Zero(r, |b[0]|));
  }

  /** Row `x` times the matrix `y`, for `y` with `p` columns. */
  function RowTimes(x: seq<real>, y: Mat, p: nat): (r: seq<real>)
    requires IsMatrix(y, |x|, p)
    ensures |r| == p
    ensures forall k | 0 <= k < p :: r[k] == Dot(x, Column(y, k))
  {
    seq(p, k requires 0 <= k < p => Dot(x, Column(y, k)))
  }

  /** The matrix `y` times the column `z`. */
  function ColTimes(y: Mat, z: seq<real>): (r: seq<real>)
    requires IsMatrix(y, |y|, |z|)
    ensures |r| == |y|
    ensures forall l | 0 <= l < |y| :: r[l] == Dot(y[l], z)
  {
    seq(|y|, l requires 0 <= l < |y| => Dot(y[l], z))
  }

  /** (x y) z == x (y z) for a row x, a matrix y and a column z. */
  lemma {:induction false} BilinearExchange(x: seq<real>, y: Mat, z: seq<real>)
    requires IsMatrix(y, |x|, |z|)
    ensures Dot(RowTimes(x, y, |z|), z) == Dot(x, ColTimes(y, z))
    decreases |x|
  {
    var p := |z|;
    if |x| == 0 {
      DotZeroTerms(RowTimes(x, y, p), z);
    } else {
      var m := |x| - 1;
      RowTimesSplit(x, y, z);
      ColTimesSplit(x, y, z);
      BilinearExchange(x[..m], y[..m], z);
    }
  }

  /** Peeling the last row off `y` on the (x y) z side. */
  lemma RowTimesSplit(x: seq<real>, y: Mat, z: seq<real>)
    requires |x| > 0 && IsMatrix(y, |x|, |z|)
    ensures IsMatrix(y[..|x| - 1], |x| - 1, |z|)
    ensures Dot(RowTimes(x, y, |z|), z)
         == Dot(RowTimes(x[..|x| - 1], y[..|x| - 1], |z|), z) + x[|x| - 1] * Dot(y[|x| - 1], z)
  {
    var m := |x| - 1;
    RowTimesLastRow(x, y, |z|);
    DotAddScaled(RowTimes(x[..m], y[..m], |z|), x[m], y[m], z);
  }

  /** Peeling the last row off `y` on the x (y z) side. */
  lemma ColTimesSplit(x: seq<real>, y: Mat, z: seq<real>)
    requires |x| > 0 && IsMatrix(y, |x|, |z|)
    ensures IsMatrix(y[..|x| - 1], |x| - 1, |z|)
    ensures Dot(x, ColTimes(y, z)) == Dot(x[..|x| - 1], ColTimes(y[..|x| - 1], z)) + x[|x| - 1] * Dot(y[|x| - 1], z)
  {
    var m := |x| - 1;
    assert IsMatrix(y[..m], m, |z|);
    var ct, ct' := ColTimes(y, z), ColTimes(y[..m], z);
    assert ct[..m] == ct';
    DotSplitLast(x, ct);
  }

  /** Splitting off the last entry of `x` splits off the last row of `y`. */
  lemma RowTimesLastRow(x: seq<real>, y: Mat, p: nat)
    requires |x| > 0 && IsMatrix(y, |x|, p)
    ensures IsMatrix(y[..|x| - 1], |x| - 1, p)
    ensures RowTimes(x, y, p) == AddScaled(RowTimes(x[..|x| - 1], y[..|x| - 1], p), x[|x| - 1], y[|x| - 1])
  {
    var m := |x| - 1;
    var x', y' := x[..m], y[..m];
    assert IsMatrix(y', m, p);
    var l, r := RowTimes(x, y, p), AddScaled(RowTimes(x', y', p), x[m], y[m]);
    forall k | 0 <= k < p
      ensures l[k] == r[k]
    {
      assert Column(y, k)[..m] == Column(y', k);
      DotSplitLast(x, Column(y, k));
    }
  }

  /** Matrix multiplication is associative. */
  lemma ProductAssociative(x: Mat, y: Mat, z: Mat)
    requires Rect(y) && Rect(z) && IsMatrix(x, |x|, |y|) && |y[0]| == |z|
    ensures Product(Product(x, y), z) == Product(x, Product(y, z))
  {
    var xy, yz := Product(x, y), Product(y, z);
    var l, r := Product(xy, z), Product(x, yz);
    forall i, j | 0 <= i < |x| && 0 <= j < |z[0]|
      ensures l[i][j] == r[i][j]
    {
      var zc := Column(z, j);
      assert xy[i] == RowTimes(x[i], y, |zc|);
      assert Column(yz, j) == ColTimes(y, zc);
      BilinearExchange(x[i], y, zc);
    }
    MatrixExtensionality(l, r);
  }

  // ---------------------------------------------------------------------
  // Elementary row operations
  // ---------------------------------------------------------------------

  /** Rows r1 and r2 exchanged; every other row unchanged. */
  function RowsSwapped(m: Mat, r1: nat, r2: nat): (s: Mat)
    requires r1 < |m| && r2 < |m| && r1 != r2 && |m[r1]| == |m[r2]|
    ensures SameShape(s, m)
  {
    m[r1 := m[r2]][r2 := m[r1]]
  }

  /** Row r multiplied by s; every other row unchanged. */
  function RowScaled(m: Mat, r: nat, s: real): (t: Mat)
    requires r < |m| && s != 0.0
    ensures SameShape(t, m)
  {
    m[r := ScaleVec(m[r], s)]
  }

  /** s times row r2 added to row r1; every other row, r2 included, unchanged. */
  function RowSheared(m: Mat, r1: nat, r2: nat, s: real): (t: Mat)
    requires r1 < |m| && r2 < |m| && r1 != r2 && |m[r1]| == |m[r2]|
    ensures SameShape(t, m)
  {
    m[r1 := AddScaled(m[r1], s, m[r2])]
  }

  /** Swapping the same two rows again restores the matrix. */
  lemma SwapUndoesSwap(m: Mat, r1: nat, r2: nat)
    requires r1 < |m| && r2 < |m| && r1 != r2 && |m[r1]| == |m[r2]|
    ensures RowsSwapped(RowsSwapped(m, r1, r2), r1, r2) == m
  {
  }

  /** Scaling a row by the reciprocal undoes scaling it. */
  lemma RowScaleUndoesRowScale(m: Mat, r: nat, s: real)
    requires r < |m| && s != 0.0
    ensures RowScaled(RowScaled(m, r, s), r, 1.0 / s) == m
  {
    var t := RowScaled(RowScaled(m, r, s), r, 1.0 / s);
    forall k | 0 <= k < |m[r]|
      ensures t[r][k] == m[r][k]
    {
      assert m[r][k] * s * (1.0 / s) == m[r][k] * (s * (1.0 / s));
    }
    assert t[r] == m[r];
  }

  /** Shearing with the negated scalar undoes a shear. */
  lemma RowShearUndoesRowShear(m: Mat, r1: nat, r2: nat, s: real)
    requires r1 < |m| && r2 < |m| && r1 != r2 && |m[r1]| == |m[r2]|
    ensures RowSheared(RowSheared(m, r1, r2, s), r1, r2, -s) == m
  {
    var u := RowSheared(m, r1, r2, s);
    var t := RowSheared(u, r1, r2, -s);
    assert u[r2] == m[r2];
    forall k | 0 <= k < |m[r1]|
      ensures t[r1][k] == m[r1][k]
    {
      assert t[r1][k] == u[r1][k] + -s * m[r2][k];
      assert u[r1][k] == m[r1][k] + s * m[r2][k];
    }
    assert t[r1] == m[r1];
  }

  /** Swapping two rows is multiplication on the left by the swapped identity. */
  lemma SwapIsProduct(m: Mat, r1: nat, r2: nat)
    requires Rect(m) && r1 < |m| && r2 < |m| && r1 != r2
    ensures RowsSwapped(m, r1, r2) == Product(RowsSwapped(Identity(|m|), r1, r2), m)
  {
    var n := |m|;
    var e := RowsSwapped(Identity(n), r1, r2);
    var p := Product(e, m);
    var s := RowsSwapped(m, r1, r2);
    forall i, j | 0 <= i < n && 0 <= j < |m[0]|
      ensures p[i][j] == s[i][j]
    {
      SwappedIdentityRow(n, r1, r2, i, Column(m, j));
    }
    MatrixExtensionality(p, s);
  }

  /** Row i of the swapped identity picks out entry i of `v`, with r1 and r2 exchanged. */
  lemma SwappedIdentityRow(n: nat, r1: nat, r2: nat, i: nat, v: seq<real>)
    requires r1 < n && r2 < n && r1 != r2 && i < n && |v| == n
    ensures Dot(RowsSwapped(Identity(n), r1, r2)[i], v) == v[if i == r1 then r2 else if i == r2 then r1 else i]
  {
    var src := if i == r1 then r2 else if i == r2 then r1 else i;
    var e := RowsSwapped(Identity(n), r1, r2)[i];
    assert e == Identity(n)[src];
    forall k | 0 <= k < n && k != src
      ensures e[k] * v[k] == 0.0
    {
      assert e[k] == 0.0;
    }
    DotOneTerm(e, v, src);
  }

  /** Scaling a row is multiplication on the left by the row-scaled identity. */
  lemma RowScaleIsProduct(m: Mat, r: nat, s: real)
    requires Rect(m) && r < |m| && s != 0.0
    ensures RowScaled(m, r, s) == Product(RowScaled(Identity(|m|), r, s), m)
  {
    var n := |m|;
    var e := RowScaled(Identity(n), r, s);
    var p := Product(e, m);
    var t := RowScaled(m, r, s);
    forall i, j | 0 <= i < n && 0 <= j < |m[0]|
      ensures p[i][j] == t[i][j]
    {
      ScaledIdentityRow(n, r, s, i, Column(m, j));
    }
    MatrixExtensionality(p, t);
  }

  /** Row i of the row-scaled identity picks out entry i of `v`, times s when i == r. */
  lemma ScaledIdentityRow(n: nat, r: nat, s: real, i: nat, v: seq<real>)
    requires r < n && s != 0.0 && i < n && |v| == n
    ensures Dot(RowScaled(Identity(n), r, s)[i], v) == if i == r then s * v[r] else v[i]
  {
    var e := RowScaled(Identity(n), r, s)[i];
    forall k | 0 <= k < n && k != i
      ensures e[k] * v[k] == 0.0
    {
      assert e[k] == 0.0;
    }
    DotOneTerm(e, v, i);
  }

  /** Shearing a row is multiplication on the left by the sheared identity. */
  lemma RowShearIsProduct(m: Mat, r1: nat, r2: nat, s: real)
    requires Rect(m) && r1 < |m| && r2 < |m| && r1 != r2
    ensures RowSheared(m, r1, r2, s) == Product(RowSheared(Identity(|m|), r1, r2, s), m)
  {
    var n := |m|;
    var e := RowSheared(Identity(n), r1, r2, s);
    var p := Product(e, m);
    var t := RowSheared(m, r1, r2, s);
    forall i, j | 0 <= i < n && 0 <= j < |m[0]|
      ensures p[i][j] == t[i][j]
    {
      ShearedIdentityRow(n, r1, r2, s, i, Column(m, j));
    }
    MatrixExtensionality(p, t);
  }

  /** Row i of the sheared identity picks out entry i of `v`, plus s times entry r2 when i == r1. */
  lemma ShearedIdentityRow(n: nat, r1: nat, r2: nat, s: real, i: nat, v: seq<real>)
    requires r1 < n && r2 < n && r1 != r2 && i < n && |v| == n
    ensures Dot(RowSheared(Identity(n), r1, r2, s)[i], v) == if i == r1 then v[r1] + s * v[r2] else v[i]
  {
    var e := RowSheared(Identity(n), r1, r2, s)[i];
    if i == r1 {
      DotTwoTerms(e, v, r1, r2);
    } else {
      DotOneTerm(e, v, i);
    }
  }

  // ---------------------------------------------------------------------
  // Tolerance comparison
  // ---------------------------------------------------------------------

  function RealAbs(x: real): real
  {
    if x < 0.0 then -x else x
  }

  /**
   * C's integer `abs` applied to a double: the argument is first converted
   * to int, truncating toward zero, so the result is the floor of |x|.
   */
  function TruncatedAbs(x: real): (r: int)
    ensures 0 <= r
    ensures r as real <= RealAbs(x) < r as real + 1.0
  {
    if x < 0.0 then (-x).Floor else x.Floor
  }

  /** The comparison as the engine performs it: every truncated difference is within `tol`. */
  predicate TruncatedClose(a: Mat, b: Mat, tol: real)
    requires SameShape(a, b)
  {
    forall i, j | 0 <= i < |a| && 0 <= j < |a[i]| :: TruncatedAbs(a[i][j] - b[i][j]) as real <= tol
  }

  /** The comparison as intended: every difference is within `tol`. */
  predicate Close(a: Mat, b: Mat, tol: real)
    requires SameShape(a, b)
  {
    forall i, j | 0 <= i < |a| && 0 <= j < |a[i]| :: RealAbs(a[i][j] - b[i][j]) <= tol
  }

  /** The engine's comparison accepts every pair the intended one accepts. */
  lemma CloseImpliesTruncatedClose(a: Mat, b: Mat, tol: real)
    requires SameShape(a, b) && Close(a, b, tol)
    ensures TruncatedClose(a, b, tol)
  {
    forall i, j | 0 <= i < |a| && 0 <= j < |a[i]|
      ensures TruncatedAbs(a[i][j] - b[i][j]) as real <= tol
    {
      var d := a[i][j] - b[i][j];
      assert TruncatedAbs(d) as real <= RealAbs(d) <= tol;
    }
  }

  /** Equal matrices compare equal for every non-negative tolerance. */
  lemma TruncatedCloseReflexive(a: Mat, b: Mat, tol: real)
    requires 0.0 <= tol && a == b
    ensures SameShape(a, b) && TruncatedClose(a, b, tol)
  {
    forall i, j | 0 <= i < |a| && 0 <= j < |a[i]|
      ensures TruncatedAbs(a[i][j] - b[i][j]) as real <= tol
    {
      var d := a[i][j] - b[i][j];
      assert RealAbs(d) == 0.0;
      assert TruncatedAbs(d) as real <= RealAbs(d);
    }
  }

  /**
   * The engine's comparison accepts a difference of 0.5 under tolerance 0.25,
   * which the intended comparison rejects.
   */
  lemma TruncatedCloseMissesFractions()
    ensures SameShape([[0.5]], [[0.0]])
    ensures TruncatedClose([[0.5]], [[0.0]], 0.25)
    ensures !Close([[0.5]], [[0.0]], 0.25)
  {
    assert RealAbs([[0.5]][0][0] - [[0.0]][0][0]) == 0.5;
  }

  /** The intended comparison rejects a pair as soon as one entry differs by more than `tol`. */
  lemma CloseRejectsLargeDifference(a: Mat, b: Mat, tol: real, i: nat, j: nat)
    requires SameShape(a, b) && i < |a| && j < |a[i]|
    requires RealAbs(a[i][j] - b[i][j]) > tol
    ensures !Close(a, b, tol)
  {
  }

  // ---------------------------------------------------------------------
  // Row-major flat buffers
  // ---------------------------------------------------------------------

  /**
   * Offset of row `i` in a row-major buffer of `c` columns, built up by
   * repeated addition so that bounds stay linear; `RowStartIsProduct`
   * shows it is `i * c`.
   */
  function RowStart(i: nat, c: nat): nat
  {
    if i == 0 then 0 else RowStart(i - 1, c) + c
  }

  lemma {:induction false} RowStartIsProduct(i: nat, c: nat)
    ensures RowStart(i, c) == i * c
  {
    if i > 0 {
      RowStartIsProduct(i - 1, c);
    }
  }

  /** Every row lies wholly before the offset of any later row. */
  lemma {:induction false} RowStartMonotone(i: nat, r: nat, c: nat)
    requires i < r
    ensures RowStart(i, c) + c <= RowStart(r, c)
    decreases r
  {
    if i + 1 < r {
      RowStartMonotone(i, r - 1, c);
    }
  }

  /** Position of entry (i, j) in a row-major buffer of `c` columns. */
  function FlatIndex(i: nat, j: nat, c: nat): nat
  {
    RowStart(i, c) + j
  }

  /** Row `i` of the r x c matrix held row-major in `v`. */
  function FlatRow(v: seq<real>, r: nat, c: nat, i: nat): (row: seq<real>)
    requires |v| == RowStart(r, c) && i < r
    ensures RowStart(i, c) + c <= |v|
    ensures |row| == c
    ensures forall j | 0 <= j < c :: row[j] == v[FlatIndex(i, j, c)]
  {
    RowStartMonotone(i, r, c);
    v[RowStart(i, c)..RowStart(i, c) + c]
  }

  /** The r x c matrix held row-major in `v`. */
  function Unflatten(v: seq<real>, r: nat, c: nat): (m: Mat)
    requires |v| == RowStart(r, c)
    ensures |m| == r && forall i | 0 <= i < r :: |m[i]| == c && RowStart(i, c) + c <= |v|
    ensures forall i, j | 0 <= i < r && 0 <= j < c :: m[i][j] == v[FlatIndex(i, j, c)]
  {
    seq(r, i requires 0 <= i < r => FlatRow(v, r, c, i))
  }
}
