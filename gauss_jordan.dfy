/**
 * Gauss-Jordan inversion as the engine performs it, stated on values.
 *
 * The input and an identity matrix undergo the same elementary row
 * operations.  Pass `i` makes column `i` a unit column: when the diagonal
 * entry is zero it first swaps in the first row below with a non-zero entry
 * in that column (giving up when there is none), then scales the pivot row
 * to put 1 on the diagonal and shears every other row to clear the column.
 *
 * `Invert` is deterministic and also defines the matrices left behind by a
 * failed inversion.  The lemmas at the end prove that over exact arithmetic
 * it succeeds exactly on invertible matrices and then yields the inverse.
 */
module GaussJordan {
  import opened MatrixAlgebra

  /** `a` is an n x n matrix with n >= 1. */
  predicate Square(a: Mat, n: nat)
  {
    0 < n && IsMatrix(a, n, n)
  }

  /** Outcome of an elimination: whether it completed, and both matrices as left. */
  datatype Elimination = Elimination(ok: bool, input: Mat, output: Mat)

  // ---------------------------------------------------------------------
  // The procedure
  // ---------------------------------------------------------------------

  /** The first row at or after `from` whose entry in column `i` is non-zero, or |m| if none. */
  function FirstNonZeroBelow(m: Mat, i: nat, from: nat): (r: nat)
    requires Square(m, |m|) && i < |m| && from <= |m|
    ensures from <= r <= |m|
    ensures forall k | from <= k < r :: m[k][i] == 0.0
    ensures r < |m| ==> m[r][i] != 0.0
    decreases |m| - from
  {
    if from == |m| then from
    else if m[from][i] != 0.0 then from
    else FirstNonZeroBelow(m, i, from + 1)
  }

  /**
   * Clears column `i` in rows j, j+1, ... (skipping row `i`) by adding
   * -m[j][i] times row `i`, applying each shear to `o` as well.
   */
  function EliminateFrom(m: Mat, o: Mat, i: nat, j: nat): (e: Elimination)
    requires Square(m, |m|) && Square(o, |m|) && i < |m| && j <= |m|
    ensures e.ok && Square(e.input, |m|) && Square(e.output, |m|)
    decreases |m| - j
  {
    if j == |m| then Elimination(true, m, o)
    else if j == i then EliminateFrom(m, o, i, j + 1)
    else
      var f := -m[j][i];
      EliminateFrom(RowSheared(m, j, i, f), RowSheared(o, j, i, f), i, j + 1)
  }

  /** Scales row `i` by 1 / m[i][i] in both matrices, then clears column `i`. */
  function Normalize(m: Mat, o: Mat, i: nat): (e: Elimination)
    requires Square(m, |m|) && Square(o, |m|) && i < |m| && m[i][i] != 0.0
    ensures e.ok && Square(e.input, |m|) && Square(e.output, |m|)
  {
    var s := 1.0 / m[i][i];
    EliminateFrom(RowScaled(m, i, s), RowScaled(o, i, s), i, 0)
  }

  /** Pass `i`: pivot if needed, then normalise; fails when column `i` has no pivot. */
  function PivotStep(m: Mat, o: Mat, i: nat): (e: Elimination)
    requires Square(m, |m|) && Square(o, |m|) && i < |m|
    ensures Square(e.input, |m|) && Square(e.output, |m|)
    ensures !e.ok <==> m[i][i] == 0.0 && forall r | i < r < |m| :: m[r][i] == 0.0
  {
    if m[i][i] != 0.0 then Normalize(m, o, i)
    else
      var r := FirstNonZeroBelow(m, i, i + 1);
      if r == |m| then Elimination(false, m, o)
      else Normalize(RowsSwapped(m, i, r), RowsSwapped(o, i, r), i)
  }

  /** Passes i, i+1, ..., stopping at the first pass that fails. */
  function GaussJordanFrom(m: Mat, o: Mat, i: nat): (e: Elimination)
    requires Square(m, |m|) && Square(o, |m|) && i <= |m|
    ensures Square(e.input, |m|) && Square(e.output, |m|)
    decreases |m| - i
  {
    if i == |m| then Elimination(true, m, o)
    else
      var p := PivotStep(m, o, i);
      if !p.ok then p else GaussJordanFrom(p.input, p.output, i + 1)
  }

  /** The whole inversion of `a`, starting from an identity output. */
  function Invert(a: Mat): (e: Elimination)
    requires Square(a, |a|)
    ensures Square(e.input, |a|) && Square(e.output, |a|)
  {
    GaussJordanFrom(a, Identity(|a|), 0)
  }

  // ---------------------------------------------------------------------
  // Row operations as multiplication by invertible elementary matrices
  // ---------------------------------------------------------------------

  /**
   * The bookkeeping of the elimination: `o` maps `a` to `m`, and `q` is a
   * left inverse of `o`, so `q` maps `m` back to `a`.
   */
  ghost predicate Tracks(a: Mat, m: Mat, o: Mat, q: Mat)
  {
    Square(a, |a|) && Square(m, |a|) && Square(o, |a|) && Square(q, |a|) &&
    Product(o, a) == m && Product(q, o) == Identity(|a|)
  }

  /** The row operations recorded in `o` can be undone. */
  lemma TracksUndo(a: Mat, m: Mat, o: Mat, q: Mat)
    requires Tracks(a, m, o, q)
    ensures Product(q, m) == a
  {
    ProductAssociative(q, o, a);
    ProductIdentityLeft(a);
  }

  /** Applying an elementary matrix with a left inverse to both sides keeps the bookkeeping. */
  lemma TracksStep(a: Mat, m: Mat, o: Mat, q: Mat, e: Mat, f: Mat)
    requires Tracks(a, m, o, q)
    requires Square(e, |a|) && Square(f, |a|) && Product(f, e) == Identity(|a|)
    ensures Tracks(a, Product(e, m), Product(e, o), Product(q, f))
  {
    ProductAssociative(e, o, a);
    ProductAssociative(q, f, Product(e, o));
    ProductAssociative(f, e, o);
    ProductIdentityLeft(o);
  }

  /** `f` undoes `e`: both are n x n and f * e is the identity. */
  ghost predicate Undoes(f: Mat, e: Mat, n: nat)
  {
    Square(e, n) && Square(f, n) && Product(f, e) == Identity(n)
  }

  lemma UndoesCompose(e1: Mat, f1: Mat, e2: Mat, f2: Mat, n: nat)
    requires Undoes(f1, e1, n) && Undoes(f2, e2, n)
    ensures Undoes(Product(f1, f2), Product(e2, e1), n)
  {
    ProductAssociative(f1, f2, Product(e2, e1));
    ProductAssociative(f2, e2, e1);
    ProductIdentityLeft(e1);
  }

  /** Doing nothing is multiplication by the identity. */
  lemma NoOpElementary(m: Mat, o: Mat) returns (e: Mat, f: Mat)
    requires Square(m, |m|) && Square(o, |m|)
    ensures Undoes(f, e, |m|) && m == Product(e, m) && o == Product(e, o)
  {
    e, f := Identity(|m|), Identity(|m|);
    ProductIdentityLeft(m);
    ProductIdentityLeft(o);
    ProductIdentityLeft(e);
  }

  lemma SwapElementary(m: Mat, o: Mat, r1: nat, r2: nat) returns (e: Mat, f: Mat)
    requires Square(m, |m|) && Square(o, |m|) && r1 < |m| && r2 < |m| && r1 != r2
    ensures Undoes(f, e, |m|)
    ensures RowsSwapped(m, r1, r2) == Product(e, m) && RowsSwapped(o, r1, r2) == Product(e, o)
  {
    e := RowsSwapped(Identity(|m|), r1, r2);
    f := e;
    SwapIsProduct(m, r1, r2);
    SwapIsProduct(o, r1, r2);
    SwapIsProduct(e, r1, r2);
    SwapUndoesSwap(Identity(|m|), r1, r2);
  }

  lemma ScaleElementary(m: Mat, o: Mat, r: nat, s: real) returns (e: Mat, f: Mat)
    requires Square(m, |m|) && Square(o, |m|) && r < |m| && s != 0.0
    ensures Undoes(f, e, |m|)
    ensures RowScaled(m, r, s) == Product(e, m) && RowScaled(o, r, s) == Product(e, o)
  {
    e, f := RowScaled(Identity(|m|), r, s), RowScaled(Identity(|m|), r, 1.0 / s);
    RowScaleIsProduct(m, r, s);
    RowScaleIsProduct(o, r, s);
    RowScaleIsProduct(e, r, 1.0 / s);
    RowScaleUndoesRowScale(Identity(|m|), r, s);
  }

  lemma ShearElementary(m: Mat, o: Mat, r1: nat, r2: nat, s: real) returns (e: Mat, f: Mat)
    requires Square(m, |m|) && Square(o, |m|) && r1 < |m| && r2 < |m| && r1 != r2
    ensures Undoes(f, e, |m|)
    ensures RowSheared(m, r1, r2, s) == Product(e, m) && RowSheared(o, r1, r2, s) == Product(e, o)
  {
    e, f := RowSheared(Identity(|m|), r1, r2, s), RowSheared(Identity(|m|), r1, r2, -s);
    RowShearIsProduct(m, r1, r2, s);
    RowShearIsProduct(o, r1, r2, s);
    RowShearIsProduct(e, r1, r2, -s);
    RowShearUndoesRowShear(Identity(|m|), r1, r2, s);
  }

  /** Two successive left multiplications are one, and the combined one can be undone. */
  lemma ThenElementary(m: Mat, o: Mat, e1: Mat, f1: Mat, e2: Mat, f2: Mat) returns (e: Mat, f: Mat)
    requires Square(m, |m|) && Square(o, |m|) && Undoes(f1, e1, |m|) && Undoes(f2, e2, |m|)
    ensures Undoes(f, e, |m|)
    ensures Product(e2, Product(e1, m)) == Product(e, m) && Product(e2, Product(e1, o)) == Product(e, o)
  {
    UndoesCompose(e1, f1, e2, f2, |m|);
    ProductAssociative(e2, e1, m);
    ProductAssociative(e2, e1, o);
    e, f := Product(e2, e1), Product(f1, f2);
  }

  lemma EliminateFromUnfold(m: Mat, o: Mat, i: nat, j: nat)
    requires Square(m, |m|) && Square(o, |m|) && i < |m| && j < |m| && j != i
    ensures EliminateFrom(m, o, i, j)
         == EliminateFrom(RowSheared(m, j, i, -m[j][i]), RowSheared(o, j, i, -m[j][i]), i, j + 1)
  {
  }

  /** Clearing a column is a left multiplication of both matrices that can be undone. */
  lemma {:induction false} EliminateFromElementary(m: Mat, o: Mat, i: nat, j: nat, x: Elimination)
    returns (e: Mat, f: Mat)
    requires Square(m, |m|) && Square(o, |m|) && i < |m| && j <= |m| && x == EliminateFrom(m, o, i, j)
    ensures Undoes(f, e, |m|) && x.input == Product(e, m) && x.output == Product(e, o)
    decreases |m| - j
  {
    if j == |m| {
      e, f := NoOpElementary(m, o);
    } else if j == i {
      e, f := EliminateFromElementary(m, o, i, j + 1, x);
    } else {
      var s := -m[j][i];
      EliminateFromUnfold(m, o, i, j);
      var e2, f2 := EliminateFromElementary(RowSheared(m, j, i, s), RowSheared(o, j, i, s), i, j + 1, x);
      var e1, f1 := ShearElementary(m, o, j, i, s);
      e, f := ThenElementary(m, o, e1, f1, e2, f2);
    }
  }

  /** Pass `i` after swapping in row `r`, the first below with a non-zero entry in column `i`. */
  lemma PivotStepSwapped(m: Mat, o: Mat, i: nat, r: nat)
    requires Square(m, |m|) && Square(o, |m|) && i < |m| && m[i][i] == 0.0
    requires r == FirstNonZeroBelow(m, i, i + 1) < |m|
    ensures RowsSwapped(m, i, r)[i][i] != 0.0
    ensures PivotStep(m, o, i) == Normalize(RowsSwapped(m, i, r), RowsSwapped(o, i, r), i)
  {
  }

  /** Pass `i` when column `i` has no pivot. */
  lemma PivotStepFails(m: Mat, o: Mat, i: nat)
    requires Square(m, |m|) && Square(o, |m|) && i < |m| && m[i][i] == 0.0
    requires FirstNonZeroBelow(m, i, i + 1) == |m|
    ensures PivotStep(m, o, i) == Elimination(false, m, o)
  {
  }

  lemma NormalizeElementary(m: Mat, o: Mat, i: nat, x: Elimination) returns (e: Mat, f: Mat)
    requires Square(m, |m|) && Square(o, |m|) && i < |m| && m[i][i] != 0.0 && x == Normalize(m, o, i)
    ensures Undoes(f, e, |m|) && x.input == Product(e, m) && x.output == Product(e, o)
  {
    var s := 1.0 / m[i][i];
    var e2, f2 := EliminateFromElementary(RowScaled(m, i, s), RowScaled(o, i, s), i, 0, x);
    var e1, f1 := ScaleElementary(m, o, i, s);
    e, f := ThenElementary(m, o, e1, f1, e2, f2);
  }

  /** A pass, successful or not, is a left multiplication of both matrices that can be undone. */
  lemma PivotStepElementary(m: Mat, o: Mat, i: nat, x: Elimination) returns (e: Mat, f: Mat)
    requires Square(m, |m|) && Square(o, |m|) && i < |m| && x == PivotStep(m, o, i)
    ensures Undoes(f, e, |m|) && x.input == Product(e, m) && x.output == Product(e, o)
  {
    if m[i][i] != 0.0 {
      e, f := NormalizeElementary(m, o, i, x);
    } else {
      var r := FirstNonZeroBelow(m, i, i + 1);
      if r == |m| {
        PivotStepFails(m, o, i);
        e, f := NoOpElementary(m, o);
      } else {
        PivotStepSwapped(m, o, i, r);
        var e2, f2 := NormalizeElementary(RowsSwapped(m, i, r), RowsSwapped(o, i, r), i, x);
        var e1, f1 := SwapElementary(m, o, i, r);
        e, f := ThenElementary(m, o, e1, f1, e2, f2);
      }
    }
  }

  // ---------------------------------------------------------------------
  // Progress: each successful pass adds one unit column
  // ---------------------------------------------------------------------

  /** Columns 0 .. i-1 of `m` are the corresponding columns of the identity. */
  predicate ReducedUpTo(m: Mat, i: nat)
    requires Square(m, |m|) && i <= |m|
  {
    forall r, c | 0 <= r < |m| && 0 <= c < i :: m[r][c] == if r == c then 1.0 else 0.0
  }

  lemma {:induction false} EliminateFromReduces(m: Mat, o: Mat, i: nat, j: nat)
    requires Square(m, |m|) && Square(o, |m|) && i < |m| && j <= |m|
    requires ReducedUpTo(m, i) && m[i][i] == 1.0
    requires forall k | 0 <= k < j && k != i :: m[k][i] == 0.0
    ensures ReducedUpTo(EliminateFrom(m, o, i, j).input, i + 1)
    decreases |m| - j
  {
    if j == |m| {
    } else if j == i {
      EliminateFromReduces(m, o, i, j + 1);
    } else {
      var f := -m[j][i];
      var m' := RowSheared(m, j, i, f);
      forall c | 0 <= c < i
        ensures m'[j][c] == m[j][c]
      {
        assert m[i][c] == 0.0;
      }
      assert m'[j][i] == 0.0;
      EliminateFromReduces(m', RowSheared(o, j, i, f), i, j + 1);
    }
  }

  lemma NormalizeReduces(m: Mat, o: Mat, i: nat)
    requires Square(m, |m|) && Square(o, |m|) && i < |m| && m[i][i] != 0.0
    requires ReducedUpTo(m, i)
    ensures ReducedUpTo(Normalize(m, o, i).input, i + 1)
  {
    var s := 1.0 / m[i][i];
    var m' := RowScaled(m, i, s);
    forall c | 0 <= c < i
      ensures m'[i][c] == 0.0
    {
      assert m[i][c] == 0.0;
    }
    assert m'[i][i] == 1.0;
    EliminateFromReduces(m', RowScaled(o, i, s), i, 0);
  }

  lemma PivotStepReduces(m: Mat, o: Mat, i: nat)
    requires Square(m, |m|) && Square(o, |m|) && i < |m| && ReducedUpTo(m, i)
    ensures PivotStep(m, o, i).ok ==> ReducedUpTo(PivotStep(m, o, i).input, i + 1)
  {
    if m[i][i] != 0.0 {
      NormalizeReduces(m, o, i);
    } else {
      var r := FirstNonZeroBelow(m, i, i + 1);
      if r < |m| {
        var m' := RowsSwapped(m, i, r);
        assert ReducedUpTo(m', i) by {
          forall k, c | 0 <= k < |m| && 0 <= c < i
            ensures m'[k][c] == if k == c then 1.0 else 0.0
          {
            if k == i || k == r {
              assert m[i][c] == 0.0 && m[r][c] == 0.0;
            }
          }
        }
        NormalizeReduces(m', RowsSwapped(o, i, r), i);
      }
    }
  }

  // ---------------------------------------------------------------------
  // Failure: a column without a pivot gives a null vector
  // ---------------------------------------------------------------------

  /** `a` maps some non-zero column vector to zero. */
  ghost predicate Singular(a: Mat)
    requires Square(a, |a|)
  {
    exists v :: IsMatrix(v, |a|, 1) && v != Zero(|a|, 1) && Product(a, v) == Zero(|a|, 1)
  }

  /**
   * The vector that combines column `i` with the unit columns before it:
   * -m[c][i] in rows c < i, 1 in row i, 0 below.
   */
  function PivotlessColumn(m: Mat, i: nat): (v: Mat)
    requires Square(m, |m|) && i < |m|
    ensures IsMatrix(v, |m|, 1) && v[i][0] == 1.0
    ensures forall c | 0 <= c < |m| :: v[c][0] == if c < i then -m[c][i] else if c == i then 1.0 else 0.0
  {
    seq(|m|, c requires 0 <= c < |m| => [if c < i then -m[c][i] else if c == i then 1.0 else 0.0])
  }

  lemma PivotlessColumnIsNull(m: Mat, i: nat)
    requires Square(m, |m|) && i < |m| && ReducedUpTo(m, i)
    requires forall r | i <= r < |m| :: m[r][i] == 0.0
    ensures Product(m, PivotlessColumn(m, i)) == Zero(|m|, 1)
  {
    var n := |m|;
    var v := PivotlessColumn(m, i);
    forall r | 0 <= r < n
      ensures Dot(m[r], Column(v, 0)) == 0.0
    {
      PivotlessRowIsNull(m, i, r, Column(v, 0));
    }
    MatrixExtensionality(Product(m, v), Zero(n, 1));
  }

  /** Row r of the partly reduced matrix is orthogonal to the pivotless column. */
  lemma PivotlessRowIsNull(m: Mat, i: nat, r: nat, col: seq<real>)
    requires Square(m, |m|) && i < |m| && ReducedUpTo(m, i) && r < |m|
    requires forall r' | i <= r' < |m| :: m[r'][i] == 0.0
    requires col == Column(PivotlessColumn(m, i), 0)
    ensures Dot(m[r], col) == 0.0
  {
    var n := |m|;
    if r < i {
      forall c | 0 <= c < n && c != r && c != i
        ensures m[r][c] * col[c] == 0.0
      {
        if c < i {
          assert m[r][c] == 0.0;
        } else {
          assert col[c] == 0.0;
        }
      }
      DotTwoTerms(m[r], col, r, i);
      assert m[r][r] == 1.0;
    } else {
      forall c | 0 <= c < n && c != i
        ensures m[r][c] * col[c] == 0.0
      {
        if c < i {
          assert m[r][c] == 0.0;
        } else {
          assert col[c] == 0.0;
        }
      }
      DotOneTerm(m[r], col, i);
    }
  }

  /** A matrix that maps a non-zero vector to zero has no left inverse. */
  lemma SingularHasNoLeftInverse(a: Mat, b: Mat)
    requires Square(a, |a|) && Square(b, |a|) && Singular(a)
    ensures Product(b, a) != Identity(|a|)
  {
    var n := |a|;
    var v :| IsMatrix(v, n, 1) && v != Zero(n, 1) && Product(a, v) == Zero(n, 1);
    ProductAssociative(b, a, v);
    ProductIdentityLeft(v);
    ProductZeroRight(b, n, 1);
  }

  // ---------------------------------------------------------------------
  // Correctness
  // ---------------------------------------------------------------------

  /** A pivotless column at pass `i` makes the original matrix singular. */
  lemma NoPivotSingular(a: Mat, m: Mat, q: Mat, i: nat)
    requires Square(a, |a|) && Square(m, |a|) && Square(q, |a|) && Product(q, m) == a
    requires i < |a| && ReducedUpTo(m, i) && forall r | i <= r < |a| :: m[r][i] == 0.0
    ensures Singular(a)
  {
    var n := |a|;
    var v := PivotlessColumn(m, i);
    PivotlessColumnIsNull(m, i);
    ProductAssociative(q, m, v);
    ProductZeroRight(q, n, 1);
    assert v[i][0] != Zero(n, 1)[i][0];
    assert IsMatrix(v, n, 1) && v != Zero(n, 1) && Product(a, v) == Zero(n, 1);
  }

  /** Once every column is a unit column, the output is a two-sided inverse. */
  lemma FullyReducedInverse(a: Mat, m: Mat, o: Mat, q: Mat)
    requires Tracks(a, m, o, q) && ReducedUpTo(m, |a|)
    ensures m == Identity(|a|) && Product(o, a) == Identity(|a|) && Product(a, o) == Identity(|a|)
  {
    MatrixExtensionality(m, Identity(|a|));
    TracksUndo(a, m, o, q);
    ProductIdentityRight(q);
  }

  lemma GaussJordanFromUnfold(m: Mat, o: Mat, i: nat)
    requires Square(m, |m|) && Square(o, |m|) && i <= |m|
    ensures i == |m| ==> GaussJordanFrom(m, o, i) == Elimination(true, m, o)
    ensures i < |m| && !PivotStep(m, o, i).ok ==> GaussJordanFrom(m, o, i) == PivotStep(m, o, i)
    ensures i < |m| && PivotStep(m, o, i).ok ==>
      GaussJordanFrom(m, o, i) == GaussJordanFrom(PivotStep(m, o, i).input, PivotStep(m, o, i).output, i + 1)
  {
  }

  lemma {:induction false} GaussJordanFromCorrect(a: Mat, m: Mat, o: Mat, q: Mat, i: nat, x: Elimination)
    requires Tracks(a, m, o, q) && i <= |a| && ReducedUpTo(m, i) && x == GaussJordanFrom(m, o, i)
    ensures x.ok ==> x.input == Identity(|a|) && Product(x.output, a) == Identity(|a|) && Product(a, x.output) == Identity(|a|)
    ensures !x.ok ==> Singular(a)
    decreases |a| - i
  {
    GaussJordanFromUnfold(m, o, i);
    if i == |a| {
      FullyReducedInverse(a, m, o, q);
    } else {
      var p := PivotStep(m, o, i);
      if !p.ok {
        FailedPassSingular(a, m, o, q, i);
      } else {
        var q' := PassTracks(a, m, o, q, i, p);
        GaussJordanFromCorrect(a, p.input, p.output, q', i + 1, x);
      }
    }
  }

  /** A pass that finds no pivot shows the original matrix singular. */
  lemma FailedPassSingular(a: Mat, m: Mat, o: Mat, q: Mat, i: nat)
    requires Tracks(a, m, o, q) && i < |a| && ReducedUpTo(m, i) && !PivotStep(m, o, i).ok
    ensures Singular(a)
  {
    TracksUndo(a, m, o, q);
    NoPivotSingular(a, m, q, i);
  }

  /** A successful pass keeps the bookkeeping and reduces one more column. */
  lemma PassTracks(a: Mat, m: Mat, o: Mat, q: Mat, i: nat, p: Elimination) returns (q': Mat)
    requires Tracks(a, m, o, q) && i < |a| && ReducedUpTo(m, i) && p == PivotStep(m, o, i) && p.ok
    ensures Tracks(a, p.input, p.output, q') && ReducedUpTo(p.input, i + 1)
  {
    PivotStepReduces(m, o, i);
    var e, f := PivotStepElementary(m, o, i, p);
    TracksStep(a, m, o, q, e, f);
    q' := Product(q, f);
  }

  /**
   * When the inversion reports success the input has become the identity and
   * the output is a two-sided inverse; when it reports failure the matrix is
   * singular.
   */
  lemma InvertCorrect(a: Mat)
    requires Square(a, |a|)
    ensures Invert(a).ok ==> Invert(a).input == Identity(|a|)
    ensures Invert(a).ok ==> Product(Invert(a).output, a) == Identity(|a|) && Product(a, Invert(a).output) == Identity(|a|)
    ensures !Invert(a).ok ==> Singular(a)
  {
    var n := |a|;
    ProductIdentityLeft(a);
    ProductIdentityLeft(Identity(n));
    GaussJordanFromCorrect(a, a, Identity(n), Identity(n), 0, Invert(a));
  }

  /** The inversion succeeds exactly on the matrices that are not singular. */
  lemma InvertOkIffNotSingular(a: Mat)
    requires Square(a, |a|)
    ensures Invert(a).ok <==> !Singular(a)
  {
    InvertCorrect(a);
    if Invert(a).ok && Singular(a) {
      SingularHasNoLeftInverse(a, Invert(a).output);
    }
  }

  /** A matrix with a left inverse `b` is inverted successfully, and the result is `b`. */
  lemma InvertIsTheInverse(a: Mat, b: Mat)
    requires Square(a, |a|) && Square(b, |a|) && Product(b, a) == Identity(|a|)
    ensures Invert(a).ok && Invert(a).output == b
  {
    var n := |a|;
    InvertCorrect(a);
    if !Invert(a).ok {
      SingularHasNoLeftInverse(a, b);
    }
    var c := Invert(a).output;
    ProductAssociative(b, a, c);
    ProductIdentityLeft(c);
    ProductIdentityRight(b);
  }

  /** Inverting the identity succeeds and gives the identity. */
  lemma InvertIdentity(n: nat)
    requires 0 < n
    ensures Invert(Identity(n)).ok && Invert(Identity(n)).output == Identity(n)
  {
    ProductIdentityLeft(Identity(n));
    InvertIsTheInverse(Identity(n), Identity(n));
  }
}
