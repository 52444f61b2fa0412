/**
 * The engine's in-place Gauss-Jordan inversion on Matrix objects.
 *
 * `DestructiveInvert` overwrites `output` with the identity and then applies
 * the same row operations to both matrices, pass by pass.  Its contract ties
 * the final state of both matrices, and the returned flag, to the value-level
 * procedure `GaussJordan.Invert`; the lemmas in GaussJordan then say what that
 * result means (the inverse when the flag is set, a singular input otherwise).
 */
module Inverter {
  import opened MatrixAlgebra
  import opened GaussJordan
  import opened Matrices

  /**
   * Inverts `input` into `output`, destroying `input`.  Returns true on
   * success; on failure both matrices are left as they were at the failing
   * pass.
   */
  method DestructiveInvert(input: Matrix, output: Matrix) returns (ok: bool)
    requires input.Valid() && output.Valid()
    requires input.rows == input.cols && input.rows == output.rows && input.rows == output.cols
    requires input.data != output.data
    modifies input.data, output.data
    ensures ok == Invert(old(input.Value())).ok
    ensures input.Value() == Invert(old(input.Value())).input
    ensures output.Value() == Invert(old(input.Value())).output
  {
    ghost var target := Invert(input.Value());
    output.SetIdentity();
    ok := Passes(input, output, target);
  }

  /** Runs passes 0, 1, ... until one fails or all have succeeded. */
  method Passes(input: Matrix, output: Matrix, ghost x: Elimination) returns (ok: bool)
    requires input.Valid() && output.Valid()
    requires input.rows == input.cols && input.rows == output.rows && input.rows == output.cols
    requires input.data != output.data
    requires x == Outcome(input.Value(), output.Value(), 0)
    modifies input.data, output.data
    ensures x == Elimination(ok, input.Value(), output.Value())
    ensures Elimination(ok, input.Value(), output.Value()) == GaussJordanFrom(old(input.Value()), old(output.Value()), 0)
  {
    var i := 0;
    while i < input.rows
      invariant 0 <= i <= input.rows
      invariant x == Outcome(input.Value(), output.Value(), i)
    {
      var found := Pass(input, output, i, x);
      if !found {
        return false;
      }
      i := i + 1;
    }
    OutcomeDone(input.Value(), output.Value(), x);
    return true;
  }

  /**
   * Pass `i` of the elimination: returns false, changing nothing, when
   * column `i` has no pivot; otherwise makes column `i` a unit column.
   */
  method Pass(input: Matrix, output: Matrix, i: nat, ghost x: Elimination) returns (found: bool)
    requires input.Valid() && output.Valid()
    requires input.rows == input.cols && input.rows == output.rows && input.rows == output.cols
    requires input.data != output.data
    requires i < input.rows
    requires x == Outcome(input.Value(), output.Value(), i)
    modifies input.data, output.data
    ensures found == PivotStep(old(input.Value()), old(output.Value()), i).ok
    ensures found ==> Elimination(true, input.Value(), output.Value()) == PivotStep(old(input.Value()), old(output.Value()), i)
    ensures !found ==> input.Value() == old(input.Value()) && output.Value() == old(output.Value())
    ensures found ==> x == Outcome(input.Value(), output.Value(), i + 1)
    ensures !found ==> x == Elimination(false, input.Value(), output.Value())
  {
    ghost var m, o := input.Value(), output.Value();
    ghost var p := PivotStep(m, o, i);
    found := PlacePivot(input, output, i, p);
    if !found {
      PassFails(m, o, i, x);
      return;
    }
    ClearColumn(input, output, i, p);
    PassSucceeds(m, o, i, input.Value(), output.Value(), x);
  }

  /**
   * The first half of pass `i`: when the diagonal entry is zero, swaps in the
   * first lower row with a non-zero entry in column `i` (in both matrices).
   * Returns false, changing nothing, when there is no such row.
   */
  method PlacePivot(input: Matrix, output: Matrix, i: nat, ghost p: Elimination) returns (found: bool)
    requires input.Valid() && output.Valid()
    requires input.rows == input.cols && input.rows == output.rows && input.rows == output.cols
    requires input.data != output.data
    requires i < input.rows
    requires p == PivotStep(input.Value(), output.Value(), i)
    modifies input.data, output.data
    ensures found == p.ok
    ensures !found ==> input.Value() == old(input.Value()) && output.Value() == old(output.Value())
    ensures found ==> input.Value()[i][i] != 0.0 && p == Normalize(input.Value(), output.Value(), i)
    ensures old(input.Value())[i][i] != 0.0 ==> input.Value() == old(input.Value()) && output.Value() == old(output.Value())
    ensures old(input.Value())[i][i] == 0.0 && found ==>
      var r := FirstNonZeroBelow(old(input.Value()), i, i + 1);
      i < r < input.rows
      && input.Value() == RowsSwapped(old(input.Value()), i, r)
      && output.Value() == RowsSwapped(old(output.Value()), i, r)
  {
    ghost var m, o := input.Value(), output.Value();
    if input.data[i, i] != 0.0 {
      return true;
    }
    var r := i + 1;
    while r < input.rows && input.data[r, i] == 0.0
      invariant i + 1 <= r <= input.rows
      invariant forall k | i + 1 <= k < r :: m[k][i] == 0.0
    {
      r := r + 1;
    }
    FirstNonZeroBelowUnique(m, i, i + 1, r);
    if r == input.rows {
      return false;
    }
    input.SwapRows(i, r);
    output.SwapRows(i, r);
    return true;
  }

  /**
   * The second half of pass `i`: scales row `i` so that the diagonal entry
   * becomes 1, then shears every other row to clear column `i`, applying
   * each operation to both matrices.
   */
  method ClearColumn(input: Matrix, output: Matrix, i: nat, ghost x: Elimination)
    requires input.Valid() && output.Valid()
    requires input.rows == input.cols && input.rows == output.rows && input.rows == output.cols
    requires input.data != output.data
    requires i < input.rows && input.Value()[i][i] != 0.0
    requires x == Normalize(input.Value(), output.Value(), i)
    modifies input.data, output.data
    ensures x == Elimination(true, input.Value(), output.Value())
    ensures Elimination(true, input.Value(), output.Value()) == Normalize(old(input.Value()), old(output.Value()), i)
  {
    ScaleBoth(input, output, i, x);
    ClearOthers(input, output, i, x);
  }

  /** Scales row `i` of both matrices by 1 / input[i, i]. */
  method ScaleBoth(input: Matrix, output: Matrix, i: nat, ghost x: Elimination)
    requires input.Valid() && output.Valid()
    requires input.rows == input.cols && input.rows == output.rows && input.rows == output.cols
    requires input.data != output.data
    requires i < input.rows && input.Value()[i][i] != 0.0
    requires x == Normalize(input.Value(), output.Value(), i)
    modifies input.data, output.data
    ensures input.Value() == RowScaled(old(input.Value()), i, 1.0 / old(input.Value())[i][i])
    ensures output.Value() == RowScaled(old(output.Value()), i, 1.0 / old(input.Value())[i][i])
    ensures x == Cleared(input.Value(), output.Value(), i, 0)
  {
    ghost var m, o := input.Value(), output.Value();
    var scalar := 1.0 / input.data[i, i];
    input.ScaleRow(i, scalar);
    output.ScaleRow(i, scalar);
    NormalizeStart(m, o, i, input.Value(), output.Value(), x);
  }

  /** Shears every row but `i` so that column `i` becomes a unit column, in both matrices. */
  method ClearOthers(input: Matrix, output: Matrix, i: nat, ghost x: Elimination)
    requires input.Valid() && output.Valid()
    requires input.rows == input.cols && input.rows == output.rows && input.rows == output.cols
    requires input.data != output.data
    requires i < input.rows
    requires x == Cleared(input.Value(), output.Value(), i, 0)
    modifies input.data, output.data
    ensures x == Elimination(true, input.Value(), output.Value())
    ensures Elimination(true, input.Value(), output.Value()) == EliminateFrom(old(input.Value()), old(output.Value()), i, 0)
  {
    var j := 0;
    while j < input.rows
      invariant 0 <= j <= input.rows
      invariant x == Cleared(input.Value(), output.Value(), i, j)
    {
      if i != j {
        ShearBoth(input, output, j, i, x);
      } else {
        EliminateFromSkip(input.Value(), output.Value(), i, x);
      }
      j := j + 1;
    }
    EliminateFromDone(input.Value(), output.Value(), i, x);
  }

  /** Adds -input[j, i] times row `i` to row `j`, in both matrices. */
  method ShearBoth(input: Matrix, output: Matrix, j: nat, i: nat, ghost x: Elimination)
    requires input.Valid() && output.Valid()
    requires input.rows == input.cols && input.rows == output.rows && input.rows == output.cols
    requires input.data != output.data
    requires i < input.rows && j < input.rows && i != j
    requires x == Cleared(input.Value(), output.Value(), i, j)
    modifies input.data, output.data
    ensures input.Value() == RowSheared(old(input.Value()), j, i, -old(input.Value())[j][i])
    ensures output.Value() == RowSheared(old(output.Value()), j, i, -old(input.Value())[j][i])
    ensures x == Cleared(input.Value(), output.Value(), i, j + 1)
  {
    ghost var m, o := input.Value(), output.Value();
    var shearNeeded := -input.data[j, i];
    input.ShearRow(j, i, shearNeeded);
    output.ShearRow(j, i, shearNeeded);
    ShearStep(m, o, i, j, input.Value(), output.Value(), x);
  }

  /** Scaling the pivot row is the first step of `Normalize`. */
  lemma NormalizeStart(m: Mat, o: Mat, i: nat, m': Mat, o': Mat, x: Elimination)
    requires Square(m, |m|) && Square(o, |m|) && i < |m| && m[i][i] != 0.0
    requires m' == RowScaled(m, i, 1.0 / m[i][i]) && o' == RowScaled(o, i, 1.0 / m[i][i])
    requires x == Normalize(m, o, i)
    ensures x == Cleared(m', o', i, 0)
  {
  }

  /** One shear of the clearing loop keeps the outcome of the remaining loop unchanged. */
  lemma ShearStep(m: Mat, o: Mat, i: nat, j: nat, m': Mat, o': Mat, x: Elimination)
    requires Square(m, |m|) && Square(o, |m|) && i < |m| && j < |m| && j != i
    requires m' == RowSheared(m, j, i, -m[j][i]) && o' == RowSheared(o, j, i, -m[j][i])
    requires x == Cleared(m, o, i, j)
    ensures x == Cleared(m', o', i, j + 1)
  {
    EliminateFromUnfold(m, o, i, j);
  }

  /** The clearing loop skips the pivot row. */
  lemma EliminateFromSkip(m: Mat, o: Mat, i: nat, x: Elimination)
    requires Square(m, |m|) && Square(o, |m|) && i < |m|
    requires x == Cleared(m, o, i, i)
    ensures x == Cleared(m, o, i, i + 1)
  {
  }

  /** With no rows left, clearing succeeds and changes nothing. */
  lemma EliminateFromDone(m: Mat, o: Mat, i: nat, x: Elimination)
    requires Square(m, |m|) && Square(o, |m|) && i < |m|
    requires x == Cleared(m, o, i, |m|)
    ensures x == Elimination(true, m, o)
  {
  }

  /** A pass that finds no pivot ends the elimination where it stands. */
  lemma PassFails(m: Mat, o: Mat, i: nat, x: Elimination)
    requires Square(m, |m|) && Square(o, |m|) && i < |m|
    requires x == Outcome(m, o, i) && !PivotStep(m, o, i).ok
    ensures x == Elimination(false, m, o)
  {
    GaussJordanFromUnfold(m, o, i);
  }

  /** A successful pass hands its result to the next pass. */
  lemma PassSucceeds(m: Mat, o: Mat, i: nat, m': Mat, o': Mat, x: Elimination)
    requires Square(m, |m|) && Square(o, |m|) && i < |m|
    requires x == Outcome(m, o, i) && PivotStep(m, o, i) == Elimination(true, m', o')
    ensures x == Outcome(m', o', i + 1)
  {
    GaussJordanFromUnfold(m, o, i);
  }

  /** After the last pass the elimination has succeeded. */
  lemma OutcomeDone(m: Mat, o: Mat, x: Elimination)
    requires Square(m, |m|) && Square(o, |m|)
    requires x == Outcome(m, o, |m|)
    ensures x == Elimination(true, m, o)
  {
  }

  /**
   * `GaussJordanFrom(m, o, i)` made total: the same function wherever its
   * precondition holds, so that loop invariants stating it carry no side
   * conditions.  It defines nothing new.
   */
  ghost function Outcome(m: Mat, o: Mat, i: nat): Elimination
  {
    if Square(m, |m|) && Square(o, |m|) && i <= |m| then GaussJordanFrom(m, o, i) else Elimination(false, m, o)
  }

  /** `EliminateFrom(m, o, i, j)` made total, in the same way; it defines nothing new. */
  ghost function Cleared(m: Mat, o: Mat, i: nat, j: nat): Elimination
  {
    if Square(m, |m|) && Square(o, |m|) && i < |m| && j <= |m| then EliminateFrom(m, o, i, j) else Elimination(false, m, o)
  }

  /** The search loop's stopping row is the one `FirstNonZeroBelow` describes. */
  lemma FirstNonZeroBelowUnique(m: Mat, i: nat, from: nat, r: nat)
    requires Square(m, |m|) && i < |m| && from <= r <= |m|
    requires forall k | from <= k < r :: m[k][i] == 0.0
    requires r < |m| ==> m[r][i] != 0.0
    ensures FirstNonZeroBelow(m, i, from) == r
  {
  }
}
