/**
 * The dense-matrix engine: a matrix owns a rows x cols buffer of reals that
 * its operations overwrite in place.  Every operation is stated against the
 * value functions of `MatrixAlgebra`, reading the operands as they were on
 * entry, so a destination that is also an operand is covered wherever the
 * engine's own loops allow it.
 */
module Matrices {
  import opened MatrixAlgebra

  class Matrix {
    const rows: nat
    const cols: nat
    const data: array2<real>

    /** Both dimensions are positive and the buffer has exactly those dimensions. */
    ghost predicate Valid()
    {
      0 < rows && 0 < cols && data.Length0 == rows && data.Length1 == cols
    }

    /** The entries as a value. */
    ghost function Value(): (v: Mat)
      requires Valid()
      reads data
      ensures IsMatrix(v, rows, cols) && Rect(v)
      ensures forall i, j | 0 <= i < rows && 0 <= j < cols :: v[i][j] == data[i, j]
    {
      seq(rows, i requires 0 <= i < rows reads data =>
        seq(cols, j requires 0 <= j < cols reads data => data[i, j]))
    }

    /** Allocates an r x c matrix filled with zeros. */
    constructor (r: nat, c: nat)
      requires 0 < r && 0 < c
      ensures Valid() && rows == r && cols == c && fresh(data)
      ensures Value() == Zero(r, c)
    {
      rows, cols := r, c;
      var d := new real[r, c];
      var i := 0;
      while i < r
        invariant 0 <= i <= r
        invariant forall i', j' | 0 <= i' < i && 0 <= j' < c :: d[i', j'] == 0.0
      {
        var j := 0;
        while j < c
          invariant 0 <= j <= c
          invariant forall i', j' | 0 <= i' < i && 0 <= j' < c :: d[i', j'] == 0.0
          invariant forall j' | 0 <= j' < j :: d[i, j'] == 0.0
        {
          d[i, j] := 0.0;
          j := j + 1;
        }
        i := i + 1;
      }
      data := d;
      new;
      MatrixExtensionality(Value(), Zero(r, c));
    }

    /** Loads the entries row by row from `values`, which holds exactly rows * cols numbers. */
    method SetFrom(values: seq<real>)
      requires Valid() && |values| == RowStart(rows, cols)
      modifies data
      ensures Value() == Unflatten(values, rows, cols)
    {
      var v := Unflatten(values, rows, cols);
      var i := 0;
      while i < rows
        invariant 0 <= i <= rows
        invariant forall i', j' | 0 <= i' < i && 0 <= j' < cols :: data[i', j'] == v[i'][j']
      {
        var j := 0;
        while j < cols
          invariant 0 <= j <= cols
          invariant forall i', j' | 0 <= i' < i && 0 <= j' < cols :: data[i', j'] == v[i'][j']
          invariant forall j' | 0 <= j' < j :: data[i, j'] == v[i][j']
        {
          RowStartMonotone(i, rows, cols);
          data[i, j] := values[FlatIndex(i, j, cols)];
          j := j + 1;
        }
        i := i + 1;
      }
      MatrixExtensionality(Value(), v);
    }

    /** Overwrites a square matrix with the identity. */
    method SetIdentity()
      requires Valid() && rows == cols
      modifies data
      ensures Value() == Identity(rows)
    {
      var i := 0;
      while i < rows
        invariant 0 <= i <= rows
        invariant forall i', j' | 0 <= i' < i && 0 <= j' < cols :: data[i', j'] == if i' == j' then 1.0 else 0.0
      {
        var j := 0;
        while j < cols
          invariant 0 <= j <= cols
          invariant forall i', j' | 0 <= i' < i && 0 <= j' < cols :: data[i', j'] == if i' == j' then 1.0 else 0.0
          invariant forall j' | 0 <= j' < j :: data[i, j'] == if i == j' then 1.0 else 0.0
        {
          if i == j {
            data[i, j] := 1.0;
          } else {
            data[i, j] := 0.0;
          }
          j := j + 1;
        }
        i := i + 1;
      }
      MatrixExtensionality(Value(), Identity(rows));
    }

    /** Replaces a square matrix m by I - m, entry by entry. */
    method SubtractFromIdentity()
      requires Valid() && rows == cols
      modifies data
      ensures Value() == IdentityMinus(old(Value()))
      ensures Value() == Minus(Identity(rows), old(Value()))
    {
      ghost var m := Value();
      var i := 0;
      while i < rows
        invariant 0 <= i <= rows
        invariant forall i', j' | 0 <= i' < rows && 0 <= j' < cols ::
          data[i', j'] == if i' < i then IdentityMinus(m)[i'][j'] else m[i'][j']
      {
        var j := 0;
        while j < cols
          invariant 0 <= j <= cols
          invariant forall i', j' | 0 <= i' < rows && 0 <= j' < cols ::
            data[i', j'] == if i' < i || (i' == i && j' < j) then IdentityMinus(m)[i'][j'] else m[i'][j']
        {
          if i == j {
            data[i, j] := 1.0 - data[i, j];
          } else {
            data[i, j] := 0.0 - data[i, j];
          }
          j := j + 1;
        }
        i := i + 1;
      }
      MatrixExtensionality(Value(), IdentityMinus(m));
      IdentityMinusIsMinus(m);
    }

    /** Multiplies every entry by a non-zero scalar. */
    method Scale(scalar: real)
      requires Valid() && scalar != 0.0
      modifies data
      ensures Value() == Scaled(old(Value()), scalar)
    {
      ghost var m := Value();
      var i := 0;
      while i < rows
        invariant 0 <= i <= rows
        invariant forall i', j' | 0 <= i' < rows && 0 <= j' < cols ::
          data[i', j'] == if i' < i then m[i'][j'] * scalar else m[i'][j']
      {
        var j := 0;
        while j < cols
          invariant 0 <= j <= cols
          invariant forall i', j' | 0 <= i' < rows && 0 <= j' < cols ::
            data[i', j'] == if i' < i || (i' == i && j' < j) then m[i'][j'] * scalar else m[i'][j']
        {
          data[i, j] := data[i, j] * scalar;
          j := j + 1;
        }
        i := i + 1;
      }
      MatrixExtensionality(Value(), Scaled(m, scalar));
    }

    /** Exchanges rows r1 and r2. */
    method SwapRows(r1: nat, r2: nat)
      requires Valid() && r1 < rows && r2 < rows && r1 != r2
      modifies data
      ensures Value() == RowsSwapped(old(Value()), r1, r2)
    {
      ghost var m := Value();
      var k := 0;
      while k < cols
        invariant 0 <= k <= cols
        invariant forall i', j' | 0 <= i' < rows && 0 <= j' < cols ::
          data[i', j'] == if j' < k && i' == r1 then m[r2][j'] else if j' < k && i' == r2 then m[r1][j'] else m[i'][j']
      {
        var tmp := data[r1, k];
        data[r1, k] := data[r2, k];
        data[r2, k] := tmp;
        k := k + 1;
      }
      MatrixExtensionality(Value(), RowsSwapped(m, r1, r2));
    }

    /** Multiplies row r by a non-zero scalar. */
    method ScaleRow(r: nat, scalar: real)
      requires Valid() && r < rows && scalar != 0.0
      modifies data
      ensures Value() == RowScaled(old(Value()), r, scalar)
    {
      ghost var m := Value();
      var k := 0;
      while k < cols
        invariant 0 <= k <= cols
        invariant forall i', j' | 0 <= i' < rows && 0 <= j' < cols ::
          data[i', j'] == if i' == r && j' < k then m[r][j'] * scalar else m[i'][j']
      {
        data[r, k] := data[r, k] * scalar;
        k := k + 1;
      }
      MatrixExtensionality(Value(), RowScaled(m, r, scalar));
    }

    /** Adds scalar times row r2 to row r1. */
    method ShearRow(r1: nat, r2: nat, scalar: real)
      requires Valid() && r1 < rows && r2 < rows && r1 != r2
      modifies data
      ensures Value() == RowSheared(old(Value()), r1, r2, scalar)
    {
      ghost var m := Value();
      var k := 0;
      while k < cols
        invariant 0 <= k <= cols
        invariant forall i', j' | 0 <= i' < rows && 0 <= j' < cols ::
          data[i', j'] == if i' == r1 && j' < k then m[r1][j'] + scalar * m[r2][j'] else m[i'][j']
      {
        data[r1, k] := data[r1, k] + scalar * data[r2, k];
        k := k + 1;
      }
      MatrixExtensionality(Value(), RowSheared(m, r1, r2, scalar));
    }
  }

  /** Copies `source` into `destination`, which has the same dimensions. */
  method Copy(source: Matrix, destination: Matrix)
    requires source.Valid() && destination.Valid()
    requires source.rows == destination.rows && source.cols == destination.cols
    modifies destination.data
    ensures destination.Value() == old(source.Value())
  {
    ghost var s := source.Value();
    var i := 0;
    while i < source.rows
      invariant 0 <= i <= source.rows
      invariant forall i', j' | 0 <= i' < i && 0 <= j' < source.cols :: destination.data[i', j'] == s[i'][j']
      invariant forall i', j' | i <= i' < source.rows && 0 <= j' < source.cols :: source.data[i', j'] == s[i'][j']
    {
      var j := 0;
      while j < source.cols
        invariant 0 <= j <= source.cols
        invariant forall i', j' | 0 <= i' < i && 0 <= j' < source.cols :: destination.data[i', j'] == s[i'][j']
        invariant forall j' | 0 <= j' < j :: destination.data[i, j'] == s[i][j']
        invariant forall j' | j <= j' < source.cols :: source.data[i, j'] == s[i][j']
        invariant forall i', j' | i < i' < source.rows && 0 <= j' < source.cols :: source.data[i', j'] == s[i'][j']
      {
        destination.data[i, j] := source.data[i, j];
        j := j + 1;
      }
      i := i + 1;
    }
    MatrixExtensionality(destination.Value(), s);
  }

  /** c := a + b for matrices of one shape; c may be a or b. */
  method Add(a: Matrix, b: Matrix, c: Matrix)
    requires a.Valid() && b.Valid() && c.Valid()
    requires a.rows == b.rows && a.rows == c.rows && a.cols == b.cols && a.cols == c.cols
    modifies c.data
    ensures c.Value() == Plus(old(a.Value()), old(b.Value()))
  {
    ghost var x, y := a.Value(), b.Value();
    var i := 0;
    while i < a.rows
      invariant 0 <= i <= a.rows
      invariant forall i', j' | 0 <= i' < i && 0 <= j' < a.cols :: c.data[i', j'] == x[i'][j'] + y[i'][j']
      invariant forall i', j' | i <= i' < a.rows && 0 <= j' < a.cols :: a.data[i', j'] == x[i'][j'] && b.data[i', j'] == y[i'][j']
    {
      var j := 0;
      while j < a.cols
        invariant 0 <= j <= a.cols
        invariant forall i', j' | 0 <= i' < i && 0 <= j' < a.cols :: c.data[i', j'] == x[i'][j'] + y[i'][j']
        invariant forall j' | 0 <= j' < j :: c.data[i, j'] == x[i][j'] + y[i][j']
        invariant forall j' | j <= j' < a.cols :: a.data[i, j'] == x[i][j'] && b.data[i, j'] == y[i][j']
        invariant forall i', j' | i < i' < a.rows && 0 <= j' < a.cols :: a.data[i', j'] == x[i'][j'] && b.data[i', j'] == y[i'][j']
      {
        c.data[i, j] := a.data[i, j] + b.data[i, j];
        j := j + 1;
      }
      i := i + 1;
    }
    MatrixExtensionality(c.Value(), Plus(x, y));
  }

  /** c := a - b for matrices of one shape; c may be a or b. */
  method Subtract(a: Matrix, b: Matrix, c: Matrix)
    requires a.Valid() && b.Valid() && c.Valid()
    requires a.rows == b.rows && a.rows == c.rows && a.cols == b.cols && a.cols == c.cols
    modifies c.data
    ensures c.Value() == Minus(old(a.Value()), old(b.Value()))
  {
    ghost var x, y := a.Value(), b.Value();
    var i := 0;
    while i < a.rows
      invariant 0 <= i <= a.rows
      invariant forall i', j' | 0 <= i' < i && 0 <= j' < a.cols :: c.data[i', j'] == x[i'][j'] - y[i'][j']
      invariant forall i', j' | i <= i' < a.rows && 0 <= j' < a.cols :: a.data[i', j'] == x[i'][j'] && b.data[i', j'] == y[i'][j']
    {
      var j := 0;
      while j < a.cols
        invariant 0 <= j <= a.cols
        invariant forall i', j' | 0 <= i' < i && 0 <= j' < a.cols :: c.data[i', j'] == x[i'][j'] - y[i'][j']
        invariant forall j' | 0 <= j' < j :: c.data[i, j'] == x[i][j'] - y[i][j']
        invariant forall j' | j <= j' < a.cols :: a.data[i, j'] == x[i][j'] && b.data[i, j'] == y[i][j']
        invariant forall i', j' | i < i' < a.rows && 0 <= j' < a.cols :: a.data[i', j'] == x[i'][j'] && b.data[i', j'] == y[i'][j']
      {
        c.data[i, j] := a.data[i, j] - b.data[i, j];
        j := j + 1;
      }
      i := i + 1;
    }
    MatrixExtensionality(c.Value(), Minus(x, y));
  }

  /** c := a * b; c must be a separate matrix. */
  method Multiply(a: Matrix, b: Matrix, c: Matrix)
    requires a.Valid() && b.Valid() && c.Valid()
    requires a.cols == b.rows && a.rows == c.rows && b.cols == c.cols
    requires c.data != a.data && c.data != b.data
    modifies c.data
    ensures c.Value() == Product(old(a.Value()), old(b.Value()))
  {
    ghost var p := Product(a.Value(), b.Value());
    var i := 0;
    while i < c.rows
      invariant 0 <= i <= c.rows
      invariant forall i', j' | 0 <= i' < i && 0 <= j' < c.cols :: c.data[i', j'] == p[i'][j']
    {
      MultiplyRow(a, b, c, i, p);
      i := i + 1;
    }
    MatrixExtensionality(c.Value(), p);
  }

  /** Row i of c := a * b: each entry is the dot product of row i of a with a column of b. */
  method MultiplyRow(a: Matrix, b: Matrix, c: Matrix, i: nat, ghost p: Mat)
    requires a.Valid() && b.Valid() && c.Valid()
    requires a.cols == b.rows && a.rows == c.rows && b.cols == c.cols
    requires c.data != a.data && c.data != b.data
    requires i < c.rows && p == Product(a.Value(), b.Value())
    modifies c.data
    ensures forall j' | 0 <= j' < c.cols :: c.data[i, j'] == p[i][j']
    ensures forall i', j' | 0 <= i' < c.rows && i' != i && 0 <= j' < c.cols :: c.data[i', j'] == old(c.data[i', j'])
  {
    ghost var x, y := a.Value(), b.Value();
    var j := 0;
    while j < c.cols
      invariant 0 <= j <= c.cols
      invariant forall i', j' | 0 <= i' < c.rows && i' != i && 0 <= j' < c.cols :: c.data[i', j'] == old(c.data[i', j'])
      invariant forall j' | 0 <= j' < j :: c.data[i, j'] == p[i][j']
    {
      AccumulateEntry(a, b, c, i, j, false, x[i], Column(y, j));
      j := j + 1;
    }
  }

  /** c := a * transpose(b), reading the rows of b directly; c must be a separate matrix. */
  method MultiplyByTranspose(a: Matrix, b: Matrix, c: Matrix)
    requires a.Valid() && b.Valid() && c.Valid()
    requires a.cols == b.cols && a.rows == c.rows && b.rows == c.cols
    requires c.data != a.data && c.data != b.data
    modifies c.data
    ensures c.Value() == ProductByTranspose(old(a.Value()), old(b.Value()))
    ensures c.Value() == Product(old(a.Value()), Transposed(old(b.Value())))
  {
    ghost var x, y := a.Value(), b.Value();
    ghost var p := ProductByTranspose(x, y);
    var i := 0;
    while i < c.rows
      invariant 0 <= i <= c.rows
      invariant forall i', j' | 0 <= i' < i && 0 <= j' < c.cols :: c.data[i', j'] == p[i'][j']
    {
      var j := 0;
      while j < c.cols
        invariant 0 <= j <= c.cols
        invariant forall i', j' | 0 <= i' < i && 0 <= j' < c.cols :: c.data[i', j'] == p[i'][j']
        invariant forall j' | 0 <= j' < j :: c.data[i, j'] == p[i][j']
      {
        AccumulateEntry(a, b, c, i, j, true, x[i], y[j]);
        j := j + 1;
      }
      i := i + 1;
    }
    MatrixExtensionality(c.Value(), p);
    ProductByTransposeIsProduct(x, y);
  }

  /**
   * The innermost loop of both products: c[i, j] is reset to zero and then
   * accumulates a[i, k] * b[k, j] over k, or a[i, k] * b[j, k] when reading
   * b by rows.  Nothing else in c changes.
   */
  method AccumulateEntry(a: Matrix, b: Matrix, c: Matrix, i: nat, j: nat, byRows: bool, ghost u: seq<real>, ghost w: seq<real>)
    requires a.Valid() && b.Valid() && c.Valid()
    requires c.data != a.data && c.data != b.data
    requires i < a.rows && i < c.rows && j < c.cols
    requires if byRows then j < b.rows && a.cols == b.cols else j < b.cols && a.cols == b.rows
    requires |u| == a.cols && |w| == a.cols
    requires forall k | 0 <= k < a.cols :: a.data[i, k] == u[k]
    requires forall k | 0 <= k < a.cols :: w[k] == if byRows then b.data[j, k] else b.data[k, j]
    modifies c.data
    ensures c.data[i, j] == Dot(u, w)
    ensures forall i', j' | 0 <= i' < c.rows && 0 <= j' < c.cols && (i' != i || j' != j) :: c.data[i', j'] == old(c.data[i', j'])
  {
    c.data[i, j] := 0.0;
    var k := 0;
    while k < a.cols
      invariant 0 <= k <= a.cols
      invariant forall i', j' | 0 <= i' < c.rows && 0 <= j' < c.cols && (i' != i || j' != j) :: c.data[i', j'] == old(c.data[i', j'])
      invariant c.data[i, j] == Dot(u[..k], w[..k])
    {
      DotPrefixStep(u, w, k);
      var y := if byRows then b.data[j, k] else b.data[k, j];
      c.data[i, j] := c.data[i, j] + a.data[i, k] * y;
      k := k + 1;
    }
    assert u[..a.cols] == u && w[..a.cols] == w;
  }

  /** output := transpose(input); output must be a separate matrix. */
  method Transpose(input: Matrix, output: Matrix)
    requires input.Valid() && output.Valid()
    requires input.rows == output.cols && input.cols == output.rows
    requires input.data != output.data
    modifies output.data
    ensures output.Value() == Transposed(old(input.Value()))
  {
    ghost var x := input.Value();
    var i := 0;
    while i < input.rows
      invariant 0 <= i <= input.rows
      invariant forall i', j' | 0 <= i' < i && 0 <= j' < input.cols :: output.data[j', i'] == x[i'][j']
    {
      var j := 0;
      while j < input.cols
        invariant 0 <= j <= input.cols
        invariant forall i', j' | 0 <= i' < i && 0 <= j' < input.cols :: output.data[j', i'] == x[i'][j']
        invariant forall j' | 0 <= j' < j :: output.data[j', i] == x[i][j']
      {
        output.data[j, i] := input.data[i, j];
        j := j + 1;
      }
      i := i + 1;
    }
    MatrixExtensionality(output.Value(), Transposed(x));
  }

  /** alloc_matrix followed by set_matrix: a fresh r x c matrix filled row by row from `values`. */
  method Build(r: nat, c: nat, values: seq<real>) returns (m: Matrix)
    requires 0 < r && 0 < c && |values| == RowStart(r, c)
    ensures m.Valid() && m.rows == r && m.cols == c && fresh(m.data)
    ensures m.Value() == Unflatten(values, r, c)
  {
    m := new Matrix(r, c);
    m.SetFrom(values);
  }

  /** A fresh matrix holding a * b (alloc_matrix then multiply_matrix). */
  method Multiplied(a: Matrix, b: Matrix) returns (c: Matrix)
    requires a.Valid() && b.Valid() && a.cols == b.rows
    ensures c.Valid() && c.rows == a.rows && c.cols == b.cols && fresh(c.data)
    ensures c.Value() == Product(a.Value(), b.Value())
  {
    c := new Matrix(a.rows, b.cols);
    Multiply(a, b, c);
  }

  /** A fresh matrix holding a + b (alloc_matrix then add_matrix). */
  method Added(a: Matrix, b: Matrix) returns (c: Matrix)
    requires a.Valid() && b.Valid() && a.rows == b.rows && a.cols == b.cols
    ensures c.Valid() && c.rows == a.rows && c.cols == a.cols && fresh(c.data)
    ensures c.Value() == Plus(a.Value(), b.Value())
  {
    c := new Matrix(a.rows, a.cols);
    Add(a, b, c);
  }

  /** A fresh matrix holding a - b (alloc_matrix then subtract_matrix). */
  method Subtracted(a: Matrix, b: Matrix) returns (c: Matrix)
    requires a.Valid() && b.Valid() && a.rows == b.rows && a.cols == b.cols
    ensures c.Valid() && c.rows == a.rows && c.cols == a.cols && fresh(c.data)
    ensures c.Value() == Minus(a.Value(), b.Value())
  {
    c := new Matrix(a.rows, a.cols);
    Subtract(a, b, c);
  }

  /** A fresh matrix holding the transpose of a (alloc_matrix then transpose_matrix). */
  method Transposition(a: Matrix) returns (t: Matrix)
    requires a.Valid()
    ensures t.Valid() && t.rows == a.cols && t.cols == a.rows && fresh(t.data)
    ensures t.Value() == Transposed(a.Value())
  {
    t := new Matrix(a.cols, a.rows);
    Transpose(a, t);
  }

  /**
   * Whether every entry of a and b differs by at most `tolerance`, where each
   * difference is first truncated to an integer as the engine's `abs` does.
   */
  method Equal(a: Matrix, b: Matrix, tolerance: real) returns (r: bool)
    requires a.Valid() && b.Valid() && a.rows == b.rows && a.cols == b.cols
    ensures r == TruncatedClose(a.Value(), b.Value(), tolerance)
  {
    ghost var x, y := a.Value(), b.Value();
    var i := 0;
    while i < a.rows
      invariant 0 <= i <= a.rows
      invariant forall i', j' | 0 <= i' < i && 0 <= j' < a.cols :: TruncatedAbs(x[i'][j'] - y[i'][j']) as real <= tolerance
    {
      var j := 0;
      while j < a.cols
        invariant 0 <= j <= a.cols
        invariant forall i', j' | 0 <= i' < i && 0 <= j' < a.cols :: TruncatedAbs(x[i'][j'] - y[i'][j']) as real <= tolerance
        invariant forall j' | 0 <= j' < j :: TruncatedAbs(x[i][j'] - y[i][j']) as real <= tolerance
      {
        if TruncatedAbs(a.data[i, j] - b.data[i, j]) as real > tolerance {
          assert TruncatedAbs(x[i][j] - y[i][j]) as real > tolerance;
          return false;
        }
        j := j + 1;
      }
      i := i + 1;
    }
    return true;
  }

  /** One more step of an accumulated dot product. */
  lemma DotPrefixStep(u: seq<real>, w: seq<real>, k: nat)
    requires |u| == |w| && k < |u|
    ensures Dot(u[..k + 1], w[..k + 1]) == Dot(u[..k], w[..k]) + u[k] * w[k]
  {
    DotSplitLast(u[..k + 1], w[..k + 1]);
    assert u[..k + 1][..k] == u[..k] && w[..k + 1][..k] == w[..k];
  }
}
