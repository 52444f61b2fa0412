# A verified model of a small C matrix engine

`matrix.c` is a dense matrix library. A matrix is a `rows x cols` grid of
doubles, allocated zero-filled. The library provides the usual primitives:
copy, add, subtract, multiply, multiply by a transpose, transpose, scale,
compare within a tolerance, and the three elementary row operations. On top
of those it builds three things:

- `destructive_invert_matrix`: Gauss-Jordan inversion. It reduces its input
  to the identity and replays the same row operations on an identity matrix.
  It returns 0 when a column has no usable pivot.
- `predict`: one step of a constant-velocity Kalman filter with three states
  and two observations.
- `linear_regression` and `_linear_regression`: least-squares fits through
  the normal equations, w = ((Xᵗ X)⁻¹ Xᵗ) Y. The second one runs over a
  batch of point clouds, drops the all-zero points and fits the plane
  z ~ a x + b y + c.

The Dafny project follows the program's shape:

- `algebra.dfy` (module `MatrixAlgebra`): matrices as values
  (`seq<seq<real>>`), the operations as functions, and their algebra. This
  covers inverse pairs, identities, associativity of the product, and row
  operations as left multiplication by elementary matrices.
- `matrix.dfy` (module `Matrices`): the `Matrix` class over an `array2<real>`.
  Its methods update the array in place, with loops proved against the value
  functions.
- `gauss_jordan.dfy` (module `GaussJordan`): the elimination as a pure
  function `Invert`. It is proved correct: success yields a two-sided
  inverse, and failure happens exactly when the matrix is singular.
- `inverter.dfy` (module `Inverter`): the in-place elimination on two
  `Matrix` objects, proved to compute exactly `Invert`.
- `kalman.dfy` (module `Kalman`): the predict step on `Matrix` objects, with
  its model matrices and the properties of the gain.
- `regression.dfy` (module `Regression`): both regressions over flat input
  buffers and a flat output array, proved against value-level least-squares
  functions.

Numbers are mathematical reals, so rounding is not modelled. Every
precondition that the C code checks with `assert` is a `requires` clause.

## Model

| member | source | states |
|---|---|---|
| Matrices.Matrix.constructor | matrix.c:21-39 | a fresh `rows x cols` matrix whose every entry is 0 |
| Matrices.Matrix.SetFrom | matrix.c:50-62 | the matrix holds the given values in row-major order: entry (i, j) is value i * cols + j |
| MatrixAlgebra.RowStartIsProduct | matrix.c:55-57 | the row-major offset of row i is i * cols |
| Matrices.Matrix.SetIdentity | matrix.c:64-78 | a square matrix becomes the identity |
| Matrices.Copy | matrix.c:80-90 | the destination holds the source's entries; shapes must agree |
| Matrices.Add | matrix.c:106-118 | c is the entrywise sum of a and b; all three shapes agree; c may be an operand |
| Matrices.Subtract | matrix.c:120-132 | c is the entrywise difference a - b; all three shapes agree |
| MatrixAlgebra.MinusUndoesPlus | matrix.c:106-132 | subtracting b after adding b gives back a |
| MatrixAlgebra.PlusZeroLeft | matrix.c:106-118 | adding to the zero matrix leaves a matrix unchanged |
| Matrices.Matrix.SubtractFromIdentity | matrix.c:134-148 | a square matrix A becomes I - A |
| MatrixAlgebra.IdentityMinusIsMinus | matrix.c:134-148 | the diagonal/off-diagonal update is exactly the identity minus the matrix |
| Matrices.Multiply | matrix.c:150-167 | c is the product a b; needs a.cols == b.rows and c of shape a.rows x b.cols |
| Matrices.MultiplyRow | matrix.c:158-165 | one iteration of the row loop: row i of c becomes row i of the product a b, and every other row of c is unchanged |
| MatrixAlgebra.ProductAssociative | matrix.c:150-167 | (x y) z == x (y z) for all compatible shapes |
| MatrixAlgebra.ProductIdentityLeft | matrix.c:150-167 | I b == b |
| MatrixAlgebra.ProductIdentityRight | matrix.c:150-167 | a I == a |
| MatrixAlgebra.ProductZeroLeft | matrix.c:150-167 | 0 b is the zero matrix of the product's shape |
| MatrixAlgebra.ProductZeroRight | matrix.c:150-167 | a 0 is the zero matrix of the product's shape |
| Matrices.MultiplyByTranspose | matrix.c:170-187 | c is a bᵗ, computed by pairing rows of a with rows of b |
| Matrices.AccumulateEntry | matrix.c:159-164 | the k-loop leaves c[i][j] equal to the dot product of row i of a with column j of b (with row j of b for the transpose product at matrix.c:179-184), and no other entry of c changes |
| MatrixAlgebra.ProductByTransposeIsProduct | matrix.c:170-187 | the row-by-row product equals the product with the transposed matrix |
| Matrices.Transpose | matrix.c:189-200 | output entry (j, i) is input entry (i, j) for every i, j |
| MatrixAlgebra.TransposeInvolution | matrix.c:189-200 | transposing twice gives back the matrix |
| Matrices.Equal | matrix.c:202-216 | the result is true exactly when no entry's difference, truncated to an integer, exceeds the tolerance |
| MatrixAlgebra.TruncatedAbs | matrix.c:210 | the C integer `abs` of a double: a natural number within 1 below the true magnitude |
| MatrixAlgebra.TruncatedCloseReflexive | matrix.c:202-216 | a matrix equals itself under any non-negative tolerance |
| MatrixAlgebra.TruncatedCloseMissesFractions | matrix.c:210 | [[0.5]] and [[0.0]] compare equal at tolerance 0.25 although they differ by more than it |
| MatrixAlgebra.CloseRejectsLargeDifference | matrix.c:202-216 | with the real magnitude, any entry differing by more than the tolerance makes the comparison fail |
| MatrixAlgebra.CloseImpliesTruncatedClose | matrix.c:202-216 | the corrected comparison accepts nothing the written one rejects |
| Matrices.Matrix.Scale | matrix.c:218-228 | every entry is multiplied by a non-zero scalar |
| MatrixAlgebra.ScaledByReciprocal | matrix.c:218-228 | scaling by s and then by 1/s gives back the matrix |
| Matrices.Matrix.SwapRows | matrix.c:230-236 | rows r1 and r2 (distinct) are exchanged and all other rows are unchanged |
| MatrixAlgebra.SwapUndoesSwap | matrix.c:230-236 | swapping the same two rows twice is the identity |
| MatrixAlgebra.SwapIsProduct | matrix.c:230-236 | a row swap is left multiplication by the swapped identity |
| Matrices.Matrix.ScaleRow | matrix.c:238-244 | row r is multiplied by a non-zero scalar and the other rows are unchanged |
| MatrixAlgebra.RowScaleUndoesRowScale | matrix.c:238-244 | scaling a row by s and then by 1/s gives back the matrix |
| MatrixAlgebra.RowScaleIsProduct | matrix.c:238-244 | a row scaling is left multiplication by the scaled identity |
| Matrices.Matrix.ShearRow | matrix.c:247-253 | row r1 gains scalar times row r2 (r1 != r2) and the other rows are unchanged |
| MatrixAlgebra.RowShearUndoesRowShear | matrix.c:247-253 | a shear by s followed by a shear by -s gives back the matrix |
| MatrixAlgebra.RowShearIsProduct | matrix.c:247-253 | a shear is left multiplication by the sheared identity |
| GaussJordan.FirstNonZeroBelow | matrix.c:288-292 | the first row at or after `from` with a non-zero entry in column i, or the row count if there is none |
| GaussJordan.EliminateFrom | matrix.c:309-316 | the clearing loop on values: for j from the given row on, skipping the pivot row, row j of both matrices gains -m[j][i] times row i; it always succeeds and keeps both matrices square of the same size (proved to clear column i by `EliminateFromReduces`) |
| GaussJordan.Normalize | matrix.c:302-316 | the second half of a pass on values: row i of both matrices is scaled by 1 / m[i][i], then column i is cleared by `EliminateFrom`; it always succeeds and keeps both matrices square (proved to finish column i by `NormalizeReduces`) |
| GaussJordan.PivotStep | matrix.c:285-316 | one pass fails exactly when the diagonal entry and every entry below it in its column are zero |
| GaussJordan.GaussJordanFrom | matrix.c:283-319 | passes i, i+1, ... on values, stopping with the failing pass's result at the first pass whose pivot search fails and succeeding after the last; keeps both matrices square (what the result means is `GaussJordanFromCorrect`) |
| GaussJordan.PivotStepReduces | matrix.c:283-317 | a successful pass i leaves columns 0..i as identity columns |
| GaussJordan.GaussJordanFromCorrect | matrix.c:283-319 | finishing the passes either yields the identity and a two-sided inverse, or proves the original matrix singular |
| GaussJordan.Invert | matrix.c:267-320 | the whole inversion on values: all passes from pass 0 with the output starting as the identity; its flag and both matrices are what the engine leaves behind, including after an early return (what they mean is `InvertCorrect`, `InvertOkIffNotSingular` and `InvertIsTheInverse`) |
| GaussJordan.InvertCorrect | matrix.c:267-320 | on success the input is reduced to I and the output is a two-sided inverse; on failure the matrix is singular |
| GaussJordan.InvertOkIffNotSingular | matrix.c:267-320 | the inversion reports success if and only if the matrix is not singular |
| GaussJordan.SingularHasNoLeftInverse | matrix.c:293-296 | a singular matrix (one with a non-zero null vector) has no left inverse, so returning 0 is justified |
| GaussJordan.NoPivotSingular | matrix.c:293-296 | a column without a pivot at or below the diagonal means the original matrix is singular |
| GaussJordan.InvertIsTheInverse | matrix.c:267-320 | whenever b a == I, the inversion succeeds and produces exactly b |
| GaussJordan.InvertIdentity | matrix.c:267-320 | the identity inverts to itself |
| Inverter.DestructiveInvert | matrix.c:267-320 | the returned flag, the reduced input and the output are exactly those of `Invert` on the original input |
| Inverter.Passes | matrix.c:283-319 | the flag and both final matrices are exactly `GaussJordanFrom` of the old state from pass 0: passes run in order and stop at the first that fails |
| Inverter.Pass | matrix.c:283-317 | pass i succeeds exactly when `PivotStep` does; on success both matrices become `PivotStep`'s result for the old state, and on failure both are unchanged |
| Inverter.PlacePivot | matrix.c:285-300 | a non-zero diagonal leaves both matrices unchanged; a zero one swaps row i with row `FirstNonZeroBelow` in both; when no such row exists it reports failure and changes nothing |
| Inverter.ClearColumn | matrix.c:302-316 | scaling the pivot row and clearing the column leaves both matrices as `Normalize` of the old state |
| Inverter.ScaleBoth | matrix.c:302-306 | row i of both matrices is scaled by 1 / input[i][i] of the old input, and nothing else changes |
| Inverter.ClearOthers | matrix.c:309-316 | the new state is `EliminateFrom` of the old state: every row but i sheared in order so that column i becomes a unit column |
| Inverter.ShearBoth | matrix.c:313-315 | exactly one shear: row j of both matrices gains -input[j][i] (old input) times row i |
| Inverter.FirstNonZeroBelowUnique | matrix.c:288-292 | the loop's stopping row is the one `FirstNonZeroBelow` names |
| Kalman.ModelMatrices | matrix.c:377-390 | A, H, Q and R hold the transition, observation and noise matrices for the time step |
| Kalman.ModelMatricesBuilt | matrix.c:377-390 | the row-major constants fill in exactly those matrices |
| Kalman.TransitionAdvances | matrix.c:377-380 | the transition adds timeStep times the third state to the first and keeps the others |
| Kalman.ObservationSelects | matrix.c:381-383 | the observation reads the first two states |
| Kalman.InnovationParts | matrix.c:391-395 | temp2 is Hᵗ and temp4 is the innovation covariance H P Hᵗ + R |
| Kalman.ComputeGain | matrix.c:391-401 | K is the gain (P Hᵗ) S⁻¹, with the factors in the corrected order |
| Kalman.GainFrom | matrix.c:397-401 | K is (P Hᵗ) times the inversion's output for S |
| Kalman.GainSolvesInnovation | matrix.c:391-401 | when S inverts, K S == P Hᵗ, which defines the Kalman gain |
| Kalman.WrittenGainOrderRejected | matrix.c:401 | the call as written, S⁻¹ times P Hᵗ into K, breaks the multiply's shape requirements for every P |
| Kalman.ModelGainOrderAccepted | matrix.c:401 | the corrected order P Hᵗ times S⁻¹ meets them |
| Kalman.CorrectState | matrix.c:403-408 | the corrected state is x + K (z - H x) |
| Kalman.Correct | matrix.c:391-408 | the posterior state is `CorrectedState` of the prior state, covariance and measurement |
| Kalman.ConsistentObservationKeepsState | matrix.c:403-408 | a measurement that equals H x leaves the state unchanged |
| Kalman.CorrectCovariance | matrix.c:410-412 | temp11 is (I - K H) P |
| Kalman.ProjectedCovariance | matrix.c:417-420 | temp16 is A P' Aᵗ + Q, where P' is the never-filled posterior covariance |
| Kalman.Project | matrix.c:414-421 | x becomes A times the posterior state and P becomes the projected covariance |
| Kalman.PredictedCovarianceIsNoise | matrix.c:417-421 | because the posterior covariance stays zero, the new P is exactly Q whatever the inputs |
| Kalman.Predict | matrix.c:322-439 | x becomes A (x + K (z - H x)) and P becomes Q |
| Regression.NormalEquationsHold | matrix.c:459-478 | when Xᵗ X inverts, the fit w solves the normal equations (Xᵗ X) w == Xᵗ Y |
| Regression.LeastSquaresUnique | matrix.c:459-478 | when Xᵗ X inverts, the fit is the only solution of the normal equations |
| Regression.ExactFitRecovered | matrix.c:459-478 | data generated exactly by coefficients v is fitted by v |
| Regression.LeastSquaresFit | matrix.c:459-478 | the matrix computed by transpose, multiply, invert and multiply is the least-squares value `LeastSquares` |
| Regression.NormalInverse | matrix.c:467-472 | the inverted matrix is the inversion's output for Xᵗ X |
| Regression.FitBuffers | matrix.c:441-481 | loading both buffers row-major and fitting yields the first three entries of the fit's first column |
| Regression.Report | matrix.c:479-481 | the three reported numbers are entries (0,0), (1,0) and (2,0) of w |
| Regression.WriteTriple | matrix.c:554-572 | m[at .. at + 3] holds the three given numbers and every other entry of m is unchanged; this covers the writes at matrix.c:479-481 and 554-556 and the zeros at 570-572 |
| Regression.LinearRegression | matrix.c:441-491 | m[0..3] holds the fit's three coefficients and the rest of m is unchanged |
| Regression.Kept | matrix.c:503-513 | the filter keeps only observed points and never more points than it was given |
| Regression.KeptSound | matrix.c:503-513 | every kept point is a point of the cloud |
| Regression.KeptComplete | matrix.c:503-513 | every observed point of the cloud is kept |
| Regression.KeptAllObserved | matrix.c:503-513 | a cloud with no all-zero point is kept whole, in order |
| Regression.KeptConcat | matrix.c:503-513 | filtering distributes over concatenation, so the kept points keep their order |
| Regression.KeptStep | matrix.c:504-512 | one step of the filter appends the point exactly when it is observed |
| Regression.KeptWidth | matrix.c:507-510 | kept points keep their number of coordinates |
| Regression.CopyPoint | matrix.c:507-510 | the point's coordinates are copied into the given row of raw, and no other row changes |
| Regression.GatherPoint | matrix.c:504-512 | one iteration extends the packed prefix of raw by the point when it is observed |
| Regression.Gather | matrix.c:501-513 | raw's first `available` rows are exactly the kept points of the cloud, in order |
| Regression.DesignFrom | matrix.c:517-524 | X has a row [x, y, 1, 0, ..., 0] per kept point |
| Regression.TargetsFrom | matrix.c:526-530 | Y holds the third coordinate of each kept point |
| Regression.PlaneTargets | matrix.c:517-530 | points on the plane z = a x + b y + c satisfy X [a, b, c]ᵗ == Y |
| Regression.PlaneFit | matrix.c:517-553 | when Xᵗ X inverts, points on a plane are fitted by that plane |
| Regression.PlaneRecovered | matrix.c:501-556 | a cloud of three-coordinate points whose observed points lie on a plane reports that plane's coefficients, when more than three remain and Xᵗ X inverts |
| Regression.FitCloud | matrix.c:501-573 | the three numbers reported for a cloud are its fit when more than three points are kept, and zeros otherwise |
| Regression.ReportCloud | matrix.c:499-575 | one iteration reports cloud `index` in m[3 index .. 3 index + 3], keeps the earlier reports and leaves the rest of m unchanged |
| Regression.ReportedKept | matrix.c:554-573 | writing later slots of m keeps the earlier clouds' reports intact |
| Regression.BatchedLinearRegression | matrix.c:494-578 | for every cloud j, m[3 j .. 3 j + 3] is that cloud's `CloudFit`, and m beyond 3 counts is unchanged |

## Left out

- `print_matrix` and the print inside `linear_regression` are left out: they are console output only.
- `free_matrix` and all memory management are left out. Allocation is Dafny's `new`, which cannot fail, and `raw` in `_linear_regression` is never freed in the source either.
- Floating point is left out: `float` inputs widened to `double` and IEEE rounding are modelled as exact reals. The regression therefore computes the exact least-squares value, not its rounded approximation.
- Integer width is left out: the C `int` arithmetic on sizes and offsets (`index*size + i*cols + j`) is unbounded in the model, so overflow for huge shapes is not modelled.
- Matrices.Matrix.SwapRows: the C code exchanges the two row pointers, while the model exchanges the elements of the rows. The resulting values are the same, but pointer aliasing of rows is not modelled.
- Matrices.Equal: the double-to-int conversion for differences too large for an `int` (undefined in C) is not modelled; the truncation is unbounded.
- Matrices.Matrix.constructor: requires at least one row and one column. A zero-sized matrix has no rows to carry its width, so the value model cannot express it. As a result, `linear_regression` requires at least one sample row.
- Regression.LinearRegression: requires at least three columns in X, one column in Y and as many rows in Y as in X. With fewer columns the source reads rows of w that do not exist. With mismatched row counts the final multiply's assert fails.
- Regression.BatchedLinearRegression: requires clouds with at least three coordinates. With fewer, the source writes column 2 of the design matrix out of bounds.
- Matrices.Multiply, Matrices.MultiplyByTranspose, Matrices.Transpose and Inverter.DestructiveInvert require the destination to be distinct from the operands. The C loops produce garbage under aliasing, and every caller passes a fresh matrix. `destructive_invert_matrix` called with one matrix as both arguments would overwrite it with the identity and return 1; the model does not cover that call.
- The flag returned by `destructive_invert_matrix` is ignored by `predict` and by both regressions, as in the source. When the inversion fails, the model uses whatever the elimination left in the output matrix, and `GaussJordan.Invert` defines exactly that value.
- Kalman.Predict: models the gain with the corrected factor order (see Findings). As written, the call at matrix.c:401 fails its assertion and aborts for every input, so an as-written `predict` has no result to model.

## Findings

| source | as written | input that shows it | evidently intended | confidence | as-written member | corrected member |
|---|---|---|---|---|---|---|
| matrix.c:210 | `abs` takes an `int`, so each difference of doubles is truncated to an integer before it is compared with the tolerance | a = [[0.5]], b = [[0.0]], tolerance 0.25: the difference truncates to 0, so the matrices compare equal | compare the real magnitude (`fabs`) with the tolerance | high, not executed | MatrixAlgebra.TruncatedCloseMissesFractions | MatrixAlgebra.CloseRejectsLargeDifference |
| matrix.c:401 | `multiply_matrix(temp5, temp6, K)` multiplies S⁻¹ (2 x 2) by P Hᵗ (3 x 2) | any P: temp5.cols == 2 but temp6.rows == 3, so the assert at matrix.c:154 fails | K = (P Hᵗ) S⁻¹, i.e. `multiply_matrix(temp6, temp5, K)` | high, not executed | Kalman.WrittenGainOrderRejected | Kalman.GainSolvesInnovation |
