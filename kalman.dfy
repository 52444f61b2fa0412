/**
 * One predict/update step of the engine's Kalman filter for a 3-state
 * tracker (position-x, position-y and a rate term that advances
 * position-x), observed through a 2-component position measurement.
 *
 * The step is a fixed composition of Matrix operations on scratch matrices.
 * The specification functions below give each intermediate a name; the
 * lemmas state what the composition means: the gain solves the innovation
 * system, an observation that matches the prediction leaves the state
 * alone, the transition advances position-x by dt times the rate, and the
 * covariance as the step computes it always comes out as the process noise.
 */
module Kalman {
  import opened MatrixAlgebra
  import opened GaussJordan
  import opened Matrices
  import opened Inverter

  // ---------------------------------------------------------------------
  // The fixed model matrices
  // ---------------------------------------------------------------------

  /** A: the transition over a step of `dt`. */
  function Transition(dt: real): (a: Mat)
    ensures Rect(a) && IsMatrix(a, 3, 3)
  {
    [[1.0, 0.0, dt], [0.0, 1.0, 0.0], [0.0, 0.0, 1.0]]
  }

  /** H: the measurement sees the two position components. */
  function Observation(): (h: Mat)
    ensures Rect(h) && IsMatrix(h, 2, 3)
  {
    [[1.0, 0.0, 0.0], [0.0, 1.0, 0.0]]
  }

  /** Q: the process noise, 0.001 on the diagonal. */
  function ProcessNoise(): (q: Mat)
    ensures Rect(q) && IsMatrix(q, 3, 3)
  {
    [[0.001, 0.0, 0.0], [0.0, 0.001, 0.0], [0.0, 0.0, 0.001]]
  }

  /** R: the measurement noise, the 2 x 2 identity. */
  function MeasurementNoise(): (r: Mat)
    ensures Rect(r) && IsMatrix(r, 2, 2)
  {
    [[1.0, 0.0], [0.0, 1.0]]
  }

  // ---------------------------------------------------------------------
  // The step, stated on values
  // ---------------------------------------------------------------------

  /** S = H P Hᵗ + R, the innovation covariance. */
  function Innovation(p: Mat): (s: Mat)
    requires IsMatrix(p, 3, 3)
    ensures Square(s, 2)
  {
    Plus(Product(Product(Observation(), p), Transposed(Observation())), MeasurementNoise())
  }

  /** K = (P Hᵗ) S⁻¹, with S⁻¹ whatever the inversion leaves in its output. */
  function Gain(p: Mat): (k: Mat)
    requires IsMatrix(p, 3, 3)
    ensures Rect(k) && IsMatrix(k, 3, 2)
  {
    Product(Product(p, Transposed(Observation())), Invert(Innovation(p)).output)
  }

  /** x + K (z - H x): the state corrected by the innovation. */
  function CorrectedState(x: Mat, p: Mat, z: Mat): (c: Mat)
    requires IsMatrix(x, 3, 1) && IsMatrix(p, 3, 3) && IsMatrix(z, 2, 1)
    ensures Rect(c) && IsMatrix(c, 3, 1)
  {
    Plus(x, Product(Gain(p), Minus(z, Product(Observation(), x))))
  }

  /** (I - K H) P: the corrected covariance, which the step computes and then never uses. */
  function CorrectedCovariance(p: Mat): (c: Mat)
    requires IsMatrix(p, 3, 3)
    ensures IsMatrix(c, 3, 3)
  {
    Product(IdentityMinus(Product(Gain(p), Observation())), p)
  }

  /** The new state: A (x + K (z - H x)). */
  function PredictedState(x: Mat, p: Mat, z: Mat, dt: real): (s: Mat)
    requires IsMatrix(x, 3, 1) && IsMatrix(p, 3, 3) && IsMatrix(z, 2, 1)
    ensures Rect(s) && IsMatrix(s, 3, 1)
  {
    Product(Transition(dt), CorrectedState(x, p, z))
  }

  /**
   * The new covariance as the step computes it: A P' Aᵗ + Q, where P' is a
   * freshly allocated, all-zero matrix rather than the corrected covariance.
   */
  function PredictedCovariance(dt: real): (c: Mat)
    ensures Rect(c) && IsMatrix(c, 3, 3)
  {
    Plus(Product(Product(Transition(dt), Zero(3, 3)), Transposed(Transition(dt))), ProcessNoise())
  }

  // ---------------------------------------------------------------------
  // The step on Matrix objects
  // ---------------------------------------------------------------------

  /**
   * predict: overwrites the state `x` with A (x + K (z - H x)) and the
   * covariance `p` with A P' Aᵗ + Q.  The inversion's success flag is
   * ignored, as in the engine.
   */
  method Predict(x: Matrix, p: Matrix, z: Matrix, timeStep: real)
    requires x.Valid() && p.Valid() && z.Valid()
    requires x.rows == 3 && x.cols == 1 && p.rows == 3 && p.cols == 3 && z.rows == 2 && z.cols == 1
    modifies x.data, p.data
    ensures x.Value() == PredictedState(old(x.Value()), old(p.Value()), old(z.Value()), timeStep)
    ensures p.Value() == ProcessNoise()
  {
    ghost var s := PredictedState(x.Value(), p.Value(), z.Value(), timeStep);
    var a, h, q, r := ModelMatrices(timeStep);
    var xPosteriori := Correct(x, p, z, h, r);
    Project(a, q, xPosteriori, x, p, timeStep, s);
    PredictedCovarianceIsNoise(timeStep);
  }

  /** A, H, Q and R, allocated and filled by set_matrix. */
  method ModelMatrices(timeStep: real) returns (a: Matrix, h: Matrix, q: Matrix, r: Matrix)
    ensures a.Valid() && a.rows == 3 && a.cols == 3 && fresh(a.data) && a.Value() == Transition(timeStep)
    ensures h.Valid() && h.rows == 2 && h.cols == 3 && fresh(h.data) && h.Value() == Observation()
    ensures q.Valid() && q.rows == 3 && q.cols == 3 && fresh(q.data) && q.Value() == ProcessNoise()
    ensures r.Valid() && r.rows == 2 && r.cols == 2 && fresh(r.data) && r.Value() == MeasurementNoise()
  {
    a := Build(3, 3, [1.0, 0.0, timeStep, 0.0, 1.0, 0.0, 0.0, 0.0, 1.0]);
    h := Build(2, 3, [1.0, 0.0, 0.0, 0.0, 1.0, 0.0]);
    q := Build(3, 3, [0.001, 0.0, 0.0, 0.0, 0.001, 0.0, 0.0, 0.0, 0.001]);
    r := Build(2, 2, [1.0, 0.0, 0.0, 1.0]);
    ModelMatricesBuilt(timeStep, a.Value(), h.Value(), q.Value(), r.Value());
  }

  /** The correction half of the step: the gain, the corrected state and the (unused) corrected covariance. */
  method Correct(x: Matrix, p: Matrix, z: Matrix, h: Matrix, r: Matrix) returns (xPosteriori: Matrix)
    requires x.Valid() && p.Valid() && z.Valid() && h.Valid() && r.Valid()
    requires x.rows == 3 && x.cols == 1 && p.rows == 3 && p.cols == 3 && z.rows == 2 && z.cols == 1
    requires h.rows == 2 && h.cols == 3 && r.rows == 2 && r.cols == 2
    requires h.Value() == Observation() && r.Value() == MeasurementNoise()
    ensures xPosteriori.Valid() && xPosteriori.rows == 3 && xPosteriori.cols == 1 && fresh(xPosteriori.data)
    ensures xPosteriori.Value() == CorrectedState(x.Value(), p.Value(), z.Value())
  {
    var k := ComputeGain(p, h, r, Gain(p.Value()));
    xPosteriori := CorrectState(x, z, h, k);
    var unused := CorrectCovariance(p, h, k);
  }

  /** K := (P Hᵗ) S⁻¹ through the scratch matrices temp1 ... temp6. */
  method ComputeGain(p: Matrix, h: Matrix, r: Matrix, ghost g: Mat) returns (k: Matrix)
    requires p.Valid() && h.Valid() && r.Valid()
    requires p.rows == 3 && p.cols == 3 && h.rows == 2 && h.cols == 3 && r.rows == 2 && r.cols == 2
    requires h.Value() == Observation() && r.Value() == MeasurementNoise()
    requires g == Gain(p.Value())
    ensures k.Valid() && k.rows == 3 && k.cols == 2 && fresh(k.data)
    ensures k.Value() == g
  {
    var temp2, temp4 := InnovationParts(p, h, r);
    k := GainFrom(p, temp2, temp4, g);
  }

  /** temp2 := Hᵗ and temp4 := H P Hᵗ + R, through temp1 and temp3. */
  method InnovationParts(p: Matrix, h: Matrix, r: Matrix) returns (temp2: Matrix, temp4: Matrix)
    requires p.Valid() && h.Valid() && r.Valid()
    requires p.rows == 3 && p.cols == 3 && h.rows == 2 && h.cols == 3 && r.rows == 2 && r.cols == 2
    requires h.Value() == Observation() && r.Value() == MeasurementNoise()
    ensures temp2.Valid() && temp2.rows == 3 && temp2.cols == 2 && fresh(temp2.data)
    ensures temp4.Valid() && temp4.rows == 2 && temp4.cols == 2 && fresh(temp4.data)
    ensures temp2.Value() == Transposed(Observation()) && temp4.Value() == Innovation(p.Value())
  {
    var temp1 := Multiplied(h, p);
    temp2 := Transposition(h);
    var temp3 := Multiplied(temp1, temp2);
    temp4 := Added(temp3, r);
  }

  /** Inverts temp4 into temp5 (ignoring the success flag), then K := (P temp2) temp5 through temp6. */
  method GainFrom(p: Matrix, temp2: Matrix, temp4: Matrix, ghost g: Mat) returns (k: Matrix)
    requires p.Valid() && temp2.Valid() && temp4.Valid()
    requires p.rows == 3 && p.cols == 3 && temp2.rows == 3 && temp2.cols == 2 && temp4.rows == 2 && temp4.cols == 2
    requires g == Product(Product(p.Value(), temp2.Value()), Invert(temp4.Value()).output)
    modifies temp4.data
    ensures k.Valid() && k.rows == 3 && k.cols == 2 && fresh(k.data)
    ensures k.Value() == g
  {
    var temp5 := new Matrix(2, 2);
    var inverted := DestructiveInvert(temp4, temp5);
    var temp6 := Multiplied(p, temp2);
    k := Multiplied(temp6, temp5);
  }

  /** x_posteriori := x + K (z - H x) through temp7 ... temp9. */
  method CorrectState(x: Matrix, z: Matrix, h: Matrix, k: Matrix) returns (xPosteriori: Matrix)
    requires x.Valid() && z.Valid() && h.Valid() && k.Valid()
    requires x.rows == 3 && x.cols == 1 && z.rows == 2 && z.cols == 1
    requires h.rows == 2 && h.cols == 3 && k.rows == 3 && k.cols == 2
    ensures xPosteriori.Valid() && xPosteriori.rows == 3 && xPosteriori.cols == 1 && fresh(xPosteriori.data)
    ensures xPosteriori.Value() == Plus(x.Value(), Product(k.Value(), Minus(z.Value(), Product(h.Value(), x.Value()))))
  {
    var temp7 := Multiplied(h, x);
    var temp8 := Subtracted(z, temp7);
    var temp9 := Multiplied(k, temp8);
    xPosteriori := Added(x, temp9);
  }

  /** temp11 := (I - K H) P through temp10; the step never reads the result. */
  method CorrectCovariance(p: Matrix, h: Matrix, k: Matrix) returns (temp11: Matrix)
    requires p.Valid() && h.Valid() && k.Valid()
    requires p.rows == 3 && p.cols == 3 && h.rows == 2 && h.cols == 3 && k.rows == 3 && k.cols == 2
    ensures temp11.Valid() && temp11.rows == 3 && temp11.cols == 3 && fresh(temp11.data)
    ensures temp11.Value() == Product(IdentityMinus(Product(k.Value(), h.Value())), p.Value())
  {
    var temp10 := Multiplied(k, h);
    temp10.SubtractFromIdentity();
    temp11 := Multiplied(temp10, p);
  }

  /**
   * The projection: x := A x_posteriori through temp12, and
   * p := A p_posteriori Aᵗ + Q through temp13 ... temp16.
   */
  method Project(a: Matrix, q: Matrix, xPosteriori: Matrix, x: Matrix, p: Matrix, ghost dt: real, ghost s: Mat)
    requires a.Valid() && q.Valid() && xPosteriori.Valid() && x.Valid() && p.Valid()
    requires a.rows == 3 && a.cols == 3 && q.rows == 3 && q.cols == 3
    requires xPosteriori.rows == 3 && xPosteriori.cols == 1 && x.rows == 3 && x.cols == 1 && p.rows == 3 && p.cols == 3
    requires a.Value() == Transition(dt) && q.Value() == ProcessNoise()
    requires s == Product(a.Value(), xPosteriori.Value())
    modifies x.data, p.data
    ensures x.Value() == s && p.Value() == PredictedCovariance(dt)
  {
    var temp12 := Multiplied(a, xPosteriori);
    var temp16 := ProjectedCovariance(a, q, dt);
    Copy(temp12, x);
    Copy(temp16, p);
  }

  /** A P' Aᵗ + Q through temp13 ... temp16, with P' (p_posteriori) freshly allocated and so zero. */
  method ProjectedCovariance(a: Matrix, q: Matrix, ghost dt: real) returns (temp16: Matrix)
    requires a.Valid() && q.Valid()
    requires a.rows == 3 && a.cols == 3 && q.rows == 3 && q.cols == 3
    requires a.Value() == Transition(dt) && q.Value() == ProcessNoise()
    ensures temp16.Valid() && temp16.rows == 3 && temp16.cols == 3 && fresh(temp16.data)
    ensures temp16.Value() == PredictedCovariance(dt)
  {
    var pPosteriori := new Matrix(3, 3);
    var temp13 := Multiplied(a, pPosteriori);
    var temp14 := Transposition(a);
    var temp15 := Multiplied(temp13, temp14);
    temp16 := Added(temp15, q);
  }

  // ---------------------------------------------------------------------
  // What the step means
  // ---------------------------------------------------------------------

  /** The row-by-row initialisers build exactly A, H, Q and R. */
  lemma ModelMatricesBuilt(dt: real, a: Mat, h: Mat, q: Mat, r: Mat)
    requires a == Unflatten([1.0, 0.0, dt, 0.0, 1.0, 0.0, 0.0, 0.0, 1.0], 3, 3)
    requires h == Unflatten([1.0, 0.0, 0.0, 0.0, 1.0, 0.0], 2, 3)
    requires q == Unflatten([0.001, 0.0, 0.0, 0.0, 0.001, 0.0, 0.0, 0.0, 0.001], 3, 3)
    requires r == Unflatten([1.0, 0.0, 0.0, 1.0], 2, 2)
    ensures a == Transition(dt) && h == Observation() && q == ProcessNoise() && r == MeasurementNoise()
  {
    assert RowStart(1, 3) == 3 && RowStart(2, 3) == 6 && RowStart(1, 2) == 2;
    MatrixExtensionality(a, Transition(dt));
    MatrixExtensionality(h, Observation());
    MatrixExtensionality(q, ProcessNoise());
    MatrixExtensionality(r, MeasurementNoise());
  }

  /**
   * The covariance the step produces does not depend on the covariance it
   * was given: it is always the process noise Q.
   */
  lemma PredictedCovarianceIsNoise(dt: real)
    ensures PredictedCovariance(dt) == ProcessNoise()
  {
    var a := Transition(dt);
    ProductZeroRight(a, 3, 3);
    ProductZeroLeft(3, Transposed(a));
    PlusZeroLeft(ProcessNoise());
  }

  /**
   * When the innovation covariance S is invertible, the gain solves
   * K S = P Hᵗ, which is what defines the Kalman gain.
   */
  lemma GainSolvesInnovation(p: Mat)
    requires IsMatrix(p, 3, 3)
    requires Invert(Innovation(p)).ok
    ensures Product(Gain(p), Innovation(p)) == Product(p, Transposed(Observation()))
  {
    var s := Innovation(p);
    var sInv := Invert(s).output;
    var pht := Product(p, Transposed(Observation()));
    InvertCorrect(s);
    ProductAssociative(pht, sInv, s);
    ProductIdentityRight(pht);
  }

  /** An observation that agrees with the predicted measurement H x leaves the state unchanged. */
  lemma ConsistentObservationKeepsState(x: Mat, p: Mat, z: Mat)
    requires IsMatrix(x, 3, 1) && IsMatrix(p, 3, 3) && IsMatrix(z, 2, 1)
    requires z == Product(Observation(), x)
    ensures CorrectedState(x, p, z) == x
  {
    var k := Gain(p);
    var zero := Minus(z, Product(Observation(), x));
    MatrixExtensionality(zero, Zero(2, 1));
    ProductZeroRight(k, 2, 1);
    MatrixExtensionality(CorrectedState(x, p, z), x);
  }

  /** The transition advances position-x by dt times the rate term and keeps the rest. */
  lemma TransitionAdvances(x: Mat, dt: real)
    requires IsMatrix(x, 3, 1)
    ensures Product(Transition(dt), x) == [[x[0][0] + dt * x[2][0]], [x[1][0]], [x[2][0]]]
  {
    var a := Transition(dt);
    var t := Product(a, x);
    forall i | 0 <= i < 3
      ensures t[i][0] == a[i][0] * x[0][0] + a[i][1] * x[1][0] + a[i][2] * x[2][0]
    {
      DotThreeTerms(a[i], Column(x, 0));
    }
    MatrixExtensionality(t, [[x[0][0] + dt * x[2][0]], [x[1][0]], [x[2][0]]]);
  }

  /** The measurement reads off the two position components. */
  lemma ObservationSelects(x: Mat)
    requires IsMatrix(x, 3, 1)
    ensures Product(Observation(), x) == [[x[0][0]], [x[1][0]]]
  {
    var h := Observation();
    var t := Product(h, x);
    forall i | 0 <= i < 2
      ensures t[i][0] == h[i][0] * x[0][0] + h[i][1] * x[1][0] + h[i][2] * x[2][0]
    {
      DotThreeTerms(h[i], Column(x, 0));
    }
    MatrixExtensionality(t, [[x[0][0]], [x[1][0]]]);
  }

  // ---------------------------------------------------------------------
  // The gain as the engine writes it
  // ---------------------------------------------------------------------

  /** multiply_matrix(a, b, c) accepts its operands only when a is r x n, b is n x m and c is r x m. */
  predicate MultiplyAccepts(a: Mat, b: Mat, c: Mat)
  {
    Rect(a) && Rect(b) && Rect(c) && |a[0]| == |b| && |c| == |a| && |c[0]| == |b[0]|
  }

  /**
   * The engine computes the gain as multiply_matrix(temp5, temp6, K) with
   * temp5 = S⁻¹ (2 x 2), temp6 = P Hᵗ (3 x 2) and K (3 x 2): the shapes do
   * not chain, so the multiplication's shape check fails whatever P is.
   */
  lemma WrittenGainOrderRejected(p: Mat)
    requires IsMatrix(p, 3, 3)
    ensures !MultiplyAccepts(Invert(Innovation(p)).output, Product(p, Transposed(Observation())), Gain(p))
  {
  }

  /** The order the model uses, (P Hᵗ) S⁻¹, chains: 3 x 2 times 2 x 2 into 3 x 2. */
  lemma ModelGainOrderAccepted(p: Mat)
    requires IsMatrix(p, 3, 3)
    ensures MultiplyAccepts(Product(p, Transposed(Observation())), Invert(Innovation(p)).output, Gain(p))
  {
  }
}
