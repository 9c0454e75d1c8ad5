/**
 * The N-body simulator of docs/scripts/gravity_simulator.js.
 *
 * Positions and velocities are N x 3 matrices (sequences of rows of three
 * reals). The integrator's state is the 2 x N x 3 tensor [positions,
 * velocities] flattened row-major, positions first. The Euclidean norm
 * (math.norm) is library code and is a parameter `norm` of the model.
 */
module GravitySimulator {
  import opened Vectors
  import opened Wrappers
  import RK4

  // ---------------------------------------------------------------------------
  // Mass-weighted sums and the centre-of-mass frame (constructor)
  // ---------------------------------------------------------------------------

  /** masses[0] + ... + masses[n-1]; `math.sum(masses)` for n = |masses|. */
  function TotalMass(masses: seq<real>, n: nat): real
    requires n <= |masses|
  {
    if n == 0 then 0.0 else TotalMass(masses, n - 1) + masses[n - 1]
  }

  /** Coordinate k of masses[0] rows[0] + ... + masses[n-1] rows[n-1]. */
  function WeightedSum(masses: seq<real>, rows: seq<Vector>, k: nat, n: nat): real
    requires IsMatrix(rows, |masses|) && k < 3 && n <= |masses|
  {
    if n == 0 then 0.0 else WeightedSum(masses, rows, k, n - 1) + masses[n - 1] * rows[n - 1][k]
  }

  /** The mass-weighted sum of the rows (momentum, for velocity rows). */
  function Momentum(masses: seq<real>, rows: seq<Vector>): (r: Vector)
    requires IsMatrix(rows, |masses|)
    ensures |r| == 3
  {
    seq(3, k requires 0 <= k < 3 => WeightedSum(masses, rows, k, |masses|))
  }

  /** The mass-weighted mean of the rows (`gravityPos` / `gravityVel`). */
  function Centre(masses: seq<real>, rows: seq<Vector>): (c: Vector)
    requires IsMatrix(rows, |masses|) && TotalMass(masses, |masses|) != 0.0
    ensures |c| == 3
  {
    seq(3, k requires 0 <= k < 3 => WeightedSum(masses, rows, k, |masses|) / TotalMass(masses, |masses|))
  }

  /** Every row minus c (math.subtract broadcasting a row vector). */
  function Shift(rows: seq<Vector>, c: Vector): (r: seq<Vector>)
    requires IsMatrix(rows, |rows|) && |c| == 3
    ensures IsMatrix(r, |rows|)
  {
    seq(|rows|, i requires 0 <= i < |rows| => Sub(rows[i], c))
  }

  function ToCentreFrame(masses: seq<real>, rows: seq<Vector>): (r: seq<Vector>)
    requires IsMatrix(rows, |masses|) && TotalMass(masses, |masses|) != 0.0
    ensures IsMatrix(r, |masses|)
  {
    Shift(rows, Centre(masses, rows))
  }

  lemma {:induction false} WeightedSumOfShift(masses: seq<real>, rows: seq<Vector>, c: Vector, k: nat, n: nat)
    requires IsMatrix(rows, |masses|) && |c| == 3 && k < 3 && n <= |masses|
    ensures WeightedSum(masses, Shift(rows, c), k, n)
         == WeightedSum(masses, rows, k, n) - TotalMass(masses, n) * c[k]
  {
    if n > 0 {
      WeightedSumOfShift(masses, rows, c, k, n - 1);
      var m, x := masses[n - 1], rows[n - 1][k];
      assert Shift(rows, c)[n - 1][k] == x - c[k];
      assert m * (x - c[k]) == m * x - m * c[k];
      assert (TotalMass(masses, n - 1) + m) * c[k] == TotalMass(masses, n - 1) * c[k] + m * c[k];
    }
  }

  /** Moving to the centre-of-mass frame makes the mass-weighted sum of the rows
      exactly zero: the centre of mass sits at the origin and the total momentum
      vanishes. */
  lemma CentreFrameHasZeroMomentum(masses: seq<real>, rows: seq<Vector>)
    requires IsMatrix(rows, |masses|) && TotalMass(masses, |masses|) != 0.0
    ensures Momentum(masses, ToCentreFrame(masses, rows)) == Zeros(3)
  {
    var c := Centre(masses, rows);
    var total := TotalMass(masses, |masses|);
    forall k | 0 <= k < 3
      ensures Momentum(masses, ToCentreFrame(masses, rows))[k] == 0.0
    {
      WeightedSumOfShift(masses, rows, c, k, |masses|);
      var w := WeightedSum(masses, rows, k, |masses|);
      assert c[k] == w / total;
      assert total * (w / total) == w;
    }
  }

  // ---------------------------------------------------------------------------
  // Accelerations (calc_accelerators)
  // ---------------------------------------------------------------------------

  /** The separation of bodies i and j, norm(pos[i] - pos[j]). */
  function Separation(norm: Vector -> real, pos: seq<Vector>, i: nat, j: nat): real
    requires IsMatrix(pos, |pos|) && i < |pos| && j < |pos|
  {
    norm(Sub(pos[i], pos[j]))
  }

  /** No two distinct bodies are at zero separation: the divisions are defined. */
  predicate Separated(norm: Vector -> real, pos: seq<Vector>)
    requires IsMatrix(pos, |pos|)
  {
    forall i, j :: 0 <= i < |pos| && 0 <= j < |pos| && i != j ==> Separation(norm, pos, i, j) != 0.0
  }

  /** The Euclidean norm does not depend on the direction of the difference. */
  ghost predicate SymmetricNorm(norm: Vector -> real) {
    forall v: Vector :: norm(Neg(v)) == norm(v)
  }

  lemma CubeNonzero(d: real)
    requires d != 0.0
    ensures d * d * d != 0.0
  {
    assert d * d > 0.0;
  }

  /** The factor -G m / d^3 of the inverse-square law, for separation d != 0. */
  function InverseCube(G: real, m: real, d: real): real
    requires d != 0.0
  {
    CubeNonzero(d);
    -G * m / (d * d * d)
  }

  /** acc_matrix[i, j]: the acceleration of body i caused by body j, zero on the
      diagonal. */
  function PairAcceleration(G: real, masses: seq<real>, norm: Vector -> real, pos: seq<Vector>, i: nat, j: nat): (a: Vector)
    requires IsMatrix(pos, |masses|) && Separated(norm, pos) && i < |masses| && j < |masses|
    ensures |a| == 3
  {
    if i == j then Zeros(3)
    else
      assert Separation(norm, pos, i, j) != 0.0;
      Scale(InverseCube(G, masses[j], Separation(norm, pos, i, j)), Sub(pos[i], pos[j]))
  }

  /** acc_matrix[i, 0] + ... + acc_matrix[i, n-1]. */
  function RowAcceleration(G: real, masses: seq<real>, norm: Vector -> real, pos: seq<Vector>, i: nat, n: nat): (a: Vector)
    requires IsMatrix(pos, |masses|) && Separated(norm, pos) && i < |masses| && n <= |masses|
    ensures |a| == 3
  {
    if n == 0 then Zeros(3)
    else Add(RowAcceleration(G, masses, norm, pos, i, n - 1), PairAcceleration(G, masses, norm, pos, i, n - 1))
  }

  /** `math.sum(acc_matrix, 1)`: the N x 3 matrix of accelerations. */
  function Accelerations(G: real, masses: seq<real>, norm: Vector -> real, pos: seq<Vector>): (acc: seq<Vector>)
    requires IsMatrix(pos, |masses|) && Separated(norm, pos)
    ensures IsMatrix(acc, |masses|)
  {
    seq(|masses|, i requires 0 <= i < |masses| => RowAcceleration(G, masses, norm, pos, i, |masses|))
  }

  // ---------------------------------------------------------------------------
  // Sums over a square array
  // ---------------------------------------------------------------------------

  function RowTotal(F: (nat, nat) -> real, i: nat, n: nat): real {
    if n == 0 then 0.0 else RowTotal(F, i, n - 1) + F(i, n - 1)
  }

  function ColumnTotal(F: (nat, nat) -> real, j: nat, m: nat): real {
    if m == 0 then 0.0 else ColumnTotal(F, j, m - 1) + F(m - 1, j)
  }

  /** The sum of F(i, j) over i < m and j < n, row by row. */
  function GridTotal(F: (nat, nat) -> real, m: nat, n: nat): real {
    if m == 0 then 0.0 else GridTotal(F, m - 1, n) + RowTotal(F, m - 1, n)
  }

  lemma {:induction false} GridAddColumn(F: (nat, nat) -> real, m: nat, n: nat)
    ensures GridTotal(F, m, n + 1) == GridTotal(F, m, n) + ColumnTotal(F, n, m)
  {
    if m > 0 {
      GridAddColumn(F, m - 1, n);
    }
  }

  lemma {:induction false} ColumnIsNegatedRow(F: (nat, nat) -> real, j: nat, m: nat)
    requires forall a: nat, b: nat :: F(a, b) == -F(b, a)
    ensures ColumnTotal(F, j, m) == -RowTotal(F, j, m)
  {
    if m > 0 {
      ColumnIsNegatedRow(F, j, m - 1);
      assert F(m - 1, j) == -F(j, m - 1);
    }
  }

  /** An antisymmetric array sums to zero over any square. */
  lemma {:induction false} AntisymmetricGridTotal(F: (nat, nat) -> real, n: nat)
    requires forall a: nat, b: nat :: F(a, b) == -F(b, a)
    ensures GridTotal(F, n, n) == 0.0
  {
    if n > 0 {
      var m := n - 1;
      AntisymmetricGridTotal(F, m);
      GridAddColumn(F, m, m);
      ColumnIsNegatedRow(F, m, m);
      assert F(m, m) == -F(m, m);
      assert GridTotal(F, n, n) == GridTotal(F, m, n) + RowTotal(F, m, n);
    }
  }

  /** Row i of A multiplied by masses[i], restricted to the bodies. */
  function MassWeighted(masses: seq<real>, A: (nat, nat) -> real): (nat, nat) -> real {
    (i: nat, j: nat) => if i < |masses| && j < |masses| then masses[i] * A(i, j) else 0.0
  }

  lemma {:induction false} ScaledRowTotal(F: (nat, nat) -> real, H: (nat, nat) -> real, c: real, i: nat, n: nat)
    requires forall j: nat :: j < n ==> H(i, j) == c * F(i, j)
    ensures RowTotal(H, i, n) == c * RowTotal(F, i, n)
  {
    if n > 0 {
      ScaledRowTotal(F, H, c, i, n - 1);
      assert c * (RowTotal(F, i, n - 1) + F(i, n - 1)) == c * RowTotal(F, i, n - 1) + c * F(i, n - 1);
    }
  }

  lemma MulCongruence(c: real, x: real, y: real, z: real)
    requires x == y && z == c * y
    ensures c * x == z
  {
  }

  /** If coordinate k of every row is the total of that row of A, the
      mass-weighted sum of the rows is the total of the weighted array. */
  lemma {:induction false} WeightedRowTotals(masses: seq<real>, rows: seq<Vector>, A: (nat, nat) -> real, k: nat, m: nat)
    requires IsMatrix(rows, |masses|) && k < 3 && m <= |masses|
    requires forall i :: 0 <= i < |masses| ==> rows[i][k] == RowTotal(A, i, |masses|)
    ensures WeightedSum(masses, rows, k, m) == GridTotal(MassWeighted(masses, A), m, |masses|)
  {
    if m > 0 {
      var W := MassWeighted(masses, A);
      WeightedRowTotals(masses, rows, A, k, m - 1);
      ScaledRowTotal(A, W, masses[m - 1], m - 1, |masses|);
      MulCongruence(masses[m - 1], rows[m - 1][k], RowTotal(A, m - 1, |masses|), RowTotal(W, m - 1, |masses|));
    }
  }

  /** Rows whose k-th coordinates are the row totals of an array whose
      weighted entries cancel in pairs have a zero mass-weighted sum. */
  lemma BalancedRowTotals(masses: seq<real>, rows: seq<Vector>, A: (nat, nat) -> real, k: nat)
    requires IsMatrix(rows, |masses|) && k < 3
    requires forall i :: 0 <= i < |masses| ==> rows[i][k] == RowTotal(A, i, |masses|)
    requires forall a: nat, b: nat :: a < |masses| && b < |masses| ==> masses[a] * A(a, b) == -(masses[b] * A(b, a))
    ensures WeightedSum(masses, rows, k, |masses|) == 0.0
  {
    var W := MassWeighted(masses, A);
    forall a: nat, b: nat
      ensures W(a, b) == -W(b, a)
    {
    }
    AntisymmetricGridTotal(W, |masses|);
    WeightedRowTotals(masses, rows, A, k, |masses|);
  }

  // ---------------------------------------------------------------------------
  // Newton's third law: the mass-weighted accelerations cancel
  // ---------------------------------------------------------------------------

  /** Coordinate k of acc_matrix[i, j], as an array over all pairs of naturals
      (zero outside the bodies). */
  function AccelerationRates(G: real, masses: seq<real>, norm: Vector -> real, pos: seq<Vector>, k: nat): (nat, nat) -> real
    requires IsMatrix(pos, |masses|) && Separated(norm, pos) && k < 3
  {
    (i: nat, j: nat) =>
      if i < |masses| && j < |masses| then PairAcceleration(G, masses, norm, pos, i, j)[k] else 0.0
  }

  lemma {:induction false} RowAccelerationCoordinate(G: real, masses: seq<real>, norm: Vector -> real, pos: seq<Vector>, k: nat, i: nat, n: nat)
    requires IsMatrix(pos, |masses|) && Separated(norm, pos) && k < 3 && i < |masses| && n <= |masses|
    ensures RowAcceleration(G, masses, norm, pos, i, n)[k] == RowTotal(AccelerationRates(G, masses, norm, pos, k), i, n)
  {
    if n > 0 {
      RowAccelerationCoordinate(G, masses, norm, pos, k, i, n - 1);
    }
  }

  /** The pull of each body of a pair on the other, weighted by its own mass,
      cancel. */
  lemma PairTermsCancel(G: real, ma: real, mb: real, d: real, fa: real, fb: real, v: real, w: real)
    requires d != 0.0 && w == -v
    requires fa == InverseCube(G, mb, d) * v && fb == InverseCube(G, ma, d) * w
    ensures ma * fa == -(mb * fb)
  {
  }

  lemma PairMomentaCancel(G: real, masses: seq<real>, norm: Vector -> real, pos: seq<Vector>, k: nat, a: nat, b: nat)
    requires IsMatrix(pos, |masses|) && Separated(norm, pos) && k < 3 && SymmetricNorm(norm)
    requires a < |masses| && b < |masses|
    ensures var A := AccelerationRates(G, masses, norm, pos, k);
            masses[a] * A(a, b) == -(masses[b] * A(b, a))
  {
    var A := AccelerationRates(G, masses, norm, pos, k);
    if a == b {
      assert A(a, a) == 0.0;
    } else {
      SubSwap(pos[a], pos[b]);
      assert norm(Neg(Sub(pos[a], pos[b]))) == norm(Sub(pos[a], pos[b]));
      var d := Separation(norm, pos, a, b);
      assert Separation(norm, pos, b, a) == d;
      PairTermsCancel(G, masses[a], masses[b], d, A(a, b), A(b, a), pos[a][k] - pos[b][k], pos[b][k] - pos[a][k]);
    }
  }

  /** Newton's third law in the model: whatever the positions, the mass-weighted
      sum of the accelerations is the zero vector, because the (i, j) and (j, i)
      terms cancel. */
  lemma AccelerationsConserveMomentum(G: real, masses: seq<real>, norm: Vector -> real, pos: seq<Vector>)
    requires IsMatrix(pos, |masses|) && Separated(norm, pos) && SymmetricNorm(norm)
    ensures Momentum(masses, Accelerations(G, masses, norm, pos)) == Zeros(3)
  {
    var acc := Accelerations(G, masses, norm, pos);
    forall k | 0 <= k < 3
      ensures Momentum(masses, acc)[k] == 0.0
    {
      var A := AccelerationRates(G, masses, norm, pos, k);
      forall i | 0 <= i < |masses|
        ensures acc[i][k] == RowTotal(A, i, |masses|)
      {
        RowAccelerationCoordinate(G, masses, norm, pos, k, i, |masses|);
      }
      forall a: nat, b: nat | a < |masses| && b < |masses|
        ensures masses[a] * A(a, b) == -(masses[b] * A(b, a))
      {
        PairMomentaCancel(G, masses, norm, pos, k, a, b);
      }
      BalancedRowTotals(masses, acc, A, k);
    }
  }

  // ---------------------------------------------------------------------------
  // The integrator's state and the derivative closure
  // ---------------------------------------------------------------------------

  /** math.matrix([pos, vel]) in row-major order: positions, then velocities. */
  function Pack(pos: seq<Vector>, vel: seq<Vector>): (s: Vector)
    requires IsMatrix(pos, |pos|) && IsMatrix(vel, |pos|)
    ensures |s| == 6 * |pos|
  {
    Flatten(pos) + Flatten(vel)
  }

  /** pos_vel_matrix.subset(index(0, ...)).reshape([N, 3]). */
  function PositionHalf(s: Vector, n: nat): (pos: seq<Vector>)
    requires |s| == 6 * n
    ensures IsMatrix(pos, n)
    ensures forall i, k :: 0 <= i < n && 0 <= k < 3 ==> pos[i][k] == s[3 * i + k]
  {
    Rows(s[..3 * n], n)
  }

  /** pos_vel_matrix.subset(index(1, ...)).reshape([N, 3]). */
  function VelocityHalf(s: Vector, n: nat): (vel: seq<Vector>)
    requires |s| == 6 * n
    ensures IsMatrix(vel, n)
    ensures forall i, k :: 0 <= i < n && 0 <= k < 3 ==> vel[i][k] == s[3 * n + 3 * i + k]
  {
    Rows(s[3 * n..], n)
  }

  /** Packing and unpacking the state lose nothing, in both directions. */
  lemma UnpackPack(pos: seq<Vector>, vel: seq<Vector>)
    requires IsMatrix(pos, |pos|) && IsMatrix(vel, |pos|)
    ensures PositionHalf(Pack(pos, vel), |pos|) == pos
    ensures VelocityHalf(Pack(pos, vel), |pos|) == vel
  {
    var s := Pack(pos, vel);
    assert s[..3 * |pos|] == Flatten(pos);
    assert s[3 * |pos|..] == Flatten(vel);
    RowsFlatten(pos);
    RowsFlatten(vel);
  }

  lemma PackUnpack(s: Vector, n: nat)
    requires |s| == 6 * n
    ensures Pack(PositionHalf(s, n), VelocityHalf(s, n)) == s
  {
    FlattenRowsHalves(s, n);
  }

  /** calc_derivatives: the time derivative of (positions, velocities) is
      (velocities, accelerations). */
  function CalcDerivatives(G: real, masses: seq<real>, norm: Vector -> real, pos: seq<Vector>, vel: seq<Vector>): (d: (seq<Vector>, seq<Vector>))
    requires IsMatrix(pos, |masses|) && IsMatrix(vel, |masses|) && Separated(norm, pos)
    ensures IsMatrix(d.0, |masses|) && IsMatrix(d.1, |masses|)
    ensures d.0 == vel
    ensures SymmetricNorm(norm) ==> Momentum(masses, d.1) == Zeros(3)
  {
    var acc := Accelerations(G, masses, norm, pos);
    assert SymmetricNorm(norm) ==> Momentum(masses, acc) == Zeros(3) by {
      if SymmetricNorm(norm) {
        AccelerationsConserveMomentum(G, masses, norm, pos);
      }
    }
    (vel, acc)
  }

  /** The closure handed to the integrator. It is defined on states of the right
      size whose bodies are pairwise apart (elsewhere the script computes
      non-finite numbers), and it does not use the time. */
  function Derivative(G: real, masses: seq<real>, norm: Vector -> real): RK4.Derivative {
    (t: real, s: Vector) =>
      if |s| == 6 * |masses| && Separated(norm, PositionHalf(s, |masses|)) then
        var d := CalcDerivatives(G, masses, norm, PositionHalf(s, |masses|), VelocityHalf(s, |masses|));
        Some(Pack(d.0, d.1))
      else None
  }

  lemma DerivativeDomain(G: real, masses: seq<real>, norm: Vector -> real, t: real, s: Vector)
    ensures Derivative(G, masses, norm)(t, s).Some?
        <==> |s| == 6 * |masses| && Separated(norm, PositionHalf(s, |masses|))
  {
  }

  /** The derivative of the positions is the velocities, the derivative of the
      velocities is the accelerations, and the time argument is irrelevant. */
  lemma DerivativeParts(G: real, masses: seq<real>, norm: Vector -> real, t: real, s: Vector)
    requires |s| == 6 * |masses| && Separated(norm, PositionHalf(s, |masses|))
    ensures var r := Derivative(G, masses, norm)(t, s);
            && r.Some? && |r.value| == |s|
            && PositionHalf(r.value, |masses|) == VelocityHalf(s, |masses|)
            && VelocityHalf(r.value, |masses|) == Accelerations(G, masses, norm, PositionHalf(s, |masses|))
            && forall u: real :: Derivative(G, masses, norm)(u, s) == r
  {
    UnpackPack(VelocityHalf(s, |masses|), Accelerations(G, masses, norm, PositionHalf(s, |masses|)));
  }

  // ---------------------------------------------------------------------------
  // The centre-of-mass frame is kept by every Runge-Kutta step
  // ---------------------------------------------------------------------------

  /** The state has its centre of mass at the origin and zero total momentum. */
  predicate Barycentric(masses: seq<real>, s: Vector) {
    && |s| == 6 * |masses|
    && Momentum(masses, PositionHalf(s, |masses|)) == Zeros(3)
    && Momentum(masses, VelocityHalf(s, |masses|)) == Zeros(3)
  }

  lemma CombinationStep(m: real, x: real, y: real, z: real, a: real, b: real, w1: real, w2: real, w3: real)
    requires z == a * x + b * y && w3 == a * w1 + b * w2
    ensures w3 + m * z == a * (w1 + m * x) + b * (w2 + m * y)
  {
    assert m * z == m * (a * x + b * y);
  }

  /** The mass-weighted sum is linear in the rows. */
  lemma {:induction false} WeightedSumCombination(masses: seq<real>, r1: seq<Vector>, r2: seq<Vector>, r3: seq<Vector>, a: real, b: real, k: nat, n: nat)
    requires IsMatrix(r1, |masses|) && IsMatrix(r2, |masses|) && IsMatrix(r3, |masses|) && k < 3 && n <= |masses|
    requires forall i :: 0 <= i < |masses| ==> r3[i][k] == a * r1[i][k] + b * r2[i][k]
    ensures WeightedSum(masses, r3, k, n) == a * WeightedSum(masses, r1, k, n) + b * WeightedSum(masses, r2, k, n)
  {
    if n > 0 {
      WeightedSumCombination(masses, r1, r2, r3, a, b, k, n - 1);
      CombinationStep(masses[n - 1], r1[n - 1][k], r2[n - 1][k], r3[n - 1][k], a, b,
        WeightedSum(masses, r1, k, n - 1), WeightedSum(masses, r2, k, n - 1), WeightedSum(masses, r3, k, n - 1));
    }
  }

  lemma MomentumCombination(masses: seq<real>, r1: seq<Vector>, r2: seq<Vector>, r3: seq<Vector>, a: real, b: real)
    requires IsMatrix(r1, |masses|) && IsMatrix(r2, |masses|) && IsMatrix(r3, |masses|)
    requires Momentum(masses, r1) == Zeros(3) && Momentum(masses, r2) == Zeros(3)
    requires forall i, k :: 0 <= i < |masses| && 0 <= k < 3 ==> r3[i][k] == a * r1[i][k] + b * r2[i][k]
    ensures Momentum(masses, r3) == Zeros(3)
  {
    forall k | 0 <= k < 3
      ensures Momentum(masses, r3)[k] == 0.0
    {
      WeightedSumCombination(masses, r1, r2, r3, a, b, k, |masses|);
      assert WeightedSum(masses, r1, k, |masses|) == Momentum(masses, r1)[k] == 0.0;
      assert WeightedSum(masses, r2, k, |masses|) == Momentum(masses, r2)[k] == 0.0;
    }
  }

  /** Barycentric states form a linear space. */
  lemma BarycentricCombination(masses: seq<real>, x: Vector, y: Vector, z: Vector, a: real, b: real)
    requires Barycentric(masses, x) && Barycentric(masses, y) && |z| == |x|
    requires forall i :: 0 <= i < |z| ==> z[i] == a * x[i] + b * y[i]
    ensures Barycentric(masses, z)
  {
    var n := |masses|;
    MomentumCombination(masses, PositionHalf(x, n), PositionHalf(y, n), PositionHalf(z, n), a, b);
    MomentumCombination(masses, VelocityHalf(x, n), VelocityHalf(y, n), VelocityHalf(z, n), a, b);
  }

  lemma BarycentricAdd(masses: seq<real>, x: Vector, y: Vector)
    requires Barycentric(masses, x) && Barycentric(masses, y)
    ensures Barycentric(masses, Add(x, y))
  {
    BarycentricCombination(masses, x, y, Add(x, y), 1.0, 1.0);
  }

  lemma BarycentricScale(masses: seq<real>, c: real, x: Vector)
    requires Barycentric(masses, x)
    ensures Barycentric(masses, Scale(c, x))
  {
    BarycentricCombination(masses, x, x, Scale(c, x), c, 0.0);
  }

  /** The derivative of a state with zero total momentum is barycentric: the
      velocities sum to zero by assumption and the accelerations by Newton's
      third law. */
  lemma DerivativeBarycentric(G: real, masses: seq<real>, norm: Vector -> real, t: real, s: Vector)
    requires SymmetricNorm(norm) && |s| == 6 * |masses| && Separated(norm, PositionHalf(s, |masses|))
    requires Momentum(masses, VelocityHalf(s, |masses|)) == Zeros(3)
    ensures Derivative(G, masses, norm)(t, s).Some?
    ensures Barycentric(masses, Derivative(G, masses, norm)(t, s).value)
  {
    DerivativeParts(G, masses, norm, t, s);
    AccelerationsConserveMomentum(G, masses, norm, PositionHalf(s, |masses|));
  }

  /** The barycentric states, as a property of states. */
  function BarycentricStates(masses: seq<real>): Vector -> bool {
    s => Barycentric(masses, s)
  }

  lemma BarycentricIsLinear(masses: seq<real>)
    ensures RK4.LinearInvariant(BarycentricStates(masses))
  {
    var P := BarycentricStates(masses);
    forall x: Vector, y: Vector | P(x) && P(y) && |x| == |y|
      ensures P(Add(x, y))
    {
      BarycentricAdd(masses, x, y);
    }
    forall c: real, x: Vector | P(x)
      ensures P(Scale(c, x))
    {
      BarycentricScale(masses, c, x);
    }
  }

  lemma DerivativeRespectsBarycentric(G: real, masses: seq<real>, norm: Vector -> real)
    requires SymmetricNorm(norm)
    ensures RK4.Respects(Derivative(G, masses, norm), BarycentricStates(masses))
  {
    var f, P := Derivative(G, masses, norm), BarycentricStates(masses);
    forall t: real, y: Vector | P(y) && f(t, y).Some?
      ensures P(f(t, y).value)
    {
      DerivativeDomain(G, masses, norm, t, y);
      DerivativeBarycentric(G, masses, norm, t, y);
    }
  }

  /** One Runge-Kutta step of the simulator keeps the centre of mass at the
      origin and the total momentum at zero. */
  lemma StepKeepsBarycentric(G: real, masses: seq<real>, norm: Vector -> real, t: real, y: Vector, h: real)
    requires SymmetricNorm(norm) && Barycentric(masses, y)
    ensures var r := RK4.Step(Derivative(G, masses, norm), t, y, h);
            r.Some? ==> Barycentric(masses, r.value)
  {
    BarycentricIsLinear(masses);
    DerivativeRespectsBarycentric(G, masses, norm);
    RK4.StepKeeps(Derivative(G, masses, norm), BarycentricStates(masses), t, y, h);
  }

  /** Hence every state the integrator reaches from a barycentric start is
      barycentric. */
  lemma EvolveKeepsBarycentric(G: real, masses: seq<real>, norm: Vector -> real, h: real, y0: Vector, n: nat)
    requires SymmetricNorm(norm) && Barycentric(masses, y0)
    ensures var r := RK4.Evolve(Derivative(G, masses, norm), h, y0, n);
            r.Some? ==> Barycentric(masses, r.value)
  {
    BarycentricIsLinear(masses);
    DerivativeRespectsBarycentric(G, masses, norm);
    RK4.EvolveKeeps(Derivative(G, masses, norm), BarycentricStates(masses), h, y0, n);
  }

  // ---------------------------------------------------------------------------
  // The simulator object
  // ---------------------------------------------------------------------------

  /** The least separation over all ordered pairs of distinct bodies is at least m. */
  predicate BelowAllSeparations(norm: Vector -> real, pos: seq<Vector>, m: real)
    requires IsMatrix(pos, |pos|)
  {
    forall i, j :: 0 <= i < |pos| && 0 <= j < |pos| && i != j ==> m <= Separation(norm, pos, i, j)
  }

  class Simulator {
    const masses: seq<real>
    const norm: Vector -> real
    const G: real
    const initPos: seq<Vector>
    const initVel: seq<Vector>
    const rk4: RK4.Stepper
    /** The least separation seen so far; `undefined` before the first frame. */
    var min: Option<real>

    ghost predicate Valid()
      reads rk4
    {
      && IsMatrix(initPos, |masses|) && IsMatrix(initVel, |masses|)
      && SymmetricNorm(norm)
      && rk4.f == Derivative(G, masses, norm)
      && rk4.initValue == Pack(initPos, initVel)
      && rk4.Valid()
      && Barycentric(masses, rk4.value)
    }

    /** Moves the bodies to the centre-of-mass frame (positions and velocities)
        and creates the integrator over the packed state. */
    constructor (deltaT: real, masses: seq<real>, initPositions: seq<Vector>, initVelocities: seq<Vector>, norm: Vector -> real)
      requires IsMatrix(initPositions, |masses|) && IsMatrix(initVelocities, |masses|)
      requires TotalMass(masses, |masses|) != 0.0
      requires SymmetricNorm(norm)
      ensures Valid() && fresh(rk4)
      ensures this.masses == masses && this.norm == norm && G == 1.0 && min == None
      ensures initPos == ToCentreFrame(masses, initPositions)
      ensures initVel == ToCentreFrame(masses, initVelocities)
      ensures !rk4.started && rk4.deltaT == deltaT
    {
      this.masses := masses;
      this.norm := norm;
      var gravityPos := Centre(masses, initPositions);
      initPos := Shift(initPositions, gravityPos);
      var gravityVel := Centre(masses, initVelocities);
      initVel := Shift(initVelocities, gravityVel);
      G := 1.0;
      var p := Shift(initPositions, gravityPos);
      var v := Shift(initVelocities, gravityVel);
      rk4 := new RK4.Stepper(Derivative(1.0, masses, norm), deltaT, Pack(p, v));
      min := None;
      new;
      CentreFrameHasZeroMomentum(masses, initPositions);
      CentreFrameHasZeroMomentum(masses, initVelocities);
      UnpackPack(initPos, initVel);
    }

    /** calc_accelerators: fills the N x N x 3 array of pairwise accelerations
        (zero on the diagonal) and sums it over its second axis. */
    method CalcAccelerators(pos: seq<Vector>) returns (acc: seq<Vector>)
      requires IsMatrix(pos, |masses|) && Separated(norm, pos)
      ensures acc == Accelerations(G, masses, norm, pos)
    {
      var n := |masses|;
      var accMatrix := new real[n, n, 3]((i, j, k) => 0.0);
      for i := 0 to n
        invariant forall a, b, k :: 0 <= a < i && 0 <= b < n && 0 <= k < 3 ==>
          accMatrix[a, b, k] == PairAcceleration(G, masses, norm, pos, a, b)[k]
        invariant forall a, b, k :: i <= a < n && 0 <= b < n && 0 <= k < 3 ==> accMatrix[a, b, k] == 0.0
      {
        FillRow(accMatrix, pos, i);
      }
      acc := SumRows(accMatrix, pos);
    }

    /** `acc.sum(axis=1)`: the sums over the second axis, row by row. */
    method SumRows(accMatrix: array3<real>, pos: seq<Vector>) returns (acc: seq<Vector>)
      requires IsMatrix(pos, |masses|) && Separated(norm, pos)
      requires accMatrix.Length0 == accMatrix.Length1 == |masses| && accMatrix.Length2 == 3
      requires forall a, b, k :: 0 <= a < |masses| && 0 <= b < |masses| && 0 <= k < 3 ==>
        accMatrix[a, b, k] == PairAcceleration(G, masses, norm, pos, a, b)[k]
      ensures acc == Accelerations(G, masses, norm, pos)
    {
      acc := [];
      for i := 0 to |masses|
        invariant |acc| == i
        invariant forall a :: 0 <= a < i ==> acc[a] == RowAcceleration(G, masses, norm, pos, a, |masses|)
      {
        var row := SumRow(accMatrix, pos, i);
        acc := acc + [row];
      }
    }

    /** One pass of the inner loop of calc_accelerators: row i of the array. */
    method FillRow(accMatrix: array3<real>, pos: seq<Vector>, i: nat)
      requires IsMatrix(pos, |masses|) && Separated(norm, pos) && i < |masses|
      requires accMatrix.Length0 == accMatrix.Length1 == |masses| && accMatrix.Length2 == 3
      requires forall b, k :: 0 <= b < |masses| && 0 <= k < 3 ==> accMatrix[i, b, k] == 0.0
      modifies accMatrix
      ensures forall b, k :: 0 <= b < |masses| && 0 <= k < 3 ==>
        accMatrix[i, b, k] == PairAcceleration(G, masses, norm, pos, i, b)[k]
      ensures forall a, b, k :: 0 <= a < |masses| && 0 <= b < |masses| && 0 <= k < 3 && a != i ==>
        accMatrix[a, b, k] == old(accMatrix[a, b, k])
    {
      for j := 0 to |masses|
        invariant forall b, k :: 0 <= b < j && 0 <= k < 3 ==>
          accMatrix[i, b, k] == PairAcceleration(G, masses, norm, pos, i, b)[k]
        invariant forall b, k :: j <= b < |masses| && 0 <= k < 3 ==> accMatrix[i, b, k] == 0.0
        invariant forall a, b, k :: 0 <= a < |masses| && 0 <= b < |masses| && 0 <= k < 3 && a != i ==>
          accMatrix[a, b, k] == old(accMatrix[a, b, k])
      {
        if i != j {
          var vec := Sub(pos[i], pos[j]);
          assert norm(vec) == Separation(norm, pos, i, j);
          var a := Scale(InverseCube(G, masses[j], norm(vec)), vec);
          SetEntry(accMatrix, i, j, a);
        }
      }
    }

    /** acc_matrix[i, j] = a, one coordinate at a time. */
    static method SetEntry(accMatrix: array3<real>, i: nat, j: nat, a: Vector)
      requires i < accMatrix.Length0 && j < accMatrix.Length1 && accMatrix.Length2 == 3 && |a| == 3
      modifies accMatrix
      ensures forall k :: 0 <= k < 3 ==> accMatrix[i, j, k] == a[k]
      ensures forall x, y, k :: 0 <= x < accMatrix.Length0 && 0 <= y < accMatrix.Length1 && 0 <= k < 3 && (x != i || y != j) ==>
        accMatrix[x, y, k] == old(accMatrix[x, y, k])
    {
      accMatrix[i, j, 0] := a[0];
      accMatrix[i, j, 1] := a[1];
      accMatrix[i, j, 2] := a[2];
    }

    /** The sum over the second axis for row i. */
    method SumRow(accMatrix: array3<real>, pos: seq<Vector>, i: nat) returns (row: Vector)
      requires IsMatrix(pos, |masses|) && Separated(norm, pos) && i < |masses|
      requires accMatrix.Length0 == accMatrix.Length1 == |masses| && accMatrix.Length2 == 3
      requires forall b, k :: 0 <= b < |masses| && 0 <= k < 3 ==>
        accMatrix[i, b, k] == PairAcceleration(G, masses, norm, pos, i, b)[k]
      ensures row == RowAcceleration(G, masses, norm, pos, i, |masses|)
    {
      row := Zeros(3);
      for j := 0 to |masses|
        invariant row == RowAcceleration(G, masses, norm, pos, i, j)
      {
        var entry := [accMatrix[i, j, 0], accMatrix[i, j, 1], accMatrix[i, j, 2]];
        assert entry == PairAcceleration(G, masses, norm, pos, i, j);
        row := Add(row, entry);
      }
    }

    /** calc_positions: advances the integrator by one frame, lowers the least
        separation seen so far to the least separation of this frame, and
        returns the time and the positions. */
    method CalcPositions() returns (time: real, positions: seq<Vector>)
      requires Valid()
      requires rk4.started ==> RK4.Step(rk4.f, rk4.t, rk4.value, rk4.deltaT).Some?
      modifies this`min, rk4
      ensures Valid()
      ensures time == rk4.t && positions == PositionHalf(rk4.value, |masses|)
      ensures !old(rk4.started) ==> rk4.count == 0 && time == 0.0 && positions == initPos
      ensures old(rk4.started) ==> rk4.count == old(rk4.count) + 1 && time == old(rk4.t) + rk4.deltaT
      ensures old(rk4.started) ==> RK4.Step(rk4.f, old(rk4.t), old(rk4.value), rk4.deltaT) == Some(rk4.value)
      ensures Momentum(masses, positions) == Zeros(3)
      ensures min.Some? ==> BelowAllSeparations(norm, positions, min.value)
      ensures old(min).Some? ==> min.Some? && min.value <= old(min).value
      ensures |masses| >= 2 ==> min.Some?
      ensures min == old(min) || exists i, j :: 0 <= i < |masses| && 0 <= j < |masses| && i != j
                                    && min == Some(Separation(norm, positions, i, j))
    {
      ghost var wasStarted, before, t0 := rk4.started, rk4.value, rk4.t;
      var t, state := rk4.Next();
      if wasStarted {
        StepKeepsBarycentric(G, masses, norm, t0, before, rk4.deltaT);
      } else {
        UnpackPack(initPos, initVel);
      }
      positions := PositionHalf(state, |masses|);
      UpdateMin(positions);
      time := t;
    }

    /** The double loop of calc_positions over the ordered pairs of distinct bodies. */
    method UpdateMin(positions: seq<Vector>)
      requires IsMatrix(positions, |masses|)
      modifies this`min
      ensures min.Some? ==> BelowAllSeparations(norm, positions, min.value)
      ensures old(min).Some? ==> min.Some? && min.value <= old(min).value
      ensures |masses| >= 2 ==> min.Some?
      ensures min == old(min) || exists i, j :: 0 <= i < |masses| && 0 <= j < |masses| && i != j
                                    && min == Some(Separation(norm, positions, i, j))
    {
      var n := |masses|;
      for i := 0 to n
        invariant forall a, b :: 0 <= a < i && 0 <= b < n && a != b ==>
          min.Some? && min.value <= Separation(norm, positions, a, b)
        invariant old(min).Some? ==> min.Some? && min.value <= old(min).value
        invariant i > 0 && n >= 2 ==> min.Some?
        invariant min == old(min) || exists a, b :: 0 <= a < n && 0 <= b < n && a != b
                                        && min == Some(Separation(norm, positions, a, b))
      {
        for j := 0 to n
          invariant forall a, b :: 0 <= a < i && 0 <= b < n && a != b ==>
            min.Some? && min.value <= Separation(norm, positions, a, b)
          invariant forall b :: 0 <= b < j && i != b ==>
            min.Some? && min.value <= Separation(norm, positions, i, b)
          invariant old(min).Some? ==> min.Some? && min.value <= old(min).value
          invariant (i > 0 || j > 1 || (j == 1 && i != 0)) && n >= 2 ==> min.Some?
          invariant min == old(min) || exists a, b :: 0 <= a < n && 0 <= b < n && a != b
                                          && min == Some(Separation(norm, positions, a, b))
        {
          if i != j {
            var d := norm(Sub(positions[i], positions[j]));
            assert d == Separation(norm, positions, i, j);
            if min.None? || min.value > d {
              min := Some(d);
            }
          }
        }
      }
    }
  }
}
