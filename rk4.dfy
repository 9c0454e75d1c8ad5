/**
 * The fixed-step classic Runge-Kutta stepper of docs/scripts/RK4.js.
 *
 * The script is a generator; here it is a `Stepper` object whose `Next` is one
 * call of the generator's `next()`. The state is a flat vector of reals. The
 * derivative answers `None` where the script would compute non-finite numbers
 * (or fail on a shape mismatch), and `Step` answers `None` when any of its four
 * stages does.
 */
module RK4 {
  import opened Vectors
  import opened Wrappers

  /** The `func(t, value)` argument of the generator. */
  type Derivative = (real, Vector) -> Option<Vector>

  /** One evaluation of the derivative, defined when the derivative is and has
      the shape of the state. */
  function Eval(f: Derivative, t: real, y: Vector): (r: Option<Vector>)
    ensures r.Some? <==> f(t, y).Some? && |f(t, y).value| == |y|
    ensures r.Some? ==> r == f(t, y)
  {
    match f(t, y)
    case Some(k) => if |k| == |y| then Some(k) else None
    case None => None
  }

  /** The weighted combination of the four stages, in the order the script chains it:
      (k1 + 2 k2 + 2 k3 + k4) * h/6, then plus the old value. */
  function Combine(y: Vector, k1: Vector, k2: Vector, k3: Vector, k4: Vector, h: real): (r: Vector)
    requires |k1| == |k2| == |k3| == |k4| == |y|
    ensures |r| == |y|
  {
    Add(Scale(h / 6.0, Add(Add(Add(k1, Scale(2.0, k2)), Scale(2.0, k3)), k4)), y)
  }

  /** One classic four-stage update from (t, y) with step h; `None` when a stage
      point is outside the derivative's domain. */
  function Step(f: Derivative, t: real, y: Vector, h: real): (r: Option<Vector>)
    ensures r.Some? ==> |r.value| == |y|
  {
    match Eval(f, t, y)
    case None => None
    case Some(k1) =>
      match Eval(f, t + h / 2.0, Add(y, Scale(h / 2.0, k1)))
      case None => None
      case Some(k2) =>
        match Eval(f, t + h / 2.0, Add(y, Scale(h / 2.0, k2)))
        case None => None
        case Some(k3) =>
          match Eval(f, t + h, Add(y, Scale(h, k3)))
          case None => None
          case Some(k4) => Some(Combine(y, k1, k2, k3, k4, h))
  }

  /** The time of the n-th state, `count * deltaT`: computed afresh from the
      counter rather than accumulated. */
  function Clock(n: nat, h: real): real {
    n as real * h
  }

  /** The value after n updates from y0, the n-th update starting at time (n-1) h. */
  function Evolve(f: Derivative, h: real, y0: Vector, n: nat): (r: Option<Vector>)
    ensures r.Some? ==> |r.value| == |y0|
  {
    if n == 0 then Some(y0)
    else
      match Evolve(f, h, y0, n - 1)
      case None => None
      case Some(y) => Step(f, Clock(n - 1, h), y, h)
  }

  /** One more update extends a defined trajectory by one `Step` at time m h. */
  lemma EvolveSucc(f: Derivative, h: real, y0: Vector, m: nat, y: Vector)
    requires Evolve(f, h, y0, m) == Some(y)
    ensures Evolve(f, h, y0, m + 1) == Step(f, Clock(m, h), y, h)
  {
  }

  /** The same, stated for a defined update: the trajectory has one more state
      and the clock one more step. */
  lemma Advance(f: Derivative, h: real, y0: Vector, n: nat, t: real, y: Vector, y': Vector)
    requires t == Clock(n, h)
    requires Evolve(f, h, y0, n) == Some(y) && Step(f, t, y, h) == Some(y')
    ensures Evolve(f, h, y0, n + 1) == Some(y')
    ensures Clock(n + 1, h) == t + h
  {
    EvolveSucc(f, h, y0, n, y);
  }

  lemma EvolveLast(f: Derivative, h: real, y0: Vector, n: nat, y: Vector)
    requires n > 0 && Evolve(f, h, y0, n - 1) == Some(y)
    ensures Evolve(f, h, y0, n) == Step(f, Clock(n - 1, h), y, h)
  {
  }

  /** The generator object: `count`, `t` and `value` are the generator's locals,
      `started` records whether the seed frame has been produced. */
  class Stepper {
    const f: Derivative
    const deltaT: real
    const initValue: Vector
    var started: bool
    var count: nat
    var t: real
    var value: Vector

    ghost predicate Valid()
      reads this
    {
      && t == Clock(count, deltaT)
      && Evolve(f, deltaT, initValue, count) == Some(value)
      && (!started ==> count == 0)
    }

    /** Creating the generator runs none of its body. */
    constructor (f: Derivative, deltaT: real, initValue: Vector)
      ensures Valid() && !started
      ensures this.f == f && this.deltaT == deltaT && this.initValue == initValue
      ensures count == 0 && value == initValue
    {
      this.f := f;
      this.deltaT := deltaT;
      this.initValue := initValue;
      started := false;
      count := 0;
      t := 0.0;
      value := initValue;
    }

    /** One `next()`: the first call yields the seed frame (0, initValue) without
        evaluating `f`; every later call performs one update and yields
        (count * deltaT, value). */
    method Next() returns (time: real, y: Vector)
      requires Valid()
      requires started ==> Step(f, t, value, deltaT).Some?
      modifies this
      ensures Valid() && started
      ensures time == t && y == value
      ensures !old(started) ==> count == 0 && time == 0.0 && y == initValue
      ensures old(started) ==> count == old(count) + 1 && time == old(t) + deltaT
      ensures old(started) ==> Step(f, old(t), old(value), deltaT) == Some(value)
    {
      if !started {
        started := true;
        count := 0;
        t := Clock(count, deltaT);
        value := initValue;
        assert Evolve(f, deltaT, initValue, count) == Some(value);
      } else {
        Update();
      }
      time, y := t, value;
    }

    /** The body of the generator's loop: the four stages, the counter and the
        clock, then the combined value. */
    method Update()
      requires Valid() && started && Step(f, t, value, deltaT).Some?
      modifies this`count, this`t, this`value
      ensures Valid()
      ensures count == old(count) + 1 && t == old(t) + deltaT
      ensures Step(f, old(t), old(value), deltaT) == Some(value)
    {
      assert Eval(f, t, value).Some?;
      var k1 := f(t, value).value;
      assert Eval(f, t + deltaT / 2.0, Add(value, Scale(deltaT / 2.0, k1))).Some?;
      var k2 := f(t + deltaT / 2.0, Add(value, Scale(deltaT / 2.0, k1))).value;
      assert Eval(f, t + deltaT / 2.0, Add(value, Scale(deltaT / 2.0, k2))).Some?;
      var k3 := f(t + deltaT / 2.0, Add(value, Scale(deltaT / 2.0, k2))).value;
      assert Eval(f, t + deltaT, Add(value, Scale(deltaT, k3))).Some?;
      var k4 := f(t + deltaT, Add(value, Scale(deltaT, k3))).value;
      ghost var before := value;
      assert Step(f, t, before, deltaT) == Some(Combine(before, k1, k2, k3, k4, deltaT));
      Advance(f, deltaT, initValue, count, t, before, Combine(before, k1, k2, k3, k4, deltaT));
      count := count + 1;
      t := Clock(count, deltaT);
      value := Combine(value, k1, k2, k3, k4, deltaT);
    }
  }

  /** The vector identity behind `StepOfTimeOnlyDerivative`. */
  lemma CombineEqualMiddleStages(y: Vector, a: Vector, b: Vector, c: Vector, h: real)
    requires |a| == |b| == |c| == |y|
    ensures Combine(y, a, b, b, c, h) == Add(y, Scale(h / 6.0, Add(Add(a, Scale(4.0, b)), c)))
  {
    var lhs := Combine(y, a, b, b, c, h);
    var rhs := Add(y, Scale(h / 6.0, Add(Add(a, Scale(4.0, b)), c)));
    forall i | 0 <= i < |y|
      ensures lhs[i] == rhs[i]
    {
      var sum := a[i] + 2.0 * b[i] + 2.0 * b[i] + c[i];
      assert sum == a[i] + 4.0 * b[i] + c[i];
      assert lhs[i] == h / 6.0 * sum + y[i];
    }
  }

  /** When the derivative depends on time only, one update is Simpson's rule over
      [t, t + h]: the two middle stages are both taken at t + h/2. */
  lemma StepOfTimeOnlyDerivative(f: Derivative, g: real -> Vector, t: real, y: Vector, h: real)
    requires forall s: real, z: Vector | |z| == |y| :: f(s, z) == Some(g(s))
    requires forall s: real :: |g(s)| == |y|
    ensures Step(f, t, y, h)
         == Some(Add(y, Scale(h / 6.0, Add(Add(g(t), Scale(4.0, g(t + h / 2.0))), g(t + h)))))
  {
    var a, b, c := g(t), g(t + h / 2.0), g(t + h);
    var y2, y3, y4 := Add(y, Scale(h / 2.0, a)), Add(y, Scale(h / 2.0, b)), Add(y, Scale(h, b));
    assert f(t, y) == Some(a);
    assert f(t + h / 2.0, y2) == Some(b);
    assert f(t + h / 2.0, y3) == Some(b);
    assert f(t + h, y4) == Some(c);
    assert Step(f, t, y, h) == Some(Combine(y, a, b, b, c, h));
    CombineEqualMiddleStages(y, a, b, c, h);
  }

  /** Simpson's weights 1, 4, 1 over six sum to one. */
  lemma SimpsonOfConstant(y: Vector, c: Vector, h: real)
    requires |c| == |y|
    ensures Add(y, Scale(h / 6.0, Add(Add(c, Scale(4.0, c)), c))) == Add(y, Scale(h, c))
  {
    var simpson := Add(y, Scale(h / 6.0, Add(Add(c, Scale(4.0, c)), c)));
    forall i | 0 <= i < |y|
      ensures simpson[i] == Add(y, Scale(h, c))[i]
    {
      assert c[i] + 4.0 * c[i] + c[i] == 6.0 * c[i];
      assert h / 6.0 * (6.0 * c[i]) == h * c[i];
    }
  }

  /** With a constant derivative c, each update adds exactly h c. */
  lemma StepOfConstantDerivative(f: Derivative, c: Vector, t: real, y: Vector, h: real)
    requires |c| == |y|
    requires forall s: real, z: Vector | |z| == |y| :: f(s, z) == Some(c)
    ensures Step(f, t, y, h) == Some(Add(y, Scale(h, c)))
  {
    StepOfTimeOnlyDerivative(f, s => c, t, y, h);
    SimpsonOfConstant(y, c, h);
  }

  /** Moving by m h c and then by h c is moving by (m + 1) h c. */
  lemma ScaledStepsAdd(y0: Vector, c: Vector, m: nat, n: nat, h: real)
    requires |c| == |y0| && n == m + 1
    ensures Add(Add(y0, Scale(m as real * h, c)), Scale(h, c)) == Add(y0, Scale(n as real * h, c))
  {
    var lhs := Add(Add(y0, Scale(m as real * h, c)), Scale(h, c));
    forall i | 0 <= i < |y0|
      ensures lhs[i] == Add(y0, Scale(n as real * h, c))[i]
    {
      assert m as real * h * c[i] + h * c[i] == n as real * h * c[i];
    }
  }

  /** With a constant derivative c, n updates move y0 by exactly n h c; in
      particular a zero derivative leaves the value unchanged. */
  lemma {:induction false} EvolveWithConstantDerivative(f: Derivative, c: Vector, h: real, y0: Vector, n: nat)
    requires |c| == |y0|
    requires forall s: real, z: Vector | |z| == |y0| :: f(s, z) == Some(c)
    ensures Evolve(f, h, y0, n) == Some(Add(y0, Scale(n as real * h, c)))
  {
    if n == 0 {
      assert n as real * h == 0.0;
      assert Add(y0, Scale(0.0, c)) == y0;
    } else {
      var m: nat := n - 1;
      EvolveWithConstantDerivative(f, c, h, y0, m);
      var y := Add(y0, Scale(m as real * h, c));
      EvolveLast(f, h, y0, n, y);
      StepOfConstantDerivative(f, c, Clock(m, h), y, h);
      ScaledStepsAdd(y0, c, m, n, h);
    }
  }

  lemma ZeroDerivativeIsStationary(f: Derivative, h: real, y0: Vector, n: nat)
    requires forall s: real, z: Vector | |z| == |y0| :: f(s, z) == Some(Zeros(|y0|))
    ensures Evolve(f, h, y0, n) == Some(y0)
  {
    EvolveWithConstantDerivative(f, Zeros(|y0|), h, y0, n);
    assert Add(y0, Scale(n as real * h, Zeros(|y0|))) == y0;
  }

  /** The degree-4 Taylor polynomial of exp(z). */
  function ExpTaylor4(z: real): real {
    1.0 + z + z * z / 2.0 + z * z * z / 6.0 + z * z * z * z / 24.0
  }

  /** One coordinate of a stage of y' = a y: the slope at x moved by c k. */
  function Stage(a: real, c: real, x: real, k: real): real {
    a * (x + c * k)
  }

  /** One coordinate of the update: the stages weighted 1, 2, 2, 1 over six. */
  function Weighted(h: real, x: real, k1: real, k2: real, k3: real, k4: real): real {
    h / 6.0 * (k1 + 2.0 * k2 + 2.0 * k3 + k4) + x
  }

  /** The scalar identity behind `StepOfLinearDerivative`. */
  lemma LinearStageAlgebra(a: real, h: real, x: real, k1: real, k2: real, k3: real, k4: real)
    requires k1 == a * x
    requires k2 == Stage(a, h / 2.0, x, k1)
    requires k3 == Stage(a, h / 2.0, x, k2)
    requires k4 == Stage(a, h, x, k3)
    ensures Weighted(h, x, k1, k2, k3, k4) == ExpTaylor4(a * h) * x
  {
    var z := a * h;
    assert k2 == k1 * (1.0 + z / 2.0);
    assert k3 == k1 * (1.0 + z / 2.0 + z * z / 4.0);
    assert k4 == k1 * (1.0 + z + z * z / 2.0 + z * z * z / 4.0);
    assert k1 + 2.0 * k2 + 2.0 * k3 + k4 == k1 * (6.0 + 3.0 * z + z * z + z * z * z / 4.0);
    assert h * k1 == z * x;
  }

  /** The stages of y' = a y from y with step h. */
  function LinearStages(a: real, h: real, y: Vector): (k: seq<Vector>)
    ensures |k| == 4 && |k[0]| == |k[1]| == |k[2]| == |k[3]| == |y|
  {
    var k1 := Scale(a, y);
    var k2 := Scale(a, Add(y, Scale(h / 2.0, k1)));
    var k3 := Scale(a, Add(y, Scale(h / 2.0, k2)));
    var k4 := Scale(a, Add(y, Scale(h, k3)));
    [k1, k2, k3, k4]
  }

  lemma StageAt(a: real, c: real, y: Vector, k: Vector, i: nat)
    requires |k| == |y| && i < |y|
    ensures Scale(a, Add(y, Scale(c, k)))[i] == Stage(a, c, y[i], k[i])
  {
  }

  lemma CombineAt(y: Vector, k1: Vector, k2: Vector, k3: Vector, k4: Vector, h: real, i: nat)
    requires |k1| == |k2| == |k3| == |k4| == |y| && i < |y|
    ensures Combine(y, k1, k2, k3, k4, h)[i] == Weighted(h, y[i], k1[i], k2[i], k3[i], k4[i])
  {
  }

  /** Coordinate i of the four linear stages, one in terms of the previous. */
  lemma LinearStagesAt(a: real, h: real, y: Vector, i: nat)
    requires i < |y|
    ensures var k := LinearStages(a, h, y);
            && k[0][i] == a * y[i]
            && k[1][i] == Stage(a, h / 2.0, y[i], k[0][i])
            && k[2][i] == Stage(a, h / 2.0, y[i], k[1][i])
            && k[3][i] == Stage(a, h, y[i], k[2][i])
  {
    var k := LinearStages(a, h, y);
    assert k[1] == Scale(a, Add(y, Scale(h / 2.0, k[0])));
    assert k[2] == Scale(a, Add(y, Scale(h / 2.0, k[1])));
    assert k[3] == Scale(a, Add(y, Scale(h, k[2])));
    StageAt(a, h / 2.0, y, k[0], i);
    StageAt(a, h / 2.0, y, k[1], i);
    StageAt(a, h, y, k[2], i);
  }

  /** The weighted sum of the linear stages at coordinate i. */
  lemma LinearStagesSum(a: real, h: real, y: Vector, i: nat)
    requires i < |y|
    ensures var k := LinearStages(a, h, y);
            Weighted(h, y[i], k[0][i], k[1][i], k[2][i], k[3][i]) == ExpTaylor4(a * h) * y[i]
  {
    LinearStagesAt(a, h, y, i);
    LinearStageAlgebra(a, h, y[i], LinearStages(a, h, y)[0][i], LinearStages(a, h, y)[1][i],
      LinearStages(a, h, y)[2][i], LinearStages(a, h, y)[3][i]);
  }

  lemma LinearCombineAt(a: real, h: real, y: Vector, i: nat)
    requires i < |y|
    ensures var k := LinearStages(a, h, y);
            Combine(y, k[0], k[1], k[2], k[3], h)[i] == ExpTaylor4(a * h) * y[i]
  {
    LinearStagesSum(a, h, y, i);
    var k := LinearStages(a, h, y);
    CombineAt(y, k[0], k[1], k[2], k[3], h, i);
  }

  lemma LinearCombine(a: real, h: real, y: Vector)
    ensures var k := LinearStages(a, h, y);
            Combine(y, k[0], k[1], k[2], k[3], h) == Scale(ExpTaylor4(a * h), y)
  {
    var k := LinearStages(a, h, y);
    var lhs := Combine(y, k[0], k[1], k[2], k[3], h);
    forall i | 0 <= i < |y|
      ensures lhs[i] == Scale(ExpTaylor4(a * h), y)[i]
    {
      LinearCombineAt(a, h, y, i);
    }
  }

  /** For the linear equation y' = a y, one update multiplies y by the degree-4
      Taylor polynomial of exp(a h): the stage arguments are the classic ones. */
  lemma StepOfLinearDerivative(f: Derivative, a: real, t: real, y: Vector, h: real)
    requires forall s: real, z: Vector | |z| == |y| :: f(s, z) == Some(Scale(a, z))
    ensures Step(f, t, y, h) == Some(Scale(ExpTaylor4(a * h), y))
  {
    var k := LinearStages(a, h, y);
    assert f(t, y) == Some(k[0]);
    var y2 := Add(y, Scale(h / 2.0, k[0]));
    assert f(t + h / 2.0, y2) == Some(k[1]);
    var y3 := Add(y, Scale(h / 2.0, k[1]));
    assert f(t + h / 2.0, y3) == Some(k[2]);
    var y4 := Add(y, Scale(h, k[2]));
    assert f(t + h, y4) == Some(k[3]);
    assert Step(f, t, y, h) == Some(Combine(y, k[0], k[1], k[2], k[3], h));
    LinearCombine(a, h, y);
  }

  /** A property of states that is closed under sums and scalar multiples. */
  ghost predicate LinearInvariant(P: Vector -> bool) {
    && (forall x: Vector, y: Vector :: P(x) && P(y) && |x| == |y| ==> P(Add(x, y)))
    && (forall c: real, x: Vector :: P(x) ==> P(Scale(c, x)))
  }

  /** The derivative maps states with the property to rates with the property. */
  ghost predicate Respects(f: Derivative, P: Vector -> bool) {
    forall t: real, y: Vector :: P(y) && f(t, y).Some? ==> P(f(t, y).value)
  }

  lemma StageKeeps(f: Derivative, P: Vector -> bool, t: real, y: Vector, c: real, k: Vector)
    requires LinearInvariant(P) && Respects(f, P) && P(y) && P(k) && |k| == |y|
    ensures P(Add(y, Scale(c, k)))
    ensures Eval(f, t, Add(y, Scale(c, k))).Some? ==> P(Eval(f, t, Add(y, Scale(c, k))).value)
  {
    assert P(Scale(c, k));
  }

  lemma CombineKeeps(P: Vector -> bool, y: Vector, k1: Vector, k2: Vector, k3: Vector, k4: Vector, h: real)
    requires LinearInvariant(P) && |k1| == |k2| == |k3| == |k4| == |y|
    requires P(y) && P(k1) && P(k2) && P(k3) && P(k4)
    ensures P(Combine(y, k1, k2, k3, k4, h))
  {
    assert P(Scale(2.0, k2)) && P(Scale(2.0, k3));
    assert P(Add(k1, Scale(2.0, k2)));
    assert P(Add(Add(k1, Scale(2.0, k2)), Scale(2.0, k3)));
    assert P(Add(Add(Add(k1, Scale(2.0, k2)), Scale(2.0, k3)), k4));
    assert P(Scale(h / 6.0, Add(Add(Add(k1, Scale(2.0, k2)), Scale(2.0, k3)), k4)));
  }

  /** Every update keeps a linear property that the derivative respects: each
      stage point and the final combination are sums of multiples of states
      with the property. (Linear first integrals, such as total momentum, are
      conserved exactly.) */
  lemma StepKeeps(f: Derivative, P: Vector -> bool, t: real, y: Vector, h: real)
    requires LinearInvariant(P) && Respects(f, P) && P(y)
    ensures Step(f, t, y, h).Some? ==> P(Step(f, t, y, h).value)
  {
    match Eval(f, t, y)
    case None =>
    case Some(k1) =>
      StageKeeps(f, P, t + h / 2.0, y, h / 2.0, k1);
      match Eval(f, t + h / 2.0, Add(y, Scale(h / 2.0, k1)))
      case None =>
      case Some(k2) =>
        StageKeeps(f, P, t + h / 2.0, y, h / 2.0, k2);
        match Eval(f, t + h / 2.0, Add(y, Scale(h / 2.0, k2)))
        case None =>
        case Some(k3) =>
          StageKeeps(f, P, t + h, y, h, k3);
          match Eval(f, t + h, Add(y, Scale(h, k3)))
          case None =>
          case Some(k4) =>
            CombineKeeps(P, y, k1, k2, k3, k4, h);
  }

  lemma {:induction false} EvolveKeeps(f: Derivative, P: Vector -> bool, h: real, y0: Vector, n: nat)
    requires LinearInvariant(P) && Respects(f, P) && P(y0)
    ensures Evolve(f, h, y0, n).Some? ==> P(Evolve(f, h, y0, n).value)
  {
    if n > 0 {
      EvolveKeeps(f, P, h, y0, n - 1);
      match Evolve(f, h, y0, n - 1)
      case None =>
      case Some(y) =>
        EvolveLast(f, h, y0, n, y);
        StepKeeps(f, P, Clock(n - 1, h), y, h);
    }
  }
}
