/** The residual estimate is not an upper bound: one iteration on a small system where it stops
    the run below a tolerance the residual does not meet
    (crates/schwarz-precond/src/lsmr/recurrence.rs:109-112 calls the estimate conservative). */
module ResidualEstimate {
  import opened Wrappers
  import opened Sums
  import opened Vectors
  import opened Bidiagonal
  import opened GolubKahan
  import opened Recurrence
  import opened NormalEquations
  import opened Krylov
  import opened LsmrInvariant
  import opened Lsmr

  function Plane(x: real, y: real): seq<real> { [x, y] }

  function Apply(x: seq<real>): seq<real> { if |x| == 2 then Plane(Mul(3.0, x[0]), Mul(4.0, x[0]) + Mul(15.0, x[1])) else x }

  function Adjoint(y: seq<real>): seq<real> { if |y| == 2 then Plane(Mul(3.0, y[0]) + Mul(4.0, y[1]), Mul(15.0, y[1])) else y }

  /** A = [3, 0; 4, 15], unpreconditioned. */
  function Lower(): System { System(2, 2, x => Apply(x), y => Adjoint(y), p => p) }

  const FIRST := Basis([1.0, 0.0], [1.0, 0.0], [1.0, 0.0], 3.0, 1.0)
  const SECOND := Basis([0.0, 1.0], [0.0, 1.0], [0.0, 1.0], 15.0, 4.0)

  lemma InnerPlane(x: seq<real>, y: seq<real>)
    requires |x| == |y| == 2
    ensures Inner(x, y) == x[0] * y[0] + x[1] * y[1]
  {
    DotStep(2, At(x), At(y));
    DotStep(1, At(x), At(y));
    assert Dot(0, At(x), At(y)) == 0.0;
  }

  lemma ScalePlane(a: real, x: real, y: real)
    ensures |Scale(a, [x, y])| == 2 && Scale(a, [x, y])[0] == Mul(a, x) && Scale(a, [x, y])[1] == Mul(a, y)
  {
  }

  lemma CombPlane(a: real, x: seq<real>, b: real, y: seq<real>)
    requires |x| == |y| == 2
    ensures |Comb(a, x, b, y)| == 2
    ensures Comb(a, x, b, y)[0] == Mul(a, x[0]) + Mul(b, y[0]) && Comb(a, x, b, y)[1] == Mul(a, x[1]) + Mul(b, y[1])
  {
  }

  lemma SamePlane(l: seq<real>, r: seq<real>)
    requires |l| == |r| == 2 && l[0] == r[0] && l[1] == r[1]
    ensures l == r
  {
  }

  lemma LinearScalars(k: real, a: real, x: real, b: real, y: real)
    ensures Mul(k, Mul(a, x) + Mul(b, y)) == Mul(a, Mul(k, x)) + Mul(b, Mul(k, y))
  {
  }

  lemma SumScalars(a: real, x: real, x': real, b: real, y: real, y': real)
    ensures (Mul(a, x) + Mul(b, y)) + (Mul(a, x') + Mul(b, y')) == Mul(a, x + x') + Mul(b, y + y')
  {
  }

  lemma ApplyLinear(a: real, x: seq<real>, b: real, y: seq<real>)
    requires |x| == |y| == 2
    ensures Apply(Comb(a, x, b, y)) == Comb(a, Apply(x), b, Apply(y)) && |Apply(x)| == |Apply(y)| == 2
  {
    hide Comb;
    hide Mul;
    CombPlane(a, x, b, y);
    CombPlane(a, Apply(x), b, Apply(y));
    LinearScalars(3.0, a, x[0], b, y[0]);
    LinearScalars(4.0, a, x[0], b, y[0]);
    LinearScalars(15.0, a, x[1], b, y[1]);
    SumScalars(a, Mul(4.0, x[0]), Mul(15.0, x[1]), b, Mul(4.0, y[0]), Mul(15.0, y[1]));
    SamePlane(Apply(Comb(a, x, b, y)), Comb(a, Apply(x), b, Apply(y)));
  }

  lemma AdjointLinear(a: real, x: seq<real>, b: real, y: seq<real>)
    requires |x| == |y| == 2
    ensures Adjoint(Comb(a, x, b, y)) == Comb(a, Adjoint(x), b, Adjoint(y)) && |Adjoint(x)| == |Adjoint(y)| == 2
  {
    hide Comb;
    hide Mul;
    CombPlane(a, x, b, y);
    CombPlane(a, Adjoint(x), b, Adjoint(y));
    LinearScalars(3.0, a, x[0], b, y[0]);
    LinearScalars(4.0, a, x[1], b, y[1]);
    LinearScalars(15.0, a, x[1], b, y[1]);
    SumScalars(a, Mul(3.0, x[0]), Mul(4.0, x[1]), b, Mul(3.0, y[0]), Mul(4.0, y[1]));
    SamePlane(Adjoint(Comb(a, x, b, y)), Comb(a, Adjoint(x), b, Adjoint(y)));
  }

  lemma ApplyAdjoint(x: seq<real>, y: seq<real>)
    requires |x| == |y| == 2
    ensures |Apply(x)| == |Adjoint(y)| == 2 && Inner(Apply(x), y) == Inner(x, Adjoint(y))
  {
    hide Inner;
    InnerPlane(Apply(x), y);
    InnerPlane(x, Adjoint(y));
    AdjointScalars(x[0], x[1], y[0], y[1]);
  }

  lemma AdjointScalars(p: real, q: real, r: real, s: real)
    ensures Mul(3.0, p) * r + (Mul(4.0, p) + Mul(15.0, q)) * s == p * (Mul(3.0, r) + Mul(4.0, s)) + q * Mul(15.0, s)
  {
  }

  lemma ExampleOperators()
    ensures Operators(Lower())
  {
    hide Inner;
    hide Comb;
    hide Apply;
    hide Adjoint;
    var sys := Lower();
    forall a, x, b, y | |x| == 2 && |y| == 2
      ensures LinearAt(sys.apply, 2, a, x, b, y) && LinearAt(sys.adjoint, 2, a, x, b, y) && LinearAt(sys.precond, 2, a, x, b, y)
    {
      ApplyLinear(a, x, b, y);
      AdjointLinear(a, x, b, y);
    }
    forall x, y | |x| == 2 && |y| == 2 ensures AdjointAt(sys, x, y) && SymmetricAt(sys, x, y) && NonnegativeAt(sys, x) {
      ApplyAdjoint(x, y);
      SelfNonneg(x);
      if Inner(x, x) == 0.0 { SelfZero(x); }
    }
    assert |Zeros(2)| == 2;
    forall x | |x| == 2 ensures NonnegativeAt(sys, x) { assert SymmetricAt(sys, x, x); }
  }

  lemma ExampleRuns()
    ensures First(Lower(), [1.0, 0.0], FIRST) && Next(Lower(), FIRST, SECOND)
  {
    hide Inner;
    hide Comb;
    hide Scale;
    InnerPlane(FIRST.u, FIRST.u);
    InnerPlane(FIRST.v, FIRST.p);
    InnerPlane(SECOND.u, SECOND.u);
    InnerPlane(SECOND.v, SECOND.p);
    ScalePlane(1.0, 1.0, 0.0);
    ScalePlane(3.0, 1.0, 0.0);
    CombPlane(3.0, FIRST.u, 4.0, SECOND.u);
    CombPlane(4.0, FIRST.p, 15.0, SECOND.p);
  }

  const HAT := Givens(3.0 / 5.0, 4.0 / 5.0, 5.0)
  const BAR := Givens(5.0 / 13.0, 12.0 / 13.0, 13.0)
  const AFTER := Scalars(-9.0, 4.0 / 5.0, 5.0 / 13.0, 12.0 / 13.0, -36.0 / 13.0)
  const ROTATION := RotationStep(5.0, 13.0, 12.0, 0.0, 15.0 / 13.0)

  lemma ExampleAdvances()
    ensures AdvancedBy(InitialScalars(StepOf(FIRST)), StepOf(SECOND), HAT, BAR, AFTER, ROTATION)
  {
  }

  const QUOTIENTS := Coefficients(3.0 / 169.0, 0.0, 12.0 / 5.0)
  const ITERATE := [3.0 / 169.0, 0.0]
  const RESIDUAL := [160.0 / 169.0, -12.0 / 169.0]

  lemma ExampleQuotients()
    ensures CoefficientsOf(0.0, ROTATION, InitialRotation()) == QUOTIENTS
  {
  }

  /** The first iterate and its residual. */
  lemma ExampleIterate()
    ensures Updated(FirstIterate(Lower(), FIRST), SECOND.v, QUOTIENTS).x == ITERATE
    ensures Comb(1.0, [1.0, 0.0], -1.0, Lower().apply(ITERATE)) == RESIDUAL
  {
    hide Comb;
    CombPlane(1.0, FIRST.v, -0.0, Zeros(2));
    CombPlane(1.0, Zeros(2), 3.0 / 169.0, [1.0, 0.0]);
    assert Comb(1.0, FIRST.v, -0.0, Zeros(2)) == [1.0, 0.0];
    CombPlane(1.0, [1.0, 0.0], -1.0, Lower().apply(ITERATE));
  }

  const START := [1.0, 0.0]
  const LIMIT := Criteria(9.0 / 10.0, 9.0 / 10.0)

  /** The true residual norm of `x` is above `limit`. */
  ghost predicate Exceeds(sys: System, b: seq<real>, x: seq<real>, limit: real) {
    && Operators(sys) && |b| == sys.m && |x| == sys.n && ResidualEnergy(sys, b, x) > Mul(limit, limit)
  }

  /** `x` is what the first iteration of the run leaves. */
  ghost predicate FirstGives(sys: System, s: Basis, t: Basis, r: RotationStep, x: seq<real>) {
    && |s.v| == |t.v| == sys.n
    && Updated(FirstIterate(sys, s), t.v, CoefficientsOf(0.0, r, InitialRotation())).x == x
  }

  /** One iteration of a run with clear guards: the residual test stops it at a tolerance of nine
      tenths, on an estimate of four fifths, while the residual norm exceeds nine tenths. */
  lemma EstimateUndershoots(aNorm: real, minPositive: real)
    requires minPositive > 0.0
    ensures Operators(Lower()) && Run(Lower(), START, [FIRST, SECOND])
    ensures AdvancedBy(InitialScalars(StepOf(FIRST)), StepOf(SECOND), HAT, BAR, AFTER, ROTATION)
    ensures GuardsClear(0.0, ROTATION, InitialRotation()) && FirstGives(Lower(), FIRST, SECOND, ROTATION, ITERATE)
    ensures Inner(START, START) == 1.0 && CriteriaOf(1.0, 9.0 / 10.0) == LIMIT
    ensures Stopping(LIMIT, aNorm, Abs(AFTER.phiBar), Abs(AFTER.zetaBar), minPositive) == Some(ResidualTolerance)
    ensures Exceeds(Lower(), START, ITERATE, LIMIT.absTol)
  {
    hide Inner;
    hide Comb;
    hide Operators;
    hide Run;
    hide AdvancedBy;
    hide Exceeds;
    hide Apply;
    hide Adjoint;
    hide Updated;
    ExampleOperators();
    ExampleRuns();
    ExampleRun();
    ExampleAdvances();
    ExampleQuotients();
    ExampleIterate();
    InnerPlane(START, START);
    ExampleExceeds();
  }

  lemma ExampleExceeds()
    requires Operators(Lower())
    ensures Exceeds(Lower(), START, ITERATE, LIMIT.absTol)
  {
    hide Inner;
    hide Comb;
    hide Operators;
    ExampleIterate();
    InnerPlane(RESIDUAL, RESIDUAL);
  }

  lemma ExampleRun()
    requires First(Lower(), START, FIRST) && Next(Lower(), FIRST, SECOND)
    ensures Run(Lower(), START, [FIRST, SECOND])
  {
    hide Next;
    hide First;
    var h := [FIRST, SECOND];
    forall k: nat | k < |h| ensures StepAt(Lower(), h, k) {
      if k == 1 { assert Next(Lower(), h[0], h[1]); }
    }
  }
}
