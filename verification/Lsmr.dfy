/** The LSMR driver, cold and warm started (crates/schwarz-precond/src/lsmr.rs:205-371). */
module Lsmr {
  import opened Wrappers
  import opened Sums
  import opened Vectors
  import opened VectorKernels
  import opened Bidiagonal
  import opened GolubKahan
  import opened ModifiedGolubKahans
  import opened Recurrence
  import opened NormalEquations
  import opened Krylov
  import opened Attainables
  import opened LsmrInvariant
  import opened StalenessRuns

  datatype StopReason =
    | ZeroRhs | InitialNormalEquationResidualZero | ResidualTolerance | NormalEquationTolerance
    | WarmStartExact | MaxIterations | Escalated

  datatype LsmrResult = LsmrResult(x: seq<real>, converged: bool, iterations: nat, residualNorm: real,
                                   normalEqResidual: real, stopReason: StopReason)

  /** The constants of the number format, and its square root. */
  datatype Machine = Machine(epsilon: real, minPositive: real, sqrt: real -> real) {
    ghost predicate Valid() { epsilon >= 0.0 && minPositive > 0.0 && IsSqrt(sqrt) }
  }

  datatype Criteria = Criteria(absTol: real, relTol: real)

  function CriteriaOf(referenceNorm: real, tol: real): Criteria { Criteria(tol * referenceNorm, tol) }

  /** The outcome of the convergence test, `None` to continue. */
  function Stopping(c: Criteria, aNorm: real, residual: real, normar: real, minPositive: real): Option<StopReason>
    requires minPositive > 0.0
  {
    if residual <= c.absTol then Some(ResidualTolerance)
    else if normar / Product(Max(aNorm, minPositive), Max(residual, minPositive)) <= c.relTol then Some(NormalEquationTolerance)
    else None
  }

  function Product(x: real, y: real): (z: real)
    requires x > 0.0 && y > 0.0
    ensures z > 0.0
  {
    PositiveProduct(x, y);
    x * y
  }

  /** The normal-equation test: within `relTol` of the operator norm times the residual norm,
      both kept off zero. */
  ghost predicate NormalWithin(c: Criteria, aNorm: real, residual: real, normar: real, minPositive: real)
    requires minPositive > 0.0
  {
    normar <= Mul(c.relTol, Product(Max(aNorm, minPositive), Max(residual, minPositive)))
  }

  lemma QuotientWithin(x: real, den: real, c: real)
    requires den > 0.0
    ensures x / den <= c <==> x <= Mul(c, den)
  {
    var q := x / den;
    assert q * den == x;
    if q <= c { OrderTimes(q, c, den); }
    if q > c { OrderTimes(c, q, den); StrictTimes(c, q, den); }
  }

  lemma OrderTimes(x: real, y: real, k: real)
    requires x <= y && k > 0.0
    ensures x * k <= y * k
  {
    NonnegProduct(y - x, k);
  }

  lemma StrictTimes(x: real, y: real, k: real)
    requires x < y && k > 0.0
    ensures x * k < y * k
  {
    PositiveProduct(y - x, k);
  }

  /** What each outcome of the test certifies. */
  lemma StoppingReason(c: Criteria, aNorm: real, residual: real, normar: real, minPositive: real)
    requires minPositive > 0.0
    ensures var s := Stopping(c, aNorm, residual, normar, minPositive); var n := NormalWithin(c, aNorm, residual, normar, minPositive);
      && (s == Some(ResidualTolerance) <==> residual <= c.absTol)
      && (s == Some(NormalEquationTolerance) <==> residual > c.absTol && n)
      && (s.None? <==> residual > c.absTol && !n)
  {
    QuotientWithin(normar, Product(Max(aNorm, minPositive), Max(residual, minPositive)), c.relTol);
  }

  lemma VanishedStops(c: Criteria, aNorm: real, residual: real, minPositive: real)
    requires c.relTol >= 0.0 && minPositive > 0.0
    ensures NormalWithin(c, aNorm, residual, 0.0, minPositive)
  {
    NonnegProduct(c.relTol, Product(Max(aNorm, minPositive), Max(residual, minPositive)));
  }

  /** The squared Frobenius norm of the bidiagonal matrix built so far. */
  ghost function Frobenius(h: seq<Basis>): real {
    if h == [] then 0.0
    else if |h| == 1 then h[0].alpha * h[0].alpha
    else Frobenius(h[..|h| - 1]) + (h[|h| - 1].alpha * h[|h| - 1].alpha + h[|h| - 1].beta * h[|h| - 1].beta)
  }

  lemma FrobeniusPush(h: seq<Basis>, t: Basis)
    requires h != []
    ensures Frobenius(h + [t]) == Frobenius(h) + (t.alpha * t.alpha + t.beta * t.beta)
  {
    assert (h + [t])[..|h|] == h;
  }

  class ConvergenceState {
    const criteria: Criteria
    var aNormSq: real

    constructor (criteria: Criteria, alpha1: real)
      ensures this.criteria == criteria && aNormSq == alpha1 * alpha1
    {
      this.criteria := criteria;
      aNormSq := alpha1 * alpha1;
    }

    method Observe(s: BidiagStep)
      modifies this
      ensures aNormSq == old(aNormSq) + (s.alpha * s.alpha + s.beta * s.beta)
    {
      aNormSq := aNormSq + (s.alpha * s.alpha + s.beta * s.beta);
    }

    /** The residual test first, then the normal equations; `None` when both fail. */
    method Check(st: Scalars, mach: Machine) returns (stop: Option<StopReason>)
      requires mach.Valid()
      ensures stop == Some(ResidualTolerance) <==> Abs(st.phiBar) <= criteria.absTol
      ensures stop == Some(NormalEquationTolerance) <==>
              Abs(st.phiBar) > criteria.absTol
              && NormalWithin(criteria, mach.sqrt(aNormSq), Abs(st.phiBar), Abs(st.zetaBar), mach.minPositive)
      ensures stop.None? <==>
              Abs(st.phiBar) > criteria.absTol
              && !NormalWithin(criteria, mach.sqrt(aNormSq), Abs(st.phiBar), Abs(st.zetaBar), mach.minPositive)
    {
      StoppingReason(criteria, mach.sqrt(aNormSq), Abs(st.phiBar), Abs(st.zetaBar), mach.minPositive);
      stop := Stopping(criteria, mach.sqrt(aNormSq), Abs(st.phiBar), Abs(st.zetaBar), mach.minPositive);
    }
  }

  /** Every update of the run `h` was taken in full. */
  ghost predicate Clear(mach: Machine, h: seq<Basis>) { AllClear(mach.epsilon, Stages(mach.sqrt, h)) }

  /** The reference of the relative normal-equation residual; 1 when there was nothing to run. */
  ghost function ZetaScale(mach: Machine, h: seq<Basis>): (z: real)
    requires mach.Valid()
    ensures z > 0.0
  {
    if h == [] then 1.0 else Max(Abs(Mul(h[0].alpha, h[0].beta)), mach.minPositive)
  }

  ghost function FinalAlpha(h: seq<Basis>): real { if h == [] then 0.0 else h[|h| - 1].alpha }

  /** The mutable pieces of one run, and the invariant tying them to the textbook run. */
  ghost predicate Running(gk: ModifiedGolubKahan, rec: LsmrRecurrenceState, sol: SolutionState, prev: RotationStep,
                          z: Directions, mach: Machine)
    reads gk, gk.u, gk.v, gk.pTilde, gk.ring, rec, sol.x, sol.h, sol.hBar
  {
    && gk.Valid() && sol.Valid() && {sol.x, sol.h, sol.hBar} !! {gk.u, gk.v, gk.pTilde}
    && |gk.hist| > 0 && Stages(mach.sqrt, gk.hist)[|gk.hist| - 1] == Stage(rec.State(), prev)
    && Invariant(gk.sys, gk.b, gk.hist, rec.State(), prev, sol.Value(), z, Clear(mach, gk.hist))
    && (mach.epsilon == 0.0 ==> Clear(mach, gk.hist))
  }

  /** One more triple: the run stays clear exactly when this step's guards were. */
  lemma ClearGrows(sys: System, b: seq<real>, h: seq<Basis>, t: Basis, st: Scalars, prev: RotationStep, it: Iterate, z: Directions,
                   mach: Machine, hat: Givens, bar: Givens, st': Scalars, r: RotationStep)
    requires mach.Valid() && Invariant(sys, b, h, st, prev, it, z, Clear(mach, h)) && h != [] && h[|h| - 1].alpha > 0.0
    requires Stages(mach.sqrt, h)[|h| - 1] == Stage(st, prev) && Stage(st', r) == Advanced(mach.sqrt, st, StepOf(t))
    requires AdvancedBy(st, StepOf(t), hat, bar, st', r)
    ensures Stages(mach.sqrt, h + [t])[|h|] == Stage(st', r)
    ensures Clear(mach, h + [t]) <==> Clear(mach, h) && GuardsClear(mach.epsilon, r, prev)
    ensures mach.epsilon == 0.0 ==> GuardsClear(mach.epsilon, r, prev)
  {
    hide Advanced;
    hide Stages;
    hide AllClear;
    hide GuardsClear;
    hide Geometry;
    hide Tracks;
    hide Mul;
    StagesPush(mach.sqrt, h, t);
    ClearPush(mach.epsilon, Stages(mach.sqrt, h), Stage(st', r));
    NoGuard(st, prev, StepOf(t), hat, bar, st', r);
  }

  /** One pass of the loop up to its convergence test. */
  method Iteration(gk: ModifiedGolubKahan, rec: LsmrRecurrenceState, sol: SolutionState, conv: ConvergenceState,
                   prev: RotationStep, mach: Machine, ghost z: Directions)
    returns (curr: RotationStep, ghost z': Directions)
    requires mach.Valid() && gk.sqrt == mach.sqrt && Running(gk, rec, sol, prev, z, mach)
    requires |gk.hist| > 0 && gk.hist[|gk.hist| - 1].alpha > 0.0
    modifies gk`alpha, gk`betaPrevInv, gk`hist, gk.u, gk.v, gk.pTilde, gk.ring, rec, sol.x, sol.h, sol.hBar, conv
    ensures Running(gk, rec, sol, curr, z', mach)
    ensures |gk.hist| == old(|gk.hist|) + 1 && gk.hist[..old(|gk.hist|)] == old(gk.hist)
    ensures old(conv.aNormSq == Frobenius(gk.hist)) ==> conv.aNormSq == Frobenius(gk.hist)
    ensures Abs(rec.phiBar) <= Abs(old(rec.phiBar)) && Abs(rec.zetaBar) <= Abs(old(rec.zetaBar))
    ensures gk.hist[|gk.hist| - 1].alpha == 0.0 ==> rec.zetaBar == 0.0
  {
    hide NormalResidual;
    hide Operators;
    hide Inner;
    hide Run;
    hide Invariant;
    hide Advanced;
    hide Stages;
    hide Clear;
    hide AdvancedBy;
    hide GuardsClear;
    hide WindowRings.WindowRing.Valid;
    hide Mul;
    hide Guarded;
    hide Frobenius;
    ghost var h, st, it := gk.hist, rec.State(), sol.Value();
    InvariantSizes(gk.sys, gk.b, h, st, prev, it, z, Clear(mach, h));
    var step := gk.Step();
    ghost var t := gk.hist[|gk.hist| - 1];
    assert gk.hist == h + [t];
    FrobeniusPush(h, t);
    conv.Observe(step.value);
    ghost var hat, bar;
    curr, hat, bar := rec.Step(step.value, mach.sqrt);
    InvariantStep(gk.sys, gk.b, h, t, st, prev, it, z, Clear(mach, h), hat, bar, rec.State(), curr, mach.epsilon);
    ClearGrows(gk.sys, gk.b, h, t, st, prev, it, z, mach, hat, bar, rec.State(), curr);
    EstimatesNeverIncrease(st, StepOf(t), hat, bar, rec.State(), curr);
    sol.Update(gk.v[..], curr, prev, mach.epsilon);
    z' := NextDirections(z, t, hat, bar);
    LastCollapses(gk.sys, gk.b, gk.hist, rec.State(), curr, sol.Value(), z', Clear(mach, gk.hist));
  }

  lemma InvariantSizes(sys: System, b: seq<real>, h: seq<Basis>, st: Scalars, prev: RotationStep, it: Iterate, z: Directions, clear: bool)
    requires Invariant(sys, b, h, st, prev, it, z, clear)
    ensures Run(sys, b, h) && |b| == |z.w| == sys.m && |z.d| == |it.x| == |it.h| == |it.hBar| == sys.n
  {
    hide Tracks;
    hide Run;
    hide Located;
    hide UnitDirections;
  }

  lemma LastCollapses(sys: System, b: seq<real>, h: seq<Basis>, st: Scalars, prev: RotationStep, it: Iterate, z: Directions, clear: bool)
    requires Invariant(sys, b, h, st, prev, it, z, clear)
    ensures h[|h| - 1].alpha == 0.0 ==> st.zetaBar == 0.0
  {
  }

  /** What a result's two numbers say about its `x`: the residual norm is a lower bound and, with
      every guard clear, the true norm exactly when the right vector has vanished; the
      normal-equation residual is then the energy norm of A^T (b - A x) over `zeta0`. */
  ghost predicate Reports(sys: System, b: seq<real>, res: LsmrResult, zeta0: real, clear: bool, alpha: real) {
    && Operators(sys) && |b| == sys.m && |res.x| == sys.n && zeta0 > 0.0
    && Mul(res.residualNorm, res.residualNorm) <= ResidualEnergy(sys, b, res.x)
    && (clear ==> NormalEnergy(sys, b, res.x) == Mul(Mul(res.normalEqResidual, zeta0), Mul(res.normalEqResidual, zeta0)))
    && (clear && res.iterations > 0 ==> ExactOnBreakdown(sys, b, alpha, res.residualNorm, res.x))
  }

  /** Neither estimate ever grows along the stages. */
  ghost predicate Falls(g: seq<Stage>) { forall j, k :: 0 <= j <= k < |g| ==> FallsAt(g, j, k) }

  ghost predicate FallsAt(g: seq<Stage>, j: nat, k: nat)
    requires j <= k < |g|
  {
    Abs(g[k].st.phiBar) <= Abs(g[j].st.phiBar) && Abs(g[k].st.zetaBar) <= Abs(g[j].st.zetaBar)
  }

  lemma AdvancedFalls(sqrt: real -> real, st: Scalars, s: BidiagStep)
    requires IsSqrt(sqrt)
    ensures Abs(Advanced(sqrt, st, s).st.phiBar) <= Abs(st.phiBar) && Abs(Advanced(sqrt, st, s).st.zetaBar) <= Abs(st.zetaBar)
  {
    hide Mul;
    hide Rotates;
    hide MakeGivens;
    var hat := MakeGivens(sqrt, st.alphaBar, s.beta);
    var bar := MakeGivens(sqrt, Mul(st.cBar, hat.r), Mul(hat.s, s.alpha));
    GivensRotates(sqrt, st.alphaBar, s.beta);
    GivensRotates(sqrt, Mul(st.cBar, hat.r), Mul(hat.s, s.alpha));
    var next := Advanced(sqrt, st, s);
    EstimatesNeverIncrease(st, s, hat, bar, next.st, next.r);
  }

  lemma {:induction false} StagesFall(sqrt: real -> real, h: seq<Basis>)
    requires IsSqrt(sqrt)
    ensures Falls(Stages(sqrt, h))
  {
    hide Advanced;
    if |h| > 1 {
      var g := h[..|h| - 1];
      StagesFall(sqrt, g);
      var p, all := Stages(sqrt, g), Stages(sqrt, h);
      AdvancedFalls(sqrt, p[|p| - 1].st, StepOf(h[|h| - 1]));
      forall j, k | 0 <= j <= k < |all| ensures FallsAt(all, j, k) {
        if k < |p| { assert FallsAt(p, j, k); } else if j < |p| { assert FallsAt(p, j, |p| - 1); }
      }
    }
  }

  /** What a result's numbers are: the two estimates of the last stage of the run `h`, none of
      them larger than at any stage before, and an `x` no further than the run can reach. */
  ghost predicate Readings(sys: System, mach: Machine, h: seq<Basis>, res: LsmrResult)
    requires mach.Valid()
  {
    && Attainable(sys, res.x) && Falls(Stages(mach.sqrt, h))
    && if h == [] then res.residualNorm == 0.0 && res.normalEqResidual == 0.0
       else
         var st := Stages(mach.sqrt, h)[|h| - 1].st;
         res.residualNorm == Abs(st.phiBar) && res.normalEqResidual == Abs(st.zetaBar) / ZetaScale(mach, h)
  }

  lemma ReadingsFromInvariant(sys: System, b: seq<real>, h: seq<Basis>, st: Scalars, prev: RotationStep, it: Iterate, z: Directions,
                              clear: bool, mach: Machine, res: LsmrResult)
    requires mach.Valid() && Operators(sys) && Invariant(sys, b, h, st, prev, it, z, clear) && h != []
    requires Stages(mach.sqrt, h)[|h| - 1] == Stage(st, prev) && res.x == it.x
    requires res.residualNorm == Abs(st.phiBar) && res.normalEqResidual == Abs(st.zetaBar) / ZetaScale(mach, h)
    ensures Readings(sys, mach, h, res)
  {
    hide Operators;
    hide Inner;
    hide Run;
    hide Stages;
    hide Falls;
    hide Attainable;
    hide Tracks;
    hide UnitDirections;
    hide Spanned;
    hide Mul;
    SpannedPrefix(sys.n, h, it.x);
    RunIsAttainable(sys, b, h, it.x);
    StagesFall(mach.sqrt, h);
  }

  lemma StartReadings(sys: System, b: seq<real>, s: Basis, mach: Machine, res: LsmrResult)
    requires mach.Valid() && First(sys, b, s) && s.alpha == 0.0
    requires res.x == Zeros(sys.n) && res.residualNorm == mach.sqrt(Inner(b, b)) && res.normalEqResidual == 0.0
    ensures Readings(sys, mach, [s], res)
  {
    hide Inner;
    hide Attainable;
    hide Falls;
    AttainableZeros(sys);
    StagesFall(mach.sqrt, [s]);
    FirstStage(mach.sqrt, s, mach.epsilon);
    FirstNorm(sys, b, s, mach.sqrt);
    ZeroTimes(s.alpha, s.beta);
    assert Stages(mach.sqrt, [s])[0].st == InitialScalars(StepOf(s));
    assert Abs(s.beta) == s.beta && 0.0 / ZetaScale(mach, [s]) == 0.0;
  }

  /** The first scale is the norm of the right-hand side. */
  lemma FirstNorm(sys: System, b: seq<real>, s: Basis, sqrt: real -> real)
    requires First(sys, b, s) && IsSqrt(sqrt)
    ensures sqrt(Inner(b, b)) == s.beta
  {
    hide Inner;
    InnerScale(s.beta, s.u, b);
    InnerComm(s.u, b);
    InnerScale(s.beta, s.u, s.u);
    InnerZeros(sys.m, Zeros(sys.m));
    SelfNonneg(b);
    RootOfSquare(sqrt, s.beta, Inner(b, b), Inner(s.u, s.u));
  }

  lemma RootOfSquare(sqrt: real -> real, beta: real, e: real, u: real)
    requires IsSqrt(sqrt) && beta >= 0.0 && e == beta * (beta * u) && e >= 0.0 && (if beta > 0.0 then u == 1.0 else u == 0.0)
    ensures sqrt(e) == beta
  {
    var r := sqrt(e);
    assert r >= 0.0 && r * r == e;
    assert e == beta * beta;
    EqualSquares(r, beta, e);
  }

  lemma ExactReadings(sys: System, mach: Machine, res: LsmrResult)
    requires mach.Valid() && res.x == Zeros(sys.n) && res.residualNorm == 0.0 && res.normalEqResidual == 0.0
    ensures Readings(sys, mach, [], res)
  {
    hide Attainable;
    AttainableZeros(sys);
  }

  lemma AbsSquare(x: real)
    ensures Mul(Abs(x), Abs(x)) == Mul(x, x)
  {
  }

  lemma RatioBack(x: real, y: real)
    requires y > 0.0
    ensures Mul(x / y, y) == x
  {
  }

  /** The estimates of the invariant, read off into a result. */
  lemma ReportsFromInvariant(sys: System, b: seq<real>, h: seq<Basis>, st: Scalars, prev: RotationStep, it: Iterate,
                             z: Directions, clear: bool, zeta0: real, res: LsmrResult)
    requires Operators(sys) && zeta0 > 0.0 && Invariant(sys, b, h, st, prev, it, z, clear)
    requires res.x == it.x && res.residualNorm == Abs(st.phiBar) && res.normalEqResidual == Abs(st.zetaBar) / zeta0
    requires res.iterations + 1 == |h|
    ensures Reports(sys, b, res, zeta0, clear, FinalAlpha(h))
  {
    hide Operators;
    hide Inner;
    hide Mul;
    hide Geometry;
    hide Tracks;
    hide ResidualEnergy;
    hide NormalEnergy;
    GeometrySizes(sys, b, h, st, it, z);
    EstimatesMeasure(sys, b, h, st, prev, it, z, clear);
    AbsSquare(st.phiBar);
    AbsSquare(st.zetaBar);
    RatioBack(Abs(st.zetaBar), zeta0);
  }

  /** The preconditioner does not see A^T b. */
  ghost predicate Unseen(sys: System, b: seq<real>) {
    |sys.adjoint(b)| == sys.n && sys.precond(sys.adjoint(b)) == Zeros(sys.n)
  }

  /** `x = 0` where the preconditioner does not see A^T b. */
  lemma ZeroReports(sys: System, b: seq<real>, res: LsmrResult, zeta0: real, alpha: real)
    requires Operators(sys) && |b| == sys.m && zeta0 > 0.0 && Unseen(sys, b) && res.iterations == 0
    requires res.x == Zeros(sys.n) && Mul(res.residualNorm, res.residualNorm) == Inner(b, b) && res.normalEqResidual == 0.0
    ensures Reports(sys, b, res, zeta0, true, alpha)
  {
    hide Operators;
    hide Inner;
    ApplyZeros(sys);
    SubtractZeros(b);
    InnerZeros(sys.n, sys.adjoint(b));
  }

  lemma FirstVanishes(sys: System, b: seq<real>, s: Basis)
    requires Operators(sys) && First(sys, b, s) && s.alpha == 0.0
    ensures Unseen(sys, b)
  {
    hide Operators;
    hide Inner;
    PrecondScale(sys, s.beta, sys.adjoint(s.u));
    AdjointScale(sys, s.beta, s.u);
    ZeroScale(s.v);
    ScaleZeros(s.beta, sys.n);
  }

  ghost predicate Converged(r: StopReason) {
    r.ResidualTolerance? || r.NormalEquationTolerance? || r.InitialNormalEquationResidualZero?
  }

  /** How a run may end. */
  ghost predicate Outcome(r: LsmrResult, criteria: Criteria, maxiter: nat, stalled: bool) {
    && r.iterations <= maxiter && (r.stopReason.MaxIterations? ==> r.iterations == maxiter)
    && (r.converged <==> Converged(r.stopReason))
    && (r.stopReason.ResidualTolerance? ==> r.residualNorm <= criteria.absTol)
    && (r.stopReason.Escalated? ==> stalled)
    && !r.stopReason.ZeroRhs? && !r.stopReason.WarmStartExact?
  }

  /** What stopping on the normal equations certifies: the estimate of the normal-equation
      residual is within tolerance of the two norms. */
  ghost predicate NormalTolerance(r: LsmrResult, c: Criteria, zeta0: real, h: seq<Basis>, mach: Machine)
    requires mach.Valid()
  {
    r.stopReason.NormalEquationTolerance? ==>
      NormalWithin(c, mach.sqrt(Frobenius(h)), r.residualNorm, Mul(r.normalEqResidual, zeta0), mach.minPositive)
  }

  ghost predicate Stalled(escalation: StalenessRun?)
    reads escalation
  {
    escalation != null && Trailing(escalation.policy.threshold, escalation.observed) >= escalation.policy.window
  }

  /** The tests after an iteration; `None` to continue, and then alpha is positive. */
  method AfterIteration(gk: ModifiedGolubKahan, rec: LsmrRecurrenceState, sol: SolutionState, conv: ConvergenceState,
                        curr: RotationStep, itn: nat, maxiter: nat, mach: Machine, escalation: StalenessRun?,
                        ghost z: Directions)
    returns (done: Option<LsmrResult>)
    requires |gk.hist| == itn + 1
    requires mach.Valid() && Running(gk, rec, sol, curr, z, mach) && conv.criteria.relTol >= 0.0 && 0 < itn <= maxiter
    requires (FinalAlpha(gk.hist) == 0.0 ==> rec.zetaBar == 0.0) && rec.zeta0 == ZetaScale(mach, gk.hist)
    requires conv.aNormSq == Frobenius(gk.hist)
    requires escalation != null ==> escalation.Valid()
    modifies escalation
    ensures escalation != null ==> escalation.Valid()
    ensures done.Some? ==> Reports(gk.sys, gk.b, done.value, ZetaScale(mach, gk.hist), Clear(mach, gk.hist), FinalAlpha(gk.hist))
    ensures done.Some? ==> Readings(gk.sys, mach, gk.hist, done.value)
    ensures done.Some? ==> Outcome(done.value, conv.criteria, maxiter, Stalled(escalation)) && done.value.iterations == itn
    ensures done.Some? ==> NormalTolerance(done.value, conv.criteria, ZetaScale(mach, gk.hist), gk.hist, mach)
    ensures done.Some? ==> !done.value.stopReason.InitialNormalEquationResidualZero?
    ensures done.None? ==> FinalAlpha(gk.hist) > 0.0
  {
    hide Operators;
    hide Inner;
    hide Run;
    hide Invariant;
    hide Stages;
    hide Clear;
    hide Reports;
    hide Readings;
    hide WindowRings.WindowRing.Valid;
    hide Mul;
    hide NormalWithin;
    hide Frobenius;
    hide Trailing;
    ghost var st, h := rec.State(), gk.hist;
    InvariantSizes(gk.sys, gk.b, h, st, curr, sol.Value(), z, Clear(mach, h));
    var stop := conv.Check(rec.State(), mach);
    if stop.Some? {
      var r := LsmrResult(sol.x[..], true, itn, rec.ResidualEstimate(), rec.RelativeNormalEqResidual(), stop.value);
      RatioBack(Abs(st.zetaBar), rec.zeta0);
      ReportsFromInvariant(gk.sys, gk.b, h, st, curr, sol.Value(), z, Clear(mach, h), rec.zeta0, r);
      ReadingsFromInvariant(gk.sys, gk.b, h, st, curr, sol.Value(), z, Clear(mach, h), mach, r);
      return Some(r);
    }
    VanishedStops(conv.criteria, mach.sqrt(conv.aNormSq), Abs(st.phiBar), mach.minPositive);
    LastNonneg(gk.sys, gk.b, gk.hist);
    if escalation != null {
      var escalate := escalation.ShouldEscalate(rec.RelativeNormalEqResidual());
      if escalate {
        var r := LsmrResult(sol.x[..], false, itn, rec.ResidualEstimate(), rec.RelativeNormalEqResidual(), Escalated);
        ReportsFromInvariant(gk.sys, gk.b, h, st, curr, sol.Value(), z, Clear(mach, h), rec.zeta0, r);
        ReadingsFromInvariant(gk.sys, gk.b, h, st, curr, sol.Value(), z, Clear(mach, h), mach, r);
        return Some(r);
      }
    }
    done := None;
  }

  /** The result when the budget is spent. */
  method Exhausted(gk: ModifiedGolubKahan, rec: LsmrRecurrenceState, sol: SolutionState, prev: RotationStep, maxiter: nat,
                   mach: Machine, ghost z: Directions)
    returns (r: LsmrResult)
    requires mach.Valid() && Running(gk, rec, sol, prev, z, mach)
    requires |gk.hist| == maxiter + 1 && rec.zeta0 == ZetaScale(mach, gk.hist)
    ensures r.stopReason.MaxIterations? && r.iterations == maxiter && !r.converged
    ensures Reports(gk.sys, gk.b, r, ZetaScale(mach, gk.hist), Clear(mach, gk.hist), FinalAlpha(gk.hist))
    ensures Readings(gk.sys, mach, gk.hist, r)
  {
    hide Operators;
    hide Inner;
    hide Run;
    hide Invariant;
    hide Stages;
    hide Clear;
    hide Reports;
    hide Readings;
    hide Simulates;
    hide WindowRings.WindowRing.Valid;
    hide Mul;
    r := LsmrResult(sol.x[..], false, maxiter, rec.ResidualEstimate(), rec.RelativeNormalEqResidual(), MaxIterations);
    InvariantSizes(gk.sys, gk.b, gk.hist, rec.State(), prev, sol.Value(), z, Clear(mach, gk.hist));
    ReportsFromInvariant(gk.sys, gk.b, gk.hist, rec.State(), prev, sol.Value(), z, Clear(mach, gk.hist), rec.zeta0, r);
    ReadingsFromInvariant(gk.sys, gk.b, gk.hist, rec.State(), prev, sol.Value(), z, Clear(mach, gk.hist), mach, r);
  }

  /** The loop. */
  method LsmrLoop(gk: ModifiedGolubKahan, rec: LsmrRecurrenceState, sol: SolutionState, conv: ConvergenceState,
                  maxiter: nat, mach: Machine, escalation: StalenessRun?, ghost z0: Directions)
    returns (r: LsmrResult)
    requires mach.Valid() && gk.sqrt == mach.sqrt && Running(gk, rec, sol, InitialRotation(), z0, mach)
    requires |gk.hist| == 1 && conv.criteria.relTol >= 0.0 && rec.zeta0 == ZetaScale(mach, gk.hist) && gk.hist[0].alpha > 0.0
    requires conv.aNormSq == Frobenius(gk.hist)
    requires escalation != null ==> escalation.Valid()
    modifies gk, gk.u, gk.v, gk.pTilde, gk.ring, rec, sol.x, sol.h, sol.hBar, conv, escalation
    ensures gk.Valid() && |gk.hist| == r.iterations + 1 && gk.hist[0] == old(gk.hist[0])
    ensures Reports(gk.sys, gk.b, r, ZetaScale(mach, gk.hist), Clear(mach, gk.hist), FinalAlpha(gk.hist))
    ensures Readings(gk.sys, mach, gk.hist, r)
    ensures Outcome(r, conv.criteria, maxiter, Stalled(escalation)) && !r.stopReason.InitialNormalEquationResidualZero?
    ensures NormalTolerance(r, conv.criteria, ZetaScale(mach, gk.hist), gk.hist, mach)
    ensures mach.epsilon == 0.0 ==> Clear(mach, gk.hist)
  {
    hide Stalled;
    hide Operators;
    hide Inner;
    hide Run;
    hide Invariant;
    hide Stages;
    hide Clear;
    hide Reports;
    hide Readings;
    hide Simulates;
    hide WindowRings.WindowRing.Valid;
    hide Mul;
    hide NormalWithin;
    hide Trailing;
    ghost var z := z0;
    var prev := InitialRotation();
    for itn := 0 to maxiter
      invariant Running(gk, rec, sol, prev, z, mach) && |gk.hist| == itn + 1 && gk.hist[itn].alpha > 0.0
      invariant gk.hist[0] == old(gk.hist[0])
      invariant conv.aNormSq == Frobenius(gk.hist)
      invariant escalation != null ==> escalation.Valid()
    {
      ghost var was := gk.hist;
      var curr;
      curr, z := Iteration(gk, rec, sol, conv, prev, mach, z);
      assert gk.hist[0] == gk.hist[..|was|][0] == was[0];
      var done := AfterIteration(gk, rec, sol, conv, curr, itn + 1, maxiter, mach, escalation, z);
      if done.Some? {
        r := done.value;
        return;
      }
      prev := curr;
    }
    r := Exhausted(gk, rec, sol, prev, maxiter, mach, z);
  }

  /** `lsmr_from_bidiag`. A step with alpha zero stops in its own iteration, so every further
      step starts from a positive alpha; the run ends within `maxiter` iterations. */
  method LsmrFromBidiag(gk: ModifiedGolubKahan, step1: BidiagStep, rhsNorm: real, criteria: Criteria, maxiter: nat,
                        mach: Machine, escalation: StalenessRun?)
    returns (r: LsmrResult)
    requires mach.Valid() && criteria.relTol >= 0.0 && gk.Valid() && gk.sqrt == mach.sqrt
    requires |gk.hist| == 1 && step1 == StepOf(gk.hist[0]) && rhsNorm == mach.sqrt(Inner(gk.b, gk.b))
    requires escalation != null ==> escalation.Valid()
    modifies gk, gk.u, gk.v, gk.pTilde, gk.ring, escalation
    ensures gk.Valid() && |gk.hist| == r.iterations + 1 && gk.hist[0] == old(gk.hist[0])
    ensures Reports(gk.sys, gk.b, r, ZetaScale(mach, gk.hist), Clear(mach, gk.hist), FinalAlpha(gk.hist))
    ensures Readings(gk.sys, mach, gk.hist, r)
    ensures Outcome(r, criteria, maxiter, Stalled(escalation))
    ensures NormalTolerance(r, criteria, ZetaScale(mach, gk.hist), gk.hist, mach)
    ensures r.stopReason.InitialNormalEquationResidualZero? <==> step1.alpha == 0.0
    ensures mach.epsilon == 0.0 ==> Clear(mach, gk.hist)
  {
    hide Mul;
    hide Operators;
    hide Inner;
    hide Run;
    hide Invariant;
    hide Stages;
    hide Clear;
    hide Reports;
    hide Readings;
    hide WindowRings.WindowRing.Valid;
    hide NormalWithin;
    hide Trailing;
    RunNonempty(gk.sys, gk.b, gk.hist);
    ghost var s := gk.hist[0];
    assert gk.hist == [s];
    RunStarts(gk.sys, gk.b, gk.hist);
    OneStage(mach, s);
    var n := gk.v.Length;
    if step1.alpha == 0.0 {
      r := LsmrResult(seq(n, _ => 0.0), true, 0, rhsNorm, 0.0, InitialNormalEquationResidualZero);
      StartVanishes(gk.sys, gk.b, s, r, mach, ZetaScale(mach, gk.hist));
      assert r.x == Zeros(n);
      StartReadings(gk.sys, gk.b, s, mach, r);
      return;
    }
    var conv := new ConvergenceState(criteria, step1.alpha);
    var rec := new LsmrRecurrenceState(step1, mach.minPositive);
    var sol := new SolutionState(gk.v[..]);
    LastNonneg(gk.sys, gk.b, gk.hist);
    InvariantStarts(gk.sys, gk.b, s);
    r := LsmrLoop(gk, rec, sol, conv, maxiter, mach, escalation, FirstDirections(gk.sys, s));
  }

  lemma OneStage(mach: Machine, s: Basis)
    ensures Stages(mach.sqrt, [s]) == [Stage(InitialScalars(StepOf(s)), InitialRotation())] && Clear(mach, [s]) && Clear(mach, [])
  {
    FirstStage(mach.sqrt, s, mach.epsilon);
  }

  lemma StartVanishes(sys: System, b: seq<real>, s: Basis, r: LsmrResult, mach: Machine, zeta0: real)
    requires Operators(sys) && First(sys, b, s) && s.alpha == 0.0 && mach.Valid() && zeta0 > 0.0
    requires r.x == seq(sys.n, _ => 0.0) && r.residualNorm == mach.sqrt(Inner(b, b)) && r.normalEqResidual == 0.0 && r.iterations == 0
    ensures Reports(sys, b, r, zeta0, true, s.alpha)
  {
    hide Operators;
    hide Inner;
    hide Reports;
    hide Readings;
    FirstVanishes(sys, b, s);
    NormSquare(mach, b, r.residualNorm);
    assert r.x == Zeros(sys.n);
    ZeroReports(sys, b, r, zeta0, s.alpha);
  }

  lemma RunStarts(sys: System, b: seq<real>, h: seq<Basis>)
    requires Run(sys, b, h) && |h| == 1
    ensures First(sys, b, h[0]) && Run(sys, b, [h[0]])
  {
    assert h == [h[0]];
  }

  lemma LastNonneg(sys: System, b: seq<real>, h: seq<Basis>)
    requires Run(sys, b, h) && |h| > 0
    ensures h[|h| - 1].alpha >= 0.0
  {
    RunNormalized(sys, b, h, |h| - 1);
  }

  lemma NormSquare(mach: Machine, b: seq<real>, r: real)
    requires mach.Valid() && r == mach.sqrt(Inner(b, b))
    ensures Mul(r, r) == Inner(b, b)
  {
    hide Inner;
    SelfNonneg(b);
    SqrtZero(mach.sqrt, Inner(b, b));
  }

  // ---- Warm starts -------------------------------------------------------------------------

  /** Correcting `x0` by a solution for its residual is solving for `b`. */
  lemma ShiftedResidual(b: seq<real>, ax0: seq<real>, ax: seq<real>)
    requires |b| == |ax0| == |ax|
    ensures Comb(1.0, b, -1.0, Comb(1.0, ax0, 1.0, ax)) == Comb(1.0, Comb(1.0, b, -1.0, ax0), -1.0, ax)
  {
  }

  lemma ShiftedEnergies(sys: System, b: seq<real>, x0: seq<real>, x: seq<real>)
    requires Operators(sys) && |b| == sys.m && |x0| == |x| == sys.n
    ensures |sys.apply(x0)| == sys.m
    ensures var rhs := Comb(1.0, b, -1.0, sys.apply(x0)); var y := Comb(1.0, x0, 1.0, x);
      ResidualEnergy(sys, b, y) == ResidualEnergy(sys, rhs, x) && NormalEnergy(sys, b, y) == NormalEnergy(sys, rhs, x)
  {
    hide Operators;
    hide Inner;
    ApplyComb(sys, 1.0, x0, 1.0, x);
    ShiftedResidual(b, sys.apply(x0), sys.apply(x));
  }

  lemma ShiftedReports(sys: System, b: seq<real>, x0: seq<real>, res: LsmrResult, zeta0: real, clear: bool, alpha: real)
    requires Operators(sys) && |b| == sys.m && |x0| == sys.n && |sys.apply(x0)| == sys.m
    requires Reports(sys, Comb(1.0, b, -1.0, sys.apply(x0)), res, zeta0, clear, alpha)
    ensures Reports(sys, b, res.(x := Comb(1.0, x0, 1.0, res.x)), zeta0, clear, alpha)
  {
    hide Operators;
    hide Inner;
    hide Mul;
    hide ResidualEnergy;
    hide NormalEnergy;
    ShiftedEnergies(sys, b, x0, res.x);
  }

  /** `b` is zero exactly when its norm is. */
  lemma NormZero(mach: Machine, b: seq<real>)
    requires mach.Valid()
    ensures mach.sqrt(Inner(b, b)) == 0.0 <==> b == Zeros(|b|)
  {
    hide Inner;
    SelfNonneg(b);
    SqrtZero(mach.sqrt, Inner(b, b));
    if mach.sqrt(Inner(b, b)) == 0.0 { SelfZero(b); }
    InnerZeros(|b|, Zeros(|b|));
    RootOfZero(mach.sqrt);
  }

  lemma ExactReports(sys: System, b: seq<real>, res: LsmrResult)
    requires Operators(sys) && |b| == sys.m && |res.x| == sys.n && sys.apply(res.x) == b
    requires res.residualNorm == 0.0 && res.normalEqResidual == 0.0 && res.iterations == 0
    ensures Reports(sys, b, res, 1.0, true, 0.0)
  {
    hide Operators;
    hide Inner;
    assert Comb(1.0, b, -1.0, b) == Zeros(sys.m);
    InnerZeros(sys.m, Zeros(sys.m));
    AdjointZeros(sys);
    PrecondZeros(sys);
    InnerZeros(sys.n, Zeros(sys.n));
  }

  lemma ZeroDifference(b: seq<real>, y: seq<real>)
    requires |b| == |y| && Comb(1.0, b, -1.0, y) == Zeros(|b|)
    ensures y == b
  {
    forall i | 0 <= i < |b| ensures y[i] == b[i] { assert Comb(1.0, b, -1.0, y)[i] == 0.0; }
  }

  /** The right-hand side of the run: the residual of the warm start, or `b`. */
  ghost predicate RunRhs(sys: System, b: seq<real>, warmStart: Option<seq<real>>, rhs: seq<real>) {
    match warmStart
    case None => rhs == b
    case Some(x0) => |b| == |sys.apply(x0)| && rhs == Comb(1.0, b, -1.0, sys.apply(x0))
  }

  method RhsOf(sys: System, b: seq<real>, warmStart: Option<seq<real>>) returns (rhs: seq<real>)
    requires Operators(sys) && |b| == sys.m && (warmStart.Some? ==> |warmStart.value| == sys.n)
    ensures |rhs| == sys.m && RunRhs(sys, b, warmStart, rhs)
  {
    hide Operators;
    match warmStart
    case None => rhs := b;
    case Some(x0) =>
      SizedApply(sys, x0);
      var residual := sys.apply(x0);
      rhs := [];
      for i := 0 to |residual|
        invariant |rhs| == i && forall k :: 0 <= k < i ==> rhs[k] == b[k] - residual[k]
      {
        rhs := rhs + [b[i] - residual[i]];
      }
  }

  /** The shortcut for a zero right-hand side of the run. */
  method ExactStart(sys: System, b: seq<real>, warmStart: Option<seq<real>>, rhs: seq<real>) returns (r: LsmrResult)
    requires Operators(sys) && |b| == sys.m && (warmStart.Some? ==> |warmStart.value| == sys.n)
    requires RunRhs(sys, b, warmStart, rhs) && rhs == Zeros(sys.m)
    ensures Reports(sys, b, r, 1.0, true, 0.0) && sys.apply(r.x) == b && r.converged && r.iterations == 0
    ensures r.residualNorm == 0.0 && r.normalEqResidual == 0.0
    ensures r.x == if warmStart.Some? then warmStart.value else Zeros(sys.n)
    ensures r.stopReason == if warmStart.Some? then WarmStartExact else ZeroRhs
  {
    hide Operators;
    hide Inner;
    var x, reason := seq(sys.n, _ => 0.0), ZeroRhs;
    match warmStart {
      case None =>
        ApplyZeros(sys);
        assert x == Zeros(sys.n);
      case Some(x0) =>
        ZeroDifference(b, sys.apply(x0));
        x, reason := x0, WarmStartExact;
    }
    r := LsmrResult(x, true, 0, 0.0, 0.0, reason);
    ExactReports(sys, b, r);
  }

  method AddStart(x: seq<real>, x0: seq<real>) returns (y: seq<real>)
    requires |x| == |x0|
    ensures y == Comb(1.0, x0, 1.0, x)
  {
    y := [];
    for i := 0 to |x|
      invariant |y| == i && forall k :: 0 <= k < i ==> y[k] == x[k] + x0[k]
    {
      y := y + [x[i] + x0[i]];
    }
  }

  /** What the run added to the warm start. */
  ghost predicate Added(sys: System, warmStart: Option<seq<real>>, r: LsmrResult, own: LsmrResult) {
    match warmStart
    case None => r == own
    case Some(x0) => |x0| == |own.x| && r == own.(x := Comb(1.0, x0, 1.0, own.x))
  }

  /** How a solve may end: at once on an exact start, or as the run `h` for `rhs` did. */
  ghost predicate Solved(sys: System, b: seq<real>, rhs: seq<real>, warmStart: Option<seq<real>>, r: LsmrResult, h: seq<Basis>,
                         criteria: Criteria, maxiter: nat, mach: Machine, stalled: bool)
    requires mach.Valid()
  {
    && Reports(sys, b, r, ZetaScale(mach, h), Clear(mach, h), FinalAlpha(h)) && NormalTolerance(r, criteria, ZetaScale(mach, h), h, mach)
    && (exists own :: Added(sys, warmStart, r, own) && Readings(sys, mach, h, own))
    && if rhs == Zeros(sys.m) then h == [] && r.iterations == 0 && r.converged && sys.apply(r.x) == b
                                   && r.stopReason == (if warmStart.Some? then WarmStartExact else ZeroRhs)
       else Run(sys, rhs, h) && |h| == r.iterations + 1 && Outcome(r, criteria, maxiter, stalled)
  }

  /** `mlsmr`: whatever the warm start, the reported numbers speak about `b - A x` for the
      original `b` and the returned `x`; without a guard threshold they are exact as stated. */
  method Mlsmr(sys: System, b: seq<real>, tol: real, maxiter: nat, warmStart: Option<seq<real>>,
               escalation: Option<Staleness>, localSize: nat, mach: Machine)
    returns (r: Result<LsmrResult, LsmrError>, ghost rhs: seq<real>, ghost h: seq<Basis>)
    requires Operators(sys) && mach.Valid()
    ensures r.Ok? <==> |b| == sys.m && tol >= 0.0 && (warmStart.Some? ==> |warmStart.value| == sys.n)
    ensures r.Ok? ==> RunRhs(sys, b, warmStart, rhs)
    ensures r.Ok? ==> Solved(sys, b, rhs, warmStart, r.value, h, CriteriaOf(mach.sqrt(Inner(b, b)), tol), maxiter, mach, escalation.Some?)
    ensures r.Ok? && mach.epsilon == 0.0 ==> Clear(mach, h)
  {
    hide Operators;
    hide Inner;
    hide Reports;
    hide Readings;
    hide Run;
    hide Clear;
    hide NormalWithin;
    hide Outcome;
    hide WindowRings.WindowRing.Valid;
    rhs, h := [], [];
    if |b| != sys.m || tol < 0.0 {
      return Err(InvalidInput), rhs, h;
    }
    if warmStart.Some? && |warmStart.value| != sys.n {
      return Err(InvalidInput), rhs, h;
    }
    var bNorm := VecNorm(b, mach.sqrt);
    var residual := RhsOf(sys, b, warmStart);
    rhs := residual;
    var rhsNorm := VecNorm(residual, mach.sqrt);
    NormZero(mach, rhs);
    if rhsNorm == 0.0 {
      var exact := ExactStart(sys, b, warmStart, residual);
      NothingRun(mach);
      ExactAdded(sys, warmStart, exact, mach);
      return Ok(exact), rhs, h;
    }
    var res;
    res, h := SolveFor(sys, residual, rhsNorm, CriteriaOf(bNorm, tol), maxiter, escalation, localSize, mach);
    match warmStart {
      case None =>
        assert Added(sys, warmStart, res, res);
        r := Ok(res);
      case Some(x0) =>
        SolvedSize(sys, rhs, res, ZetaScale(mach, h), Clear(mach, h), FinalAlpha(h));
        ShiftedReports(sys, b, x0, res, ZetaScale(mach, h), Clear(mach, h), FinalAlpha(h));
        var y := AddStart(res.x, x0);
        SameOutcome(res, y, CriteriaOf(bNorm, tol), maxiter, escalation.Some?);
        assert Added(sys, warmStart, res.(x := y), res);
        r := Ok(res.(x := y));
    }
  }

  lemma ExactAdded(sys: System, warmStart: Option<seq<real>>, r: LsmrResult, mach: Machine)
    requires mach.Valid() && r.residualNorm == 0.0 && r.normalEqResidual == 0.0
    requires (warmStart.Some? ==> |warmStart.value| == sys.n) && r.x == if warmStart.Some? then warmStart.value else Zeros(sys.n)
    ensures exists own :: Added(sys, warmStart, r, own) && Readings(sys, mach, [], own)
  {
    hide Readings;
    var own := r.(x := Zeros(sys.n));
    ExactReadings(sys, mach, own);
    if warmStart.Some? { assert r.x == Comb(1.0, warmStart.value, 1.0, own.x); }
    assert Added(sys, warmStart, r, own);
  }

  lemma NothingRun(mach: Machine)
    ensures Clear(mach, [])
  {
  }

  lemma SameOutcome(r: LsmrResult, y: seq<real>, c: Criteria, maxiter: nat, stalled: bool)
    requires Outcome(r, c, maxiter, stalled)
    ensures Outcome(r.(x := y), c, maxiter, stalled)
  {
  }

  lemma SolvedSize(sys: System, b: seq<real>, res: LsmrResult, zeta0: real, clear: bool, alpha: real)
    requires Reports(sys, b, res, zeta0, clear, alpha)
    ensures |res.x| == sys.n
  {
  }

  lemma FirstBeta(sys: System, sqrt: real -> real, b: seq<real>)
    requires Operators(sys) && |b| == sys.m
    ensures FirstOf(sys, sqrt, b).beta == sqrt(Inner(b, b))
  {
    hide Inner;
  }

  method SolveFor(sys: System, rhs: seq<real>, rhsNorm: real, criteria: Criteria, maxiter: nat,
                  escalation: Option<Staleness>, localSize: nat, mach: Machine)
    returns (r: LsmrResult, ghost h: seq<Basis>)
    requires Operators(sys) && mach.Valid() && |rhs| == sys.m && rhsNorm == mach.sqrt(Inner(rhs, rhs)) && criteria.relTol >= 0.0
    ensures Run(sys, rhs, h) && h != [] && |h| == r.iterations + 1
    ensures Reports(sys, rhs, r, ZetaScale(mach, h), Clear(mach, h), FinalAlpha(h)) && Readings(sys, mach, h, r)
    ensures NormalTolerance(r, criteria, ZetaScale(mach, h), h, mach) && Outcome(r, criteria, maxiter, escalation.Some?)
    ensures mach.epsilon == 0.0 ==> Clear(mach, h)
  {
    hide Operators;
    hide Inner;
    hide Reports;
    hide Readings;
    hide FirstOf;
    hide Run;
    hide Clear;
    hide NormalWithin;
    hide WindowRings.WindowRing.Valid;
    hide Trailing;
    var gk := new ModifiedGolubKahan(sys, mach.sqrt, mach.epsilon, rhs, localSize);
    FirstBeta(sys, mach.sqrt, rhs);
    var step1 := BidiagStep(gk.alpha, rhsNorm);
    var handler: StalenessRun? := null;
    if escalation.Some? {
      handler := new StalenessRun(escalation.value);
    }
    r := LsmrFromBidiag(gk, step1, rhsNorm, criteria, maxiter, mach, handler);
    h := gk.hist;
  }
}
