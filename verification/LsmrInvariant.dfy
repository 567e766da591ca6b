/** What every LSMR iteration keeps: the loop invariant, its start, its step, and exactly when
    a guarded update leaves the normal-equation identity intact
    (crates/schwarz-precond/src/lsmr/recurrence.rs, crates/schwarz-precond/src/lsmr.rs:298-371). */
module LsmrInvariant {
  import opened Sums
  import opened Vectors
  import opened Bidiagonal
  import opened GolubKahan
  import opened Recurrence
  import opened NormalEquations
  import opened Krylov
  import opened ExactResidual

  /** After `|h| - 1` iterations: the geometry always, the tracked identities as long as every
      guard was clear. */
  ghost predicate Invariant(sys: System, b: seq<real>, h: seq<Basis>, st: Scalars, prev: RotationStep, it: Iterate,
                            z: Directions, clear: bool) {
    && Geometry(sys, b, h, st, it, z) && |z.e| == |z.d| == sys.n && Sound(st, prev)
    && |it.x| == |it.h| == |it.hBar| == sys.n
    && |h| > 0 && (h[|h| - 1].alpha > 0.0 ==> st.alphaBar != 0.0 && st.phiBar != 0.0)
    && (h[|h| - 1].alpha == 0.0 ==> st.zetaBar == 0.0)
    && (clear ==> Tracks(sys, b, h[|h| - 1], st, prev, it, z) && LsqrReaches(sys, b, st, z))
    && (clear && |h| > 1 ==> ExactOnBreakdown(sys, b, h[|h| - 1].alpha, st.phiBar, it.x))
  }

  /** The estimate `phi` is the residual norm of `x` exactly when the right vector has vanished. */
  ghost predicate ExactOnBreakdown(sys: System, b: seq<real>, alpha: real, phi: real, x: seq<real>) {
    && Operators(sys) && |b| == sys.m && |x| == sys.n
    && (Mul(phi, phi) == ResidualEnergy(sys, b, x) <==> alpha == 0.0)
  }

  /** All three denominators of an update exceed the guard. */
  ghost predicate GuardsClear(epsilon: real, r: RotationStep, prev: RotationStep) {
    && Abs(Mul(r.rho, r.rhoBar)) > epsilon && Abs(Mul(prev.rho, prev.rhoBar)) > epsilon && Abs(r.rho) > epsilon
  }

  lemma ClearQuotient(epsilon: real, x: real, den: real)
    requires epsilon >= 0.0 && Abs(den) > epsilon
    ensures Mul(Guarded(epsilon, x, den), den) == x
  {
  }

  lemma ClearIsExact(epsilon: real, st: Scalars, s: BidiagStep, hat: Givens, bar: Givens, st': Scalars, r: RotationStep, prev: RotationStep)
    requires epsilon >= 0.0 && AdvancedBy(st, s, hat, bar, st', r) && GuardsClear(epsilon, r, prev)
    ensures Exact(CoefficientsOf(epsilon, r, prev), r, prev)
  {
    hide Guarded;
    hide Mul;
    hide Rotates;
    ClearQuotient(epsilon, r.zeta, Mul(r.rho, r.rhoBar));
    ClearQuotient(epsilon, Mul(r.thetaBar, r.rho), Mul(prev.rho, prev.rhoBar));
    ClearQuotient(epsilon, r.thetaNew, r.rho);
  }

  /** The scalars after every iteration of a run, from the run alone. */
  ghost function Stages(sqrt: real -> real, h: seq<Basis>): (g: seq<Stage>)
    ensures |g| == |h|
  {
    if h == [] then []
    else if |h| == 1 then [Stage(InitialScalars(StepOf(h[0])), InitialRotation())]
    else
      var p := Stages(sqrt, h[..|h| - 1]);
      p + [Advanced(sqrt, p[|p| - 1].st, StepOf(h[|h| - 1]))]
  }

  ghost predicate GuardAt(epsilon: real, g: seq<Stage>, k: nat)
    requires k < |g|
  {
    k > 0 ==> GuardsClear(epsilon, g[k].r, g[k - 1].r)
  }

  /** Every update of the run was taken in full. */
  ghost predicate AllClear(epsilon: real, g: seq<Stage>) { forall k: nat :: k < |g| ==> GuardAt(epsilon, g, k) }

  lemma StagesPush(sqrt: real -> real, h: seq<Basis>, t: Basis)
    requires h != []
    ensures Stages(sqrt, h + [t]) == Stages(sqrt, h) + [Advanced(sqrt, Stages(sqrt, h)[|h| - 1].st, StepOf(t))]
  {
    hide Advanced;
    var all := h + [t];
    assert all[..|all| - 1] == h && all[|all| - 1] == t;
  }

  lemma ClearPush(epsilon: real, g: seq<Stage>, next: Stage)
    requires g != []
    ensures AllClear(epsilon, g + [next]) <==> AllClear(epsilon, g) && GuardsClear(epsilon, next.r, g[|g| - 1].r)
  {
    hide GuardsClear;
    var all := g + [next];
    forall k: nat | k < |g| ensures GuardAt(epsilon, all, k) <==> GuardAt(epsilon, g, k) {}
    if AllClear(epsilon, all) {
      assert GuardAt(epsilon, all, |g|);
      forall k: nat | k < |g| ensures GuardAt(epsilon, g, k) { assert GuardAt(epsilon, all, k); }
    }
  }

  lemma FirstStage(sqrt: real -> real, s: Basis, epsilon: real)
    ensures Stages(sqrt, [s]) == [Stage(InitialScalars(StepOf(s)), InitialRotation())]
    ensures AllClear(epsilon, Stages(sqrt, [s])) && AllClear(epsilon, Stages(sqrt, []))
  {
  }

  // ---- The start ---------------------------------------------------------------------------

  ghost function FirstDirections(sys: System, s: Basis): Directions { Directions(s.u, s.p, Zeros(sys.n)) }

  ghost function FirstIterate(sys: System, s: Basis): Iterate { Iterate(Zeros(sys.n), s.v, Zeros(sys.n)) }

  ghost function StepOf(s: Basis): BidiagStep { BidiagStep(s.alpha, s.beta) }

  lemma FirstH(av: seq<real>, a: real, u: seq<real>)
    requires |av| == |u|
    ensures av == Comb(1.0, Comb(1.0, av, a, u), -a, u)
  {
    var r := Comb(1.0, Comb(1.0, av, a, u), -a, u);
    forall i | 0 <= i < |av| ensures av[i] == r[i] { HScalars(a, u[i]); }
  }

  lemma FirstP(p: seq<real>, n: nat)
    requires |p| == n
    ensures p == Comb(0.0, Zeros(n), 1.0, p)
  {
  }

  lemma SubtractZeros(b: seq<real>)
    ensures Comb(1.0, b, -1.0, Zeros(|b|)) == b
  {
  }

  lemma FirstResidual(sys: System, b: seq<real>, s: Basis)
    requires Operators(sys) && First(sys, b, s)
    ensures |sys.apply(Zeros(sys.n))| == |b| && |NormalResidual(sys, b, Zeros(sys.n))| == sys.n
    ensures sys.precond(NormalResidual(sys, b, Zeros(sys.n))) == Scale(Mul(s.alpha, s.beta), s.v)
  {
    hide Operators;
    hide Inner;
    ApplyZeros(sys);
    SubtractZeros(b);
    AdjointScale(sys, s.beta, s.u);
    assert NormalResidual(sys, b, Zeros(sys.n)) == sys.adjoint(b);
    PrecondScale(sys, s.beta, sys.adjoint(s.u));
    SwappedScale(s.beta, s.alpha, s.v);
  }

  lemma SwappedScale(a: real, b: real, x: seq<real>)
    ensures Scale(a, Scale(b, x)) == Scale(Mul(b, a), x)
  {
    var l, r := Scale(a, Scale(b, x)), Scale(Mul(b, a), x);
    forall i | 0 <= i < |x| ensures l[i] == r[i] { Reassociate(a, b, x[i]); }
  }

  lemma FirstTracks(sys: System, b: seq<real>, s: Basis)
    requires Operators(sys) && First(sys, b, s)
    ensures Tracks(sys, b, s, InitialScalars(StepOf(s)), InitialRotation(), FirstIterate(sys, s), FirstDirections(sys, s))
  {
    hide Operators;
    hide Inner;
    SizedApply(sys, s.v);
    ApplyZeros(sys);
    AdjointZeros(sys);
    PrecondZeros(sys);
    ScaleZeros(1.0, sys.n);
    FirstH(sys.apply(s.v), s.alpha, s.u);
    FirstP(s.p, sys.n);
    FirstResidual(sys, b, s);
  }

  lemma FirstGeometry(sys: System, b: seq<real>, s: Basis)
    requires Operators(sys) && First(sys, b, s) && s.alpha > 0.0 && Run(sys, b, [s])
    ensures Geometry(sys, b, [s], InitialScalars(StepOf(s)), FirstIterate(sys, s), FirstDirections(sys, s))
  {
    hide Operators;
    hide Inner;
    hide Spanned;
    hide Run;
    var h := [s];
    assert h[..0] == [];
    if s.beta == 0.0 { FirstBreakdown(sys, b, s); }
    SpannedZeros(sys.n, Vs(h[..0]));
    SpannedMember(sys.n, Vs(h), 0);
    SpannedMember(sys.m, Us(h), 0);
    SpannedMember(sys.n, Ps(h), 0);
    InnerScale(s.beta, s.u, s.u);
    SizedPrecond(sys, s.p);
  }

  lemma InvariantStarts(sys: System, b: seq<real>, s: Basis)
    requires Operators(sys) && First(sys, b, s) && s.alpha > 0.0 && Run(sys, b, [s])
    ensures Invariant(sys, b, [s], InitialScalars(StepOf(s)), InitialRotation(), FirstIterate(sys, s), FirstDirections(sys, s), true)
  {
    hide Operators;
    hide Inner;
    hide Run;
    hide Tracks;
    hide Geometry;
    FirstTracks(sys, b, s);
    FirstGeometry(sys, b, s);
    LsqrStarts(sys, b, s, InitialScalars(StepOf(s)), FirstDirections(sys, s));
    if s.beta == 0.0 { FirstBreakdown(sys, b, s); }
  }

  // ---- The step ----------------------------------------------------------------------------

  /** While the right vector lives, so do the estimate and both rotations. */
  lemma LiveStep(st: Scalars, s: BidiagStep, hat: Givens, bar: Givens, st': Scalars, r: RotationStep)
    requires AdvancedBy(st, s, hat, bar, st', r) && st.phiBar != 0.0 && s.alpha != 0.0 && s.beta != 0.0
    ensures st'.phiBar != 0.0 && st'.sBar != 0.0
  {
    hide Mul;
    FactorNonzero(hat.s, hat.r);
    ProductNonzero(hat.s, st.phiBar);
    ProductNonzero(hat.s, s.alpha);
    FactorNonzero(bar.s, bar.r);
  }

  lemma StepScalars(sys: System, b: seq<real>, h: seq<Basis>, t: Basis, st: Scalars, prev: RotationStep,
                    hat: Givens, bar: Givens, st': Scalars, r: RotationStep)
    requires Operators(sys) && Run(sys, b, h) && Run(sys, b, h + [t]) && AdvancedBy(st, StepOf(t), hat, bar, st', r)
    requires Sound(st, prev) && st.alphaBar != 0.0 && st.phiBar != 0.0
    ensures Sound(st', r) && t.alpha >= 0.0 && hat.r > 0.0
    ensures t.alpha > 0.0 ==> st'.alphaBar != 0.0 && st'.phiBar != 0.0 && st'.sBar != 0.0
    ensures t.alpha == 0.0 ==> st'.zetaBar == 0.0
  {
    hide Operators;
    hide Inner;
    hide Run;
    hide Mul;
    RunNormalized(sys, b, h + [t], |h|);
    SoundStep(st, prev, StepOf(t), hat, bar, st', r);
    if t.alpha == 0.0 {
      AlphaZeroCollapses(st, prev, StepOf(t), hat, bar, st', r);
    } else {
      RunBreakdown(sys, b, h + [t], |h|);
      LiveStep(st, StepOf(t), hat, bar, st', r);
    }
  }

  /** The new right vector does not see the old normal direction. */
  lemma NewAgainstOld(sys: System, b: seq<real>, h: seq<Basis>, t: Basis, d: seq<real>)
    requires Operators(sys) && Run(sys, b, h) && Run(sys, b, h + [t]) && Spanned(sys.n, Ps(h), d)
    ensures |t.v| == |d| == sys.n && Inner(t.v, d) == 0.0
  {
    hide Operators;
    hide Inner;
    hide Run;
    hide Spanned;
    NewOrthogonal(sys, b, h, t);
    SpannedSizesOf(sys.n, Ps(h), d);
    SpannedUse(sys.n, Ps(h), d, t.v);
    InnerComm(d, t.v);
  }

  /** What one iteration with clear guards adds: the tracked identities, the LSQR iterate, and
      exactly when the residual estimate is the residual. */
  lemma ClearStep(sys: System, b: seq<real>, h: seq<Basis>, t: Basis, st: Scalars, prev: RotationStep, it: Iterate,
                  z: Directions, hat: Givens, bar: Givens, st': Scalars, r: RotationStep, k: Coefficients)
    requires |t.u| == |b| == sys.m && |t.v| == |t.p| == |it.x| == |it.h| == |it.hBar| == |z.d| == sys.n && |z.w| == sys.m && |h| > 0
    requires Operators(sys) && Geometry(sys, b, h, st, it, z) && Next(sys, h[|h| - 1], t)
    requires Geometry(sys, b, h + [t], st', Updated(it, t.v, k), NextDirections(z, t, hat, bar))
    requires AdvancedBy(st, StepOf(t), hat, bar, st', r) && Exact(k, r, prev) && hat.r > 0.0 && t.alpha >= 0.0
    requires Tracks(sys, b, h[|h| - 1], st, prev, it, z) && LsqrReaches(sys, b, st, z)
    requires t.alpha > 0.0 ==> st'.alphaBar != 0.0 && st'.phiBar != 0.0 && st'.sBar != 0.0
    requires t.alpha == 0.0 ==> st'.zetaBar == 0.0
    ensures Tracks(sys, b, t, st', r, Updated(it, t.v, k), NextDirections(z, t, hat, bar))
    ensures LsqrReaches(sys, b, st', NextDirections(z, t, hat, bar))
    ensures ExactOnBreakdown(sys, b, t.alpha, st'.phiBar, Updated(it, t.v, k).x)
  {
    hide Operators;
    hide Inner;
    hide Run;
    hide Mul;
    hide Spanned;
    hide LsqrReaches;
    hide UnitDirections;
    hide Next;
    TracksStep(sys, b, h[|h| - 1], t, st, prev, it, z, hat, bar, st', r, k);
    SpannedIsReached(sys, b, h, it.h);
    LsqrStep(sys, b, h[|h| - 1], t, st, it, z, hat, bar, st');
    NewAgainstOld(sys, b, h, t, z.d);
    ResidualExactIff(sys, b, h, t, st', Updated(it, t.v, k), NextDirections(z, t, hat, bar), z.d);
  }

  lemma InvariantStep(sys: System, b: seq<real>, h: seq<Basis>, t: Basis, st: Scalars, prev: RotationStep, it: Iterate,
                      z: Directions, clear: bool, hat: Givens, bar: Givens, st': Scalars, r: RotationStep, epsilon: real)
    requires Operators(sys) && epsilon >= 0.0 && Invariant(sys, b, h, st, prev, it, z, clear) && h[|h| - 1].alpha > 0.0
    requires Run(sys, b, h + [t]) && AdvancedBy(st, StepOf(t), hat, bar, st', r)
    ensures |t.u| == sys.m && |t.v| == |t.p| == sys.n
    ensures Invariant(sys, b, h + [t], st', r, Updated(it, t.v, CoefficientsOf(epsilon, r, prev)),
                      NextDirections(z, t, hat, bar), clear && GuardsClear(epsilon, r, prev))
  {
    hide Operators;
    hide Inner;
    hide Run;
    hide Tracks;
    hide Geometry;
    hide Guarded;
    hide Mul;
    hide LsqrReaches;
    hide ExactOnBreakdown;
    hide Sound;
    RunStep(sys, b, h + [t], |h|);
    RunNormalized(sys, b, h + [t], |h|);
    GeometrySizes(sys, b, h, st, it, z);
    var k := CoefficientsOf(epsilon, r, prev);
    GeometryStep(sys, b, h, t, st, it, z, hat, bar, st', r, k);
    StepScalars(sys, b, h, t, st, prev, hat, bar, st', r);
    if clear && GuardsClear(epsilon, r, prev) {
      ClearIsExact(epsilon, st, StepOf(t), hat, bar, st', r, prev);
      ClearStep(sys, b, h, t, st, prev, it, z, hat, bar, st', r, k);
    }
  }

  /** Without a guard to miss, every update is taken in full. */
  lemma NoGuard(st: Scalars, prev: RotationStep, s: BidiagStep, hat: Givens, bar: Givens, st': Scalars, r: RotationStep)
    requires AdvancedBy(st, s, hat, bar, st', r) && Sound(st, prev) && st.alphaBar != 0.0
    ensures GuardsClear(0.0, r, prev)
  {
    hide Mul;
    SoundStep(st, prev, s, hat, bar, st', r);
    ProductNonzero(r.rho, r.rhoBar);
    ProductNonzero(prev.rho, prev.rhoBar);
  }

  lemma GeometrySizes(sys: System, b: seq<real>, h: seq<Basis>, st: Scalars, it: Iterate, z: Directions)
    requires Geometry(sys, b, h, st, it, z)
    ensures Run(sys, b, h) && |b| == |z.w| == sys.m && |z.d| == sys.n
  {
  }

  // ---- What the estimates say --------------------------------------------------------------

  /** The residual estimate is a lower bound always; the normal-equation estimate is exact as
      long as the guards were clear. */
  lemma EstimatesMeasure(sys: System, b: seq<real>, h: seq<Basis>, st: Scalars, prev: RotationStep, it: Iterate, z: Directions, clear: bool)
    requires Operators(sys) && |b| == sys.m && |it.x| == sys.n && Invariant(sys, b, h, st, prev, it, z, clear)
    ensures Mul(st.phiBar, st.phiBar) <= ResidualEnergy(sys, b, it.x)
    ensures clear ==> NormalEnergy(sys, b, it.x) == Mul(st.zetaBar, st.zetaBar)
  {
    hide Operators;
    hide Inner;
    hide Geometry;
    ResidualAtLeastEstimate(sys, b, h, st, it, z);
    if clear { NormalEstimateExact(sys, b, h, st, it, z); }
  }

  // ---- Exactly when a guarded update keeps the identity ------------------------------------

  lemma AlongE(sys: System, d: seq<real>, p: seq<real>, a: real, b: real, c: real, s: real)
    requires Operators(sys) && |d| == |p| == sys.n && |sys.precond(d)| == |sys.precond(p)| == sys.n
    requires Inner(sys.precond(d), d) == 1.0 && Inner(sys.precond(p), p) == 1.0 && Inner(sys.precond(p), d) == 0.0
    ensures var e := Comb(c, d, s, p);
      Inner(Comb(a, sys.precond(d), b, sys.precond(p)), e) == a * c + b * s
  {
    hide Operators;
    hide Inner;
    var e := Comb(c, d, s, p);
    SymmetricPair(sys, d, p);
    InnerComb(a, sys.precond(d), b, sys.precond(p), e);
    InnerCombRight(sys.precond(d), c, d, s, p);
    InnerCombRight(sys.precond(p), c, d, s, p);
    AlongScalars(a, b, c, s, 1.0, 0.0);
  }

  lemma AlongScalars(a: real, b: real, c: real, s: real, u: real, o: real)
    requires u == 1.0 && o == 0.0
    ensures a * (c * u + s * o) + b * (c * o + s * u) == a * c + b * s
  {
  }

  /** zeta d - tx (r e'), gathered over d and p'. */
  lemma GatherOver(d: seq<real>, p: seq<real>, z: real, tx: real, r: real, c: real, s: real)
    requires |d| == |p|
    ensures Comb(1.0, Scale(z, d), -tx, Scale(r, Comb(c, d, s, p)))
            == Comb(z - Mul(Mul(tx, r), c), d, -Mul(Mul(tx, r), s), p)
  {
    var x, y := Comb(1.0, Scale(z, d), -tx, Scale(r, Comb(c, d, s, p))), Comb(z - Mul(Mul(tx, r), c), d, -Mul(Mul(tx, r), s), p);
    forall i | 0 <= i < |x| ensures x[i] == y[i] { GatherScalars(z, tx, r, c, s, d[i], p[i]); }
  }

  lemma GatherScalars(z: real, tx: real, r: real, c: real, s: real, d: real, p: real)
    ensures z * d + (-tx) * (r * (c * d + s * p)) == (z - Mul(Mul(tx, r), c)) * d + (-Mul(Mul(tx, r), s)) * p
  {
  }

  lemma TargetOver(d: seq<real>, p: seq<real>, z: real, c: real, s: real)
    requires |d| == |p|
    ensures Scale(Mul(-s, z), Comb(-s, d, c, p)) == Comb(Mul(Mul(s, z), s), d, -Mul(Mul(s, z), c), p)
  {
    var x, y := Scale(Mul(-s, z), Comb(-s, d, c, p)), Comb(Mul(Mul(s, z), s), d, -Mul(Mul(s, z), c), p);
    forall i | 0 <= i < |x| ensures x[i] == y[i] { TargetScalars(z, c, s, d[i], p[i]); }
  }

  lemma TargetScalars(z: real, c: real, s: real, d: real, p: real)
    ensures Mul(-s, z) * (-s * d + c * p) == Mul(Mul(s, z), s) * d + (-Mul(Mul(s, z), c)) * p
  {
  }

  /** Paired with the unit direction e', the two candidates agree only if the quotient was exact. */
  lemma CandidatesAgree(z: real, q: real, c: real, s: real)
    requires Mul(c, c) + Mul(s, s) == 1.0
    requires (z - Mul(q, c)) * c + (-Mul(q, s)) * s == Mul(Mul(s, z), s) * c + (-Mul(Mul(s, z), c)) * s
    ensures q == Mul(c, z)
  {
    MulEq(q, Mul(c, c) + Mul(s, s), 1.0);
  }

  /** The guarded update keeps A^T (b - A x) = zeta-bar d exactly when its quotient was taken
      in full, that is, when the guard was clear or zeta was zero to begin with. */
  lemma GuardedUpdateIff(sys: System, b: seq<real>, t: Basis, st: Scalars, it: Iterate, z: Directions,
                         hat: Givens, bar: Givens, st': Scalars, r: RotationStep, prev: RotationStep, epsilon: real)
    requires Operators(sys) && epsilon >= 0.0 && Normalized(sys, t) && t.alpha > 0.0
    requires Shaped(sys, b, it, z) && TracksX(sys, b, st, it, z) && AdvancedBy(st, StepOf(t), hat, bar, st', r)
    requires r.rho > 0.0 && r.rhoBar > 0.0
    requires |sys.precond(z.d)| == sys.n && Inner(sys.precond(z.d), z.d) == 1.0 && Inner(t.v, z.d) == 0.0
    requires TracksHBar(sys, r, Updated(it, t.v, CoefficientsOf(epsilon, r, prev)), NextDirections(z, t, hat, bar))
    ensures TracksX(sys, b, st', Updated(it, t.v, CoefficientsOf(epsilon, r, prev)), NextDirections(z, t, hat, bar))
            <==> Abs(Mul(r.rho, r.rhoBar)) > epsilon || r.zeta == 0.0
  {
    hide Operators;
    hide Inner;
    hide TracksX;
    hide TracksHBar;
    hide Mul;
    var k, den := CoefficientsOf(epsilon, r, prev), Mul(r.rho, r.rhoBar);
    ProductNonzero(r.rho, r.rhoBar);
    GuardedExactIff(epsilon, r.zeta, den);
    ShapedStep(sys, b, t, it, z, hat, bar, k);
    if Mul(k.tx, den) == r.zeta {
      TracksXStep(sys, b, t, st, it, z, hat, bar, st', r, k);
    }
    if TracksX(sys, b, st', Updated(it, t.v, k), NextDirections(z, t, hat, bar)) {
      TracksXForces(sys, b, t, st, it, z, hat, bar, st', r, k);
    }
  }

  lemma GuardedExactIff(epsilon: real, x: real, den: real)
    requires epsilon >= 0.0 && den != 0.0
    ensures Mul(Guarded(epsilon, x, den), den) == x <==> Abs(den) > epsilon || x == 0.0
  {
  }

  lemma TracksXForces(sys: System, b: seq<real>, t: Basis, st: Scalars, it: Iterate, z: Directions,
                      hat: Givens, bar: Givens, st': Scalars, r: RotationStep, k: Coefficients)
    requires Operators(sys) && Normalized(sys, t) && t.alpha > 0.0 && Shaped(sys, b, it, z) && TracksX(sys, b, st, it, z)
    requires |sys.precond(z.d)| == sys.n && Inner(sys.precond(z.d), z.d) == 1.0 && Inner(t.v, z.d) == 0.0
    requires Shaped(sys, b, Updated(it, t.v, k), NextDirections(z, t, hat, bar))
    requires TracksHBar(sys, r, Updated(it, t.v, k), NextDirections(z, t, hat, bar))
    requires Mul(bar.c, bar.c) + Mul(bar.s, bar.s) == 1.0 && st'.zetaBar == Mul(-bar.s, st.zetaBar)
    requires TracksX(sys, b, st', Updated(it, t.v, k), NextDirections(z, t, hat, bar))
    ensures Mul(k.tx, Mul(r.rho, r.rhoBar)) == Mul(bar.c, st.zetaBar)
  {
    hide Operators;
    hide Inner;
    hide Mul;
    var q := Mul(k.tx, Mul(r.rho, r.rhoBar));
    NextResidual(sys, b, it, t.v, k);
    PrecondComb(sys, 1.0, NormalResidual(sys, b, it.x), -k.tx, sys.adjoint(sys.apply(Updated(it, t.v, k).hBar)));
    PrecondComb(sys, bar.c, z.d, bar.s, t.p);
    PrecondComb(sys, -bar.s, z.d, bar.c, t.p);
    GatherOver(sys.precond(z.d), t.v, st.zetaBar, k.tx, Mul(r.rho, r.rhoBar), bar.c, bar.s);
    TargetOver(sys.precond(z.d), t.v, st.zetaBar, bar.c, bar.s);
    AlongE(sys, z.d, t.p, st.zetaBar - Mul(q, bar.c), -Mul(q, bar.s), bar.c, bar.s);
    AlongE(sys, z.d, t.p, Mul(Mul(bar.s, st.zetaBar), bar.s), -Mul(Mul(bar.s, st.zetaBar), bar.c), bar.c, bar.s);
    CandidatesAgree(st.zetaBar, q, bar.c, bar.s);
  }
}
