/** Exactly when the LSQR-side estimate is the true residual norm of the LSMR iterate
    (crates/schwarz-precond/src/lsmr/recurrence.rs:109-125). */
module ExactResidual {
  import opened Sums
  import opened Vectors
  import opened Bidiagonal
  import opened GolubKahan
  import opened Recurrence
  import opened NormalEquations
  import opened Krylov

  // ---- The LSQR iterate behind the estimate ------------------------------------------------

  /** `y` is orthogonal to whatever the preconditioner does not see. */
  ghost predicate Reached(sys: System, y: seq<real>) {
    |y| == sys.n && forall k :: |k| == sys.n && sys.precond(k) == Zeros(sys.n) ==> Inner(y, k) == 0.0
  }

  lemma ReachedComb(sys: System, a: real, x: seq<real>, b: real, y: seq<real>)
    requires Reached(sys, x) && Reached(sys, y)
    ensures Reached(sys, Comb(a, x, b, y))
  {
    hide Inner;
    forall k | |k| == sys.n && sys.precond(k) == Zeros(sys.n) ensures Inner(Comb(a, x, b, y), k) == 0.0 { InnerComb(a, x, b, y, k); }
  }

  /** Combinations of right vectors are reached. */
  lemma SpannedIsReached(sys: System, b: seq<real>, h: seq<Basis>, x: seq<real>)
    requires Operators(sys) && Run(sys, b, h) && Spanned(sys.n, Vs(h), x)
    ensures Reached(sys, x)
  {
    hide Operators;
    hide Inner;
    hide Run;
    hide OrthogonalToAll;
    forall k | |k| == sys.n && sys.precond(k) == Zeros(sys.n) ensures Inner(x, k) == 0.0 {
      UnseenIsOrthogonal(sys, b, h, k);
      SpannedUse(sys.n, Vs(h), x, k);
    }
  }

  /** `y` is an LSQR iterate: its residual is exactly the tracked one, phi-bar w. */
  ghost predicate LsqrAt(sys: System, b: seq<real>, st: Scalars, z: Directions, y: seq<real>) {
    Reached(sys, y) && |b| == |z.w| == |sys.apply(y)| && b == Comb(1.0, sys.apply(y), st.phiBar, z.w)
  }

  ghost predicate LsqrReaches(sys: System, b: seq<real>, st: Scalars, z: Directions) {
    exists y :: LsqrAt(sys, b, st, z, y)
  }

  lemma LsqrStarts(sys: System, b: seq<real>, s: Basis, st: Scalars, z: Directions)
    requires Operators(sys) && First(sys, b, s) && st.phiBar == s.beta && z.w == s.u
    ensures LsqrReaches(sys, b, st, z)
  {
    hide Operators;
    hide Inner;
    var y := Zeros(sys.n);
    ApplyZeros(sys);
    forall k | |k| == sys.n ensures Inner(y, k) == 0.0 { InnerZeros(sys.n, k); }
    var c := Comb(1.0, Zeros(sys.m), s.beta, s.u);
    forall i | 0 <= i < |b| ensures b[i] == c[i] { assert b[i] == s.beta * s.u[i]; }
    assert LsqrAt(sys, b, st, z, y);
  }

  /** phi w = (k c-part) A h + (s phi) w', with A h = r (c w + s u'). */
  lemma LsqrScalars(phi: real, c: real, s: real, r: real, ab: real, beta: real, k: real, w: real, u: real, y: real)
    requires ab == Mul(c, r) && beta == Mul(s, r) && Mul(k, r) == Mul(phi, c) && Mul(c, c) + Mul(s, s) == 1.0
    ensures 1.0 * y + phi * w == 1.0 * (1.0 * y + k * (ab * w + beta * u)) + Mul(s, phi) * (s * w + (-c) * u)
  {
    var q := c * w + s * u;
    assert ab * w + beta * u == r * q;
    assert k * (r * q) == Mul(k, r) * q;
    MulEq(q, Mul(k, r), Mul(phi, c));
    MulEq(phi * w, Mul(c, c) + Mul(s, s), 1.0);
    LsqrExpanded(phi, c, s, w, u);
  }

  lemma LsqrExpanded(phi: real, c: real, s: real, w: real, u: real)
    ensures Mul(phi, c) * (c * w + s * u) + Mul(s, phi) * (s * w + (-c) * u) == (phi * w) * (Mul(c, c) + Mul(s, s))
  {
  }

  lemma LsqrAdvances(b: seq<real>, ay: seq<real>, ah: seq<real>, w: seq<real>, u: seq<real>, phi: real, ab: real, beta: real, g: Givens, k: real)
    requires |b| == |ay| == |ah| == |w| == |u| && ah == Comb(ab, w, beta, u) && b == Comb(1.0, ay, phi, w)
    requires Rotates(g, ab, beta) && Mul(k, g.r) == Mul(phi, g.c)
    ensures b == Comb(1.0, Comb(1.0, ay, k, ah), Mul(g.s, phi), Comb(g.s, w, -g.c, u))
  {
    hide Mul;
    var c := Comb(1.0, Comb(1.0, ay, k, ah), Mul(g.s, phi), Comb(g.s, w, -g.c, u));
    forall i | 0 <= i < |b| ensures b[i] == c[i] {
      assert b[i] == 1.0 * ay[i] + phi * w[i];
      assert ah[i] == ab * w[i] + beta * u[i];
      LsqrScalars(phi, g.c, g.s, g.r, ab, beta, k, w[i], u[i], ay[i]);
    }
  }

  lemma LsqrStep(sys: System, b: seq<real>, s: Basis, t: Basis, st: Scalars, it: Iterate, z: Directions,
                 hat: Givens, bar: Givens, st': Scalars)
    requires Operators(sys) && Next(sys, s, t) && Shaped(sys, b, it, z) && TracksH(sys, s, st, it, z) && LsqrReaches(sys, b, st, z)
    requires Rotates(hat, st.alphaBar, t.beta) && hat.r > 0.0 && st'.phiBar == Mul(hat.s, st.phiBar) && Reached(sys, it.h)
    ensures LsqrReaches(sys, b, st', NextDirections(z, t, hat, bar))
  {
    hide Operators;
    hide Inner;
    hide Mul;
    hide Rotates;
    hide Reached;
    var y :| LsqrAt(sys, b, st, z, y);
    LsqrSized(sys, b, st, z, y);
    var k := Mul(st.phiBar, hat.c) / hat.r;
    DivBack(Mul(st.phiBar, hat.c), hat.r);
    HOver(sys, b, s, t, st, it, z);
    ApplyComb(sys, 1.0, y, k, it.h);
    ReachedComb(sys, 1.0, y, k, it.h);
    LsqrAdvances(b, sys.apply(y), sys.apply(it.h), z.w, t.u, st.phiBar, st.alphaBar, t.beta, hat, k);
    assert LsqrAt(sys, b, st', NextDirections(z, t, hat, bar), Comb(1.0, y, k, it.h));
  }

  lemma LsqrSized(sys: System, b: seq<real>, st: Scalars, z: Directions, y: seq<real>)
    requires LsqrAt(sys, b, st, z, y)
    ensures |y| == sys.n
  {
  }

  lemma DivBack(x: real, r: real)
    requires r != 0.0
    ensures Mul(x / r, r) == x
  {
  }

  // ---- After a breakdown the estimate is exact ---------------------------------------------

  lemma SplitResidual(b: seq<real>, ax: seq<real>, ay: seq<real>, phi: real, w: seq<real>)
    requires |b| == |ax| == |ay| == |w| && b == Comb(1.0, ay, phi, w)
    ensures Comb(1.0, b, -1.0, ax) == Comb(1.0, Comb(1.0, ay, -1.0, ax), phi, w)
  {
    var l, r := Comb(1.0, b, -1.0, ax), Comb(1.0, Comb(1.0, ay, -1.0, ax), phi, w);
    forall i | 0 <= i < |b| ensures l[i] == r[i] { assert b[i] == 1.0 * ay[i] + phi * w[i]; }
  }

  /** The residual's energy beyond the estimate is what the normal residual still sees. */
  lemma BreakdownIsExact(sys: System, b: seq<real>, h: seq<Basis>, st: Scalars, it: Iterate, z: Directions)
    requires Operators(sys) && Geometry(sys, b, h, st, it, z) && |it.x| == sys.n
    requires TracksX(sys, b, st, it, z) && st.zetaBar == 0.0 && LsqrReaches(sys, b, st, z)
    ensures Mul(st.phiBar, st.phiBar) == ResidualEnergy(sys, b, it.x)
  {
    hide Operators;
    hide Inner;
    hide Run;
    hide Spanned;
    hide Reached;
    hide UnitDirections;
    GeometrySized(sys, b, h, st, it, z);
    SizedApply(sys, it.x);
    var y :| LsqrAt(sys, b, st, z, y);
    LsqrSized(sys, b, st, z, y);
    RunNonempty(sys, b, h);
    SpannedPrefix(sys.n, h, it.x);
    SpannedIsReached(sys, b, h, it.x);
    ReachedComb(sys, 1.0, y, -1.0, it.x);
    var r := Comb(1.0, b, -1.0, sys.apply(it.x));
    var dy := Comb(1.0, y, -1.0, it.x);
    ApplyComb(sys, 1.0, y, -1.0, it.x);
    SplitResidual(b, sys.apply(it.x), sys.apply(y), st.phiBar, z.w);
    InnerComb(1.0, sys.apply(dy), st.phiBar, z.w, r);
    AdjointPair(sys, dy, r);
    ZeroScaled(sys.precond(z.d));
    ReachedUse(sys, dy, NormalResidual(sys, b, it.x));
    ResidualAlongW(sys, b, h, st, it, z);
    InnerComm(r, z.w);
  }

  lemma ZeroScaled(x: seq<real>)
    ensures Scale(0.0, x) == Zeros(|x|)
  {
  }

  lemma ReachedUse(sys: System, y: seq<real>, k: seq<real>)
    requires Reached(sys, y) && |k| == sys.n && sys.precond(k) == Zeros(sys.n)
    ensures |y| == |k| && Inner(y, k) == 0.0
  {
  }

  lemma GeometrySized(sys: System, b: seq<real>, h: seq<Basis>, st: Scalars, it: Iterate, z: Directions)
    requires Geometry(sys, b, h, st, it, z)
    ensures |b| == |z.w| == sys.m && |z.d| == sys.n
  {
  }

  // ---- While the run goes on it is not -----------------------------------------------------

  /** A vector as short as its projection onto a unit vector is that projection. */
  lemma ShortIsParallel(r: seq<real>, w: seq<real>, phi: real)
    requires |r| == |w| && Inner(w, w) == 1.0 && Inner(r, w) == phi && Inner(r, r) == Mul(phi, phi)
    ensures r == Scale(phi, w)
  {
    hide Inner;
    var q := Comb(1.0, r, -phi, w);
    InnerComb(1.0, r, -phi, w, q);
    InnerCombRight(r, 1.0, r, -phi, w);
    InnerCombRight(w, 1.0, r, -phi, w);
    InnerComm(r, w);
    assert Inner(q, q) == 0.0;
    SelfZero(q);
    var p := Scale(phi, w);
    forall i | 0 <= i < |r| ensures r[i] == p[i] { assert q[i] == 1.0 * r[i] + (-phi) * w[i]; }
  }

  /** What the new right vector sees of the new normal direction. */
  lemma AlongNew(sys: System, t: Basis, d: seq<real>, c: real, s: real)
    requires Operators(sys) && Normalized(sys, t) && t.alpha > 0.0 && |d| == sys.n && Inner(t.v, d) == 0.0
    ensures var d' := Comb(-s, d, c, t.p);
      |sys.precond(d')| == sys.n && Inner(t.v, d') == c && Inner(sys.precond(d'), t.p) == c
  {
    hide Operators;
    hide Inner;
    var d' := Comb(-s, d, c, t.p);
    InnerCombRight(t.v, -s, d, c, t.p);
    SymmetricPair(sys, t.p, d');
  }

  lemma ParallelScalars(zeta: real, c: real, s: real, q: real)
    requires zeta * c == q && zeta == q * c && Mul(c, c) + Mul(s, s) == 1.0
    ensures Mul(q, Mul(s, s)) == 0.0
  {
    MulEq(c, zeta, q * c);
    MulEq(q, Mul(c, c) + Mul(s, s), 1.0);
    assert c * (q * c) == q * Mul(c, c);
  }

  /** zeta d' = q p', as far as the preconditioner sees, forces q s^2 = 0. */
  lemma ParallelDirections(sys: System, t: Basis, d: seq<real>, d': seq<real>, zeta: real, q: real, c: real, s: real)
    requires Operators(sys) && Normalized(sys, t) && t.alpha > 0.0 && |d| == sys.n && Inner(t.v, d) == 0.0
    requires d' == Comb(-s, d, c, t.p) && |sys.precond(d')| == sys.n && (Inner(sys.precond(d'), d') == 1.0 || zeta == 0.0)
    requires Scale(zeta, sys.precond(d')) == Scale(q, t.v) && Mul(c, c) + Mul(s, s) == 1.0
    ensures Mul(q, Mul(s, s)) == 0.0
  {
    hide Operators;
    hide Inner;
    hide Mul;
    AlongNew(sys, t, d, c, s);
    InnerScale(zeta, sys.precond(d'), t.p);
    InnerScale(q, t.v, t.p);
    InnerScale(zeta, sys.precond(d'), d');
    InnerScale(q, t.v, d');
    ParallelScalars(zeta, c, s, q);
  }

  lemma TwiceScaled(a: real, b: real, x: seq<real>)
    ensures Scale(a, Scale(b, x)) == Scale(Mul(a, b), x)
  {
    var l, r := Scale(a, Scale(b, x)), Scale(Mul(a, b), x);
    forall i | 0 <= i < |x| ensures l[i] == r[i] { Associates(a, b, x[i]); }
  }

  lemma Associates(a: real, b: real, x: real)
    ensures a * (b * x) == Mul(a, b) * x
  {
  }

  /** An exact estimate with a live right vector forces a vanishing factor. */
  lemma ExactForces(sys: System, b: seq<real>, h: seq<Basis>, t: Basis, st: Scalars, it: Iterate, z: Directions, d: seq<real>)
    requires |b| == sys.m && |it.x| == |d| == |t.v| == |t.p| == sys.n
    requires Operators(sys) && Geometry(sys, b, h + [t], st, it, z) && TracksX(sys, b, st, it, z)
    requires t.alpha > 0.0 && Inner(t.v, d) == 0.0 && z.d == Comb(-st.sBar, d, st.cBar, t.p)
    requires Mul(st.cBar, st.cBar) + Mul(st.sBar, st.sBar) == 1.0 && st.phiBar != 0.0
    requires Mul(st.phiBar, st.phiBar) == ResidualEnergy(sys, b, it.x)
    ensures Mul(Mul(st.phiBar, st.alphaBar), Mul(st.sBar, st.sBar)) == 0.0
  {
    hide Mul;
    hide Operators;
    hide Inner;
    hide Run;
    hide Located;
    var g := h + [t];
    assert g[|g| - 1] == t;
    RunNormalized(sys, b, g, |h|);
    GeometrySized(sys, b, g, st, it, z);
    SizedApply(sys, it.x);
    var r := Comb(1.0, b, -1.0, sys.apply(it.x));
    ResidualAlongW(sys, b, g, st, it, z);
    ShortIsParallel(r, z.w, st.phiBar);
    AdjointScale(sys, st.phiBar, z.w);
    PrecondScale(sys, st.phiBar, sys.adjoint(z.w));
    TwiceScaled(st.phiBar, st.alphaBar, t.v);
    ParallelDirections(sys, t, d, z.d, st.zetaBar, Mul(st.phiBar, st.alphaBar), st.cBar, st.sBar);
  }

  lemma ThreeNonzero(a: real, b: real, s: real)
    requires a != 0.0 && b != 0.0 && s != 0.0
    ensures Mul(Mul(a, b), Mul(s, s)) != 0.0
  {
    ProductNonzero(a, b);
    ProductNonzero(s, s);
    ProductNonzero(Mul(a, b), Mul(s, s));
  }

  /** With exact quotients the estimate is the residual norm of the new iterate exactly when the
      step broke down; while the run goes on the residual is strictly larger. */
  lemma ResidualExactIff(sys: System, b: seq<real>, h: seq<Basis>, t: Basis, st: Scalars, it: Iterate, z: Directions, d: seq<real>)
    requires |b| == sys.m && |it.x| == |d| == |t.v| == |t.p| == sys.n
    requires Operators(sys) && Geometry(sys, b, h + [t], st, it, z) && TracksX(sys, b, st, it, z)
    requires LsqrReaches(sys, b, st, z) && t.alpha >= 0.0
    requires t.alpha == 0.0 ==> st.zetaBar == 0.0
    requires t.alpha > 0.0 ==> st.phiBar != 0.0 && st.alphaBar != 0.0 && st.sBar != 0.0
    requires Inner(t.v, d) == 0.0 && z.d == Comb(-st.sBar, d, st.cBar, t.p)
    requires Mul(st.cBar, st.cBar) + Mul(st.sBar, st.sBar) == 1.0
    ensures Mul(st.phiBar, st.phiBar) <= ResidualEnergy(sys, b, it.x)
    ensures Mul(st.phiBar, st.phiBar) == ResidualEnergy(sys, b, it.x) <==> t.alpha == 0.0
  {
    hide Operators;
    hide Inner;
    hide Geometry;
    hide TracksX;
    hide LsqrReaches;
    hide ResidualEnergy;
    hide Mul;
    GeometrySized(sys, b, h + [t], st, it, z);
    EstimateBelow(sys, b, h + [t], st, it, z);
    if t.alpha == 0.0 {
      BreakdownIsExact(sys, b, h + [t], st, it, z);
    } else {
      ThreeNonzero(st.phiBar, st.alphaBar, st.sBar);
      if Mul(st.phiBar, st.phiBar) == ResidualEnergy(sys, b, it.x) { ExactForces(sys, b, h, t, st, it, z, d); }
    }
  }

  lemma EstimateBelow(sys: System, b: seq<real>, h: seq<Basis>, st: Scalars, it: Iterate, z: Directions)
    requires Operators(sys) && Geometry(sys, b, h, st, it, z) && |it.x| == sys.n
    ensures |b| == sys.m && Mul(st.phiBar, st.phiBar) <= ResidualEnergy(sys, b, it.x)
  {
    hide Operators;
    hide Inner;
    hide Geometry;
    GeometrySized(sys, b, h, st, it, z);
    ResidualAtLeastEstimate(sys, b, h, st, it, z);
  }
}
