/** Spans, unit directions, and what the two running estimates of LSMR measure
    (crates/schwarz-precond/src/lsmr/recurrence.rs:109-125). */
module Krylov {
  import opened Sums
  import opened Vectors
  import opened Bidiagonal
  import opened GolubKahan
  import opened Recurrence
  import opened NormalEquations

  // ---- Spans, seen from their orthogonal complements ---------------------------------------

  ghost predicate OrthogonalToAll(n: nat, basis: seq<seq<real>>, y: seq<real>)
    requires |y| == n
  {
    forall j :: 0 <= j < |basis| ==> |basis[j]| == n && Inner(basis[j], y) == 0.0
  }

  /** `x` is orthogonal to whatever the whole basis is orthogonal to. */
  ghost predicate Spanned(n: nat, basis: seq<seq<real>>, x: seq<real>) {
    |x| == n && forall y :: |y| == n && OrthogonalToAll(n, basis, y) ==> Inner(x, y) == 0.0
  }

  lemma SpannedUse(n: nat, basis: seq<seq<real>>, x: seq<real>, y: seq<real>)
    requires Spanned(n, basis, x) && |y| == n && OrthogonalToAll(n, basis, y)
    ensures Inner(x, y) == 0.0
  {
  }

  lemma SpannedMember(n: nat, basis: seq<seq<real>>, j: nat)
    requires j < |basis| && |basis[j]| == n
    ensures Spanned(n, basis, basis[j])
  {
    hide Inner;
  }

  lemma SpannedZeros(n: nat, basis: seq<seq<real>>)
    ensures Spanned(n, basis, Zeros(n))
  {
    hide Inner;
    forall y | |y| == n && OrthogonalToAll(n, basis, y) ensures Inner(Zeros(n), y) == 0.0 { InnerZeros(n, y); }
  }

  lemma SpannedComb(n: nat, basis: seq<seq<real>>, a: real, x: seq<real>, b: real, y: seq<real>)
    requires Spanned(n, basis, x) && Spanned(n, basis, y)
    ensures Spanned(n, basis, Comb(a, x, b, y))
  {
    hide Inner;
    forall q | |q| == n && OrthogonalToAll(n, basis, q) ensures Inner(Comb(a, x, b, y), q) == 0.0 {
      InnerComb(a, x, b, y, q);
    }
  }

  lemma SpannedGrows(n: nat, basis: seq<seq<real>>, e: seq<real>, x: seq<real>)
    requires Spanned(n, basis, x)
    ensures Spanned(n, basis + [e], x)
  {
    hide Inner;
    var more := basis + [e];
    forall y | |y| == n && OrthogonalToAll(n, more, y) ensures Inner(x, y) == 0.0 {
      forall j | 0 <= j < |basis| ensures |basis[j]| == n && Inner(basis[j], y) == 0.0 { assert basis[j] == more[j]; }
      SpannedUse(n, basis, x, y);
    }
  }

  function Us(h: seq<Basis>): (r: seq<seq<real>>)
    ensures |r| == |h|
  {
    seq(|h|, i requires 0 <= i < |h| => h[i].u)
  }

  function Vs(h: seq<Basis>): (r: seq<seq<real>>)
    ensures |r| == |h|
  {
    seq(|h|, i requires 0 <= i < |h| => h[i].v)
  }

  function Ps(h: seq<Basis>): (r: seq<seq<real>>)
    ensures |r| == |h|
  {
    seq(|h|, i requires 0 <= i < |h| => h[i].p)
  }

  lemma ListsGrow(h: seq<Basis>, t: Basis)
    ensures Us(h + [t]) == Us(h) + [t.u] && Vs(h + [t]) == Vs(h) + [t.v] && Ps(h + [t]) == Ps(h) + [t.p]
  {
  }

  /** The new triple is orthogonal to the run in every pairing. */
  lemma NewOrthogonal(sys: System, b: seq<real>, h: seq<Basis>, t: Basis)
    requires Operators(sys) && Run(sys, b, h) && Run(sys, b, h + [t])
    ensures Sized(sys, t)
    ensures OrthogonalToAll(sys.m, Us(h), t.u) && OrthogonalToAll(sys.n, Vs(h), t.p) && OrthogonalToAll(sys.n, Ps(h), t.v)
  {
    hide Operators;
    hide Inner;
    hide Run;
    RunNonempty(sys, b, h);
    RunOrthogonal(sys, b, h);
    RunStep(sys, b, h + [t], |h|);
    RunNormalized(sys, b, h + [t], |h|);
    forall j | 0 <= j < |h|
      ensures |Us(h)[j]| == sys.m && Inner(Us(h)[j], t.u) == 0.0
      ensures |Vs(h)[j]| == |Ps(h)[j]| == sys.n && Inner(Vs(h)[j], t.p) == 0.0 && Inner(Ps(h)[j], t.v) == 0.0
    {
      NextOrthogonal(sys, b, h, t, j);
      InnerComm(t.v, h[j].p);
    }
  }

  // ---- The invariant -----------------------------------------------------------------------

  /** Where the vectors live: the iterate one direction behind the run. */
  ghost predicate Located(sys: System, h: seq<Basis>, it: Iterate, z: Directions)
    requires |h| > 0
  {
    && Spanned(sys.n, Vs(h[..|h| - 1]), it.x) && Spanned(sys.n, Vs(h[..|h| - 1]), it.hBar)
    && Spanned(sys.n, Vs(h), it.h) && Spanned(sys.m, Us(h), z.w) && Spanned(sys.n, Ps(h), z.d)
  }

  /** The directions have unit length until their scalar has vanished. */
  ghost predicate UnitDirections(sys: System, st: Scalars, z: Directions) {
    && |z.d| == |sys.precond(z.d)| == sys.n
    && (Inner(z.w, z.w) == 1.0 || st.phiBar == 0.0)
    && (Inner(sys.precond(z.d), z.d) == 1.0 || st.zetaBar == 0.0)
  }

  ghost predicate Geometry(sys: System, b: seq<real>, h: seq<Basis>, st: Scalars, it: Iterate, z: Directions) {
    && Run(sys, b, h) && |b| == |z.w| == sys.m && Located(sys, h, it, z) && TracksW(sys, h[|h| - 1], st, z)
    && Inner(b, z.w) == st.phiBar && UnitDirections(sys, st, z)
  }

  lemma LocatedStep(sys: System, b: seq<real>, h: seq<Basis>, t: Basis, it: Iterate, z: Directions, hat: Givens, bar: Givens, k: Coefficients)
    requires |h| > 0 && Sized(sys, t) && Located(sys, h, it, z)
    ensures Located(sys, h + [t], Updated(it, t.v, k), NextDirections(z, t, hat, bar))
  {
    hide Inner;
    hide Spanned;
    var g, o := h + [t], h[..|h| - 1];
    assert g[..|g| - 1] == h && h == o + [h[|h| - 1]];
    ListsGrow(o, h[|h| - 1]);
    ListsGrow(h, t);
    SpannedSizes(sys, h, it, z);
    SpannedGrows(sys.n, Vs(o), h[|h| - 1].v, it.x);
    SpannedGrows(sys.n, Vs(o), h[|h| - 1].v, it.hBar);
    SpannedComb(sys.n, Vs(h), 1.0, it.h, -k.thbar, it.hBar);
    SpannedComb(sys.n, Vs(h), 1.0, it.x, k.tx, Comb(1.0, it.h, -k.thbar, it.hBar));
    SpannedGrows(sys.n, Vs(h), t.v, it.h);
    SpannedMember(sys.n, Vs(g), |h|);
    SpannedComb(sys.n, Vs(g), 1.0, t.v, -k.th, it.h);
    SpannedGrows(sys.m, Us(h), t.u, z.w);
    SpannedMember(sys.m, Us(g), |h|);
    SpannedComb(sys.m, Us(g), hat.s, z.w, -hat.c, t.u);
    SpannedGrows(sys.n, Ps(h), t.p, z.d);
    SpannedMember(sys.n, Ps(g), |h|);
    SpannedComb(sys.n, Ps(g), -bar.s, z.d, bar.c, t.p);
  }

  lemma SpannedSizes(sys: System, h: seq<Basis>, it: Iterate, z: Directions)
    requires |h| > 0 && Located(sys, h, it, z)
    ensures |it.x| == |it.h| == |it.hBar| == |z.d| == sys.n && |z.w| == sys.m
  {
  }

  // ---- Norms -------------------------------------------------------------------------------

  lemma SquareScalars(a: real, b: real, x: real, y: real)
    requires x == 1.0 && y == 1.0 && Mul(a, a) + Mul(b, b) == 1.0
    ensures a * (a * x + b * 0.0) + b * (a * 0.0 + b * y) == 1.0
  {
  }

  /** A rotation of two orthogonal unit vectors. */
  lemma RotatedUnit(x: seq<real>, y: seq<real>, a: real, b: real)
    requires |x| == |y| && Inner(x, y) == 0.0 && Inner(x, x) == 1.0 && Inner(y, y) == 1.0
    requires Mul(a, a) + Mul(b, b) == 1.0
    ensures Inner(Comb(a, x, b, y), Comb(a, x, b, y)) == 1.0
  {
    hide Inner;
    var r := Comb(a, x, b, y);
    InnerComb(a, x, b, y, r);
    InnerCombRight(x, a, x, b, y);
    InnerCombRight(y, a, x, b, y);
    InnerComm(y, x);
    SquareScalars(a, b, Inner(x, x), Inner(y, y));
  }

  /** The same in the metric of the preconditioner. */
  lemma RotatedUnitPrecond(sys: System, x: seq<real>, y: seq<real>, a: real, b: real)
    requires Operators(sys) && |x| == |y| == sys.n && |sys.precond(x)| == |sys.precond(y)| == sys.n
    requires Inner(sys.precond(x), x) == 1.0 && Inner(sys.precond(y), y) == 1.0 && Inner(sys.precond(y), x) == 0.0
    requires Mul(a, a) + Mul(b, b) == 1.0
    ensures var r := Comb(a, x, b, y); |sys.precond(r)| == sys.n && Inner(sys.precond(r), r) == 1.0
  {
    hide Inner;
    hide Operators;
    var r := Comb(a, x, b, y);
    SizedPrecond(sys, r);
    PrecondComb(sys, a, x, b, y);
    InnerComb(a, sys.precond(x), b, sys.precond(y), r);
    InnerCombRight(sys.precond(x), a, x, b, y);
    InnerCombRight(sys.precond(y), a, x, b, y);
    SymmetricPair(sys, x, y);
    SquareScalars(a, b, Inner(sys.precond(x), x), Inner(sys.precond(y), y));
  }

  lemma NegatedSquare(x: real)
    ensures Mul(-x, -x) == Mul(x, x)
  {
  }

  lemma UnitWStep(sys: System, b: seq<real>, h: seq<Basis>, t: Basis, z: Directions, st: Scalars, hat: Givens)
    requires Operators(sys) && Run(sys, b, h) && Run(sys, b, h + [t]) && Spanned(sys.m, Us(h), z.w) && Sized(sys, t)
    requires Rotates(hat, st.alphaBar, t.beta) && (Inner(z.w, z.w) == 1.0 || st.phiBar == 0.0)
    ensures Inner(Comb(hat.s, z.w, -hat.c, t.u), Comb(hat.s, z.w, -hat.c, t.u)) == 1.0 || Mul(hat.s, st.phiBar) == 0.0
  {
    hide Inner;
    hide Operators;
    hide Run;
    hide Spanned;
    hide Mul;
    NewOrthogonal(sys, b, h, t);
    SpannedSizesOf(sys.m, Us(h), z.w);
    SpannedUse(sys.m, Us(h), z.w, t.u);
    RunNormalized(sys, b, h + [t], |h|);
    NegatedSquare(hat.c);
    ZeroTimes(hat.s, st.phiBar);
    if t.beta == 0.0 {
      if hat.r != 0.0 { ZeroFactor(hat.s, hat.r); }
    } else if Inner(z.w, z.w) == 1.0 {
      RotatedUnit(z.w, t.u, hat.s, -hat.c);
    }
  }

  lemma SpannedSizesOf(n: nat, basis: seq<seq<real>>, x: seq<real>)
    requires Spanned(n, basis, x)
    ensures |x| == n
  {
  }

  lemma UnitDStep(sys: System, b: seq<real>, h: seq<Basis>, t: Basis, z: Directions, st: Scalars, hs: real, diagonal: real, bar: Givens)
    requires Operators(sys) && Run(sys, b, h) && Run(sys, b, h + [t]) && Spanned(sys.n, Ps(h), z.d) && Sized(sys, t)
    requires Rotates(bar, diagonal, Mul(hs, t.alpha))
    requires |z.d| == |sys.precond(z.d)| == sys.n && (Inner(sys.precond(z.d), z.d) == 1.0 || st.zetaBar == 0.0)
    ensures var d := Comb(-bar.s, z.d, bar.c, t.p);
      |sys.precond(d)| == sys.n && (Inner(sys.precond(d), d) == 1.0 || Mul(-bar.s, st.zetaBar) == 0.0)
  {
    hide Inner;
    hide Operators;
    hide Run;
    hide Spanned;
    hide Mul;
    SizedPrecond(sys, Comb(-bar.s, z.d, bar.c, t.p));
    NewOrthogonal(sys, b, h, t);
    SpannedUse(sys.n, Ps(h), z.d, t.v);
    InnerComm(z.d, t.v);
    RunNormalized(sys, b, h + [t], |h|);
    NegatedSquare(bar.s);
    ZeroTimes(-bar.s, st.zetaBar);
    ZeroTimes(hs, t.alpha);
    if t.alpha == 0.0 {
      if bar.r != 0.0 { ZeroFactor(bar.s, bar.r); }
    } else if Inner(sys.precond(z.d), z.d) == 1.0 {
      RotatedUnitPrecond(sys, z.d, t.p, -bar.s, bar.c);
    }
  }

  /** b sees only the first left vector. */
  lemma RhsAgainstNew(sys: System, b: seq<real>, h: seq<Basis>, t: Basis)
    requires Operators(sys) && Run(sys, b, h) && Run(sys, b, h + [t])
    ensures |b| == |t.u| && Inner(b, t.u) == 0.0
  {
    hide Inner;
    hide Operators;
    NewOrthogonal(sys, b, h, t);
    assert Us(h)[0] == h[0].u;
    InnerScale(h[0].beta, h[0].u, t.u);
  }

  lemma PhiStep(b: seq<real>, w: seq<real>, u: seq<real>, phi: real, c: real, s: real)
    requires |b| == |w| == |u| && Inner(b, w) == phi && Inner(b, u) == 0.0
    ensures Inner(b, Comb(s, w, -c, u)) == Mul(s, phi)
  {
    hide Inner;
    InnerCombRight(b, s, w, -c, u);
  }

  /** One iteration keeps the geometry, whatever the guards of the update decide. */
  lemma GeometryStep(sys: System, b: seq<real>, h: seq<Basis>, t: Basis, st: Scalars, it: Iterate, z: Directions,
                     hat: Givens, bar: Givens, st': Scalars, r: RotationStep, k: Coefficients)
    requires Operators(sys) && Geometry(sys, b, h, st, it, z) && Run(sys, b, h + [t]) && Sized(sys, t)
    requires AdvancedBy(st, BidiagStep(t.alpha, t.beta), hat, bar, st', r)
    requires |it.x| == |it.h| == |it.hBar| == |z.d| == |z.e| == sys.n
    ensures Geometry(sys, b, h + [t], st', Updated(it, t.v, k), NextDirections(z, t, hat, bar))
  {
    hide Inner;
    hide Operators;
    hide Run;
    hide Spanned;
    hide Mul;
    hide Rotates;
    RunNonempty(sys, b, h);
    RunStep(sys, b, h + [t], |h|);
    RunNormalized(sys, b, h, |h| - 1);
    LocatedStep(sys, b, h, t, it, z, hat, bar, k);
    TracksWStep(sys, h[|h| - 1], t, st, z, hat, bar, st');
    UnitWStep(sys, b, h, t, z, st, hat);
    UnitDStep(sys, b, h, t, z, st, hat.s, Mul(st.cBar, hat.r), bar);
    RhsAgainstNew(sys, b, h, t);
    PhiStep(b, z.w, t.u, st.phiBar, hat.c, hat.s);
  }

  // ---- What the estimates measure ----------------------------------------------------------

  /** Energy of A^T (b - A x) in the metric of the preconditioner. */
  ghost function NormalEnergy(sys: System, b: seq<real>, x: seq<real>): real
    requires Operators(sys) && |b| == sys.m && |x| == sys.n
  {
    SizedApply(sys, x);
    SizedAdjoint(sys, Comb(1.0, b, -1.0, sys.apply(x)));
    var g := NormalResidual(sys, b, x);
    SizedPrecond(sys, g);
    Inner(sys.precond(g), g)
  }

  /** The squared residual norm. */
  ghost function ResidualEnergy(sys: System, b: seq<real>, x: seq<real>): real
    requires Operators(sys) && |b| == sys.m && |x| == sys.n
  {
    SizedApply(sys, x);
    var r := Comb(1.0, b, -1.0, sys.apply(x));
    Inner(r, r)
  }

  /** The LSQR-side estimate never exceeds the true residual norm of the iterate. */
  lemma ResidualAtLeastEstimate(sys: System, b: seq<real>, h: seq<Basis>, st: Scalars, it: Iterate, z: Directions)
    requires Operators(sys) && Geometry(sys, b, h, st, it, z)
    ensures |sys.apply(it.x)| == |b|
    ensures var r := Comb(1.0, b, -1.0, sys.apply(it.x)); st.phiBar * st.phiBar <= Inner(r, r)
  {
    hide Inner;
    hide Operators;
    hide Run;
    hide Spanned;
    RunNonempty(sys, b, h);
    SpannedSizes(sys, h, it, z);
    SizedApply(sys, it.x);
    var r := Comb(1.0, b, -1.0, sys.apply(it.x));
    ResidualAlongW(sys, b, h, st, it, z);
    if Inner(z.w, z.w) == 1.0 {
      UnitProjection(r, z.w);
    } else {
      SelfNonneg(r);
    }
  }

  lemma ResidualAlongW(sys: System, b: seq<real>, h: seq<Basis>, st: Scalars, it: Iterate, z: Directions)
    requires Operators(sys) && Geometry(sys, b, h, st, it, z)
    ensures |sys.apply(it.x)| == |b| == |z.w|
    ensures Inner(Comb(1.0, b, -1.0, sys.apply(it.x)), z.w) == st.phiBar
  {
    hide Inner;
    hide Operators;
    hide Run;
    hide Spanned;
    RunNonempty(sys, b, h);
    SpannedSizes(sys, h, it, z);
    SizedApply(sys, it.x);
    var s := h[|h| - 1];
    RunNormalized(sys, b, h, |h| - 1);
    AdjointPair(sys, it.x, z.w);
    PrecondScale(sys, st.alphaBar, s.p);
    var y := Comb(1.0, sys.adjoint(z.w), -st.alphaBar, s.p);
    PrecondComb(sys, 1.0, sys.adjoint(z.w), -st.alphaBar, s.p);
    Cancels(st.alphaBar, s.v);
    SpannedPrefix(sys.n, h, it.x);
    UnseenIsOrthogonal(sys, b, h, y);
    SpannedUse(sys.n, Vs(h), it.x, y);
    InnerCombRight(it.x, 1.0, sys.adjoint(z.w), -st.alphaBar, s.p);
    IterateBehind(sys, b, h, it, z);
    InnerComb(1.0, b, -1.0, sys.apply(it.x), z.w);
  }

  lemma Cancels(a: real, v: seq<real>)
    ensures Comb(1.0, Scale(a, v), -a, v) == Zeros(|v|)
  {
  }

  lemma SpannedPrefix(n: nat, h: seq<Basis>, x: seq<real>)
    requires |h| > 0 && Spanned(n, Vs(h[..|h| - 1]), x)
    ensures Spanned(n, Vs(h), x)
  {
    hide Spanned;
    var o, t := h[..|h| - 1], h[|h| - 1];
    assert h == o + [t];
    ListsGrow(o, t);
    SpannedGrows(n, Vs(o), t.v, x);
  }

  /** What the preconditioner does not see is orthogonal to every right vector. */
  lemma UnseenIsOrthogonal(sys: System, b: seq<real>, h: seq<Basis>, y: seq<real>)
    requires Operators(sys) && Run(sys, b, h) && |y| == sys.n && sys.precond(y) == Zeros(sys.n)
    ensures OrthogonalToAll(sys.n, Vs(h), y)
  {
    hide Operators;
    hide Inner;
    hide Run;
    forall j | 0 <= j < |h| ensures |Vs(h)[j]| == sys.n && Inner(Vs(h)[j], y) == 0.0 {
      RunNormalized(sys, b, h, j);
      SymmetricPair(sys, h[j].p, y);
      InnerZeros(sys.n, h[j].p);
    }
  }

  lemma IterateBehind(sys: System, b: seq<real>, h: seq<Basis>, it: Iterate, z: Directions)
    requires Operators(sys) && Run(sys, b, h) && |h| > 0 && Located(sys, h, it, z)
    ensures |h[|h| - 1].p| == |it.x| == sys.n && Inner(it.x, h[|h| - 1].p) == 0.0
  {
    hide Inner;
    hide Operators;
    hide Spanned;
    var k := |h| - 1;
    var o := h[..k];
    SpannedSizes(sys, h, it, z);
    RunNormalized(sys, b, h, k);
    if k > 0 {
      RunPrefix(sys, b, h, k);
      assert h == o + [h[k]];
      NewOrthogonal(sys, b, o, h[k]);
    }
    SpannedUse(sys.n, Vs(o), it.x, h[k].p);
  }

  lemma EnergyScalars(a: real, q: real)
    requires q == 1.0 || a == 0.0
    ensures a * (a * q) == a * a
  {
  }

  /** Once the tracked identity holds, the normal-equation estimate is exact: its square is the
      energy of A^T (b - A x) in the metric of the preconditioner. */
  lemma NormalEstimateExact(sys: System, b: seq<real>, h: seq<Basis>, st: Scalars, it: Iterate, z: Directions)
    requires Operators(sys) && Geometry(sys, b, h, st, it, z) && TracksX(sys, b, st, it, z)
    ensures var g := NormalResidual(sys, b, it.x);
      |sys.precond(g)| == |g| && Inner(sys.precond(g), g) == st.zetaBar * st.zetaBar
  {
    hide Inner;
    hide Operators;
    hide Run;
    hide Spanned;
    var g := NormalResidual(sys, b, it.x);
    SymmetricPair(sys, z.d, g);
    InnerScale(st.zetaBar, sys.precond(z.d), g);
    InnerScale(st.zetaBar, sys.precond(z.d), z.d);
    EnergyScalars(st.zetaBar, Inner(sys.precond(z.d), z.d));
  }
}
