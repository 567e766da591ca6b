/** The solution recurrence, and the identity it keeps: the normal-equation residual of the
    iterate is the tracked scalar times a tracked direction
    (crates/schwarz-precond/src/lsmr/recurrence.rs:128-209). */
module NormalEquations {
  import opened Sums
  import opened Vectors
  import opened VectorKernels
  import opened Bidiagonal
  import opened GolubKahan
  import opened Recurrence

  /** A quotient whose denominator must clear an absolute guard. */
  function Guarded(epsilon: real, x: real, den: real): real
    requires epsilon >= 0.0
  {
    if Abs(den) > epsilon then x / den else 0.0
  }

  datatype Coefficients = Coefficients(tx: real, thbar: real, th: real)

  function CoefficientsOf(epsilon: real, curr: RotationStep, prev: RotationStep): Coefficients
    requires epsilon >= 0.0
  {
    Coefficients(
      Guarded(epsilon, curr.zeta, Mul(curr.rho, curr.rhoBar)),
      Guarded(epsilon, Mul(curr.thetaBar, curr.rho), Mul(prev.rho, prev.rhoBar)),
      Guarded(epsilon, curr.thetaNew, curr.rho))
  }

  datatype Iterate = Iterate(x: seq<real>, h: seq<real>, hBar: seq<real>)

  /** One `(x, h, h-bar)` step. */
  ghost function Updated(it: Iterate, v: seq<real>, k: Coefficients): Iterate
    requires |it.x| == |it.h| == |it.hBar| == |v|
  {
    var hBar := Comb(1.0, it.h, -k.thbar, it.hBar);
    Iterate(Comb(1.0, it.x, k.tx, hBar), Comb(1.0, v, -k.th, it.h), hBar)
  }

  class SolutionState {
    const x: array<real>
    const h: array<real>
    const hBar: array<real>

    ghost predicate Valid() {
      && x.Length == h.Length == hBar.Length && x != h && x != hBar && h != hBar
    }

    ghost function Value(): Iterate
      reads x, h, hBar
    {
      Iterate(x[..], h[..], hBar[..])
    }

    constructor (v1: seq<real>)
      ensures Valid() && fresh(x) && fresh(h) && fresh(hBar)
      ensures Value() == Iterate(Zeros(|v1|), v1, Zeros(|v1|))
    {
      x, hBar := new real[|v1|](_ => 0.0), new real[|v1|](_ => 0.0);
      h := new real[|v1|](i requires 0 <= i < |v1| => v1[i]);
    }

    /** The fused sweep: every entry of `h-bar`, `x` and `h` from the old entries of its index. */
    method Update(v: seq<real>, curr: RotationStep, prev: RotationStep, epsilon: real)
      requires Valid() && |v| == x.Length && epsilon >= 0.0
      modifies x, h, hBar
      ensures Value() == Updated(old(Value()), v, CoefficientsOf(epsilon, curr, prev))
    {
      var Coefficients(tx, thbar, th) := CoefficientsOf(epsilon, curr, prev);
      ghost var was := Value();
      ghost var new' := Updated(was, v, Coefficients(tx, thbar, th));
      var n := x.Length;
      for i := 0 to n
        invariant Rewritten(x[..], new'.x, was.x, i)
        invariant Rewritten(h[..], new'.h, was.h, i)
        invariant Rewritten(hBar[..], new'.hBar, was.hBar, i)
      {
        var hOld := h[i];
        var hb := hOld - thbar * hBar[i];
        assert new'.hBar[i] == hb;
        hBar[i] := hb;
        assert new'.x[i] == x[i] + tx * hb;
        x[i] := x[i] + tx * hb;
        assert new'.h[i] == v[i] - th * hOld;
        h[i] := v[i] - th * hOld;
      }
      assert x[..] == new'.x && h[..] == new'.h && hBar[..] == new'.hBar;
    }
  }

  // ---- The tracked directions --------------------------------------------------------------

  /** `w` spans what is left of the left space, `d` and `e` the two LSMR directions. */
  datatype Directions = Directions(w: seq<real>, d: seq<real>, e: seq<real>)

  ghost predicate Shaped(sys: System, b: seq<real>, it: Iterate, z: Directions) {
    && |b| == |z.w| == sys.m && |z.d| == |z.e| == |it.x| == |it.h| == |it.hBar| == sys.n
    && |sys.apply(it.h)| == |sys.apply(it.hBar)| == |sys.apply(it.x)| == sys.m
  }

  /** A^T (b - A x) */
  ghost function NormalResidual(sys: System, b: seq<real>, x: seq<real>): seq<real>
    requires |b| == |sys.apply(x)|
  {
    sys.adjoint(Comb(1.0, b, -1.0, sys.apply(x)))
  }

  /** A h = A v + alpha-bar w - alpha u */
  ghost predicate TracksH(sys: System, s: Basis, st: Scalars, it: Iterate, z: Directions) {
    && |sys.apply(s.v)| == |z.w| == |s.u|
    && sys.apply(it.h) == Comb(1.0, Comb(1.0, sys.apply(s.v), st.alphaBar, z.w), -s.alpha, s.u)
  }

  // The identities below hold as far as the preconditioner sees.

  /** A^T w = alpha-bar p */
  ghost predicate TracksW(sys: System, s: Basis, st: Scalars, z: Directions) {
    |sys.adjoint(z.w)| == sys.n && sys.precond(sys.adjoint(z.w)) == Scale(st.alphaBar, s.v)
  }

  /** A^T A h-bar = (rho rho-bar) e */
  ghost predicate TracksHBar(sys: System, prev: RotationStep, it: Iterate, z: Directions) {
    && |sys.adjoint(sys.apply(it.hBar))| == |sys.precond(z.e)| == sys.n
    && sys.precond(sys.adjoint(sys.apply(it.hBar))) == Scale(Mul(prev.rho, prev.rhoBar), sys.precond(z.e))
  }

  /** p = s-bar e + c-bar d */
  ghost predicate TracksP(s: Basis, st: Scalars, z: Directions) {
    |z.e| == |z.d| && s.p == Comb(st.sBar, z.e, st.cBar, z.d)
  }

  /** A^T (b - A x) = zeta-bar d */
  ghost predicate TracksX(sys: System, b: seq<real>, st: Scalars, it: Iterate, z: Directions) {
    && |b| == |sys.apply(it.x)| && |NormalResidual(sys, b, it.x)| == |sys.precond(z.d)| == sys.n
    && sys.precond(NormalResidual(sys, b, it.x)) == Scale(st.zetaBar, sys.precond(z.d))
  }

  ghost predicate Tracks(sys: System, b: seq<real>, s: Basis, st: Scalars, prev: RotationStep, it: Iterate, z: Directions) {
    && Normalized(sys, s) && Shaped(sys, b, it, z)
    && TracksH(sys, s, st, it, z) && TracksW(sys, s, st, z) && TracksHBar(sys, prev, it, z)
    && TracksP(s, st, z) && TracksX(sys, b, st, it, z)
  }

  ghost function NextDirections(z: Directions, t: Basis, hat: Givens, bar: Givens): Directions
    requires |z.w| == |t.u| && |z.d| == |t.p|
  {
    Directions(Comb(hat.s, z.w, -hat.c, t.u), Comb(-bar.s, z.d, bar.c, t.p), Comb(bar.c, z.d, bar.s, t.p))
  }

  // ---- Vector identities, entry by entry ---------------------------------------------------

  lemma HImage(ah: seq<real>, av: seq<real>, u: seq<real>, u': seq<real>, w: seq<real>, alpha: real, beta: real, ab: real)
    requires |av| == |u| == |u'| == |w|
    requires ah == Comb(1.0, Comb(1.0, av, ab, w), -alpha, u) && av == Comb(alpha, u, beta, u')
    ensures ah == Comb(ab, w, beta, u')
  {
    var r := Comb(ab, w, beta, u');
    forall i | 0 <= i < |r| ensures ah[i] == r[i] {
      assert ah[i] == 1.0 * (1.0 * av[i] + ab * w[i]) + (-alpha) * u[i];
      assert av[i] == alpha * u[i] + beta * u'[i];
      HScalars(alpha, u[i]);
    }
  }

  lemma HScalars(alpha: real, u: real)
    ensures (-alpha) * u == -(alpha * u)
  {
  }

  /** ab (ab p) + beta (beta p + alpha' p') = rr p + rt p' */
  lemma NormalOfH(p: seq<real>, p': seq<real>, ab: real, beta: real, alpha': real, rr: real, rt: real)
    requires |p| == |p'| && rr == Mul(ab, ab) + Mul(beta, beta) && rt == Mul(beta, alpha')
    ensures Comb(ab, Scale(ab, p), beta, Comb(beta, p, alpha', p')) == Comb(rr, p, rt, p')
  {
    var l, r := Comb(ab, Scale(ab, p), beta, Comb(beta, p, alpha', p')), Comb(rr, p, rt, p');
    forall i | 0 <= i < |l| ensures l[i] == r[i] {
      NormalScalars(ab, beta, alpha', p[i], p'[i]);
    }
  }

  lemma NormalScalars(a: real, b: real, c: real, p: real, q: real)
    ensures a * (a * p) + b * (b * p + c * q) == (Mul(a, a) + Mul(b, b)) * p + Mul(b, c) * q
  {
  }

  lemma HBarScalars(rr: real, sB: real, cB: real, e: real, d: real, rt: real, q: real, th: real, r: real, r': real, c: real, s: real)
    requires Mul(th, r) == Mul(sB, rr) && Mul(r', c) == Mul(cB, rr) && Mul(r', s) == rt
    ensures (rr * (sB * e + cB * d) + rt * q) + (-th) * (r * e) == r' * (c * d + s * q)
  {
    MulEq(e, Mul(th, r), Mul(sB, rr));
    MulEq(d, Mul(r', c), Mul(cB, rr));
    MulEq(q, Mul(r', s), rt);
    assert rr * (sB * e + cB * d) == Mul(sB, rr) * e + Mul(cB, rr) * d;
    assert th * (r * e) == Mul(th, r) * e;
    assert r' * (c * d + s * q) == Mul(r', c) * d + Mul(r', s) * q;
  }

  /** N h-bar' = N h - th (r e), with N h = rr p + rt p' and p = s-bar e + c-bar d. */
  lemma NormalOfHBar(p: seq<real>, p': seq<real>, e: seq<real>, d: seq<real>, rr: real, rt: real, sB: real, cB: real,
                     th: real, r: real, r': real, c: real, s: real)
    requires |p| == |p'| == |e| == |d| && p == Comb(sB, e, cB, d)
    requires Mul(th, r) == Mul(sB, rr) && Mul(r', c) == Mul(cB, rr) && Mul(r', s) == rt
    ensures Comb(1.0, Comb(rr, p, rt, p'), -th, Scale(r, e)) == Scale(r', Comb(c, d, s, p'))
  {
    var x, y := Comb(1.0, Comb(rr, p, rt, p'), -th, Scale(r, e)), Scale(r', Comb(c, d, s, p'));
    forall i | 0 <= i < |x| ensures x[i] == y[i] {
      HBarScalars(rr, sB, cB, e[i], d[i], rt, p'[i], th, r, r', c, s);
      assert p[i] == sB * e[i] + cB * d[i];
      assert x[i] == 1.0 * (rr * p[i] + rt * p'[i]) + (-th) * (r * e[i]);
    }
  }

  lemma XScalars(z: real, d: real, q: real, tx: real, r: real, c: real, s: real)
    requires Mul(tx, r) == Mul(c, z) && Mul(c, c) + Mul(s, s) == 1.0
    ensures z * d + (-tx) * (r * (c * d + s * q)) == Mul(-s, z) * (-s * d + c * q)
  {
    var y := c * d + s * q;
    MulEq(y, Mul(tx, r), Mul(c, z));
    assert tx * (r * y) == Mul(tx, r) * y;
    MulEq(z * d, Mul(c, c) + Mul(s, s), 1.0);
    XExpanded(z, d, q, c, s);
  }

  lemma XExpanded(z: real, d: real, q: real, c: real, s: real)
    ensures (z * d) * (Mul(c, c) + Mul(s, s)) - Mul(c, z) * (c * d + s * q) == Mul(-s, z) * (-s * d + c * q)
  {
  }

  /** g' = zeta-bar d - tx (r e'), the next normal residual. */
  lemma NormalOfX(d: seq<real>, p': seq<real>, z: real, tx: real, r: real, c: real, s: real)
    requires |d| == |p'| && Mul(tx, r) == Mul(c, z) && Mul(c, c) + Mul(s, s) == 1.0
    ensures Comb(1.0, Scale(z, d), -tx, Scale(r, Comb(c, d, s, p'))) == Scale(Mul(-s, z), Comb(-s, d, c, p'))
  {
    var x, y := Comb(1.0, Scale(z, d), -tx, Scale(r, Comb(c, d, s, p'))), Scale(Mul(-s, z), Comb(-s, d, c, p'));
    hide Mul;
    forall i | 0 <= i < |x| ensures x[i] == y[i] {
      assert Comb(c, d, s, p')[i] == c * d[i] + s * p'[i] && Comb(-s, d, c, p')[i] == -s * d[i] + c * p'[i];
      XScalars(z, d[i], p'[i], tx, r, c, s);
    }
  }

  lemma PScalars(d: real, q: real, c: real, s: real)
    requires Mul(c, c) + Mul(s, s) == 1.0
    ensures s * (c * d + s * q) + c * (-s * d + c * q) == q
  {
    MulEq(q, Mul(c, c) + Mul(s, s), 1.0);
  }

  lemma NextP(d: seq<real>, p': seq<real>, c: real, s: real)
    requires |d| == |p'| && Mul(c, c) + Mul(s, s) == 1.0
    ensures p' == Comb(s, Comb(c, d, s, p'), c, Comb(-s, d, c, p'))
  {
    var x := Comb(s, Comb(c, d, s, p'), c, Comb(-s, d, c, p'));
    forall i | 0 <= i < |x| ensures p'[i] == x[i] { PScalars(d[i], p'[i], c, s); }
  }

  lemma WScalars(ab: real, b: real, a: real, p: real, q: real, c: real, s: real, r: real)
    requires ab == Mul(c, r) && b == Mul(s, r)
    ensures s * (ab * p) + (-c) * (b * p + a * q) == Mul(-c, a) * q
  {
    assert s * (ab * p) == (s * (c * r)) * p;
    assert c * (b * p) == (c * (s * r)) * p;
  }

  /** A^T w' = alpha-bar' p' */
  lemma AdjointOfW(p: seq<real>, p': seq<real>, ab: real, b: real, a: real, c: real, s: real, r: real)
    requires |p| == |p'| && ab == Mul(c, r) && b == Mul(s, r)
    ensures Comb(s, Scale(ab, p), -c, Comb(b, p, a, p')) == Scale(Mul(-c, a), p')
  {
    var x, y := Comb(s, Scale(ab, p), -c, Comb(b, p, a, p')), Scale(Mul(-c, a), p');
    forall i | 0 <= i < |x| ensures x[i] == y[i] { WScalars(ab, b, a, p[i], p'[i], c, s, r); }
  }

  lemma HNextScalars(ab: real, b: real, a: real, w: real, u: real, c: real, s: real, r: real, th: real)
    requires ab == Mul(c, r) && b == Mul(s, r) && Mul(th, r) == Mul(s, a) && Mul(c, c) + Mul(s, s) == 1.0
    ensures (-th) * (ab * w + b * u) == Mul(-c, a) * (s * w + (-c) * u) + (-a) * u
  {
    var y := c * w + s * u;
    assert ab * w + b * u == r * y;
    assert th * (r * y) == Mul(th, r) * y;
    MulEq(y, Mul(th, r), Mul(s, a));
    MulEq(a * u, Mul(c, c) + Mul(s, s), 1.0);
    HNextExpanded(a, w, u, c, s);
  }

  lemma HNextExpanded(a: real, w: real, u: real, c: real, s: real)
    ensures Mul(-c, a) * (s * w + (-c) * u) - (a * u) * (Mul(c, c) + Mul(s, s)) == -(Mul(s, a) * (c * w + s * u))
  {
  }

  /** A h' = A v' + alpha-bar' w' - alpha' u' */
  lemma NextH(ah: seq<real>, av': seq<real>, w: seq<real>, u': seq<real>, ab: real, b: real, a: real, c: real, s: real, r: real, th: real)
    requires |ah| == |av'| == |w| == |u'| && ah == Comb(ab, w, b, u')
    requires ab == Mul(c, r) && b == Mul(s, r) && Mul(th, r) == Mul(s, a) && Mul(c, c) + Mul(s, s) == 1.0
    ensures Comb(1.0, av', -th, ah) == Comb(1.0, Comb(1.0, av', Mul(-c, a), Comb(s, w, -c, u')), -a, u')
  {
    var x, y := Comb(1.0, av', -th, ah), Comb(1.0, Comb(1.0, av', Mul(-c, a), Comb(s, w, -c, u')), -a, u');
    forall i | 0 <= i < |x| ensures x[i] == y[i] {
      HNextScalars(ab, b, a, w[i], u'[i], c, s, r, th);
      assert ah[i] == ab * w[i] + b * u'[i];
    }
  }

  // ---- One iteration -----------------------------------------------------------------------

  /** The three quotients taken in full. */
  ghost predicate Exact(k: Coefficients, r: RotationStep, prev: RotationStep) {
    && Mul(k.tx, Mul(r.rho, r.rhoBar)) == r.zeta
    && Mul(k.thbar, Mul(prev.rho, prev.rhoBar)) == Mul(r.thetaBar, r.rho)
    && Mul(k.th, r.rho) == r.thetaNew
  }

  /** `A h` over the new left vector. */
  lemma HOver(sys: System, b: seq<real>, s: Basis, t: Basis, st: Scalars, it: Iterate, z: Directions)
    requires Next(sys, s, t) && Shaped(sys, b, it, z) && TracksH(sys, s, st, it, z)
    ensures |t.u| == sys.m && sys.apply(it.h) == Comb(st.alphaBar, z.w, t.beta, t.u)
  {
    HImage(sys.apply(it.h), sys.apply(s.v), s.u, t.u, z.w, s.alpha, t.beta, st.alphaBar);
  }

  lemma TracksHStep(sys: System, b: seq<real>, s: Basis, t: Basis, st: Scalars, it: Iterate, z: Directions,
                    hat: Givens, bar: Givens, st': Scalars, k: Coefficients)
    requires Operators(sys) && Next(sys, s, t) && Shaped(sys, b, it, z) && TracksH(sys, s, st, it, z)
    requires Rotates(hat, st.alphaBar, t.beta) && st'.alphaBar == Mul(-hat.c, t.alpha) && Mul(k.th, hat.r) == Mul(hat.s, t.alpha)
    ensures TracksH(sys, t, st', Updated(it, t.v, k), NextDirections(z, t, hat, bar))
  {
    hide Operators;
    hide Inner;
    hide Mul;
    HOver(sys, b, s, t, st, it, z);
    ApplyComb(sys, 1.0, t.v, -k.th, it.h);
    NextH(sys.apply(it.h), sys.apply(t.v), z.w, t.u, st.alphaBar, t.beta, t.alpha, hat.c, hat.s, hat.r, k.th);
  }

  lemma TracksWStep(sys: System, s: Basis, t: Basis, st: Scalars, z: Directions, hat: Givens, bar: Givens, st': Scalars)
    requires Operators(sys) && Next(sys, s, t) && |z.w| == sys.m && |z.d| == sys.n && TracksW(sys, s, st, z)
    requires Rotates(hat, st.alphaBar, t.beta) && st'.alphaBar == Mul(-hat.c, t.alpha)
    ensures TracksW(sys, t, st', NextDirections(z, t, hat, bar))
  {
    hide Operators;
    hide Inner;
    hide Mul;
    AdjointComb(sys, hat.s, z.w, -hat.c, t.u);
    PrecondComb(sys, hat.s, sys.adjoint(z.w), -hat.c, sys.adjoint(t.u));
    AdjointOfW(s.v, t.v, st.alphaBar, t.beta, t.alpha, hat.c, hat.s, hat.r);
  }

  /** A^T A h = rho (rho p + theta p') */
  lemma NormalH(sys: System, b: seq<real>, s: Basis, t: Basis, st: Scalars, it: Iterate, z: Directions)
    requires Operators(sys) && Next(sys, s, t) && Shaped(sys, b, it, z) && TracksH(sys, s, st, it, z) && TracksW(sys, s, st, z)
    ensures |sys.adjoint(sys.apply(it.h))| == sys.n
    ensures sys.precond(sys.adjoint(sys.apply(it.h))) ==
            Comb(Mul(st.alphaBar, st.alphaBar) + Mul(t.beta, t.beta), s.v, Mul(t.beta, t.alpha), t.v)
  {
    hide Operators;
    hide Inner;
    hide Mul;
    HOver(sys, b, s, t, st, it, z);
    AdjointComb(sys, st.alphaBar, z.w, t.beta, t.u);
    PrecondComb(sys, st.alphaBar, sys.adjoint(z.w), t.beta, sys.adjoint(t.u));
    NormalOfH(s.v, t.v, st.alphaBar, t.beta, t.alpha,
              Mul(st.alphaBar, st.alphaBar) + Mul(t.beta, t.beta), Mul(t.beta, t.alpha));
  }

  /** The scalar side of the h-bar step. */
  ghost predicate Radii(rr: real, rt: real, st: Scalars, hat: Givens, bar: Givens, alpha': real, thbar: real, r: real) {
    && Mul(thbar, r) == Mul(st.sBar, rr)
    && Mul(Mul(hat.r, bar.r), bar.c) == Mul(st.cBar, rr)
    && Mul(Mul(hat.r, bar.r), bar.s) == rt
  }

  lemma StepRadii(ab: real, beta: real, st: Scalars, hat: Givens, bar: Givens, alpha': real, thbar: real, r: real)
    requires Rotates(hat, ab, beta) && Rotates(bar, Mul(st.cBar, hat.r), Mul(hat.s, alpha'))
    requires Mul(thbar, r) == Mul(Mul(st.sBar, hat.r), hat.r)
    ensures Radii(Mul(ab, ab) + Mul(beta, beta), Mul(beta, alpha'), st, hat, bar, alpha', thbar, r)
  {
    RadiusMul(hat.c, hat.s, hat.r, ab, beta);
    RadiiScalars(st.sBar, st.cBar, hat.r, bar.r, bar.c, bar.s, hat.s, alpha', beta);
  }

  lemma RadiusMul(c: real, s: real, r: real, a: real, b: real)
    requires a == Mul(c, r) && b == Mul(s, r) && Mul(c, c) + Mul(s, s) == 1.0
    ensures Mul(a, a) + Mul(b, b) == Mul(r, r)
  {
    RadiusSquared(c, s, r, a, b);
  }

  lemma RadiiScalars(sB: real, cB: real, rho: real, rhoBar: real, c: real, s: real, hs: real, a: real, beta: real)
    requires Mul(c, rhoBar) == Mul(cB, rho) && Mul(s, rhoBar) == Mul(hs, a) && beta == Mul(hs, rho)
    ensures Mul(Mul(sB, rho), rho) == Mul(sB, Mul(rho, rho))
    ensures Mul(Mul(rho, rhoBar), c) == Mul(cB, Mul(rho, rho))
    ensures Mul(Mul(rho, rhoBar), s) == Mul(beta, a)
  {
    MulEq(rho, Mul(c, rhoBar), Mul(cB, rho));
    MulEq(rho, Mul(s, rhoBar), Mul(hs, a));
  }

  lemma TracksHBarStep(sys: System, b: seq<real>, s: Basis, t: Basis, st: Scalars, prev: RotationStep, it: Iterate, z: Directions,
                       hat: Givens, bar: Givens, r: RotationStep, k: Coefficients)
    requires Operators(sys) && Next(sys, s, t) && Tracks(sys, b, s, st, prev, it, z)
    requires Rotates(hat, st.alphaBar, t.beta) && Rotates(bar, Mul(st.cBar, hat.r), Mul(hat.s, t.alpha))
    requires r.rho == hat.r && r.rhoBar == bar.r
    requires Mul(k.thbar, Mul(prev.rho, prev.rhoBar)) == Mul(Mul(st.sBar, hat.r), hat.r)
    ensures TracksHBar(sys, r, Updated(it, t.v, k), NextDirections(z, t, hat, bar))
  {
    hide Operators;
    hide Inner;
    hide Mul;
    hide Rotates;
    hide TracksX;
    ApplyComb(sys, 1.0, it.h, -k.thbar, it.hBar);
    AdjointComb(sys, 1.0, sys.apply(it.h), -k.thbar, sys.apply(it.hBar));
    PrecondComb(sys, 1.0, sys.adjoint(sys.apply(it.h)), -k.thbar, sys.adjoint(sys.apply(it.hBar)));
    PrecondComb(sys, st.sBar, z.e, st.cBar, z.d);
    PrecondComb(sys, bar.c, z.d, bar.s, t.p);
    NormalH(sys, b, s, t, st, it, z);
    StepRadii(st.alphaBar, t.beta, st, hat, bar, t.alpha, k.thbar, Mul(prev.rho, prev.rhoBar));
    NormalOfHBar(s.v, t.v, sys.precond(z.e), sys.precond(z.d), Mul(st.alphaBar, st.alphaBar) + Mul(t.beta, t.beta), Mul(t.beta, t.alpha),
                 st.sBar, st.cBar, k.thbar, Mul(prev.rho, prev.rhoBar), Mul(hat.r, bar.r), bar.c, bar.s);
  }

  lemma ResidualRegroups(b: seq<real>, y: seq<real>, k: real, h: seq<real>)
    requires |b| == |y| == |h|
    ensures Comb(1.0, b, -1.0, Comb(1.0, y, k, h)) == Comb(1.0, Comb(1.0, b, -1.0, y), -k, h)
  {
    var l, r := Comb(1.0, b, -1.0, Comb(1.0, y, k, h)), Comb(1.0, Comb(1.0, b, -1.0, y), -k, h);
    forall i | 0 <= i < |l| ensures l[i] == r[i] { HScalars(k, h[i]); }
  }

  /** The next normal residual in terms of the new h-bar. */
  lemma NextResidual(sys: System, b: seq<real>, it: Iterate, v: seq<real>, k: Coefficients)
    requires Operators(sys) && |b| == sys.m && |it.x| == |it.h| == |it.hBar| == |v| == sys.n
    requires |sys.apply(it.x)| == |sys.apply(Updated(it, v, k).hBar)| == |sys.apply(Updated(it, v, k).x)| == sys.m
    ensures var hb := Updated(it, v, k).hBar;
      && |NormalResidual(sys, b, it.x)| == |sys.adjoint(sys.apply(hb))| == sys.n
      && NormalResidual(sys, b, Updated(it, v, k).x) == Comb(1.0, NormalResidual(sys, b, it.x), -k.tx, sys.adjoint(sys.apply(hb)))
  {
    hide Operators;
    var hb := Updated(it, v, k).hBar;
    ApplyComb(sys, 1.0, it.x, k.tx, hb);
    ResidualRegroups(b, sys.apply(it.x), k.tx, sys.apply(hb));
    AdjointComb(sys, 1.0, Comb(1.0, b, -1.0, sys.apply(it.x)), -k.tx, sys.apply(hb));
  }

  lemma TracksXStep(sys: System, b: seq<real>, t: Basis, st: Scalars, it: Iterate, z: Directions,
                    hat: Givens, bar: Givens, st': Scalars, r: RotationStep, k: Coefficients)
    requires Operators(sys) && Normalized(sys, t) && Shaped(sys, b, it, z) && TracksX(sys, b, st, it, z)
    requires Shaped(sys, b, Updated(it, t.v, k), NextDirections(z, t, hat, bar))
    requires TracksHBar(sys, r, Updated(it, t.v, k), NextDirections(z, t, hat, bar))
    requires Mul(bar.c, bar.c) + Mul(bar.s, bar.s) == 1.0 && st'.zetaBar == Mul(-bar.s, st.zetaBar)
    requires Mul(k.tx, Mul(r.rho, r.rhoBar)) == Mul(bar.c, st.zetaBar)
    ensures TracksX(sys, b, st', Updated(it, t.v, k), NextDirections(z, t, hat, bar))
  {
    hide Operators;
    hide Mul;
    hide Inner;
    NextResidual(sys, b, it, t.v, k);
    PrecondComb(sys, 1.0, NormalResidual(sys, b, it.x), -k.tx, sys.adjoint(sys.apply(Updated(it, t.v, k).hBar)));
    PrecondComb(sys, bar.c, z.d, bar.s, t.p);
    PrecondComb(sys, -bar.s, z.d, bar.c, t.p);
    NormalOfX(sys.precond(z.d), t.v, st.zetaBar, k.tx, Mul(r.rho, r.rhoBar), bar.c, bar.s);
  }

  lemma ShapedStep(sys: System, b: seq<real>, t: Basis, it: Iterate, z: Directions, hat: Givens, bar: Givens, k: Coefficients)
    requires Operators(sys) && Sized(sys, t) && Shaped(sys, b, it, z)
    ensures Shaped(sys, b, Updated(it, t.v, k), NextDirections(z, t, hat, bar))
  {
    hide Operators;
    var it' := Updated(it, t.v, k);
    SizedApply(sys, it'.x);
    SizedApply(sys, it'.h);
    SizedApply(sys, it'.hBar);
  }

  /** One iteration, its quotients exact, keeps every tracked identity; in particular
      A^T (b - A x) = zeta-bar d. */
  lemma TracksStep(sys: System, b: seq<real>, s: Basis, t: Basis, st: Scalars, prev: RotationStep, it: Iterate, z: Directions,
                   hat: Givens, bar: Givens, st': Scalars, r: RotationStep, k: Coefficients)
    requires Operators(sys) && Next(sys, s, t) && Tracks(sys, b, s, st, prev, it, z)
    requires AdvancedBy(st, BidiagStep(t.alpha, t.beta), hat, bar, st', r) && Exact(k, r, prev)
    ensures Tracks(sys, b, t, st', r, Updated(it, t.v, k), NextDirections(z, t, hat, bar))
  {
    hide Operators;
    hide Inner;
    hide Mul;
    hide TracksH;
    hide TracksW;
    hide TracksHBar;
    hide TracksX;
    ShapedStep(sys, b, t, it, z, hat, bar, k);
    TracksHStep(sys, b, s, t, st, it, z, hat, bar, st', k);
    TracksWStep(sys, s, t, st, z, hat, bar, st');
    TracksHBarStep(sys, b, s, t, st, prev, it, z, hat, bar, r, k);
    TracksXStep(sys, b, t, st, it, z, hat, bar, st', r, k);
    NextP(z.d, t.p, bar.c, bar.s);
  }
}
