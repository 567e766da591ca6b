/** The textbook preconditioned Golub-Kahan bidiagonalization, as relations between normalized
    basis triples, and what every run of it keeps. */
module Bidiagonal {
  import opened Sums
  import opened Vectors

  /** `A`, its adjoint, and one application of the inverse preconditioner. */
  datatype System = System(m: nat, n: nat, apply: seq<real> -> seq<real>, adjoint: seq<real> -> seq<real>,
                           precond: seq<real> -> seq<real>)

  ghost predicate IsAdjoint(sys: System) {
    forall x, y :: |x| == sys.n && |y| == sys.m ==> AdjointAt(sys, x, y)
  }

  ghost predicate AdjointAt(sys: System, x: seq<real>, y: seq<real>)
    requires |x| == sys.n && |y| == sys.m
  {
    |sys.apply(x)| == sys.m && |sys.adjoint(y)| == sys.n && Inner(sys.apply(x), y) == Inner(x, sys.adjoint(y))
  }

  /** The preconditioner is symmetric and of nonnegative energy; it may send directions to zero. */
  ghost predicate IsSemidefinite(sys: System) {
    && (forall x, y :: |x| == sys.n && |y| == sys.n ==> SymmetricAt(sys, x, y))
    && (forall x :: |x| == sys.n ==> NonnegativeAt(sys, x))
  }

  ghost predicate SymmetricAt(sys: System, x: seq<real>, y: seq<real>)
    requires |x| == sys.n && |y| == sys.n
  {
    |sys.precond(x)| == sys.n && |sys.precond(y)| == sys.n && Inner(sys.precond(x), y) == Inner(x, sys.precond(y))
  }

  ghost predicate NonnegativeAt(sys: System, x: seq<real>)
    requires |x| == sys.n
  {
    |sys.precond(x)| == sys.n && Inner(sys.precond(x), x) >= 0.0
  }

  ghost predicate Operators(sys: System) {
    && IsLinear(sys.apply, sys.n, sys.m) && IsLinear(sys.adjoint, sys.m, sys.n)
    && IsLinear(sys.precond, sys.n, sys.n) && IsAdjoint(sys) && IsSemidefinite(sys)
  }

  lemma SizedApply(sys: System, x: seq<real>)
    requires Operators(sys) && |x| == sys.n
    ensures |sys.apply(x)| == sys.m
  {
    LinearComb(sys.apply, sys.n, sys.m, 0.0, x, 0.0, x);
  }

  lemma SizedAdjoint(sys: System, x: seq<real>)
    requires Operators(sys) && |x| == sys.m
    ensures |sys.adjoint(x)| == sys.n
  {
    LinearComb(sys.adjoint, sys.m, sys.n, 0.0, x, 0.0, x);
  }

  lemma SizedPrecond(sys: System, x: seq<real>)
    requires Operators(sys) && |x| == sys.n
    ensures |sys.precond(x)| == sys.n && Inner(sys.precond(x), x) >= 0.0
  {
    assert NonnegativeAt(sys, x);
  }

  lemma PrecondZeros(sys: System)
    requires Operators(sys)
    ensures sys.precond(Zeros(sys.n)) == Zeros(sys.n)
  {
    LinearZeros(sys.precond, sys.n, sys.n);
  }

  lemma PrecondScale(sys: System, a: real, x: seq<real>)
    requires Operators(sys) && |x| == sys.n
    ensures |sys.precond(x)| == sys.n && sys.precond(Scale(a, x)) == Scale(a, sys.precond(x))
  {
    LinearScale(sys.precond, sys.n, sys.n, a, x);
  }

  lemma AdjointScale(sys: System, a: real, x: seq<real>)
    requires Operators(sys) && |x| == sys.m
    ensures |sys.adjoint(x)| == sys.n && sys.adjoint(Scale(a, x)) == Scale(a, sys.adjoint(x))
  {
    LinearScale(sys.adjoint, sys.m, sys.n, a, x);
  }

  lemma AdjointZeros(sys: System)
    requires Operators(sys)
    ensures sys.adjoint(Zeros(sys.m)) == Zeros(sys.n)
  {
    LinearZeros(sys.adjoint, sys.m, sys.n);
  }

  lemma ApplyComb(sys: System, a: real, x: seq<real>, b: real, y: seq<real>)
    requires Operators(sys) && |x| == |y| == sys.n
    ensures |sys.apply(x)| == |sys.apply(y)| == sys.m
    ensures sys.apply(Comb(a, x, b, y)) == Comb(a, sys.apply(x), b, sys.apply(y))
  {
    LinearComb(sys.apply, sys.n, sys.m, a, x, b, y);
  }

  lemma AdjointComb(sys: System, a: real, x: seq<real>, b: real, y: seq<real>)
    requires Operators(sys) && |x| == |y| == sys.m
    ensures |sys.adjoint(x)| == |sys.adjoint(y)| == sys.n
    ensures sys.adjoint(Comb(a, x, b, y)) == Comb(a, sys.adjoint(x), b, sys.adjoint(y))
  {
    LinearComb(sys.adjoint, sys.m, sys.n, a, x, b, y);
  }

  lemma ApplyZeros(sys: System)
    requires Operators(sys)
    ensures sys.apply(Zeros(sys.n)) == Zeros(sys.m)
  {
    LinearZeros(sys.apply, sys.n, sys.m);
  }

  /** A direction without energy is one the preconditioner sends to zero. */
  lemma NoEnergy(sys: System, x: seq<real>)
    requires Operators(sys) && |x| == sys.n && |sys.precond(x)| == sys.n && Inner(sys.precond(x), x) == 0.0
    ensures sys.precond(x) == Zeros(sys.n)
  {
    hide Operators;
    hide Inner;
    var v := sys.precond(x);
    SelfNonneg(v);
    SizedPrecond(sys, v);
    if Inner(v, v) > 0.0 {
      var k := -(Inner(sys.precond(v), v) + 1.0) / (2.0 * Inner(v, v));
      var y := Comb(k, x, 1.0, v);
      SizedPrecond(sys, y);
      PrecondComb(sys, k, x, 1.0, v);
      InnerComb(k, v, 1.0, sys.precond(v), y);
      InnerCombRight(v, k, x, 1.0, v);
      InnerCombRight(sys.precond(v), k, x, 1.0, v);
      SymmetricPair(sys, x, v);
      LinearFalls(k, Inner(v, v), Inner(sys.precond(v), v));
    }
    SelfZero(v);
  }

  lemma LinearFalls(k: real, a: real, c: real)
    requires a > 0.0 && k == -(c + 1.0) / (2.0 * a)
    ensures k * (k * 0.0 + 1.0 * a) + 1.0 * (k * a + 1.0 * c) == -1.0
  {
    assert k * (2.0 * a) == -(c + 1.0);
    assert k * a + k * a == k * (2.0 * a);
  }

  lemma PrecondComb(sys: System, a: real, x: seq<real>, b: real, y: seq<real>)
    requires Operators(sys) && |x| == |y| == sys.n
    ensures |sys.precond(x)| == |sys.precond(y)| == sys.n
    ensures sys.precond(Comb(a, x, b, y)) == Comb(a, sys.precond(x), b, sys.precond(y))
  {
    LinearComb(sys.precond, sys.n, sys.n, a, x, b, y);
  }

  /** One normalized triple: `u` in observation space, `v = M^-1 p` in unknown space. */
  datatype Basis = Basis(u: seq<real>, v: seq<real>, p: seq<real>, alpha: real, beta: real)

  ghost predicate Sized(sys: System, s: Basis) {
    |s.u| == sys.m && |s.v| == |s.p| == sys.n
  }

  /** Unit length in each metric, or zero after a breakdown. */
  ghost predicate Normalized(sys: System, s: Basis) {
    && Sized(sys, s) && s.v == sys.precond(s.p) && s.alpha >= 0.0 && s.beta >= 0.0
    && (if s.beta > 0.0 then Inner(s.u, s.u) == 1.0 else s.u == Zeros(sys.m))
    && (if s.alpha > 0.0 then Inner(s.v, s.p) == 1.0 else s.p == Zeros(sys.n))
  }

  /** beta u = b, alpha p = A^T u; after a breakdown the preconditioner does not see A^T u. */
  ghost predicate First(sys: System, b: seq<real>, s: Basis) {
    && |b| == sys.m && Normalized(sys, s)
    && b == Scale(s.beta, s.u) && |sys.adjoint(s.u)| == sys.n
    && sys.precond(sys.adjoint(s.u)) == Scale(s.alpha, s.v)
    && (s.alpha > 0.0 ==> sys.adjoint(s.u) == Scale(s.alpha, s.p))
  }

  /** beta' u' = A v - alpha u, alpha' p' = A^T u' - beta' p; after a breakdown the
      preconditioner does not see what is left on the right. */
  ghost predicate Next(sys: System, s: Basis, t: Basis) {
    && Sized(sys, s) && Normalized(sys, t)
    && sys.apply(s.v) == Comb(s.alpha, s.u, t.beta, t.u)
    && |sys.adjoint(t.u)| == sys.n && sys.precond(sys.adjoint(t.u)) == Comb(t.beta, s.v, t.alpha, t.v)
    && (t.alpha > 0.0 ==> sys.adjoint(t.u) == Comb(t.beta, s.p, t.alpha, t.p))
  }

  ghost predicate StepAt(sys: System, h: seq<Basis>, k: nat)
    requires k < |h|
  {
    k > 0 ==> Next(sys, h[k - 1], h[k])
  }

  /** A whole run from the right-hand side `b`. */
  ghost predicate Run(sys: System, b: seq<real>, h: seq<Basis>) {
    && |h| > 0 && First(sys, b, h[0])
    && forall k: nat :: k < |h| ==> StepAt(sys, h, k)
  }

  lemma RunNonempty(sys: System, b: seq<real>, h: seq<Basis>)
    requires Run(sys, b, h)
    ensures |h| > 0
  {
  }

  lemma RunExtends(sys: System, b: seq<real>, h: seq<Basis>, t: Basis)
    requires Run(sys, b, h) && Next(sys, h[|h| - 1], t)
    ensures Run(sys, b, h + [t])
  {
    forall k: nat | k < |h + [t]| ensures StepAt(sys, h + [t], k) {
      if k < |h| { assert StepAt(sys, h, k); }
    }
  }

  lemma RunPrefix(sys: System, b: seq<real>, h: seq<Basis>, k: nat)
    requires Run(sys, b, h) && 0 < k <= |h|
    ensures Run(sys, b, h[..k])
  {
    forall j: nat | j < k ensures StepAt(sys, h[..k], j) { assert StepAt(sys, h, j); }
  }

  lemma RunNormalized(sys: System, b: seq<real>, h: seq<Basis>, k: nat)
    requires Run(sys, b, h) && k < |h|
    ensures Normalized(sys, h[k])
  {
    assert StepAt(sys, h, k);
  }

  // ---- Determinism -------------------------------------------------------------------------

  lemma CancelFactor(b: real, x: real, y: real)
    requires b != 0.0 && b * x == b * y
    ensures x == y
  {
  }

  lemma ScaleCancels(b: real, x: seq<real>, y: seq<real>)
    requires b != 0.0 && Scale(b, x) == Scale(b, y)
    ensures x == y
  {
    assert |x| == |Scale(b, x)| == |Scale(b, y)| == |y|;
    forall i | 0 <= i < |x| ensures x[i] == y[i] {
      assert Scale(b, x)[i] == Scale(b, y)[i];
      CancelFactor(b, x[i], y[i]);
    }
  }

  lemma CombCancels(a: real, x: seq<real>, b: real, y: seq<real>, c: real, z: seq<real>)
    requires |x| == |y| == |z| && Comb(a, x, b, y) == Comb(a, x, c, z)
    ensures Scale(b, y) == Scale(c, z)
  {
    forall i | 0 <= i < |y| ensures Scale(b, y)[i] == Scale(c, z)[i] {
      assert Comb(a, x, b, y)[i] == Comb(a, x, c, z)[i];
    }
  }

  /** `x` is a unit vector in the pairing with `gx`, or both are zero. */
  ghost predicate UnitOrZero(s: real, x: seq<real>, gx: seq<real>) {
    |x| == |gx| && if s > 0.0 then Inner(x, gx) == 1.0 else x == Zeros(|x|)
  }

  lemma SameLength(s: real, x: seq<real>, gx: seq<real>, t: real, y: seq<real>, gy: seq<real>)
    requires s >= 0.0 && t >= 0.0 && UnitOrZero(s, x, gx) && UnitOrZero(t, y, gy) && |x| == |y|
    requires Scale(s, x) == Scale(t, y) && Scale(s, gx) == Scale(t, gy)
    ensures s == t && x == y
  {
    hide Inner;
    InnerScale(s, x, Scale(s, gx));
    InnerScaleRight(x, s, gx);
    InnerScale(t, y, Scale(t, gy));
    InnerScaleRight(y, t, gy);
    if s == 0.0 { InnerZeros(|x|, gx); }
    if t == 0.0 { InnerZeros(|y|, gy); }
    EqualSquares(s, t, s * s);
    if s > 0.0 { ScaleCancels(s, x, y); }
  }

  /** A vanished multiple of a unit right vector vanishes by its scalar. */
  lemma VanishedScale(sys: System, s: Basis)
    requires Operators(sys) && Normalized(sys, s) && Scale(s.alpha, s.v) == Zeros(sys.n)
    ensures s.alpha == 0.0
  {
    hide Operators;
    hide Inner;
    if s.alpha > 0.0 {
      InnerScale(s.alpha, s.v, s.p);
      InnerZeros(sys.n, s.p);
    }
  }

  /** Normalized right vectors with one multiple in common are one. */
  lemma SameRight(sys: System, s: Basis, t: Basis)
    requires Operators(sys) && Normalized(sys, s) && Normalized(sys, t) && Scale(s.alpha, s.v) == Scale(t.alpha, t.v)
    requires s.alpha > 0.0 && t.alpha > 0.0 ==> Scale(s.alpha, s.p) == Scale(t.alpha, t.p)
    ensures s.alpha == t.alpha && s.p == t.p && s.v == t.v
  {
    hide Operators;
    hide Inner;
    if s.alpha == 0.0 {
      BrokenDown(sys, s);
      ScaleZeros(0.0, sys.n);
      VanishedScale(sys, t);
    } else if t.alpha == 0.0 {
      BrokenDown(sys, t);
      ScaleZeros(0.0, sys.n);
      VanishedScale(sys, s);
    } else {
      InnerComm(s.v, s.p);
      InnerComm(t.v, t.p);
      SameLength(s.alpha, s.p, s.v, t.alpha, t.p, t.v);
    }
  }

  /** The recurrence determines its successor: any stepping that satisfies it yields the same
      scalars and the same vectors. */
  lemma NextUnique(sys: System, s: Basis, t: Basis, t': Basis)
    requires Operators(sys) && Next(sys, s, t) && Next(sys, s, t')
    ensures t == t'
  {
    hide Inner;
    CombCancels(s.alpha, s.u, t.beta, t.u, t'.beta, t'.u);
    SameLength(t.beta, t.u, t.u, t'.beta, t'.u, t'.u);
    CombCancels(t.beta, s.v, t.alpha, t.v, t'.alpha, t'.v);
    if t.alpha > 0.0 && t'.alpha > 0.0 { CombCancels(t.beta, s.p, t.alpha, t.p, t'.alpha, t'.p); }
    SameRight(sys, t, t');
  }

  lemma FirstUnique(sys: System, b: seq<real>, s: Basis, t: Basis)
    requires Operators(sys) && First(sys, b, s) && First(sys, b, t)
    ensures s == t
  {
    hide Inner;
    SameLength(s.beta, s.u, s.u, t.beta, t.u, t.u);
    SameRight(sys, s, t);
  }

  lemma RunStep(sys: System, b: seq<real>, h: seq<Basis>, k: nat)
    requires Run(sys, b, h) && 0 < k < |h|
    ensures Next(sys, h[k - 1], h[k])
  {
    assert StepAt(sys, h, k);
  }

  /** Two runs of the same length from one right-hand side coincide. */
  lemma {:induction false} RunUnique(sys: System, b: seq<real>, h: seq<Basis>, g: seq<Basis>)
    requires Operators(sys) && Run(sys, b, h) && Run(sys, b, g) && |h| == |g|
    ensures h == g
  {
    hide Operators;
    hide First;
    hide Next;
    var k := |h| - 1;
    if k == 0 {
      FirstUnique(sys, b, h[0], g[0]);
    } else {
      RunPrefix(sys, b, h, k);
      RunPrefix(sys, b, g, k);
      RunUnique(sys, b, h[..k], g[..k]);
      assert h[k - 1] == h[..k][k - 1] == g[..k][k - 1] == g[k - 1];
      RunStep(sys, b, h, k);
      RunStep(sys, b, g, k);
      NextUnique(sys, h[k - 1], h[k], g[k]);
      assert h == h[..k] + [h[k]] && g == g[..k] + [g[k]];
    }
  }

  // ---- Orthogonality over whole runs -------------------------------------------------------

  ghost predicate OrthogonalAt(sys: System, s: Basis, t: Basis) {
    && Sized(sys, s) && Sized(sys, t)
    && Inner(s.u, t.u) == 0.0 && Inner(s.v, t.p) == 0.0 && Inner(t.v, s.p) == 0.0
  }

  ghost predicate Orthogonal(sys: System, h: seq<Basis>) {
    forall i, j :: 0 <= i < j < |h| ==> OrthogonalAt(sys, h[i], h[j])
  }

  lemma AdjointPair(sys: System, x: seq<real>, y: seq<real>)
    requires Operators(sys) && |x| == sys.n && |y| == sys.m
    ensures |sys.apply(x)| == sys.m && |sys.adjoint(y)| == sys.n
    ensures Inner(sys.apply(x), y) == Inner(x, sys.adjoint(y))
  {
    hide Inner;
    assert AdjointAt(sys, x, y);
  }

  lemma SymmetricPair(sys: System, x: seq<real>, y: seq<real>)
    requires Operators(sys) && |x| == sys.n && |y| == sys.n
    ensures |sys.precond(x)| == sys.n && |sys.precond(y)| == sys.n
    ensures Inner(sys.precond(x), y) == Inner(sys.precond(y), x)
  {
    hide Inner;
    assert SymmetricAt(sys, x, y);
    InnerComm(x, sys.precond(y));
  }

  lemma BrokenDown(sys: System, s: Basis)
    requires Operators(sys) && Normalized(sys, s) && s.alpha == 0.0
    ensures s.v == Zeros(sys.n) && sys.apply(s.v) == Zeros(sys.m)
  {
    hide Operators;
    hide Inner;
    PrecondZeros(sys);
    ApplyZeros(sys);
  }

  /** No energy in the pairing with zero vectors. */
  lemma SelfPairing(sys: System, s: Basis)
    requires Operators(sys) && Normalized(sys, s)
    ensures Inner(s.u, s.u) == (if s.beta > 0.0 then 1.0 else 0.0)
    ensures Inner(s.v, s.p) == (if s.alpha > 0.0 then 1.0 else 0.0)
  {
    hide Inner;
    if s.beta == 0.0 { InnerZeros(sys.m, s.u); }
    if s.alpha == 0.0 { InnerZeros(sys.n, s.v); }
  }

  lemma ProductZero(b: real, x: real)
    requires b * x == 0.0 && b != 0.0
    ensures x == 0.0
  {
  }

  /** A broken-down left vector stays broken down on the right. */
  lemma LeftBreakdown(sys: System, s: Basis, t: Basis)
    requires Operators(sys) && Next(sys, s, t) && t.beta == 0.0
    ensures t.alpha == 0.0
  {
    hide Operators;
    hide Inner;
    if t.alpha > 0.0 {
      AdjointZeros(sys);
      InnerCombRight(t.v, 0.0, s.p, t.alpha, t.p);
      InnerZeros(sys.n, t.v);
    }
  }

  lemma FirstBreakdown(sys: System, b: seq<real>, s: Basis)
    requires Operators(sys) && First(sys, b, s) && s.beta == 0.0
    ensures s.alpha == 0.0
  {
    hide Operators;
    hide Inner;
    if s.alpha > 0.0 {
      AdjointZeros(sys);
      InnerScaleRight(s.v, s.alpha, s.p);
      InnerZeros(sys.n, s.v);
    }
  }

  lemma RunBreakdown(sys: System, b: seq<real>, h: seq<Basis>, k: nat)
    requires Operators(sys) && Run(sys, b, h) && k < |h|
    ensures h[k].beta == 0.0 ==> h[k].alpha == 0.0
  {
    hide Operators;
    hide First;
    hide Next;
    hide Normalized;
    RunNormalized(sys, b, h, k);
    if h[k].beta == 0.0 {
      if k == 0 {
        FirstBreakdown(sys, b, h[0]);
      } else {
        RunStep(sys, b, h, k);
        LeftBreakdown(sys, h[k - 1], h[k]);
      }
    }
  }

  /** A^T u_j sees v only along p_j. */
  ghost predicate PairsAlong(sys: System, s: Basis, v: seq<real>) {
    && Sized(sys, s) && |v| == sys.n && |sys.adjoint(s.u)| == sys.n
    && Inner(v, sys.adjoint(s.u)) == s.alpha * Inner(v, s.p)
  }

  /** A vector known to the preconditioner as a p + b p' pairs with its images as such. */
  lemma PairsThrough(sys: System, q: seq<real>, y: seq<real>, a: real, p: seq<real>, b: real, p': seq<real>)
    requires Operators(sys) && |q| == |y| == |p| == |p'| == |sys.precond(p)| == |sys.precond(p')| == sys.n
    requires sys.precond(y) == Comb(a, sys.precond(p), b, sys.precond(p'))
    ensures |sys.precond(q)| == sys.n
    ensures Inner(sys.precond(q), y) == a * Inner(sys.precond(q), p) + b * Inner(sys.precond(q), p')
  {
    hide Operators;
    hide Inner;
    SymmetricPair(sys, q, y);
    SymmetricPair(sys, q, p);
    SymmetricPair(sys, q, p');
    InnerComb(a, sys.precond(p), b, sys.precond(p'), q);
  }

  lemma FirstPairs(sys: System, b: seq<real>, s: Basis, q: seq<real>)
    requires Operators(sys) && First(sys, b, s) && |q| == sys.n
    ensures PairsAlong(sys, s, sys.precond(q))
  {
    hide Operators;
    hide Inner;
    SizedPrecond(sys, q);
    ScaleIsComb(s.alpha, s.v);
    PairsThrough(sys, q, sys.adjoint(s.u), s.alpha, s.p, 0.0, s.p);
  }

  lemma NextPairs(sys: System, r: Basis, s: Basis, q: seq<real>)
    requires Operators(sys) && Normalized(sys, r) && Next(sys, r, s) && |q| == |sys.precond(q)| == sys.n && Inner(sys.precond(q), r.p) == 0.0
    ensures PairsAlong(sys, s, sys.precond(q))
  {
    hide Operators;
    hide Inner;
    PairsThrough(sys, q, sys.adjoint(s.u), s.beta, r.p, s.alpha, s.p);
  }

  lemma RunPairs(sys: System, b: seq<real>, h: seq<Basis>, j: nat, k: nat)
    requires Operators(sys) && Run(sys, b, h) && Orthogonal(sys, h) && j <= k < |h|
    ensures PairsAlong(sys, h[j], h[k].v)
  {
    hide Operators;
    hide Inner;
    hide First;
    hide Next;
    hide PairsAlong;
    RunNormalized(sys, b, h, k);
    if j == 0 {
      FirstPairs(sys, b, h[0], h[k].p);
    } else {
      RunNormalized(sys, b, h, j - 1);
      RunStep(sys, b, h, j);
      assert OrthogonalAt(sys, h[j - 1], h[k]);
      NextPairs(sys, h[j - 1], h[j], h[k].p);
    }
  }

  /** The two elements are one, or orthogonal. */
  ghost predicate SameOrOrthogonal(sys: System, w: Basis, s: Basis) {
    Sized(sys, w) && Sized(sys, s) && (w == s || OrthogonalAt(sys, w, s))
  }

  lemma LeftStep(sys: System, w: Basis, s: Basis, t: Basis)
    requires Operators(sys) && Normalized(sys, w) && Normalized(sys, s) && Next(sys, s, t)
    requires SameOrOrthogonal(sys, w, s) && PairsAlong(sys, w, s.v) && (s.beta == 0.0 ==> s.alpha == 0.0)
    ensures Inner(t.u, w.u) == 0.0
  {
    hide Operators;
    hide Inner;
    AdjointPair(sys, s.v, w.u);
    var x := Inner(t.u, w.u);
    LeftEquation(sys, w, s, t);
    SelfPairing(sys, s);
    if w != s { InnerComm(s.u, w.u); }
    if t.beta == 0.0 {
      InnerZeros(sys.m, w.u);
    } else {
      LeftScalars(s.alpha, Inner(s.u, w.u), w.alpha, Inner(s.v, w.p), t.beta, x, w == s);
    }
  }

  lemma LeftEquation(sys: System, w: Basis, s: Basis, t: Basis)
    requires Operators(sys) && Sized(sys, w) && Sized(sys, s) && Next(sys, s, t) && PairsAlong(sys, w, s.v)
    ensures s.alpha * Inner(s.u, w.u) + t.beta * Inner(t.u, w.u) == w.alpha * Inner(s.v, w.p)
  {
    hide Operators;
    hide Inner;
    AdjointPair(sys, s.v, w.u);
    InnerComb(s.alpha, s.u, t.beta, t.u, w.u);
  }

  /** a u + b x = c v, where the left terms cancel. */
  lemma LeftScalars(a: real, u: real, c: real, v: real, b: real, x: real, same: bool)
    requires a * u + b * x == c * v && a >= 0.0
    requires if same then a == c && (a > 0.0 ==> u == 1.0 && v == 1.0) else u == 0.0 && v == 0.0
    ensures b != 0.0 ==> x == 0.0
  {
    if b != 0.0 { ProductZero(b, x); }
  }

  /** A v_j lies in the span of two left vectors, both orthogonal to a later one. */
  lemma ForwardStep(sys: System, w: Basis, w': Basis, u: seq<real>)
    requires Next(sys, w, w') && |u| == sys.m && Inner(w.u, u) == 0.0 && Inner(w'.u, u) == 0.0
    ensures |sys.apply(w.v)| == sys.m && Inner(sys.apply(w.v), u) == 0.0
  {
    hide Inner;
    InnerComb(w.alpha, w.u, w'.beta, w'.u, u);
  }

  lemma RightEquation(sys: System, w: Basis, s: Basis, t: Basis)
    requires Operators(sys) && Normalized(sys, w) && Normalized(sys, s) && Next(sys, s, t)
    ensures |sys.apply(w.v)| == sys.m
    ensures Inner(sys.apply(w.v), t.u) == t.beta * Inner(w.v, s.p) + t.alpha * Inner(w.v, t.p)
  {
    hide Operators;
    hide Inner;
    AdjointPair(sys, w.v, t.u);
    PairsThrough(sys, w.p, sys.adjoint(t.u), t.beta, s.p, t.alpha, t.p);
  }

  lemma RightScalars(z: real, b: real, x: real, a: real, y: real)
    requires z == b * x + a * y && a != 0.0 && z == b * x
    ensures y == 0.0
  {
    ProductZero(a, y);
  }

  /** Earlier than the last: orthogonal. */
  lemma RightStepBefore(sys: System, w: Basis, s: Basis, t: Basis)
    requires Operators(sys) && Normalized(sys, w) && Normalized(sys, s) && Next(sys, s, t) && OrthogonalAt(sys, w, s)
    requires |sys.apply(w.v)| == sys.m && Inner(sys.apply(w.v), t.u) == 0.0
    ensures Inner(w.v, t.p) == 0.0
  {
    hide Operators;
    hide Inner;
    RightEquation(sys, w, s, t);
    if t.alpha > 0.0 {
      RightScalars(0.0, t.beta, Inner(w.v, s.p), t.alpha, Inner(w.v, t.p));
    } else {
      InnerZeros(sys.n, w.v);
    }
  }

  lemma RightStepLast(sys: System, s: Basis, t: Basis)
    requires Operators(sys) && Normalized(sys, s) && Next(sys, s, t) && Inner(s.u, t.u) == 0.0
    ensures Inner(s.v, t.p) == 0.0
  {
    hide Operators;
    hide Inner;
    SelfPairing(sys, s);
    SelfPairing(sys, t);
    if t.alpha > 0.0 {
      if s.alpha == 0.0 { StalledStep(sys, s, t); }
      if t.beta == 0.0 { LeftBreakdown(sys, s, t); }
      RightEquation(sys, s, s, t);
      LastForward(sys, s, t);
      RightScalars(t.beta, t.beta, Inner(s.v, s.p), t.alpha, Inner(s.v, t.p));
    } else {
      InnerZeros(sys.n, s.v);
    }
  }

  lemma LastForward(sys: System, s: Basis, t: Basis)
    requires Operators(sys) && Sized(sys, s) && Next(sys, s, t) && Inner(s.u, t.u) == 0.0 && t.beta > 0.0
    ensures |sys.apply(s.v)| == sys.m && Inner(sys.apply(s.v), t.u) == t.beta
  {
    hide Operators;
    hide Inner;
    InnerComb(s.alpha, s.u, t.beta, t.u, t.u);
  }

  /** Nothing follows a vanished right vector. */
  lemma StalledStep(sys: System, s: Basis, t: Basis)
    requires Operators(sys) && Normalized(sys, s) && Next(sys, s, t) && s.alpha == 0.0
    ensures t.beta == 0.0 && t.alpha == 0.0
  {
    hide Operators;
    hide Inner;
    BrokenDown(sys, s);
    InnerComb(0.0, s.u, t.beta, t.u, t.u);
    InnerZeros(sys.m, t.u);
    SelfPairing(sys, t);
    LeftBreakdown(sys, s, t);
  }

  lemma NextLeftOrthogonal(sys: System, b: seq<real>, h: seq<Basis>, t: Basis, j: nat)
    requires Operators(sys) && Run(sys, b, h) && Orthogonal(sys, h) && j < |h| && Next(sys, h[|h| - 1], t)
    ensures |h[j].u| == sys.m && Inner(t.u, h[j].u) == 0.0 == Inner(h[j].u, t.u)
  {
    hide Operators;
    hide Inner;
    hide First;
    hide Next;
    hide PairsAlong;
    var k := |h| - 1;
    NextSized(sys, h[k], t);
    RunNormalized(sys, b, h, k);
    RunNormalized(sys, b, h, j);
    RunPairs(sys, b, h, j, k);
    RunBreakdown(sys, b, h, k);
    if j < k { assert OrthogonalAt(sys, h[j], h[k]); }
    LeftStep(sys, h[j], h[k], t);
    InnerComm(t.u, h[j].u);
  }

  lemma NextSized(sys: System, s: Basis, t: Basis)
    requires Next(sys, s, t)
    ensures Normalized(sys, t)
  {
  }

  lemma NextRightOrthogonal(sys: System, b: seq<real>, h: seq<Basis>, t: Basis, j: nat)
    requires Operators(sys) && Run(sys, b, h) && Orthogonal(sys, h) && j < |h| && Next(sys, h[|h| - 1], t)
    ensures |h[j].v| == |h[j].p| == sys.n && Inner(h[j].v, t.p) == 0.0 && Inner(t.v, h[j].p) == 0.0
  {
    hide Operators;
    hide Inner;
    hide First;
    hide Next;
    var k := |h| - 1;
    NextSized(sys, h[k], t);
    RunNormalized(sys, b, h, j);
    RunNormalized(sys, b, h, k);
    NextLeftOrthogonal(sys, b, h, t, j);
    if j == k {
      RightStepLast(sys, h[k], t);
    } else {
      NextLeftOrthogonal(sys, b, h, t, j + 1);
      RunStep(sys, b, h, j + 1);
      ForwardStep(sys, h[j], h[j + 1], t.u);
      assert OrthogonalAt(sys, h[j], h[k]);
      RightStepBefore(sys, h[j], h[k], t);
    }
    SymmetricPair(sys, h[j].p, t.p);
  }

  lemma NextOrthogonal(sys: System, b: seq<real>, h: seq<Basis>, t: Basis, j: nat)
    requires Operators(sys) && Run(sys, b, h) && Orthogonal(sys, h) && j < |h| && Next(sys, h[|h| - 1], t)
    ensures OrthogonalAt(sys, h[j], t)
  {
    hide Operators;
    hide Inner;
    hide First;
    hide Next;
    NextSized(sys, h[|h| - 1], t);
    RunNormalized(sys, b, h, j);
    NextLeftOrthogonal(sys, b, h, t, j);
    NextRightOrthogonal(sys, b, h, t, j);
  }

  /** The left vectors are orthogonal and the right vectors orthogonal in the metric of the
      preconditioner, over every run. */
  lemma {:induction false} RunOrthogonal(sys: System, b: seq<real>, h: seq<Basis>)
    requires Operators(sys) && Run(sys, b, h)
    ensures Orthogonal(sys, h)
    decreases |h|
  {
    hide Operators;
    hide OrthogonalAt;
    hide First;
    hide Next;
    var k := |h| - 1;
    if k > 0 {
      var g := h[..k];
      RunPrefix(sys, b, h, k);
      RunOrthogonal(sys, b, g);
      RunStep(sys, b, h, k);
      forall i, j | 0 <= i < j < |h| ensures OrthogonalAt(sys, h[i], h[j]) {
        if j < k {
          assert OrthogonalAt(sys, g[i], g[j]);
        } else {
          NextOrthogonal(sys, b, g, h[k], i);
        }
      }
    }
  }
}
