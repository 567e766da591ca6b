/** The scaled bidiagonalization: one application of the inverse preconditioner per step, `u`
    left unnormalized and `p` stored scaled by alpha
    (crates/schwarz-precond/src/lsmr/bidiag.rs:278-304, 390-513). */
module GolubKahan {
  import opened Wrappers
  import opened Sums
  import opened Vectors
  import opened VectorKernels
  import opened Bidiagonal
  import opened WindowRings

  datatype BidiagStep = BidiagStep(alpha: real, beta: real)

  // ---- The textbook step as a function -----------------------------------------------------

  ghost function LeftRaw(sys: System, s: Basis): (r: seq<real>)
    requires Operators(sys) && Sized(sys, s)
    ensures |r| == sys.m
  {
    SizedApply(sys, s.v);
    Comb(1.0, sys.apply(s.v), -s.alpha, s.u)
  }

  ghost function RightRaw(sys: System, s: Basis, u: seq<real>, beta: real): (r: seq<real>)
    requires Operators(sys) && Sized(sys, s) && |u| == sys.m
    ensures |r| == sys.n
  {
    SizedAdjoint(sys, u);
    Comb(1.0, sys.adjoint(u), -beta, s.p)
  }

  /** y = a x + c z with z the normalized remainder. */
  lemma Rebuild(y: seq<real>, a: real, x: seq<real>, c: real)
    requires |x| == |y| && c != 0.0
    ensures y == Comb(a, x, c, Scale(1.0 / c, Comb(1.0, y, -a, x)))
  {
    var w := Comb(a, x, c, Scale(1.0 / c, Comb(1.0, y, -a, x)));
    forall i | 0 <= i < |y| ensures y[i] == w[i] {
      Unscale(c, 1.0 * y[i] + (-a) * x[i]);
    }
  }

  lemma Unscale(c: real, z: real)
    requires c != 0.0
    ensures c * ((1.0 / c) * z) == z
  {
  }

  lemma RebuildZero(y: seq<real>, a: real, x: seq<real>, n: nat)
    requires |x| == |y| == n && Comb(1.0, y, -a, x) == Zeros(n)
    ensures y == Comb(a, x, 0.0, Zeros(n))
  {
    var w := Comb(a, x, 0.0, Zeros(n));
    forall i | 0 <= i < n ensures y[i] == w[i] {
      assert Comb(1.0, y, -a, x)[i] == 0.0;
    }
  }

  lemma UnitScaled(c: real, x: seq<real>, y: seq<real>)
    requires |x| == |y| && c > 0.0 && c * c == Inner(x, y)
    ensures Inner(Scale(1.0 / c, x), Scale(1.0 / c, y)) == 1.0
  {
    hide Inner;
    InnerScale(1.0 / c, x, Scale(1.0 / c, y));
    InnerScaleRight(x, 1.0 / c, y);
    UnitScalars(c, Inner(x, y));
  }

  lemma UnitScalars(c: real, q: real)
    requires c > 0.0 && c * c == q
    ensures (1.0 / c) * ((1.0 / c) * q) == 1.0
  {
    Unscale(c, c);
    assert (1.0 / c) * q == c;
  }

  /** The successor of `s`, by the textbook recurrence with exact square roots. */
  ghost function NextOf(sys: System, sqrt: real -> real, s: Basis): (t: Basis)
    requires Operators(sys) && Sized(sys, s)
    ensures Sized(sys, t)
  {
    var raw := LeftRaw(sys, s);
    var beta := sqrt(Inner(raw, raw));
    if beta == 0.0 then Basis(Zeros(sys.m), Zeros(sys.n), Zeros(sys.n), 0.0, 0.0)
    else
      var u := Scale(1.0 / beta, raw);
      RightOf(sys, sqrt, RightRaw(sys, s, u, beta), u, beta)
  }

  ghost function RightOf(sys: System, sqrt: real -> real, p: seq<real>, u: seq<real>, beta: real): (t: Basis)
    requires Operators(sys) && |p| == sys.n && |u| == sys.m
    ensures Sized(sys, t)
  {
    SizedPrecond(sys, p);
    var v := sys.precond(p);
    var alpha := sqrt(Inner(v, p));
    if alpha == 0.0 then Basis(u, Zeros(sys.n), Zeros(sys.n), 0.0, beta)
    else Basis(u, Scale(1.0 / alpha, v), Scale(1.0 / alpha, p), alpha, beta)
  }

  lemma SqrtZero(sqrt: real -> real, x: real)
    requires IsSqrt(sqrt) && x >= 0.0
    ensures sqrt(x) >= 0.0 && sqrt(x) * sqrt(x) == x && (sqrt(x) == 0.0 ==> x == 0.0)
  {
  }

  /** The right half: `alpha t.p` is the raw vector and `t` is normalized, or the raw vector is
      one the preconditioner sends to zero. */
  lemma RightOfNormalizes(sys: System, sqrt: real -> real, p: seq<real>, u: seq<real>, beta: real)
    requires Operators(sys) && IsSqrt(sqrt) && |p| == sys.n && |u| == sys.m
    ensures var t := RightOf(sys, sqrt, p, u, beta);
      && t.alpha >= 0.0 && t.u == u && t.beta == beta && t.v == sys.precond(t.p)
      && (if t.alpha > 0.0 then Inner(t.v, t.p) == 1.0 && t.p == Scale(1.0 / t.alpha, p)
          else t.p == Zeros(sys.n) && sys.precond(p) == Zeros(sys.n))
  {
    hide Inner;
    hide Operators;
    SizedPrecond(sys, p);
    var v := sys.precond(p);
    SqrtZero(sqrt, Inner(v, p));
    var alpha := sqrt(Inner(v, p));
    if alpha == 0.0 {
      PrecondZeros(sys);
      NoEnergy(sys, p);
    } else {
      UnitScaled(alpha, v, p);
      PrecondScale(sys, 1.0 / alpha, p);
    }
  }

  /** The textbook function satisfies the textbook relation, breakdowns included. */
  lemma NextOfIsNext(sys: System, sqrt: real -> real, s: Basis)
    requires Operators(sys) && IsSqrt(sqrt) && Normalized(sys, s)
    ensures Next(sys, s, NextOf(sys, sqrt, s))
  {
    hide Inner;
    hide Operators;
    hide RightOf;
    SizedApply(sys, s.v);
    var raw := LeftRaw(sys, s);
    SelfNonneg(raw);
    SqrtZero(sqrt, Inner(raw, raw));
    var beta := sqrt(Inner(raw, raw));
    if beta == 0.0 {
      SelfZero(raw);
      RebuildZero(sys.apply(s.v), s.alpha, s.u, sys.m);
      AdjointZeros(sys);
      PrecondZeros(sys);
      assert Zeros(sys.n) == Comb(0.0, s.v, 0.0, Zeros(sys.n));
    } else {
      var u := Scale(1.0 / beta, raw);
      UnitScaled(beta, raw, raw);
      Rebuild(sys.apply(s.v), s.alpha, s.u, beta);
      RightHalf(sys, sqrt, s, u, beta);
    }
  }

  lemma RightHalf(sys: System, sqrt: real -> real, s: Basis, u: seq<real>, beta: real)
    requires Operators(sys) && IsSqrt(sqrt) && Normalized(sys, s) && |u| == sys.m && beta > 0.0 && Inner(u, u) == 1.0
    ensures var t := RightOf(sys, sqrt, RightRaw(sys, s, u, beta), u, beta);
      && t.u == u && t.beta == beta && Normalized(sys, t) && |sys.adjoint(u)| == sys.n
      && sys.precond(sys.adjoint(u)) == Comb(beta, s.v, t.alpha, t.v)
      && (t.alpha > 0.0 ==> sys.adjoint(u) == Comb(beta, s.p, t.alpha, t.p))
  {
    hide Inner;
    hide Operators;
    hide RightOf;
    SizedAdjoint(sys, u);
    var p := RightRaw(sys, s, u, beta);
    RightOfNormalizes(sys, sqrt, p, u, beta);
    var t := RightOf(sys, sqrt, p, u, beta);
    if t.alpha > 0.0 {
      Rebuild(sys.adjoint(u), beta, s.p, t.alpha);
      PrecondComb(sys, beta, s.p, t.alpha, t.p);
    } else {
      PrecondComb(sys, 1.0, sys.adjoint(u), -beta, s.p);
      RebuildZero(sys.precond(sys.adjoint(u)), beta, s.v, sys.n);
      PrecondZeros(sys);
    }
  }

  ghost function FirstOf(sys: System, sqrt: real -> real, b: seq<real>): (t: Basis)
    requires Operators(sys) && |b| == sys.m
  {
    var beta := sqrt(Inner(b, b));
    var u := if beta == 0.0 then Zeros(sys.m) else Scale(1.0 / beta, b);
    SizedAdjoint(sys, u);
    RightOf(sys, sqrt, sys.adjoint(u), u, beta)
  }

  lemma FirstOfIsFirst(sys: System, sqrt: real -> real, b: seq<real>)
    requires Operators(sys) && IsSqrt(sqrt) && |b| == sys.m
    ensures First(sys, b, FirstOf(sys, sqrt, b))
  {
    hide Inner;
    hide Operators;
    hide RightOf;
    SelfNonneg(b);
    SqrtZero(sqrt, Inner(b, b));
    var beta := sqrt(Inner(b, b));
    var u := if beta == 0.0 then Zeros(sys.m) else Scale(1.0 / beta, b);
    if beta == 0.0 {
      SelfZero(b);
      ScaleZeros(0.0, sys.m);
    } else {
      UnitScaled(beta, b, b);
      ScaleBack(beta, b);
    }
    SizedAdjoint(sys, u);
    var p := sys.adjoint(u);
    RightOfNormalizes(sys, sqrt, p, u, beta);
    var t := RightOf(sys, sqrt, p, u, beta);
    if t.alpha > 0.0 {
      ScaleBack(t.alpha, p);
      PrecondScale(sys, t.alpha, t.p);
    } else {
      PrecondZeros(sys);
      ScaleZeros(0.0, sys.n);
    }
  }

  lemma ScaleBack(c: real, x: seq<real>)
    requires c != 0.0
    ensures x == Scale(c, Scale(1.0 / c, x))
  {
    var w := Scale(c, Scale(1.0 / c, x));
    forall i | 0 <= i < |x| ensures x[i] == w[i] { Unscale(c, x[i]); }
  }
}
