/** Which vectors an iterate can be: only what the preconditioned gradients reach, whatever the
    run (crates/schwarz-precond/src/lsmr/bidiag.rs:180-330, crates/schwarz-precond/src/lsmr/recurrence.rs:109-125). */
module Attainables {
  import opened Sums
  import opened Vectors
  import opened Bidiagonal
  import opened Krylov

  /** `k` is orthogonal to every preconditioned gradient `M^-1 A^T u`. */
  ghost predicate Apart(sys: System, k: seq<real>) {
    |k| == sys.n && forall u :: |u| == sys.m ==> ApartAt(sys, k, u)
  }

  ghost predicate ApartAt(sys: System, k: seq<real>, u: seq<real>)
    requires |k| == sys.n && |u| == sys.m
  {
    |sys.adjoint(u)| == |sys.precond(sys.adjoint(u))| == sys.n && Inner(sys.precond(sys.adjoint(u)), k) == 0.0
  }

  /** `x` is orthogonal to whatever all of those are orthogonal to. */
  ghost predicate Attainable(sys: System, x: seq<real>) {
    |x| == sys.n && forall k :: Apart(sys, k) ==> |k| == |x| && Inner(x, k) == 0.0
  }

  lemma AttainableZeros(sys: System)
    ensures Attainable(sys, Zeros(sys.n))
  {
    hide Inner;
    forall k | Apart(sys, k) ensures |k| == sys.n && Inner(Zeros(sys.n), k) == 0.0 { InnerZeros(sys.n, k); }
  }

  lemma ScaledPairing(a: real, v: seq<real>, k: seq<real>)
    requires |v| == |k| && Inner(Scale(a, v), k) == 0.0 && a != 0.0
    ensures Inner(v, k) == 0.0
  {
    hide Inner;
    InnerScale(a, v, k);
    ZeroOf(a, Inner(v, k));
  }

  lemma ZeroOf(a: real, y: real)
    requires a != 0.0 && a * y == 0.0
    ensures y == 0.0
  {
  }

  lemma VanishedRight(sys: System, s: Basis, k: seq<real>)
    requires Operators(sys) && Normalized(sys, s) && s.alpha == 0.0 && |k| == sys.n
    ensures Inner(s.v, k) == 0.0
  {
    hide Operators;
    hide Inner;
    PrecondZeros(sys);
    InnerZeros(sys.n, k);
  }

  lemma FirstApart(sys: System, b: seq<real>, s: Basis, k: seq<real>)
    requires Operators(sys) && First(sys, b, s) && Apart(sys, k)
    ensures Inner(s.v, k) == 0.0
  {
    hide Operators;
    hide Inner;
    assert ApartAt(sys, k, s.u);
    if s.alpha == 0.0 { VanishedRight(sys, s, k); } else { ScaledPairing(s.alpha, s.v, k); }
  }

  lemma NextApart(sys: System, s: Basis, t: Basis, k: seq<real>)
    requires Operators(sys) && Next(sys, s, t) && Apart(sys, k) && Inner(s.v, k) == 0.0
    ensures Inner(t.v, k) == 0.0
  {
    hide Operators;
    hide Inner;
    assert ApartAt(sys, k, t.u);
    InnerComb(t.beta, s.v, t.alpha, t.v, k);
    if t.alpha == 0.0 { VanishedRight(sys, t, k); } else { ZeroOf(t.alpha, Inner(t.v, k)); }
  }

  /** Every right vector of a run is attained. */
  lemma {:induction false} RunApart(sys: System, b: seq<real>, h: seq<Basis>, j: nat, k: seq<real>)
    requires Operators(sys) && Run(sys, b, h) && j < |h| && Apart(sys, k)
    ensures |h[j].v| == sys.n && Inner(h[j].v, k) == 0.0
  {
    hide Operators;
    hide Inner;
    hide Apart;
    hide Next;
    RunNormalized(sys, b, h, j);
    ApartSized(sys, k);
    if j == 0 {
      FirstApart(sys, b, h[0], k);
    } else {
      RunApart(sys, b, h, j - 1, k);
      assert StepAt(sys, h, j);
      NextApart(sys, h[j - 1], h[j], k);
    }
  }

  lemma ApartSized(sys: System, k: seq<real>)
    requires Apart(sys, k)
    ensures |k| == sys.n
  {
  }

  /** Combinations of a run's right vectors are attained. */
  lemma RunIsAttainable(sys: System, b: seq<real>, h: seq<Basis>, x: seq<real>)
    requires Operators(sys) && Run(sys, b, h) && Spanned(sys.n, Vs(h), x)
    ensures Attainable(sys, x)
  {
    hide Operators;
    hide Inner;
    hide Run;
    hide Apart;
    hide OrthogonalToAll;
    forall k | Apart(sys, k) ensures |k| == |x| && Inner(x, k) == 0.0 {
      ApartSized(sys, k);
      RunMisses(sys, b, h, k);
      SpannedUse(sys.n, Vs(h), x, k);
    }
  }

  lemma RunMisses(sys: System, b: seq<real>, h: seq<Basis>, k: seq<real>)
    requires Operators(sys) && Run(sys, b, h) && Apart(sys, k)
    ensures |k| == sys.n && OrthogonalToAll(sys.n, Vs(h), k)
  {
    hide Operators;
    hide Inner;
    hide Run;
    hide Apart;
    ApartSized(sys, k);
    forall j | 0 <= j < |h| ensures |Vs(h)[j]| == sys.n && Inner(Vs(h)[j], k) == 0.0 { RunApart(sys, b, h, j, k); }
  }

  /** Coefficient `j` of every preconditioned gradient is zero. */
  ghost predicate Untouched(sys: System, j: nat) {
    j < sys.n && forall u :: |u| == sys.m ==> UntouchedAt(sys, j, u)
  }

  ghost predicate UntouchedAt(sys: System, j: nat, u: seq<real>)
    requires j < sys.n && |u| == sys.m
  {
    |sys.adjoint(u)| == |sys.precond(sys.adjoint(u))| == sys.n && sys.precond(sys.adjoint(u))[j] == 0.0
  }

  lemma InnerUnit(x: seq<real>, j: nat)
    requires j < |x|
    ensures Inner(x, Unit(|x|, j)) == x[j]
  {
    hide Sum;
    DotComm(|x|, At(x), At(Unit(|x|, j)));
    DotUnit(|x|, j, At(Unit(|x|, j)), At(x));
  }

  /** What no preconditioned gradient touches, no attained vector does. */
  lemma UntouchedStaysZero(sys: System, x: seq<real>, j: nat)
    requires Attainable(sys, x) && Untouched(sys, j)
    ensures x[j] == 0.0
  {
    hide Inner;
    var e := Unit(sys.n, j);
    forall u | |u| == sys.m ensures ApartAt(sys, e, u) {
      assert UntouchedAt(sys, j, u);
      InnerUnit(sys.precond(sys.adjoint(u)), j);
    }
    assert Apart(sys, e);
    InnerUnit(x, j);
  }
}
