/** When a symmetric system with nonnegative energy has a solution: exactly for right-hand sides
    orthogonal to everything the matrix sends to zero. */
module Fredholm {
  import opened Sums
  import opened Elimination
  import opened Gremban
  import opened ReducedFactors

  /** x^T A x */
  ghost function Energy(n: nat, a: Mat, x: Vec): real { Dot(n, x, MulVec(n, a, x)) }

  ghost predicate Semidefinite(n: nat, a: Mat) { forall x: Vec :: Energy(n, a, x) >= 0.0 }

  ghost predicate InKernel(n: nat, a: Mat, z: Vec) { forall i :: 0 <= i < n ==> MulVec(n, a, z)(i) == 0.0 }

  /** `b` is orthogonal to the kernel. */
  ghost predicate OrthogonalToKernel(n: nat, a: Mat, b: Vec) { forall z: Vec :: InKernel(n, a, z) ==> Dot(n, z, b) == 0.0 }

  /** `x` with entry `m` replaced. */
  function Lift(m: nat, x: Vec, t: real): Vec { i => if i == m then t else x(i) }

  lemma LiftDot(m: nat, f: Vec, x: Vec, t: real)
    ensures Dot(m + 1, f, Lift(m, x, t)) == Dot(m, f, x) + f(m) * t
  {
    DotStep(m + 1, f, Lift(m, x, t));
    DotCong(m, f, Lift(m, x, t), f, x);
  }

  lemma LiftRow(m: nat, a: Mat, x: Vec, t: real, i: int)
    ensures MulVec(m + 1, a, Lift(m, x, t))(i) == Dot(m, RowOf(a, i), x) + a(i, m) * t
  {
    hide Dot;
    LiftDot(m, RowOf(a, i), x, t);
  }

  lemma LiftEnergy(m: nat, a: Mat, x: Vec, t: real)
    ensures Energy(m + 1, a, Lift(m, x, t)) ==
            Dot(m, x, MulVec(m + 1, a, Lift(m, x, t))) + t * MulVec(m + 1, a, Lift(m, x, t))(m)
  {
    var y := Lift(m, x, t);
    DotStep(m + 1, y, MulVec(m + 1, a, y));
    DotCong(m, y, MulVec(m + 1, a, y), x, MulVec(m + 1, a, y));
  }

  // ---- A zero pivot ------------------------------------------------------------------------

  lemma UnitEnergy(m: nat, a: Mat)
    requires Semidefinite(m + 1, a)
    ensures a(m, m) >= 0.0
  {
    hide Dot;
    hide Sum;
    var zero: Vec := _ => 0.0;
    var e := Lift(m, zero, 1.0);
    LiftEnergy(m, a, zero, 1.0);
    LiftRow(m, a, zero, 1.0, m);
    DotZero(m, zero, MulVec(m + 1, a, e));
    DotComm(m, RowOf(a, m), zero);
    DotZero(m, zero, RowOf(a, m));
    assert Energy(m + 1, a, e) >= 0.0;
  }

  /** The energy of `s` at `i` and 1 at `m`, when the pivot is zero. */
  lemma PairEnergy(m: nat, a: Mat, i: nat, s: real)
    requires i < m && Symmetric(m + 1, a) && a(m, m) == 0.0
    ensures Energy(m + 1, a, Lift(m, Delta(i, s), 1.0)) == s * (a(i, i) * s) + 2.0 * (s * a(i, m))
  {
    hide Dot;
    var u := Delta(i, s);
    var y := Lift(m, u, 1.0);
    LiftEnergy(m, a, u, 1.0);
    LiftRow(m, a, u, 1.0, m);
    LiftRow(m, a, u, 1.0, i);
    DotUnit(m, i, u, MulVec(m + 1, a, y));
    DotComm(m, RowOf(a, m), u);
    DotUnit(m, i, u, RowOf(a, m));
    DotComm(m, RowOf(a, i), u);
    DotUnit(m, i, u, RowOf(a, i));
    assert a(m, i) == a(i, m);
    PairScalars(s, a(i, i), a(i, m));
  }

  lemma PairScalars(s: real, p: real, q: real)
    ensures s * (s * p + q * 1.0) + 1.0 * (s * q) == s * (p * s) + 2.0 * (s * q)
  {
  }

  /** A nonnegative quadratic s (p s) + 2 s q with p >= 0 has no linear part. */
  lemma NoLinearPart(p: real, q: real, s: real)
    requires p >= 0.0 && s == -q / (p + 1.0) && s * (p * s) + 2.0 * (s * q) >= 0.0
    ensures q == 0.0
  {
    var r := p + 1.0;
    assert s * r == -q;
    var v := s * s;
    SquareNonneg(s, v);
    assert s * q == -(v * r) by { assert s * q == -(s * (s * r)); assert s * (s * r) == v * r; }
    assert s * (p * s) == v * p;
    assert v * p + 2.0 * (-(v * r)) == -(v * p) - 2.0 * v;
    NonnegTimes(v, p);
    assert v == 0.0;
    if s != 0.0 { SquareOfNonzero(s, v); }
  }

  lemma NonnegTimes(x: real, y: real)
    requires x >= 0.0 && y >= 0.0
    ensures x * y >= 0.0
  {
  }

  lemma ZeroPivotRow(m: nat, a: Mat, i: nat)
    requires i < m && Symmetric(m + 1, a) && Semidefinite(m + 1, a) && a(m, m) == 0.0 && a(i, i) >= 0.0
    ensures a(i, m) == 0.0 && a(m, i) == 0.0
  {
    hide Energy;
    var s := -a(i, m) / (a(i, i) + 1.0);
    PairEnergy(m, a, i, s);
    assert Energy(m + 1, a, Lift(m, Delta(i, s), 1.0)) >= 0.0;
    NoLinearPart(a(i, i), a(i, m), s);
  }

  /** The leading block keeps symmetry and nonnegative energy. */
  lemma LeadingEnergy(m: nat, a: Mat, x: Vec)
    ensures Energy(m + 1, a, Lift(m, x, 0.0)) == Energy(m, a, x)
  {
    hide Dot;
    LiftEnergy(m, a, x, 0.0);
    var y := Lift(m, x, 0.0);
    forall i | 0 <= i < m ensures MulVec(m + 1, a, y)(i) == MulVec(m, a, x)(i) { LiftRow(m, a, x, 0.0, i); }
    DotCong(m, x, MulVec(m + 1, a, y), x, MulVec(m, a, x));
  }

  lemma LeadingSemidefinite(m: nat, a: Mat)
    requires Semidefinite(m + 1, a)
    ensures Semidefinite(m, a)
  {
    hide Energy;
    forall x: Vec ensures Energy(m, a, x) >= 0.0 {
      LeadingEnergy(m, a, x);
      assert Energy(m + 1, a, Lift(m, x, 0.0)) >= 0.0;
    }
  }

  lemma {:induction false} DiagonalNonneg(m: nat, a: Mat, i: nat)
    requires i < m && Semidefinite(m, a)
    ensures a(i, i) >= 0.0
  {
    if i == m - 1 {
      UnitEnergy(i, a);
    } else {
      LeadingSemidefinite(m - 1, a);
      DiagonalNonneg(m - 1, a, i);
    }
  }

  lemma ZeroPivotKernel(m: nat, a: Mat, z: Vec, t: real)
    requires InKernel(m, a, z) && (forall i :: 0 <= i < m ==> a(i, m) == 0.0 && a(m, i) == 0.0) && a(m, m) == 0.0
    ensures InKernel(m + 1, a, Lift(m, z, t))
  {
    hide Dot;
    var n := m + 1;
    forall i | 0 <= i < n ensures MulVec(n, a, Lift(m, z, t))(i) == 0.0 {
      LiftRow(m, a, z, t, i);
      if i < m { assert MulVec(m, a, z)(i) == 0.0; } else { DotZero(m, RowOf(a, m), z); }
    }
  }

  /** Without a pivot the last equation is `0 = b(m)`, and the rest is the leading system. */
  lemma ZeroPivotSolves(m: nat, a: Mat, b: Vec, x: Vec)
    requires (forall i :: 0 <= i < m ==> a(i, m) == 0.0 && a(m, i) == 0.0) && a(m, m) == 0.0 && b(m) == 0.0 && Solves(m, a, x, b)
    ensures Solves(m + 1, a, Lift(m, x, 0.0), b)
  {
    hide Dot;
    var n := m + 1;
    forall i | 0 <= i < n ensures MulVec(n, a, Lift(m, x, 0.0))(i) == b(i) {
      LiftRow(m, a, x, 0.0, i);
      if i < m { assert MulVec(m, a, x)(i) == b(i); } else { DotZero(m, RowOf(a, m), x); }
    }
  }

  lemma ZeroPivotOrthogonal(m: nat, a: Mat, b: Vec)
    requires (forall i :: 0 <= i < m ==> a(i, m) == 0.0 && a(m, i) == 0.0) && a(m, m) == 0.0 && OrthogonalToKernel(m + 1, a, b)
    ensures OrthogonalToKernel(m, a, b) && b(m) == 0.0
  {
    hide Dot;
    hide InKernel;
    forall z: Vec | InKernel(m, a, z) ensures Dot(m, z, b) == 0.0 {
      ZeroPivotKernel(m, a, z, 0.0);
      LiftDot(m, b, z, 0.0);
      DotComm(m + 1, b, Lift(m, z, 0.0));
      DotComm(m, b, z);
    }
    var zero: Vec := _ => 0.0;
    ZeroInKernel(m, a, zero);
    ZeroPivotKernel(m, a, zero, 1.0);
    LiftDot(m, b, zero, 1.0);
    DotComm(m + 1, b, Lift(m, zero, 1.0));
    DotComm(m, b, zero);
    DotZero(m, zero, b);
  }

  lemma ZeroInKernel(m: nat, a: Mat, zero: Vec)
    requires forall i :: zero(i) == 0.0
    ensures InKernel(m, a, zero)
  {
    hide Dot;
    forall i | 0 <= i < m ensures MulVec(m, a, zero)(i) == 0.0 {
      DotComm(m, RowOf(a, i), zero);
      DotZero(m, zero, RowOf(a, i));
    }
  }

  // ---- A positive pivot --------------------------------------------------------------------

  /** One vertex eliminated; `v` is the inverse of the pivot. */
  function Reduced(m: nat, a: Mat, v: real): Mat { (i, j) => a(i, j) - (a(i, m) * v) * a(m, j) }

  function ReducedVec(m: nat, a: Mat, v: real, b: Vec): Vec { i => b(i) - (a(i, m) * v) * b(m) }

  lemma ReducedRow(m: nat, a: Mat, v: real, x: Vec, i: int)
    ensures MulVec(m, Reduced(m, a, v), x)(i) == Dot(m, RowOf(a, i), x) - (a(i, m) * v) * Dot(m, RowOf(a, m), x)
  {
    hide Dot;
    var k := a(i, m) * v;
    var f, g, s := RowOf(a, i), RowOf(a, m), RowOf(Reduced(m, a, v), i);
    forall j {:trigger s(j)} | 0 <= j < m ensures s(j) == f(j) + (-k) * g(j) { NegatedTimes(k, g(j)); }
    DotAxpyLeft(m, f, -k, g, s, x);
    NegatedTimes(k, Dot(m, g, x));
  }

  lemma NegatedTimes(k: real, g: real)
    ensures (-k) * g == -(k * g)
  {
  }

  /** The last entry that back-substitution gives. */
  function LastEntry(m: nat, a: Mat, v: real, x: Vec, bm: real): real { v * (bm - Dot(m, RowOf(a, m), x)) }

  lemma LastScalars(q: real, v: real, bm: real, rho: real)
    ensures q * (v * (bm - rho)) == (q * v) * bm - (q * v) * rho
  {
  }

  lemma PivotScalars(p: real, v: real, bm: real, rho: real)
    requires v * p == 1.0
    ensures rho + p * (v * (bm - rho)) == bm
  {
    assert p * (v * (bm - rho)) == (v * p) * (bm - rho);
  }

  /** Rows of the lifted vector: the reduced row, and the pivot row closed exactly. */
  lemma LiftedRows(m: nat, a: Mat, v: real, x: Vec, bm: real, i: int)
    requires v * a(m, m) == 1.0
    ensures var y := Lift(m, x, LastEntry(m, a, v, x, bm));
      && MulVec(m + 1, a, y)(i) == MulVec(m, Reduced(m, a, v), x)(i) + (a(i, m) * v) * bm
      && MulVec(m + 1, a, y)(m) == bm
  {
    hide Dot;
    var t, rho := LastEntry(m, a, v, x, bm), Dot(m, RowOf(a, m), x);
    LiftRow(m, a, x, t, i);
    LiftRow(m, a, x, t, m);
    ReducedRow(m, a, v, x, i);
    LastScalars(a(i, m), v, bm, rho);
    PivotScalars(a(m, m), v, bm, rho);
  }

  lemma ReducedSymmetric(m: nat, a: Mat, v: real)
    requires Symmetric(m + 1, a)
    ensures Symmetric(m, Reduced(m, a, v))
  {
    forall i, j | 0 <= i < m && 0 <= j < m ensures Reduced(m, a, v)(i, j) == Reduced(m, a, v)(j, i) {
      assert a(i, m) == a(m, i) && a(j, m) == a(m, j) && a(i, j) == a(j, i);
      SwapFactors(a(i, m), v, a(m, j));
    }
  }

  lemma ReducedEnergy(m: nat, a: Mat, v: real, x: Vec)
    requires v * a(m, m) == 1.0
    ensures Energy(m + 1, a, Lift(m, x, LastEntry(m, a, v, x, 0.0))) == Energy(m, Reduced(m, a, v), x)
  {
    hide Dot;
    var t := LastEntry(m, a, v, x, 0.0);
    var y := Lift(m, x, t);
    LiftEnergy(m, a, x, t);
    LiftedRows(m, a, v, x, 0.0, m);
    forall i | 0 <= i < m ensures MulVec(m + 1, a, y)(i) == MulVec(m, Reduced(m, a, v), x)(i) { LiftedRows(m, a, v, x, 0.0, i); }
    DotCong(m, x, MulVec(m + 1, a, y), x, MulVec(m, Reduced(m, a, v), x));
  }

  lemma ReducedSemidefinite(m: nat, a: Mat, v: real)
    requires v * a(m, m) == 1.0 && Semidefinite(m + 1, a)
    ensures Semidefinite(m, Reduced(m, a, v))
  {
    hide Energy;
    hide LastEntry;
    forall x: Vec ensures Energy(m, Reduced(m, a, v), x) >= 0.0 {
      ReducedEnergy(m, a, v, x);
      assert Energy(m + 1, a, Lift(m, x, LastEntry(m, a, v, x, 0.0))) >= 0.0;
    }
  }

  lemma ReducedKernel(m: nat, a: Mat, v: real, z: Vec)
    requires v * a(m, m) == 1.0 && InKernel(m, Reduced(m, a, v), z)
    ensures InKernel(m + 1, a, Lift(m, z, LastEntry(m, a, v, z, 0.0)))
  {
    hide Dot;
    hide LastEntry;
    var n, y := m + 1, Lift(m, z, LastEntry(m, a, v, z, 0.0));
    forall i | 0 <= i < n ensures MulVec(n, a, y)(i) == 0.0 {
      LiftedRows(m, a, v, z, 0.0, i);
      if i < m { assert MulVec(m, Reduced(m, a, v), z)(i) == 0.0; }
    }
  }

  /** Pairing with the lifted vector is pairing with the reduced right-hand side. */
  lemma ReducedPairing(m: nat, a: Mat, v: real, z: Vec, b: Vec)
    requires Symmetric(m + 1, a)
    ensures Dot(m + 1, Lift(m, z, LastEntry(m, a, v, z, 0.0)), b) == Dot(m, z, ReducedVec(m, a, v, b))
  {
    hide Dot;
    var t, k, rho := LastEntry(m, a, v, z, 0.0), v * b(m), Dot(m, RowOf(a, m), z);
    DotComm(m + 1, Lift(m, z, t), b);
    LiftDot(m, b, z, t);
    var s := ReducedVec(m, a, v, b);
    forall j {:trigger s(j)} | 0 <= j < m ensures s(j) == b(j) + (-k) * RowOf(a, m)(j) {
      assert a(j, m) == a(m, j);
      ReducedScalars(a(m, j), v, b(m));
    }
    DotAxpyLeft(m, b, -k, RowOf(a, m), s, z);
    DotComm(m, z, s);
    PairingScalars(b(m), v, rho);
  }

  lemma ReducedScalars(q: real, v: real, bm: real)
    ensures (q * v) * bm == (v * bm) * q && (-(v * bm)) * q == -((v * bm) * q)
  {
  }

  lemma PairingScalars(bm: real, v: real, rho: real)
    ensures bm * (v * (0.0 - rho)) == (-(v * bm)) * rho
  {
  }

  lemma ReducedOrthogonal(m: nat, a: Mat, v: real, b: Vec)
    requires v * a(m, m) == 1.0 && Symmetric(m + 1, a) && OrthogonalToKernel(m + 1, a, b)
    ensures OrthogonalToKernel(m, Reduced(m, a, v), ReducedVec(m, a, v, b))
  {
    hide Dot;
    hide InKernel;
    hide LastEntry;
    forall z: Vec | InKernel(m, Reduced(m, a, v), z) ensures Dot(m, z, ReducedVec(m, a, v, b)) == 0.0 {
      ReducedKernel(m, a, v, z);
      ReducedPairing(m, a, v, z, b);
    }
  }

  lemma ReducedSolves(m: nat, a: Mat, v: real, b: Vec, x: Vec)
    requires v * a(m, m) == 1.0 && Solves(m, Reduced(m, a, v), x, ReducedVec(m, a, v, b))
    ensures Solves(m + 1, a, Lift(m, x, LastEntry(m, a, v, x, b(m))), b)
  {
    hide Dot;
    hide LastEntry;
    var n, y := m + 1, Lift(m, x, LastEntry(m, a, v, x, b(m)));
    forall i | 0 <= i < n ensures MulVec(n, a, y)(i) == b(i) {
      LiftedRows(m, a, v, x, b(m), i);
      if i < m { assert MulVec(m, Reduced(m, a, v), x)(i) == ReducedVec(m, a, v, b)(i); }
    }
  }

  // ---- The alternative ---------------------------------------------------------------------

  lemma SolvedBy(n: nat, a: Mat, b: Vec, x: Vec)
    requires Solves(n, a, x, b)
    ensures Solvable(n, a, b)
  {
  }

  /** Eliminating one vertex at a time, every right-hand side orthogonal to the kernel is met. */
  lemma {:induction false} OrthogonalIsSolvable(n: nat, a: Mat, b: Vec)
    requires Symmetric(n, a) && Semidefinite(n, a) && OrthogonalToKernel(n, a, b)
    ensures Solvable(n, a, b)
    decreases n, 1
  {
    hide InKernel;
    hide Energy;
    hide Solves;
    if n == 0 {
      NothingToSolve(a, b);
    } else {
      UnitEnergy(n - 1, a);
      if a(n - 1, n - 1) == 0.0 { ZeroPivotCase(n, a, b); } else { PivotCase(n, a, b); }
    }
  }

  lemma NothingToSolve(a: Mat, b: Vec)
    ensures Solvable(0, a, b)
  {
    assert Solves(0, a, b, b);
  }

  lemma {:induction false} ZeroPivotCase(n: nat, a: Mat, b: Vec)
    requires n > 0 && Symmetric(n, a) && Semidefinite(n, a) && OrthogonalToKernel(n, a, b) && a(n - 1, n - 1) == 0.0
    ensures Solvable(n, a, b)
    decreases n, 0
  {
    hide InKernel;
    hide Energy;
    hide Solves;
    hide Dot;
    var m := n - 1;
    forall i | 0 <= i < m ensures a(i, m) == 0.0 && a(m, i) == 0.0 {
      DiagonalNonneg(n, a, i);
      ZeroPivotRow(m, a, i);
    }
    LeadingSemidefinite(m, a);
    ZeroPivotOrthogonal(m, a, b);
    OrthogonalIsSolvable(m, a, b);
    var x: Vec :| Solves(m, a, x, b);
    ZeroPivotSolves(m, a, b, x);
    SolvedBy(n, a, b, Lift(m, x, 0.0));
  }

  lemma {:induction false} PivotCase(n: nat, a: Mat, b: Vec)
    requires n > 0 && Symmetric(n, a) && Semidefinite(n, a) && OrthogonalToKernel(n, a, b) && a(n - 1, n - 1) > 0.0
    ensures Solvable(n, a, b)
    decreases n, 0
  {
    hide InKernel;
    hide Energy;
    hide Solves;
    hide Dot;
    hide LastEntry;
    var m := n - 1;
    var v := 1.0 / a(m, m);
    assert v * a(m, m) == 1.0;
    ReducedSymmetric(m, a, v);
    ReducedSemidefinite(m, a, v);
    ReducedOrthogonal(m, a, v, b);
    OrthogonalIsSolvable(m, Reduced(m, a, v), ReducedVec(m, a, v, b));
    var x: Vec :| Solves(m, Reduced(m, a, v), x, ReducedVec(m, a, v, b));
    ReducedSolves(m, a, v, b, x);
    SolvedBy(n, a, b, Lift(m, x, LastEntry(m, a, v, x, b(m))));
  }

  /** x^T (A z) == z^T (A x) */
  lemma SymmetricPairing(n: nat, a: Mat, x: Vec, z: Vec)
    requires Symmetric(n, a)
    ensures Dot(n, z, MulVec(n, a, x)) == Dot(n, x, MulVec(n, a, z))
  {
    hide Dot;
    DotSwap(n, n, z, a, x);
    forall j | 0 <= j < n ensures VecMul(n, z, a)(j) == MulVec(n, a, z)(j) {
      DotComm(n, z, ColOf(a, j));
      forall i | 0 <= i < n ensures ColOf(a, j)(i) == RowOf(a, j)(i) { assert a(i, j) == a(j, i); }
      DotCong(n, ColOf(a, j), z, RowOf(a, j), z);
    }
    DotCong(n, VecMul(n, z, a), x, MulVec(n, a, z), x);
    DotComm(n, MulVec(n, a, z), x);
  }

  /** A system with nonnegative energy is solvable exactly for right-hand sides orthogonal to
      the kernel. */
  lemma SolvableIffOrthogonal(n: nat, a: Mat, b: Vec)
    requires Symmetric(n, a) && Semidefinite(n, a)
    ensures Solvable(n, a, b) <==> OrthogonalToKernel(n, a, b)
  {
    hide Dot;
    hide Energy;
    if OrthogonalToKernel(n, a, b) { OrthogonalIsSolvable(n, a, b); }
    if Solvable(n, a, b) {
      var x: Vec :| Solves(n, a, x, b);
      forall z: Vec | InKernel(n, a, z) ensures Dot(n, z, b) == 0.0 {
        SymmetricPairing(n, a, x, z);
        DotCong(n, z, MulVec(n, a, x), z, b);
        DotZero(n, x, MulVec(n, a, z));
      }
    }
  }
}
