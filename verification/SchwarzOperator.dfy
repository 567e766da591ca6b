/** The additive Schwarz sum as one operator: linear, symmetric and of nonnegative energy when
    every local solve is, and blind exactly where all of them are
    (crates/schwarz-precond/src/schwarz/preconditioner.rs:74-160, crates/schwarz-precond/src/domain.rs:47-189). */
module SchwarzOperators {
  import opened Wrappers
  import opened Sums
  import opened Vectors
  import opened Bidiagonal
  import opened Subdomains

  /** The local solve never fails and keeps the size. */
  ghost predicate SolvesAt(e: SubdomainEntry, r: seq<real>) {
    e.solve(r).Some? && |e.solve(r).value| == |r| == |e.indices|
  }

  ghost predicate LinearSolve(e: SubdomainEntry, a: real, r: seq<real>, b: real, q: seq<real>)
    requires |r| == |q|
  {
    && SolvesAt(e, r) && SolvesAt(e, q) && SolvesAt(e, Comb(a, r, b, q))
    && e.solve(Comb(a, r, b, q)).value == Comb(a, e.solve(r).value, b, e.solve(q).value)
  }

  ghost predicate SymmetricSolve(e: SubdomainEntry, r: seq<real>, q: seq<real>)
    requires |r| == |q|
  {
    && SolvesAt(e, r) && SolvesAt(e, q)
    && Inner(e.solve(r).value, q) == Inner(e.solve(q).value, r)
  }

  ghost predicate NonnegativeSolve(e: SubdomainEntry, r: seq<real>) { SolvesAt(e, r) && Inner(e.solve(r).value, r) >= 0.0 }

  /** The local solver is a linear, symmetric operator of nonnegative energy. */
  ghost predicate LocalOperator(e: SubdomainEntry) {
    && (forall a, r, b, q :: |r| == |q| == |e.indices| ==> LinearSolve(e, a, r, b, q))
    && (forall r, q :: |r| == |q| == |e.indices| ==> SymmetricSolve(e, r, q))
    && (forall r :: |r| == |e.indices| ==> NonnegativeSolve(e, r))
  }

  ghost predicate SoundEntries(entries: seq<SubdomainEntry>, n: nat) {
    forall k :: 0 <= k < |entries| ==> entries[k].Valid(n) && LocalOperator(entries[k])
  }

  /** `M^-1 r` */
  ghost function SchwarzApply(entries: seq<SubdomainEntry>, r: seq<real>): (z: seq<real>)
    requires forall k :: 0 <= k < |entries| ==> entries[k].Valid(|r|)
    ensures |z| == |r|
  {
    seq(|r|, d requires 0 <= d < |r| && forall k :: 0 <= k < |entries| ==> entries[k].Valid(|r|) => SchwarzSum(Plans(entries, r), d))
  }

  // ---- One subdomain -----------------------------------------------------------------------

  /** The local solution behind a contribution. */
  ghost function Solution(e: SubdomainEntry, r: seq<real>): (x: seq<real>)
    requires e.Valid(|r|) && LocalOperator(e)
    ensures |x| == |e.indices| && x == e.solve(e.Restricted(r)).value
  {
    assert NonnegativeSolve(e, e.Restricted(r));
    e.solve(e.Restricted(r)).value
  }

  lemma PlanIsAdds(e: SubdomainEntry, r: seq<real>)
    requires e.Valid(|r|) && LocalOperator(e)
    ensures e.Plan(r) == Some(e.Adds(Solution(e, r)))
  {
    hide Inner;
    assert NonnegativeSolve(e, e.Restricted(r));
    if e.indices == [] { assert e.Adds(Solution(e, r)) == []; }
  }

  function AddedVec(adds: seq<(nat, real)>): int -> real { d => AddedAt(adds, d) }

  function One(a: (nat, real)): int -> real { d => if a.0 == d then a.1 else 0.0 }

  /** Prolongation is the adjoint of restriction. */
  lemma {:induction false} AddsDot(e: SubdomainEntry, x: seq<real>, q: seq<real>, k: nat)
    requires e.Valid(|q|) && |x| == |e.indices| && k <= |x|
    ensures Dot(|q|, AddedVec(e.Adds(x)[..k]), At(q)) == Dot(k, At(x), At(e.Restricted(q)))
  {
    hide Sum;
    hide Dot;
    var n, adds := |q|, e.Adds(x);
    if k == 0 {
      DotZero(n, AddedVec([]), At(q));
      DotNothing(At(x), At(e.Restricted(q)));
    } else {
      AddsDot(e, x, q, k - 1);
      var a := adds[k - 1];
      assert adds[..k] == adds[..k - 1] + [a];
      forall d | 0 <= d < n ensures AddedVec(adds[..k])(d) == AddedVec(adds[..k - 1])(d) + One(a)(d) { AddedAtPush(adds[..k - 1], a, d); }
      DotAddLeft(n, AddedVec(adds[..k - 1]), One(a), AddedVec(adds[..k]), At(q));
      DotUnit(n, a.0, One(a), At(q));
      DotStep(k, At(x), At(e.Restricted(q)));
      MoveWeight(x[k - 1], e.weights.Get(k - 1), q[a.0]);
    }
  }

  lemma DotNothing(f: int -> real, g: int -> real)
    ensures Dot(0, f, g) == 0.0
  {
  }

  lemma MoveWeight(x: real, w: real, q: real)
    ensures (x * w) * q == x * (q * w)
  {
  }

  // ---- The sum -----------------------------------------------------------------------------

  function Planned(plans: seq<Option<seq<(nat, real)>>>): (int, int) -> real {
    (k, d) => if 0 <= k < |plans| then PlannedAt(plans[k], d) else 0.0
  }

  /** What subdomain `k` makes of `r`, seen from `q`. */
  ghost function LocalTerm(entries: seq<SubdomainEntry>, r: seq<real>, q: seq<real>): int -> real
    requires |r| == |q| && SoundEntries(entries, |r|)
  {
    k => if 0 <= k < |entries| && |r| == |q| && SoundEntries(entries, |r|) then Inner(Solution(entries[k], r), entries[k].Restricted(q)) else 0.0
  }

  /** The Schwarz pairing is the sum of the local ones. */
  lemma SchwarzPairing(entries: seq<SubdomainEntry>, r: seq<real>, q: seq<real>)
    requires |r| == |q| && SoundEntries(entries, |r|)
    ensures |SchwarzApply(entries, r)| == |q|
    ensures Inner(SchwarzApply(entries, r), q) == Sum(|entries|, LocalTerm(entries, r, q))
  {
    hide Sum;
    hide Dot;
    hide LocalOperator;
    hide PlannedAt;
    var n, z, p := |r|, SchwarzApply(entries, r), Planned(Plans(entries, r));
    var all: int -> real := d => Sum(|entries|, k => p(k, d));
    forall d | 0 <= d < n ensures At(z)(d) == all(d) {
      assert z[d] == SchwarzSum(Plans(entries, r), d);
      SumCong(|entries|, k => if 0 <= k < |Plans(entries, r)| then PlannedAt(Plans(entries, r)[k], d) else 0.0, k => p(k, d));
    }
    DotCong(n, At(z), At(q), all, At(q));
    DotOfSum(n, |entries|, p, At(q));
    forall k | 0 <= k < |entries| ensures Dot(n, d => p(k, d), At(q)) == LocalTerm(entries, r, q)(k) { TermPairs(entries, r, q, k); }
    SumCong(|entries|, k => Dot(n, d => p(k, d), At(q)), LocalTerm(entries, r, q));
  }

  lemma TermPairs(entries: seq<SubdomainEntry>, r: seq<real>, q: seq<real>, k: nat)
    requires |r| == |q| && SoundEntries(entries, |r|) && k < |entries|
    ensures Dot(|r|, d => Planned(Plans(entries, r))(k, d), At(q)) == LocalTerm(entries, r, q)(k)
  {
    hide Sum;
    hide Dot;
    hide LocalOperator;
    var e := entries[k];
    var x := Solution(e, r);
    PlanIsAdds(e, r);
    assert Plans(entries, r)[k] == e.Plan(r);
    AddsDot(e, x, q, |x|);
    assert e.Adds(x)[..|x|] == e.Adds(x);
    forall d | 0 <= d < |r| ensures Planned(Plans(entries, r))(k, d) == AddedVec(e.Adds(x))(d) {}
    DotCong(|r|, d => Planned(Plans(entries, r))(k, d), At(q), AddedVec(e.Adds(x)), At(q));
  }

  // ---- The operator ------------------------------------------------------------------------

  lemma RestrictedComb(e: SubdomainEntry, a: real, r: seq<real>, b: real, q: seq<real>)
    requires |r| == |q| && e.Valid(|r|)
    ensures e.Restricted(Comb(a, r, b, q)) == Comb(a, e.Restricted(r), b, e.Restricted(q))
  {
    var x, y := e.Restricted(Comb(a, r, b, q)), Comb(a, e.Restricted(r), b, e.Restricted(q));
    forall i | 0 <= i < |x| ensures x[i] == y[i] { WeighComb(a, r[e.indices[i]], b, q[e.indices[i]], e.weights.Get(i)); }
  }

  lemma WeighComb(a: real, x: real, b: real, y: real, w: real)
    ensures (a * x + b * y) * w == a * (x * w) + b * (y * w)
  {
  }

  lemma SolutionComb(e: SubdomainEntry, a: real, r: seq<real>, b: real, q: seq<real>)
    requires |r| == |q| && e.Valid(|r|) && LocalOperator(e)
    ensures Solution(e, Comb(a, r, b, q)) == Comb(a, Solution(e, r), b, Solution(e, q))
  {
    hide Inner;
    RestrictedComb(e, a, r, b, q);
    assert LinearSolve(e, a, e.Restricted(r), b, e.Restricted(q));
  }

  lemma TermComb(entries: seq<SubdomainEntry>, a: real, r: seq<real>, b: real, q: seq<real>, p: seq<real>, k: nat)
    requires |r| == |q| == |p| && SoundEntries(entries, |r|) && k < |entries|
    ensures LocalTerm(entries, Comb(a, r, b, q), p)(k) == a * LocalTerm(entries, r, p)(k) + b * LocalTerm(entries, q, p)(k)
  {
    hide Inner;
    hide LocalOperator;
    hide Comb;
    var e := entries[k];
    SolutionComb(e, a, r, b, q);
    InnerComb(a, Solution(e, r), b, Solution(e, q), e.Restricted(p));
  }

  /** `M^-1 (a r + b q)`, paired. */
  lemma PairedComb(entries: seq<SubdomainEntry>, a: real, r: seq<real>, b: real, q: seq<real>, p: seq<real>)
    requires |r| == |q| == |p| && SoundEntries(entries, |r|)
    ensures |SchwarzApply(entries, Comb(a, r, b, q))| == |SchwarzApply(entries, r)| == |SchwarzApply(entries, q)| == |p|
    ensures Inner(SchwarzApply(entries, Comb(a, r, b, q)), p)
            == a * Inner(SchwarzApply(entries, r), p) + b * Inner(SchwarzApply(entries, q), p)
  {
    hide Sum;
    hide Inner;
    hide LocalOperator;
    hide LocalTerm;
    hide SchwarzApply;
    var n, c := |entries|, Comb(a, r, b, q);
    SchwarzPairing(entries, c, p);
    SchwarzPairing(entries, r, p);
    SchwarzPairing(entries, q, p);
    var f, g: int -> real := k => a * LocalTerm(entries, r, p)(k), k => b * LocalTerm(entries, q, p)(k);
    forall k | 0 <= k < n ensures LocalTerm(entries, c, p)(k) == f(k) + g(k) { TermComb(entries, a, r, b, q, p, k); }
    SumScale(n, a, LocalTerm(entries, r, p), f);
    SumScale(n, b, LocalTerm(entries, q, p), g);
    SumAdd(n, f, g, LocalTerm(entries, c, p));
  }

  lemma SchwarzComb(entries: seq<SubdomainEntry>, a: real, r: seq<real>, b: real, q: seq<real>)
    requires |r| == |q| && SoundEntries(entries, |r|)
    ensures SchwarzApply(entries, Comb(a, r, b, q)) == Comb(a, SchwarzApply(entries, r), b, SchwarzApply(entries, q))
  {
    hide Inner;
    hide LocalOperator;
    hide SchwarzSum;
    var x, y := SchwarzApply(entries, Comb(a, r, b, q)), Comb(a, SchwarzApply(entries, r), b, SchwarzApply(entries, q));
    var z := Comb(1.0, x, -1.0, y);
    PairedComb(entries, a, r, b, q, z);
    InnerComb(1.0, x, -1.0, y, z);
    InnerComb(a, SchwarzApply(entries, r), b, SchwarzApply(entries, q), z);
    SelfZero(z);
    SameDifference(x, y);
  }

  lemma SchwarzSymmetric(entries: seq<SubdomainEntry>, r: seq<real>, q: seq<real>)
    requires |r| == |q| && SoundEntries(entries, |r|)
    ensures |SchwarzApply(entries, r)| == |SchwarzApply(entries, q)| == |r|
    ensures Inner(SchwarzApply(entries, r), q) == Inner(SchwarzApply(entries, q), r)
  {
    hide Sum;
    hide Inner;
    hide SchwarzSum;
    SchwarzPairing(entries, r, q);
    SchwarzPairing(entries, q, r);
    forall k | 0 <= k < |entries| ensures LocalTerm(entries, r, q)(k) == LocalTerm(entries, q, r)(k) {
      var e := entries[k];
      assert SymmetricSolve(e, e.Restricted(r), e.Restricted(q));
    }
    SumCong(|entries|, LocalTerm(entries, r, q), LocalTerm(entries, q, r));
  }

  /** Nonnegative energy, and zero only where every local energy is. */
  lemma SchwarzEnergy(entries: seq<SubdomainEntry>, r: seq<real>)
    requires SoundEntries(entries, |r|)
    ensures |SchwarzApply(entries, r)| == |r| && Inner(SchwarzApply(entries, r), r) >= 0.0
    ensures Inner(SchwarzApply(entries, r), r) == 0.0 <==> forall k :: 0 <= k < |entries| ==> LocalTerm(entries, r, r)(k) == 0.0
  {
    hide Sum;
    hide Inner;
    hide SchwarzSum;
    var f := LocalTerm(entries, r, r);
    SchwarzPairing(entries, r, r);
    forall k | 0 <= k < |entries| ensures f(k) >= 0.0 { assert NonnegativeSolve(entries[k], entries[k].Restricted(r)); }
    SumNonneg(|entries|, f);
    if Sum(|entries|, f) == 0.0 {
      forall k | 0 <= k < |entries| ensures f(k) == 0.0 { SumBoundsTerm(|entries|, k, f); }
    }
    if forall k :: 0 <= k < |entries| ==> f(k) == 0.0 { SumZero(|entries|, f); }
  }

  /** The preconditioner as a function. */
  ghost function SchwarzPrecond(entries: seq<SubdomainEntry>, n: nat): seq<real> -> seq<real> {
    r => if |r| == n && SoundEntries(entries, n) then SchwarzApply(entries, r) else r
  }

  /** The Schwarz sum meets what the iterative solver asks of a preconditioner. */
  lemma SchwarzSemidefinite(sys: System, entries: seq<SubdomainEntry>)
    requires sys.precond == SchwarzPrecond(entries, sys.n) && SoundEntries(entries, sys.n)
    ensures IsLinear(sys.precond, sys.n, sys.n) && IsSemidefinite(sys)
  {
    hide Inner;
    hide SoundEntries;
    hide SchwarzApply;
    var n := sys.n;
    forall a, x, b, y | |x| == n && |y| == n ensures LinearAt(sys.precond, n, a, x, b, y) {
      SchwarzSized(entries, x);
      SchwarzSized(entries, y);
      SchwarzComb(entries, a, x, b, y);
    }
    forall x, y | |x| == n && |y| == n ensures SymmetricAt(sys, x, y) {
      SchwarzSized(entries, x);
      SchwarzSized(entries, y);
      SchwarzSymmetric(entries, x, y);
      InnerComm(x, sys.precond(y));
    }
    forall x | |x| == n ensures NonnegativeAt(sys, x) { SchwarzEnergy(entries, x); }
  }

  lemma SchwarzSized(entries: seq<SubdomainEntry>, x: seq<real>)
    requires SoundEntries(entries, |x|)
    ensures (forall k :: 0 <= k < |entries| ==> entries[k].Valid(|x|)) && |SchwarzApply(entries, x)| == |x|
  {
  }

  /** A vector is sent to zero exactly when no subdomain sees energy in it. */
  lemma SchwarzUnseen(sys: System, entries: seq<SubdomainEntry>, r: seq<real>)
    requires Operators(sys) && sys.precond == SchwarzPrecond(entries, sys.n) && SoundEntries(entries, sys.n) && |r| == sys.n
    ensures sys.precond(r) == Zeros(sys.n) <==> forall k :: 0 <= k < |entries| ==> LocalTerm(entries, r, r)(k) == 0.0
  {
    hide Inner;
    hide Operators;
    hide SchwarzApply;
    hide LocalTerm;
    SchwarzSized(entries, r);
    SchwarzEnergy(entries, r);
    if sys.precond(r) == Zeros(sys.n) { InnerZeros(sys.n, r); }
    if Inner(SchwarzApply(entries, r), r) == 0.0 { NoEnergy(sys, r); }
  }
}
