/** The gauge around the reduced solve, and why its result solves the signed Schur system
    (crates/within/src/block_elim/solver.rs:367-421). */
module ReducedSolve {
  import opened Wrappers
  import opened Sums
  import opened CrossTabs
  import opened Elimination
  import opened Gremban
  import opened Sddm
  import opened ReducedSystem
  import opened ExplicitLaplacian
  import opened ReducedFactors
  import opened Cover
  import opened AssembledSystems
  import opened Connectivity

  function Mean(s: seq<real>): real {
    if |s| == 0 then 0.0 else Sum(|s|, At(s)) / (|s| as real)
  }

  function Centered(s: seq<real>, a: real): (r: seq<real>)
    ensures |r| == |s|
  {
    seq(|s|, i requires 0 <= i < |s| => s[i] - a)
  }

  /** `subtract_mean` */
  function MeanFree(s: seq<real>): (r: seq<real>)
    ensures |r| == |s|
  {
    Centered(s, Mean(s))
  }

  lemma {:induction false} SumShift(n: nat, f: Vec, a: real, g: Vec)
    requires forall i {:trigger g(i)} :: 0 <= i < n ==> g(i) == f(i) - a
    ensures Sum(n, g) == Sum(n, f) - (n as real) * a
  {
    if n > 0 {
      SumShift(n - 1, f, a, g);
      assert (n as real) * a == ((n - 1) as real) * a + a;
    }
  }

  lemma DivideBack(n: real, x: real)
    requires n != 0.0
    ensures n * (x / n) == x
  {
  }

  lemma CenteredSum(s: seq<real>, a: real, na: real)
    requires na == (|s| as real) * a
    ensures Sum(|s|, At(Centered(s, a))) == Sum(|s|, At(s)) - na
  {
    var c := Centered(s, a);
    assert forall i :: 0 <= i < |s| ==> c[i] == s[i] - a;
    SumShift(|s|, At(s), a, At(c));
  }

  lemma MeanFreeSumsToZero(s: seq<real>)
    ensures Sum(|s|, At(MeanFree(s))) == 0.0
  {
    if |s| > 0 {
      DivideBack(|s| as real, Sum(|s|, At(s)));
      CenteredSum(s, Mean(s), Sum(|s|, At(s)));
    }
  }

  lemma MeanFreeOfZeroSum(s: seq<real>)
    requires Sum(|s|, At(s)) == 0.0
    ensures MeanFree(s) == s
  {
    assert Mean(s) == 0.0;
    assert forall i :: 0 <= i < |s| ==> MeanFree(s)[i] == s[i];
  }

  /** `s` with zeros up to length `d`. */
  function Padded(s: seq<real>, d: nat): (r: seq<real>)
    requires |s| <= d
    ensures |r| == d
  {
    s + seq(d - |s|, _ => 0.0)
  }

  /** The reduced right-hand side with its auxiliary slots zeroed and its gauge applied. */
  function GaugedRhs(rf: ReducedFactor, n: nat, rr: seq<real>): (q: seq<real>)
    requires |rr| == n <= rf.SolveDimension()
    requires rf.ExplicitGroundIndex(n).Some? ==> n < rf.SolveDimension()
    ensures |q| == rf.SolveDimension()
  {
    var base := Padded(rr, rf.SolveDimension());
    match rf.Gauge()
    case Some(Floating) => MeanFree(base)
    case Some(Grounded) =>
      (match rf.ExplicitGroundIndex(n)
       case Some(ground) => base[ground := -Sum(n, At(rr))]
       case None => base)
    case None => base
  }

  /** The kept block after the ground potential has been subtracted. */
  function Gauged(rf: ReducedFactor, n: nat, z: seq<real>): (x: seq<real>)
    requires n <= |z| && (rf.ExplicitGroundIndex(n).Some? ==> n < |z|)
    ensures |x| == n
  {
    match rf.ExplicitGroundIndex(n)
    case Some(ground) => seq(n, i requires 0 <= i < n => z[i] - z[ground])
    case None => z[..n]
  }

  /** The factor was built for the reduced system of `m`. */
  ghost predicate FactorFits(rf: ReducedFactor, m: SddmMatrix, inv: seq<real>) {
    match rf
    case Direct(f, g) =>
      && g == m.grounding && m.Unsigned()
      && (FactorOf(f, ReducedDim(m.NKept(), g), ReducedOf(m, inv)) || FactorOf(f, m.NKept(), SchurOf(m, inv)))
    case Cover(inner, k) =>
      && k == m.NKept()
      && exists cover, coverInv :: CoverFits(inner, m, inv, cover, coverInv)
  }

  ghost predicate CoverFits(inner: Factor, m: SddmMatrix, inv: seq<real>, cover: SddmMatrix, coverInv: seq<real>) {
    && IsCover(m, cover) && Reciprocals(cover, coverInv)
    && FactorOf(inner, ReducedDim(cover.NKept(), cover.grounding), ReducedOf(cover, coverInv))
  }

  /** The right-hand side carried over to the kept block. */
  ghost function CarriedRhs(m: SddmMatrix, inv: seq<real>, b: Vec): Vec {
    ReducedRhs(m.NEliminated(), m.Block(), At(inv), b)
  }

  lemma BipartiteRhsSolvable(m: SddmMatrix, inv: seq<real>, b: Vec)
    requires Reciprocals(m, inv) && SddmSolvable(m, b)
    ensures Solvable(m.NKept(), SchurOf(m, inv), CarriedRhs(m, inv, b))
  {
    var y: Vec :| SolvesSddm(m, y, b);
    InvertsDiagonal(m, inv);
    EliminationEquivalence(m.NEliminated(), m.NKept(), m.Block(), At(m.diagonal), At(inv), y, b);
    assert Solves(m.NKept(), SchurOf(m, inv), Tail(m.NEliminated(), y), CarriedRhs(m, inv, b));
  }

  lemma SolvesCong(n: nat, m: Mat, m': Mat, x: Vec, b: Vec, b': Vec)
    requires Solves(n, m, x, b)
    requires forall i, j :: 0 <= i < n && 0 <= j < n ==> m(i, j) == m'(i, j)
    requires forall i :: 0 <= i < n ==> b(i) == b'(i)
    ensures Solves(n, m', x, b')
  {
    forall i | 0 <= i < n ensures MulVec(n, m', x)(i) == b'(i) {
      assert MulVec(n, m, x)(i) == b(i);
      DotCong(n, RowOf(m, i), x, RowOf(m', i), x);
    }
  }

  lemma SolvesSolutionCong(n: nat, m: Mat, x: Vec, x': Vec, b: Vec)
    requires Solves(n, m, x, b)
    requires forall i :: 0 <= i < n ==> x(i) == x'(i)
    ensures Solves(n, m, x', b)
  {
    forall i | 0 <= i < n ensures MulVec(n, m, x')(i) == b(i) {
      assert MulVec(n, m, x)(i) == b(i);
      DotCong(n, RowOf(m, i), x, RowOf(m, i), x');
    }
  }

  /** A factor solves any right-hand side that agrees with a solvable one and is zero past it. */
  lemma FactorSolves(f: Factor, dim: nat, m: Mat, q: seq<real>, b: Vec)
    requires FactorOf(f, dim, m) && |q| == f.n && f.solve(q).Some?
    requires Solvable(dim, m, b) && ZeroPast(dim, q)
    requires forall i :: 0 <= i < dim ==> At(q)(i) == b(i)
    ensures |f.solve(q).value| == f.n && Solves(dim, m, At(f.solve(q).value), b)
  {
    var x: Vec :| Solves(dim, m, x, b);
    SolvesCong(dim, m, m, x, b, At(q));
    assert SolvesWhenSolvable(f, dim, m, q);
    SolvesCong(dim, m, m, At(f.solve(q).value), At(q), b);
  }

  lemma GroundedExtension(n: nat, s: Mat, u: Vec, b: Vec)
    requires RowSums(n, s, u) && Symmetric(n, s) && Solvable(n, s, b)
    ensures Solvable(n + 1, Explicit(n, s, u), Bordered(n, b))
  {
    var x: Vec :| Solves(n, s, x, b);
    var x' := i => if i == n then 0.0 else x(i);
    SolvesSolutionCong(n, s, x, x', b);
    GroundedSolvable(n, s, u, x', b);
  }

  lemma SchurIsSymmetric(m: SddmMatrix, inv: seq<real>)
    ensures Symmetric(m.NKept(), SchurOf(m, inv))
  {
    forall i, j | 0 <= i < m.NKept() && 0 <= j < m.NKept() ensures SchurOf(m, inv)(i, j) == SchurOf(m, inv)(j, i) {
      SchurSymmetric(m.NEliminated(), m.Block(), At(m.diagonal), At(inv), i, j);
    }
  }

  /** Direct factor with an explicit ground vertex. */
  lemma GroundedKeptSolves(m: SddmMatrix, inv: seq<real>, f: Factor, q: seq<real>, x: Vec, b: Vec)
    requires m.Valid() && m.Unsigned() && Reciprocals(m, inv)
    requires FactorOf(f, m.NKept() + 1, Explicit(m.NKept(), SchurOf(m, inv), SurplusOf(m, inv)))
    requires |q| == f.n && f.solve(q).Some? && ZeroPast(m.NKept() + 1, q)
    requires forall i :: 0 <= i < m.NKept() + 1 ==> At(q)(i) == Bordered(m.NKept(), b)(i)
    requires Solvable(m.NKept(), SchurOf(m, inv), b)
    requires |f.solve(q).value| == f.n ==>
               forall j :: 0 <= j < m.NKept() ==> x(j) == At(f.solve(q).value)(j) - At(f.solve(q).value)(m.NKept())
    ensures Solves(m.NKept(), SchurOf(m, inv), x, b)
  {
    var n, s, u := m.NKept(), SchurOf(m, inv), SurplusOf(m, inv);
    SchurRowSums(m, inv);
    SchurIsSymmetric(m, inv);
    GroundedExtension(n, s, u, b);
    FactorSolves(f, n + 1, Explicit(n, s, u), q, Bordered(n, b));
    var z := At(f.solve(q).value);
    forall i | 0 <= i < n ensures MulVec(n + 1, Explicit(n, s, u), z)(i) == b(i) {
      assert MulVec(n + 1, Explicit(n, s, u), z)(i) == Bordered(n, b)(i);
    }
    GroundGauge(n, s, u, z, x, b);
  }

  // ---- The cover ---------------------------------------------------------------------------

  lemma FillSame(e: nat, c: Mat, c': Mat, inv: Vec, i: int, j: int)
    requires forall k :: 0 <= k < e ==> c(k, i) == c'(k, i) && c(k, j) == c'(k, j)
    ensures Fill(e, c, inv, i)(j) == Fill(e, c', inv, i)(j)
  {
    DotCong(e, Weighted(c, inv, i), ColOf(c, j), Weighted(c', inv, i), ColOf(c', j));
  }

  lemma CoverInverses(m: SddmMatrix, inv: seq<real>, cover: SddmMatrix, coverInv: seq<real>, k: nat)
    requires Reciprocals(m, inv) && IsCover(m, cover) && Reciprocals(cover, coverInv) && k < m.NEliminated()
    ensures At(coverInv)(k) == At(inv)(k) && At(coverInv)(m.NEliminated() + k) == At(inv)(k)
  {
    var e := m.NEliminated();
    assert At(cover.diagonal)(k) == At(m.diagonal)(k) && At(cover.diagonal)(e + k) == At(m.diagonal)(k);
    SameInverse(m.diagonal[k], inv[k], coverInv[k]);
    SameInverse(m.diagonal[k], inv[k], coverInv[e + k]);
  }

  lemma SameInverse(d: real, a: real, b: real)
    requires a * d == 1.0 && b * d == 1.0
    ensures a == b
  {
    assert a * (b * d) == b * (a * d);
  }

  /** The assembled cover's Schur complement covers the signed one. */
  lemma CoverSchurCovers(m: SddmMatrix, inv: seq<real>, cover: SddmMatrix, coverInv: seq<real>)
    requires Reciprocals(m, inv) && IsCover(m, cover) && Reciprocals(cover, coverInv)
    ensures Covers(m.NKept(), SchurOf(m, inv), SchurOf(cover, coverInv))
  {
    var e, n, c := m.NEliminated(), m.NKept(), CoverBlock(m.NEliminated(), m.NKept(), m.Block());
    forall k | 0 <= k < e ensures At(coverInv)(k) == At(inv)(k) && At(coverInv)(e + k) == At(inv)(k) {
      CoverInverses(m, inv, cover, coverInv, k);
    }
    CoverCommutesWithSchur(e, n, m.Block(), At(m.diagonal), At(inv), At(cover.diagonal), At(coverInv));
    var s, t := SchurOf(m, inv), SchurOf(cover, coverInv);
    forall i, j | 0 <= i < n && 0 <= j < n ensures CoversAt(n, s, t, i, j) {
      CoverSchurSame(m, cover, coverInv, i, j);
      CoverSchurSame(m, cover, coverInv, i, n + j);
      CoverSchurSame(m, cover, coverInv, n + i, j);
      CoverSchurSame(m, cover, coverInv, n + i, n + j);
      assert CoversAt(n, s, Schur(e + e, c, At(cover.diagonal), At(coverInv)), i, j);
    }
  }

  lemma CoverSchurSame(m: SddmMatrix, cover: SddmMatrix, coverInv: seq<real>, i: int, j: int)
    requires IsCover(m, cover) && 0 <= i < cover.NKept() && 0 <= j < cover.NKept()
    ensures SchurOf(cover, coverInv)(i, j)
            == Schur(cover.NEliminated(), CoverBlock(m.NEliminated(), m.NKept(), m.Block()), At(cover.diagonal), At(coverInv))(i, j)
  {
    FillSame(cover.NEliminated(), cover.Block(), CoverBlock(m.NEliminated(), m.NKept(), m.Block()), At(coverInv), i, j);
  }

  lemma CarrySame(e: nat, c: Mat, c': Mat, inv: Vec, g: Vec, i: int)
    requires forall k :: 0 <= k < e ==> c(k, i) == c'(k, i)
    ensures Dot(e, Weighted(c, inv, i), g) == Dot(e, Weighted(c', inv, i), g)
  {
    DotCong(e, Weighted(c, inv, i), g, Weighted(c', inv, i), g);
  }

  ghost predicate SwapsAt(e: nat, w: Vec, w': Vec, g: Vec, k: int) {
    w(k) == w'(e + k) && w(e + k) == w'(k) && g(k) == g(e + k)
  }

  lemma SwappedHalves(e: nat, w: Vec, w': Vec, g: Vec)
    requires forall k :: 0 <= k < e ==> SwapsAt(e, w, w', g, k)
    ensures Dot(e + e, w, g) == Dot(e + e, w', g)
  {
    DotSplit(e, e, w, g);
    DotSplit(e, e, w', g);
    forall k | 0 <= k < e ensures w(k) == Tail(e, w')(k) && g(k) == Tail(e, g)(k) && w'(k) == Tail(e, w)(k) {
      assert SwapsAt(e, w, w', g, k);
    }
    DotCong(e, w, g, Tail(e, w'), Tail(e, g));
    DotCong(e, w', g, Tail(e, w), Tail(e, g));
  }

  /** Both copies of a kept vertex receive the same surplus from the eliminated block. */
  lemma CoverCarryAlike(e: nat, n: nat, c: Mat, inv: Vec, inv': Vec, g: Vec, i: int)
    requires 0 <= i < n
    requires forall k :: 0 <= k < e ==> inv'(k) == inv(k) && inv'(e + k) == inv(k) && g(k) == g(e + k)
    ensures Dot(e + e, Weighted(CoverBlock(e, n, c), inv', i), g) == Dot(e + e, Weighted(CoverBlock(e, n, c), inv', n + i), g)
  {
    var m := CoverBlock(e, n, c);
    var w, w' := Weighted(m, inv', i), Weighted(m, inv', n + i);
    forall k | 0 <= k < e ensures SwapsAt(e, w, w', g, k) {
      assert Unsheet(e, e + k) == k && Unsheet(n, n + i) == i && Unsheet(e, k) == k && Unsheet(n, i) == i;
      assert m(k, i) == m(e + k, n + i) && m(e + k, i) == m(k, n + i);
      assert inv'(k) == inv'(e + k) && g(k) == g(e + k);
    }
    SwappedHalves(e, w, w', g);
  }

  /** Both copies of a kept vertex have the same reduced surplus. */
  lemma CoverSurplusAlike(m: SddmMatrix, inv: seq<real>, cover: SddmMatrix, coverInv: seq<real>, i: nat)
    requires Reciprocals(m, inv) && IsCover(m, cover) && Reciprocals(cover, coverInv) && i < m.NKept()
    ensures SurplusOf(cover, coverInv)(i) == SurplusOf(cover, coverInv)(m.NKept() + i)
  {
    hide Dot;
    hide Sum;
    var e, n := m.NEliminated(), m.NKept();
    var c, g := CoverBlock(e, n, m.Block()), At(cover.groundEdges);
    assert SameOnKept(e, n, At(m.groundEdges), g, i);
    CarrySame(e + e, cover.Block(), c, At(coverInv), g, i);
    CarrySame(e + e, cover.Block(), c, At(coverInv), g, n + i);
    forall k | 0 <= k < e
      ensures At(coverInv)(k) == At(inv)(k) && At(coverInv)(e + k) == At(inv)(k) && g(k) == g(e + k)
    {
      CoverInverses(m, inv, cover, coverInv, k);
    }
    CoverCarryAlike(e, n, m.Block(), At(inv), At(coverInv), g, i);
  }

  /** The bordered reduced matrix of the cover still covers the signed Schur complement. */
  lemma CoverReducedCovers(m: SddmMatrix, inv: seq<real>, cover: SddmMatrix, coverInv: seq<real>)
    requires Reciprocals(m, inv) && IsCover(m, cover) && Reciprocals(cover, coverInv)
    ensures Covers(m.NKept(), SchurOf(m, inv), ReducedOf(cover, coverInv))
    ensures GroundAlike(m.NKept(), ReducedDim(cover.NKept(), cover.grounding), ReducedOf(cover, coverInv))
  {
    var n, s, t, r := m.NKept(), SchurOf(m, inv), SchurOf(cover, coverInv), ReducedOf(cover, coverInv);
    CoverSchurCovers(m, inv, cover, coverInv);
    forall i, j | 0 <= i < n && 0 <= j < n ensures CoversAt(n, s, r, i, j) { assert CoversAt(n, s, t, i, j); }
    if cover.grounding.Grounded? {
      forall i | 0 <= i < n ensures GroundAlikeAt(n, r, i) { CoverSurplusAlike(m, inv, cover, coverInv, i); }
    }
  }

  /** Embedding, solving with a factor of a covering matrix, and reading back. */
  lemma EmbeddedSolve(n: nat, dim: nat, s: Mat, r: Mat, inner: Factor, rr: seq<real>, b: Vec)
    requires Covers(n, s, r) && GroundAlike(n, dim, r) && FactorOf(inner, dim, r) && Solvable(n, s, b)
    requires |rr| == n && SolveResult(ReducedFactor.Cover(inner, n), rr).Some?
    requires forall i :: 0 <= i < n ==> rr[i] == b(i)
    ensures Solves(n, s, At(SolveResult(ReducedFactor.Cover(inner, n), rr).value), b)
  {
    hide Sum;
    var x: Vec :| Solves(n, s, x, b);
    CoverActsAntisymmetrically(n, dim, s, r, x, b);
    var q := Embed(rr, inner.n);
    forall i | 0 <= i < dim ensures At(q)(i) == Antisymmetric(n, b)(i) {
    }
    FactorSolves(inner, dim, r, q, Antisymmetric(n, b));
    var w := inner.solve(q).value;
    ReadBackSolves(n, dim, s, r, At(w), b);
    SolvesSolutionCong(n, s, ReadBack(n, At(w)), At(SolveResult(ReducedFactor.Cover(inner, n), rr).value), b);
  }

  lemma CoverSolvesSolvable(m: SddmMatrix, inv: seq<real>, inner: Factor, cover: SddmMatrix, coverInv: seq<real>, rr: seq<real>, b: Vec)
    requires Reciprocals(m, inv) && CoverFits(inner, m, inv, cover, coverInv)
    requires |rr| == m.NKept() && SolveResult(ReducedFactor.Cover(inner, |rr|), rr).Some?
    requires forall i :: 0 <= i < |rr| ==> rr[i] == b(i)
    requires Solvable(m.NKept(), SchurOf(m, inv), b)
    ensures Solves(m.NKept(), SchurOf(m, inv), At(SolveResult(ReducedFactor.Cover(inner, |rr|), rr).value), b)
  {
    CoverReducedCovers(m, inv, cover, coverInv);
    EmbeddedSolve(m.NKept(), ReducedDim(cover.NKept(), cover.grounding), SchurOf(m, inv), ReducedOf(cover, coverInv), inner, rr, b);
  }

  // ---- All four reduced solves -------------------------------------------------------------

  lemma FitsSizes(rf: ReducedFactor, m: SddmMatrix, inv: seq<real>)
    requires FactorFits(rf, m, inv)
    ensures rf.SpansKeptBlock(m.NKept()) && m.NKept() <= rf.SolveDimension()
    ensures rf.ExplicitGroundIndex(m.NKept()).Some? ==> m.NKept() < rf.SolveDimension()
    ensures WellSized(rf)
  {
    match rf
    case Direct(f, g) =>
      forall b | |b| == f.n && f.solve(b).Some? ensures |f.solve(b).value| == f.n {
        if FactorOf(f, ReducedDim(m.NKept(), g), ReducedOf(m, inv)) {
          assert SolvesWhenSolvable(f, ReducedDim(m.NKept(), g), ReducedOf(m, inv), b);
        } else {
          assert SolvesWhenSolvable(f, m.NKept(), SchurOf(m, inv), b);
        }
      }
    case Cover(inner, k) =>
      var cover, coverInv :| CoverFits(inner, m, inv, cover, coverInv);
      forall b | |b| == inner.n && inner.solve(b).Some? ensures |inner.solve(b).value| == inner.n {
        assert SolvesWhenSolvable(inner, ReducedDim(cover.NKept(), cover.grounding), ReducedOf(cover, coverInv), b);
      }
  }

  /** The kept block the local solver computes from a carried-over right-hand side. */
  function KeptSolution(rf: ReducedFactor, n: nat, rr: seq<real>): Option<seq<real>>
    requires |rr| == n <= rf.SolveDimension()
    requires rf.ExplicitGroundIndex(n).Some? ==> n < rf.SolveDimension()
  {
    match SolveResult(rf, GaugedRhs(rf, n, rr))
    case None => None
    case Some(z) => if |z| != rf.SolveDimension() then None else Some(Gauged(rf, n, z))
  }

  lemma ZeroPadded(n: nat, rr: seq<real>, k: nat)
    requires |rr| == n
    ensures Sum(n + k, At(Padded(rr, n + k))) == Sum(n, At(rr))
    ensures ZeroPast(n, Padded(rr, n + k))
  {
    var s := Padded(rr, n + k);
    SumSplit(n, k, At(s), Tail(n, At(s)));
    SumZero(k, Tail(n, At(s)));
    SumCong(n, At(s), At(rr));
  }

  /** Floating: the mean subtraction before the reduced solve is a no-op. */
  lemma FloatingRhs(rf: ReducedFactor, n: nat, rr: seq<real>)
    requires |rr| == n <= rf.SolveDimension() && rf.Gauge() == Some(Floating)
    requires Sum(n, At(rr)) == 0.0
    ensures GaugedRhs(rf, n, rr) == Padded(rr, rf.SolveDimension())
  {
    var k := rf.SolveDimension() - n;
    ZeroPadded(n, rr, k);
    MeanFreeOfZeroSum(Padded(rr, n + k));
  }

  lemma DirectKeptSolves(m: SddmMatrix, inv: seq<real>, f: Factor, q: seq<real>, rr: seq<real>, x: Vec, b: Vec)
    requires FactorOf(f, m.NKept(), SchurOf(m, inv)) && |rr| == m.NKept()
    requires |rr| <= f.n && q == Padded(rr, f.n) && f.solve(q).Some?
    requires forall i :: 0 <= i < |rr| ==> rr[i] == b(i)
    requires Solvable(m.NKept(), SchurOf(m, inv), b)
    requires |f.solve(q).value| == f.n ==> forall j :: 0 <= j < m.NKept() ==> x(j) == At(f.solve(q).value)(j)
    ensures Solves(m.NKept(), SchurOf(m, inv), x, b)
  {
    ZeroPadded(|rr|, rr, f.n - |rr|);
    FactorSolves(f, m.NKept(), SchurOf(m, inv), q, b);
    SolvesSolutionCong(m.NKept(), SchurOf(m, inv), At(f.solve(q).value), x, b);
  }

  /** What a reduced solve is about: sizes fit and the solve succeeded. */
  ghost predicate KeptSetting(rf: ReducedFactor, m: SddmMatrix, rr: seq<real>, b: Vec) {
    && |rr| == m.NKept() <= rf.SolveDimension()
    && (rf.ExplicitGroundIndex(m.NKept()).Some? ==> m.NKept() < rf.SolveDimension())
    && (forall i :: 0 <= i < |rr| ==> rr[i] == b(i))
    && KeptSolution(rf, m.NKept(), rr).Some?
  }

  lemma CoverCase(rf: ReducedFactor, m: SddmMatrix, inv: seq<real>, rr: seq<real>, b: Vec)
    requires rf.Cover? && Reciprocals(m, inv) && FactorFits(rf, m, inv) && KeptSetting(rf, m, rr, b)
    requires Solvable(m.NKept(), SchurOf(m, inv), b)
    ensures Solves(m.NKept(), SchurOf(m, inv), At(KeptSolution(rf, m.NKept(), rr).value), b)
  {
    var cover, coverInv :| CoverFits(rf.inner, m, inv, cover, coverInv);
    assert GaugedRhs(rf, m.NKept(), rr) == rr;
    CoverSolvesSolvable(m, inv, rf.inner, cover, coverInv, rr, b);
    var z := SolveResult(rf, rr).value;
    assert Gauged(rf, m.NKept(), z) == z;
  }

  lemma ImplicitCase(rf: ReducedFactor, m: SddmMatrix, inv: seq<real>, rr: seq<real>, b: Vec)
    requires rf.Direct? && FactorOf(rf.factor, m.NKept(), SchurOf(m, inv)) && KeptSetting(rf, m, rr, b)
    requires rf.grounding.Floating? ==> Sum(|rr|, At(rr)) == 0.0
    requires Solvable(m.NKept(), SchurOf(m, inv), b)
    ensures Solves(m.NKept(), SchurOf(m, inv), At(KeptSolution(rf, m.NKept(), rr).value), b)
  {
    var n := m.NKept();
    if rf.grounding.Floating? { FloatingRhs(rf, n, rr); }
    DirectKeptSolves(m, inv, rf.factor, GaugedRhs(rf, n, rr), rr, At(KeptSolution(rf, n, rr).value), b);
  }

  lemma ExplicitCase(rf: ReducedFactor, m: SddmMatrix, inv: seq<real>, rr: seq<real>, b: Vec)
    requires m.Valid() && m.Unsigned() && Reciprocals(m, inv) && rf.Direct? && rf.grounding.Grounded?
    requires FactorOf(rf.factor, m.NKept() + 1, Explicit(m.NKept(), SchurOf(m, inv), SurplusOf(m, inv)))
    requires KeptSetting(rf, m, rr, b) && Solvable(m.NKept(), SchurOf(m, inv), b)
    ensures Solves(m.NKept(), SchurOf(m, inv), At(KeptSolution(rf, m.NKept(), rr).value), b)
  {
    GroundedRhs(rf, m.NKept(), rr, b);
    GroundedKeptSolves(m, inv, rf.factor, GaugedRhs(rf, m.NKept(), rr), At(KeptSolution(rf, m.NKept(), rr).value), b);
  }

  /** With no ground edge a solvable reduced right-hand side sums to zero. */
  lemma FloatingKeptSum(m: SddmMatrix, inv: seq<real>, b: Vec)
    requires m.Valid() && m.Unsigned() && m.grounding.Floating? && Reciprocals(m, inv) && Solvable(m.NKept(), SchurOf(m, inv), b)
    ensures Sum(m.NKept(), b) == 0.0
  {
    hide Sum;
    hide Dot;
    var n, s, u := m.NKept(), SchurOf(m, inv), SurplusOf(m, inv);
    var x: Vec :| Solves(n, s, x, b);
    SchurRowSums(m, inv);
    SchurIsSymmetric(m, inv);
    TotalOfProduct(n, s, u, x, b);
    forall i | 0 <= i < n ensures u(i) == 0.0 { SurplusUngrounded(m, inv, i); }
    DotComm(n, u, x);
    DotZero(n, x, u);
  }

  /** Whatever the gauge, a solvable Schur system is solved. */
  lemma SolvableKeptSolves(rf: ReducedFactor, m: SddmMatrix, inv: seq<real>, rr: seq<real>, b: Vec)
    requires m.Valid() && Reciprocals(m, inv) && FactorFits(rf, m, inv) && KeptSetting(rf, m, rr, b)
    requires Solvable(m.NKept(), SchurOf(m, inv), b)
    ensures Solves(m.NKept(), SchurOf(m, inv), At(KeptSolution(rf, m.NKept(), rr).value), b)
  {
    hide Sum;
    hide KeptSolution;
    hide SddmMatrix.Valid;
    match rf
    case Cover(_, _) => CoverCase(rf, m, inv, rr, b);
    case Direct(f, g) =>
      if g.Floating? {
        FloatingKeptSum(m, inv, b);
        SumCong(|rr|, At(rr), b);
      }
      if FactorOf(f, m.NKept(), SchurOf(m, inv)) {
        ImplicitCase(rf, m, inv, rr, b);
      } else {
        ExplicitCase(rf, m, inv, rr, b);
      }
  }

  /** A right-hand side on the kept block only. */
  function Raised(e: nat, b: Vec): Vec { i => if i < e then 0.0 else b(i - e) }

  lemma RaisedCarry(m: SddmMatrix, inv: seq<real>, b: Vec, i: nat)
    ensures CarriedRhs(m, inv, Raised(m.NEliminated(), b))(i) == b(i)
  {
    var e, r := m.NEliminated(), Raised(m.NEliminated(), b);
    DotZero(e, Weighted(m.Block(), At(inv), i), r);
    assert Tail(e, r)(i) == b(i);
  }

  /** The Schur system answers what the whole component answers. */
  lemma SchurSolvableIff(m: SddmMatrix, inv: seq<real>, b: Vec)
    requires m.Valid() && ConnectedMatrix(m) && Reciprocals(m, inv)
    ensures Solvable(m.NKept(), SchurOf(m, inv), b) <==> Answerable(m, Raised(m.NEliminated(), b))
  {
    hide Sum;
    hide Answerable;
    hide ConnectedMatrix;
    hide SddmMatrix.Valid;
    var e, n, r := m.NEliminated(), m.NKept(), Raised(m.NEliminated(), b);
    var c := CarriedRhs(m, inv, r);
    SddmSolvableIff(m, r);
    forall i | 0 <= i < n ensures c(i) == b(i) { RaisedCarry(m, inv, b, i); }
    if SddmSolvable(m, r) {
      BipartiteRhsSolvable(m, inv, r);
      var x: Vec :| Solves(n, SchurOf(m, inv), x, c);
      SolvesCong(n, SchurOf(m, inv), SchurOf(m, inv), x, c, b);
    }
    if Solvable(n, SchurOf(m, inv), b) {
      var x: Vec :| Solves(n, SchurOf(m, inv), x, b);
      RaisedSolution(m, inv, x, b);
    }
  }

  /** A kept solution, back-substituted. */
  lemma RaisedSolution(m: SddmMatrix, inv: seq<real>, x: Vec, b: Vec)
    requires Reciprocals(m, inv) && Solves(m.NKept(), SchurOf(m, inv), x, b)
    ensures SddmSolvable(m, Raised(m.NEliminated(), b))
  {
    hide Sum;
    var e, n, r := m.NEliminated(), m.NKept(), Raised(m.NEliminated(), b);
    var y: Vec := i => if i < e then At(inv)(i) * MulVec(n, m.Block(), x)(i) else x(i - e);
    forall k | 0 <= k < e ensures RecoveredAt(e, n, m.Block(), At(inv), y, r, k) {
      DotCong(n, RowOf(m.Block(), k), x, RowOf(m.Block(), k), Tail(e, y));
    }
    var c := CarriedRhs(m, inv, r);
    forall i | 0 <= i < n ensures c(i) == b(i) { RaisedCarry(m, inv, b, i); }
    SolvesCong(n, SchurOf(m, inv), SchurOf(m, inv), x, b, c);
    SolvesSolutionCong(n, SchurOf(m, inv), x, Tail(e, y), c);
    InvertsDiagonal(m, inv);
    EliminationEquivalence(e, n, m.Block(), At(m.diagonal), At(inv), y, r);
    assert SolvesSddm(m, y, r);
  }

  /** Whatever the gauge, the kept block of a connected component solves the Schur system
      exactly when the component answers that right-hand side. */
  lemma KeptSolves(rf: ReducedFactor, m: SddmMatrix, inv: seq<real>, rr: seq<real>, b: Vec)
    requires m.Valid() && ConnectedMatrix(m) && Reciprocals(m, inv) && FactorFits(rf, m, inv) && KeptSetting(rf, m, rr, b)
    ensures Solves(m.NKept(), SchurOf(m, inv), At(KeptSolution(rf, m.NKept(), rr).value), b) <==>
            Answerable(m, Raised(m.NEliminated(), b))
  {
    hide Solves;
    hide Answerable;
    hide KeptSetting;
    hide SddmMatrix.Valid;
    hide FactorFits;
    SchurSolvableIff(m, inv, b);
    if Solvable(m.NKept(), SchurOf(m, inv), b) { SolvableKeptSolves(rf, m, inv, rr, b); }
  }

  /** Behind a cover: the read-back solves the signed Schur system exactly when the component
      answers it; with a positive ground edge or no consistent signs that is always. */
  lemma CoverKeptSolves(m: SddmMatrix, inv: seq<real>, inner: Factor, cover: SddmMatrix, coverInv: seq<real>, rr: seq<real>, b: Vec)
    requires m.Valid() && ConnectedMatrix(m) && Reciprocals(m, inv) && CoverFits(inner, m, inv, cover, coverInv)
    requires |rr| == m.NKept() && SolveResult(ReducedFactor.Cover(inner, |rr|), rr).Some?
    requires forall i :: 0 <= i < |rr| ==> rr[i] == b(i)
    ensures Solves(m.NKept(), SchurOf(m, inv), At(SolveResult(ReducedFactor.Cover(inner, |rr|), rr).value), b) <==>
            Answerable(m, Raised(m.NEliminated(), b))
    ensures (forall s: Vec :: !SignBalance(m.NEliminated(), m.NKept(), m.Block(), s)) ==>
              Solves(m.NKept(), SchurOf(m, inv), At(SolveResult(ReducedFactor.Cover(inner, |rr|), rr).value), b)
  {
    hide Solves;
    hide SolveResult;
    hide SddmMatrix.Valid;
    hide CoverFits;
    SchurSolvableIff(m, inv, b);
    if Solvable(m.NKept(), SchurOf(m, inv), b) { CoverSolvesSolvable(m, inv, inner, cover, coverInv, rr, b); }
  }

  /** Grounded: the ground slot balances the kept right-hand side. */
  lemma GroundedRhs(rf: ReducedFactor, n: nat, rr: seq<real>, b: Vec)
    requires |rr| == n < rf.SolveDimension() && rf.ExplicitGroundIndex(n).Some?
    requires forall i :: 0 <= i < n ==> rr[i] == b(i)
    ensures ZeroPast(n + 1, GaugedRhs(rf, n, rr))
    ensures forall i :: 0 <= i < n + 1 ==> At(GaugedRhs(rf, n, rr))(i) == Bordered(n, b)(i)
  {
    SumCong(n, At(rr), b);
  }
}
