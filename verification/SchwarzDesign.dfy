/** The Schwarz preconditioner of a design: what it does not see of a gradient `D^T u` are
    exactly the coefficients no subdomain holds
    (crates/within/src/operator/schwarz.rs:89-113, 231-271, crates/schwarz-precond/src/schwarz/preconditioner.rs:74-90). */
module SchwarzDesigns {
  import opened Wrappers
  import opened Sums
  import opened Vectors
  import opened Csr
  import opened CrossTabs
  import opened Elimination
  import opened Fredholm
  import opened AssembledSystems
  import opened Sddm
  import opened SddmKernel
  import opened Connectivity
  import opened ReducedFactors
  import opened ReducedSolve
  import opened BlockElimSolver
  import opened SolveLocal
  import opened LocalOperators
  import opened Subdomains
  import opened SchwarzOperators
  import opened Bidiagonal
  import opened NormalEquations
  import opened Krylov
  import opened DesignOperator
  import opened DesignSystem
  import opened PairGrams
  import opened DomainGrams

  // ---- Gradients and kernels ---------------------------------------------------------------

  /** The columns of the weighted design at the coefficients `ids`. */
  ghost function Chosen(d: Design, scale: Option<seq<real>>, ids: seq<nat>): Mat {
    (i, t) => if 0 <= t < |ids| then Matrix(d, scale)(i, ids[t]) else 0.0
  }

  /** `D^T u` */
  ghost function Gradient(d: Design, scale: Option<seq<real>>, u: Vec): Vec { VecMul(d.nObs, u, Matrix(d, scale)) }

  /** The gradient at the coefficients `ids`. */
  ghost function GradientAt(d: Design, scale: Option<seq<real>>, u: Vec, ids: seq<nat>): Vec {
    t => if 0 <= t < |ids| then Gradient(d, scale, u)(ids[t]) else 0.0
  }

  lemma ChosenColumn(d: Design, scale: Option<seq<real>>, ids: seq<nat>, u: Vec, t: nat)
    requires t < |ids|
    ensures VecMul(d.nObs, u, Chosen(d, scale, ids))(t) == Gradient(d, scale, u)(ids[t])
    ensures forall v: Vec :: Dot(d.nObs, v, ColOf(Chosen(d, scale, ids), t)) == Dot(d.nObs, v, ColOf(Matrix(d, scale), ids[t]))
  {
    hide Matrix;
    hide Dot;
    forall v: Vec ensures Dot(d.nObs, v, ColOf(Chosen(d, scale, ids), t)) == Dot(d.nObs, v, ColOf(Matrix(d, scale), ids[t])) {
      DotCong(d.nObs, v, ColOf(Chosen(d, scale, ids), t), v, ColOf(Matrix(d, scale), ids[t]));
    }
  }

  /** Entry by entry `a = S^T S`. */
  lemma ChosenNormal(d: Design, scale: Option<seq<real>>, a: Mat, ids: seq<nat>, t: nat, u: nat)
    requires LocalNormal(d, scale, a, ids) && t < |ids| && u < |ids|
    ensures VecMul(d.nObs, ColOf(Chosen(d, scale, ids), t), Chosen(d, scale, ids))(u) == a(t, u)
  {
    hide Matrix;
    hide Dot;
    var s, m := Chosen(d, scale, ids), Matrix(d, scale);
    assert NormalAt(d, scale, a, ids, t, u);
    DotCong(d.nObs, ColOf(s, t), ColOf(s, u), ColOf(m, ids[t]), ColOf(m, ids[u]));
  }

  /** What the local Gram matrix sends to zero, the chosen columns send to zero. */
  lemma KernelOfChosen(d: Design, scale: Option<seq<real>>, a: Mat, ids: seq<nat>, z: Vec, i: nat)
    requires LocalNormal(d, scale, a, ids) && InKernel(|ids|, a, z) && i < d.nObs
    ensures MulVec(|ids|, Chosen(d, scale, ids), z)(i) == 0.0
  {
    hide Matrix;
    hide Chosen;
    hide Dot;
    hide LocalNormal;
    var n, m, s := |ids|, d.nObs, Chosen(d, scale, ids);
    var w := MulVec(n, s, z);
    forall t | 0 <= t < n ensures VecMul(m, w, s)(t) == 0.0 { KernelColumn(d, scale, a, ids, z, t); }
    DotSwap(m, n, w, s, z);
    DotZero(n, VecMul(m, w, s), z);
    SquaresVanish(m, w, i);
  }

  lemma KernelColumn(d: Design, scale: Option<seq<real>>, a: Mat, ids: seq<nat>, z: Vec, t: nat)
    requires LocalNormal(d, scale, a, ids) && InKernel(|ids|, a, z) && t < |ids|
    ensures var s := Chosen(d, scale, ids); VecMul(d.nObs, MulVec(|ids|, s, z), s)(t) == 0.0
  {
    hide Matrix;
    hide Chosen;
    hide Dot;
    hide LocalNormal;
    var n, m, s := |ids|, d.nObs, Chosen(d, scale, ids);
    DotComm(m, MulVec(n, s, z), ColOf(s, t));
    DotSwap(m, n, ColOf(s, t), s, z);
    forall u | 0 <= u < n ensures VecMul(m, ColOf(s, t), s)(u) == RowOf(a, t)(u) { ChosenNormal(d, scale, a, ids, t, u); }
    DotCong(n, VecMul(m, ColOf(s, t), s), z, RowOf(a, t), z);
    assert MulVec(n, a, z)(t) == 0.0;
  }

  lemma SquaresVanish(m: nat, w: Vec, i: nat)
    requires Dot(m, w, w) == 0.0 && i < m
    ensures w(i) == 0.0
  {
    hide Sum;
    var f: Vec := k => w(k) * w(k);
    forall k | 0 <= k < m ensures f(k) >= 0.0 { SquareNonneg(w(k), f(k)); }
    SumBoundsTerm(m, i, f);
    SquareVanishes(w(i), f(i));
  }

  /** A kernel vector is orthogonal to every gradient at the subdomain's coefficients. */
  lemma KernelMeetsNoGradient(d: Design, scale: Option<seq<real>>, a: Mat, ids: seq<nat>, z: Vec, u: Vec)
    requires LocalNormal(d, scale, a, ids) && InKernel(|ids|, a, z)
    ensures Dot(|ids|, GradientAt(d, scale, u, ids), z) == 0.0
  {
    hide Matrix;
    hide Dot;
    hide LocalNormal;
    hide InKernel;
    hide Gradient;
    var n, m, s := |ids|, d.nObs, Chosen(d, scale, ids);
    forall i | 0 <= i < m ensures MulVec(n, s, z)(i) == 0.0 { KernelOfChosen(d, scale, a, ids, z, i); }
    DotSwap(m, n, u, s, z);
    DotComm(m, u, MulVec(n, s, z));
    DotZero(m, MulVec(n, s, z), u);
    forall t | 0 <= t < n ensures VecMul(m, u, s)(t) == Gradient(d, scale, u)(ids[t]) { ChosenColumn(d, scale, ids, u, t); }
    DotCong(n, VecMul(m, u, s), z, GradientAt(d, scale, u, ids), z);
  }

  // ---- One subdomain -----------------------------------------------------------------------

  /** The entry's solve is the local solve of `s`, and succeeds. */
  ghost predicate SolvedBy(e: SubdomainEntry, s: BlockElimSolver, m: SddmMatrix, r: seq<real>) {
    e.solve(r).Some? && exists y :: SolvedLocally(s, m, r, y, e.solve(r).value)
  }

  ghost predicate OwnNormal(d: Design, scale: Option<seq<real>>, ids: seq<nat>, s: BlockElimSolver, m: SddmMatrix) {
    exists a: Mat :: Represents(a, s, m) && LocalNormal(d, scale, a, ids)
  }

  /** A subdomain with a connected component's solver that never fails, and positive weights. */
  ghost predicate Running(n: nat, e: SubdomainEntry, s: BlockElimSolver, m: SddmMatrix) {
    && e.Valid(n) && |e.indices| == m.crossTab.NLocal() && Fitting(s, m)
    && (forall r :: |r| == |e.indices| ==> SolvedBy(e, s, m, r))
    && (forall i :: 0 <= i < |e.indices| ==> e.weights.Get(i) > 0.0 && s.coordinates.Scale(m.NEliminated(), i) != 0.0)
  }

  /** A subdomain of the design: where its gauge floats, its matrix was folded without loss from
      the normal matrix. */
  ghost predicate Served(d: Design, scale: Option<seq<real>>, e: SubdomainEntry, s: BlockElimSolver, m: SddmMatrix) {
    && Running(d.nDofs, e, s, m)
    && (s.reducedFactor.Gauge() == Some(Floating) ==> OwnNormal(d, scale, e.indices, s, m))
  }

  lemma SolutionBy(e: SubdomainEntry, s: BlockElimSolver, m: SddmMatrix, r: seq<real>) returns (y: seq<real>)
    requires SolvedBy(e, s, m, r) && Fitting(s, m) && |e.indices| == m.crossTab.NLocal()
    ensures e.solve(r).Some? && SolvedLocally(s, m, r, y, e.solve(r).value) && SolvesAt(e, r)
  {
    hide Fitting;
    hide SddmSolvable;
    hide SolvesSddm;
    y :| SolvedLocally(s, m, r, y, e.solve(r).value);
    AlwaysSolved(s, m, r, y, e.solve(r).value);
  }

  /** Its local solve is a linear, symmetric operator of nonnegative energy. */
  lemma RunningIsOperator(nDofs: nat, e: SubdomainEntry, s: BlockElimSolver, m: SddmMatrix)
    requires Running(nDofs, e, s, m)
    ensures e.Valid(nDofs) && LocalOperator(e)
  {
    hide Inner;
    hide Fitting;
    hide SolvedLocally;
    hide SolvedBy;
    var n := |e.indices|;
    forall a, r, b, q | |r| == |q| == n ensures LinearSolve(e, a, r, b, q) {
      var y := SolutionBy(e, s, m, r);
      var y' := SolutionBy(e, s, m, q);
      var y'' := SolutionBy(e, s, m, Comb(a, r, b, q));
      LocalLinear(s, m, a, r, y, e.solve(r).value, b, q, y', e.solve(q).value, y'', e.solve(Comb(a, r, b, q)).value);
    }
    forall r, q | |r| == |q| == n ensures SymmetricSolve(e, r, q) {
      var y := SolutionBy(e, s, m, r);
      var y' := SolutionBy(e, s, m, q);
      LocalSymmetric(s, m, r, y, e.solve(r).value, q, y', e.solve(q).value);
    }
    forall r | |r| == n ensures NonnegativeSolve(e, r) {
      var y := SolutionBy(e, s, m, r);
      LocalEnergy(s, m, r, y, e.solve(r).value);
    }
  }

  // ---- What one subdomain sees of a gradient -----------------------------------------------

  /** The gradient as the adjoint returns it. */
  ghost predicate IsGradient(d: Design, scale: Option<seq<real>>, u: Vec, g: seq<real>) {
    |g| == d.nDofs && forall j :: 0 <= j < |g| ==> g[j] == Gradient(d, scale, u)(j)
  }

  /** The signs of a floating fold are in the kernel of the matrix it was folded from. */
  lemma SignsInKernel(s: BlockElimSolver, m: SddmMatrix, a: Mat)
    requires BuiltFrom(s, m) && s.reducedFactor.Gauge() == Some(Floating) && Represents(a, s, m)
    ensures InKernel(m.crossTab.NLocal(), a, Scales(s.coordinates, m.NEliminated()))
  {
    hide Dot;
    hide Balanced;
    hide Represents;
    hide SddmMatrix.Valid;
    var n, e, f, one := m.crossTab.NLocal(), m.NEliminated(), Scales(s.coordinates, m.NEliminated()), One();
    FloatingGauge(s, m);
    OneInKernel(m);
    FloatSystems(s, m, a, one, f);
  }

  function One(): Vec { i => 1.0 }

  function Nil(): Vec { i => 0.0 }

  lemma FloatSystems(s: BlockElimSolver, m: SddmMatrix, a: Mat, one: Vec, f: Vec)
    requires Represents(a, s, m) && f == Scales(s.coordinates, m.NEliminated()) && one == One()
    requires InKernel(m.crossTab.NLocal(), Full(m), one)
    ensures InKernel(m.crossTab.NLocal(), a, f)
  {
    hide Dot;
    hide Full;
    hide Scales;
    var n := m.crossTab.NLocal();
    forall i | 0 <= i < n ensures ScaledAt(f, one, f, i) && ScaledAt(f, Nil(), Nil(), i) {}
    CongruentSystems(n, a, Full(m), f, one, f, Nil(), Nil());
    assert Solves(n, Full(m), one, Nil());
  }

  /** Constants are the kernel of a floating matrix without signs. */
  lemma OneInKernel(m: SddmMatrix)
    requires m.Valid() && m.Unsigned() && m.grounding.Floating?
    ensures InKernel(m.crossTab.NLocal(), Full(m), One())
  {
    hide Dot;
    hide Balanced;
    hide CrossTab.Valid;
    hide InKernel;
    BalancedMatrix(m);
    forall k, j | 0 <= k < m.NEliminated() && 0 <= j < m.NKept() ensures TightAt(m.NEliminated(), m.Block(), One(), k, j) {
      NonnegativeEntry(m.crossTab.c, k, j);
    }
    KernelIsNull(m.NEliminated(), m.NKept(), m.Block(), At(m.diagonal), At(m.groundEdges), One());
  }

  /** Signed entries with one common weighted value cannot sum to zero unless they vanish. */
  lemma CommonValue(n: nat, p: Vec, w: Vec, c: real, t: nat)
    requires (forall i :: 0 <= i < n ==> w(i) > 0.0 && p(i) * w(i) == c) && Sum(n, p) == 0.0 && t < n
    ensures p(t) == 0.0
  {
    hide Sum;
    if c > 0.0 {
      forall i | 0 <= i < n ensures p(i) >= 0.0 { SignOfFactor(p(i), w(i), c); }
      SumBoundsTerm(n, t, p);
      SignOfFactor(p(t), w(t), c);
    } else if c < 0.0 {
      var q: Vec := i => -1.0 * p(i);
      SumScale(n, -1.0, p, q);
      forall i | 0 <= i < n ensures q(i) >= 0.0 { SignOfFactor(p(i), w(i), c); }
      SumBoundsTerm(n, t, q);
      SignOfFactor(p(t), w(t), c);
    } else {
      SignOfFactor(p(t), w(t), c);
    }
  }

  lemma SignOfFactor(p: real, w: real, c: real)
    requires w > 0.0 && p * w == c
    ensures (c > 0.0 ==> p > 0.0) && (c < 0.0 ==> p < 0.0) && (c == 0.0 ==> p == 0.0)
  {
    if p > 0.0 { PositiveProduct(p, w); }
    if p < 0.0 { PositiveProduct(-p, w); }
  }

  /** The folded, weighted entry of a vector at a node. */
  function Folded(e: SubdomainEntry, s: BlockElimSolver, m: SddmMatrix, g: seq<real>): Vec {
    t => if 0 <= t < |e.indices| && e.indices[t] < |g| then s.coordinates.Scale(m.NEliminated(), t) * g[e.indices[t]] else 0.0
  }

  function WeightOf(e: SubdomainEntry): Vec { t => if 0 <= t < |e.indices| && t < e.weights.Len() then e.weights.Get(t) else 1.0 }

  lemma RestrictedFold(e: SubdomainEntry, s: BlockElimSolver, m: SddmMatrix, g: seq<real>, t: nat)
    requires e.Valid(|g|) && t < |e.indices|
    ensures FoldedVec(s.coordinates, m.NEliminated(), e.Restricted(g))[t] == Folded(e, s, m, g)(t) * WeightOf(e)(t)
  {
    FoldTimes(s.coordinates.Scale(m.NEliminated(), t), g[e.indices[t]], e.weights.Get(t));
  }

  lemma FoldTimes(f: real, g: real, w: real)
    ensures f * (g * w) == (f * g) * w
  {
  }

  /** An elimination that sees nothing sees one common folded value, zero unless the gauge floats. */
  lemma UnseenInput(e: SubdomainEntry, s: BlockElimSolver, m: SddmMatrix, g: seq<real>) returns (c: real)
    requires e.Valid(|g|) && BuiltFrom(s, m) && |e.indices| == m.crossTab.NLocal() && InputRhs(s, e.Restricted(g)) == Zeros(|e.indices|)
    ensures forall t :: 0 <= t < |e.indices| ==> Folded(e, s, m, g)(t) * WeightOf(e)(t) == c
    ensures s.reducedFactor.Gauge() != Some(Floating) ==> c == 0.0
  {
    hide Mean;
    hide Folded;
    hide WeightOf;
    hide FactorFits;
    hide SddmMatrix.Valid;
    var fr := FoldedVec(s.coordinates, m.NEliminated(), e.Restricted(g));
    c := if s.reducedFactor.Gauge() == Some(Floating) then Mean(fr) else 0.0;
    forall t | 0 <= t < |e.indices| ensures Folded(e, s, m, g)(t) * WeightOf(e)(t) == c {
      assert InputRhs(s, e.Restricted(g))[t] == 0.0;
      RestrictedFold(e, s, m, g, t);
    }
  }

  lemma ServedFacts(d: Design, scale: Option<seq<real>>, e: SubdomainEntry, s: BlockElimSolver, m: SddmMatrix)
    requires Served(d, scale, e, s, m)
    ensures Running(d.nDofs, e, s, m) && e.Valid(d.nDofs) && |e.indices| == m.crossTab.NLocal() && Fitting(s, m) && BuiltFrom(s, m)
    ensures s.reducedFactor.Gauge() == Some(Floating) ==> OwnNormal(d, scale, e.indices, s, m)
  {
    hide OwnNormal;
    hide SolvedBy;
    hide BuiltFrom;
    hide ConnectedMatrix;
    hide Determined;
  }

  lemma ServedAt(d: Design, scale: Option<seq<real>>, e: SubdomainEntry, s: BlockElimSolver, m: SddmMatrix, t: nat)
    requires Served(d, scale, e, s, m) && t < |e.indices|
    ensures WeightOf(e)(t) > 0.0 && s.coordinates.Scale(m.NEliminated(), t) != 0.0
  {
    hide OwnNormal;
    hide SolvedBy;
    hide Fitting;
  }

  lemma ServedSolve(d: Design, scale: Option<seq<real>>, e: SubdomainEntry, s: BlockElimSolver, m: SddmMatrix, r: seq<real>)
    requires Served(d, scale, e, s, m) && |r| == |e.indices|
    ensures SolvedBy(e, s, m, r)
  {
    hide OwnNormal;
    hide SolvedBy;
    hide Fitting;
  }

  lemma FoldedIsProduct(d: Design, scale: Option<seq<real>>, e: SubdomainEntry, s: BlockElimSolver, m: SddmMatrix, u: Vec, g: seq<real>)
    requires e.Valid(|g|) && IsGradient(d, scale, u, g)
    ensures Sum(|e.indices|, Folded(e, s, m, g)) == Dot(|e.indices|, GradientAt(d, scale, u, e.indices), Scales(s.coordinates, m.NEliminated()))
  {
    hide Sum;
    hide Gradient;
    var n, h, f := |e.indices|, GradientAt(d, scale, u, e.indices), Scales(s.coordinates, m.NEliminated());
    forall t | 0 <= t < n ensures h(t) * f(t) == Folded(e, s, m, g)(t) { assert g[e.indices[t]] == h(t); }
    SumCong(n, t => h(t) * f(t), Folded(e, s, m, g));
  }

  /** A gradient folded by the signs of a floating subdomain sums to zero. */
  lemma FoldedGradientSum(d: Design, scale: Option<seq<real>>, e: SubdomainEntry, s: BlockElimSolver, m: SddmMatrix, u: Vec, g: seq<real>)
    requires Served(d, scale, e, s, m) && IsGradient(d, scale, u, g) && s.reducedFactor.Gauge() == Some(Floating)
    ensures Sum(|e.indices|, Folded(e, s, m, g)) == 0.0
  {
    hide Sum;
    hide Dot;
    hide Served;
    hide Running;
    hide Fitting;
    hide BuiltFrom;
    hide Represents;
    hide LocalNormal;
    hide InKernel;
    hide Folded;
    hide Gradient;
    hide Scales;
    ServedFacts(d, scale, e, s, m);
    var a: Mat :| Represents(a, s, m) && LocalNormal(d, scale, a, e.indices);
    SignsInKernel(s, m, a);
    KernelMeetsNoGradient(d, scale, a, e.indices, Scales(s.coordinates, m.NEliminated()), u);
    FoldedIsProduct(d, scale, e, s, m, u, g);
  }

  lemma FoldedZero(e: SubdomainEntry, s: BlockElimSolver, m: SddmMatrix, g: seq<real>, t: nat)
    requires e.Valid(|g|) && t < |e.indices| && s.coordinates.Scale(m.NEliminated(), t) != 0.0 && Folded(e, s, m, g)(t) == 0.0
    ensures g[e.indices[t]] == 0.0
  {
    ProductZero(s.coordinates.Scale(m.NEliminated(), t), g[e.indices[t]]);
  }

  /** The elimination sees nothing of `g`. */
  ghost predicate UnseenBy(e: SubdomainEntry, s: BlockElimSolver, g: seq<real>) {
    e.Valid(|g|) && InputRhs(s, e.Restricted(g)) == Zeros(|e.indices|)
  }

  /** The energy of the local solve of `g`. */
  ghost function EnergyOf(e: SubdomainEntry, g: seq<real>): real {
    if e.Valid(|g|) && LocalOperator(e) then Inner(Solution(e, g), e.Restricted(g)) else 0.0
  }

  ghost predicate VanishesOn(e: SubdomainEntry, g: seq<real>) { forall t :: 0 <= t < |e.indices| ==> At(g)(e.indices[t]) == 0.0 }

  /** An elimination that sees nothing of a gradient: the gradient vanishes there. */
  lemma UnseenVanishes(d: Design, scale: Option<seq<real>>, e: SubdomainEntry, s: BlockElimSolver, m: SddmMatrix, u: Vec, g: seq<real>, t: nat)
    requires t < |e.indices| && Served(d, scale, e, s, m) && IsGradient(d, scale, u, g) && UnseenBy(e, s, g)
    ensures At(g)(e.indices[t]) == 0.0
  {
    hide Sum;
    hide Served;
    hide Running;
    hide Fitting;
    hide BuiltFrom;
    hide OwnNormal;
    hide InputRhs;
    hide Folded;
    hide WeightOf;
    var n := |e.indices|;
    ServedFacts(d, scale, e, s, m);
    var c := UnseenInput(e, s, m, g);
    forall i | 0 <= i < n ensures WeightOf(e)(i) > 0.0 { ServedAt(d, scale, e, s, m, i); }
    ServedAt(d, scale, e, s, m, t);
    if s.reducedFactor.Gauge() == Some(Floating) {
      FoldedGradientSum(d, scale, e, s, m, u, g);
      CommonValue(n, Folded(e, s, m, g), WeightOf(e), c, t);
    } else {
      SignOfFactor(Folded(e, s, m, g)(t), WeightOf(e)(t), c);
    }
    FoldedZero(e, s, m, g, t);
  }

  lemma RestrictedZeros(e: SubdomainEntry, g: seq<real>)
    requires e.Valid(|g|) && VanishesOn(e, g)
    ensures e.Restricted(g) == Zeros(|e.indices|)
  {
    forall t | 0 <= t < |e.indices| ensures g[e.indices[t]] == 0.0 { assert At(g)(e.indices[t]) == 0.0; }
  }

  /** A subdomain sees no energy in a gradient exactly when the gradient vanishes on it. */
  lemma SeenExactly(d: Design, scale: Option<seq<real>>, e: SubdomainEntry, s: BlockElimSolver, m: SddmMatrix, u: Vec, g: seq<real>)
    requires Served(d, scale, e, s, m) && IsGradient(d, scale, u, g)
    ensures EnergyOf(e, g) == 0.0 <==> VanishesOn(e, g)
  {
    hide Inner;
    hide Served;
    hide Running;
    hide Fitting;
    hide BuiltFrom;
    hide OwnNormal;
    hide LocalOperator;
    hide InputRhs;
    hide SolvedBy;
    hide SddmSolvable;
    hide SolvesSddm;
    hide Gradient;
    ServedFacts(d, scale, e, s, m);
    RunningIsOperator(d.nDofs, e, s, m);
    var n, r := |e.indices|, e.Restricted(g);
    ServedSolve(d, scale, e, s, m, r);
    var y := SolutionBy(e, s, m, r);
    LocalEnergy(s, m, r, y, Solution(e, g));
    if EnergyOf(e, g) == 0.0 {
      forall t | 0 <= t < n ensures At(g)(e.indices[t]) == 0.0 { UnseenVanishes(d, scale, e, s, m, u, g, t); }
    }
    if VanishesOn(e, g) {
      RestrictedZeros(e, g);
      InnerZeros(n, Solution(e, g));
    }
  }

  // ---- The preconditioner ------------------------------------------------------------------

  /** A subdomain of the design with some solver. */
  ghost predicate DesignDomain(d: Design, scale: Option<seq<real>>, e: SubdomainEntry) {
    exists s, m :: Served(d, scale, e, s, m)
  }

  ghost predicate DesignDomains(d: Design, scale: Option<seq<real>>, entries: seq<SubdomainEntry>) {
    forall k :: 0 <= k < |entries| ==> DesignDomain(d, scale, entries[k])
  }

  /** Every subdomain runs some connected component's solver. */
  ghost predicate RunningDomains(n: nat, entries: seq<SubdomainEntry>) {
    forall k :: 0 <= k < |entries| ==> RunningDomain(n, entries[k])
  }

  ghost predicate RunningDomain(n: nat, e: SubdomainEntry) { exists s, m :: Running(n, e, s, m) }

  lemma DomainsRun(d: Design, scale: Option<seq<real>>, entries: seq<SubdomainEntry>)
    requires DesignDomains(d, scale, entries)
    ensures RunningDomains(d.nDofs, entries)
  {
    hide Running;
    hide OwnNormal;
    forall k | 0 <= k < |entries| ensures RunningDomain(d.nDofs, entries[k]) {
      assert DesignDomain(d, scale, entries[k]);
      var s, m :| Served(d, scale, entries[k], s, m);
      assert Running(d.nDofs, entries[k], s, m);
    }
  }

  /** The weighted design under its Schwarz preconditioner. */
  ghost function SchwarzSystem(d: Design, scale: Option<seq<real>>, entries: seq<SubdomainEntry>): System {
    SystemOf(d, scale, SchwarzPrecond(entries, d.nDofs))
  }

  /** The preconditioned solver's requirements are met by the Schwarz preconditioner. */
  lemma SchwarzSystemOperators(d: Design, scale: Option<seq<real>>, entries: seq<SubdomainEntry>)
    requires RunningDomains(d.nDofs, entries)
    ensures SoundEntries(entries, d.nDofs) && Operators(SchwarzSystem(d, scale, entries))
  {
    hide Running;
    hide LocalOperator;
    hide IsSemidefinite;
    hide IsLinear;
    hide SchwarzPrecond;
    forall k | 0 <= k < |entries| ensures entries[k].Valid(d.nDofs) && LocalOperator(entries[k]) {
      assert RunningDomain(d.nDofs, entries[k]);
      var s, m :| Running(d.nDofs, entries[k], s, m);
      RunningIsOperator(d.nDofs, entries[k], s, m);
    }
    SchwarzSemidefinite(SchwarzSystem(d, scale, entries), entries);
    DesignOperators(d, scale, SchwarzPrecond(entries, d.nDofs));
  }

  /** Some subdomain holds coefficient `j`. */
  ghost predicate Covered(entries: seq<SubdomainEntry>, j: int) { exists k :: 0 <= k < |entries| && Holds(entries[k], j) }

  ghost predicate Holds(e: SubdomainEntry, j: int) { exists t :: 0 <= t < |e.indices| && e.indices[t] == j }

  /** The preconditioner sends `D^T u` to zero exactly when `D^T u` vanishes at every covered
      coefficient. */
  lemma SchwarzBlindness(d: Design, scale: Option<seq<real>>, entries: seq<SubdomainEntry>, u: seq<real>)
    requires DesignDomains(d, scale, entries) && |u| == d.nObs
    ensures var sys := SchwarzSystem(d, scale, entries);
      && |sys.adjoint(u)| == d.nDofs
      && (sys.precond(sys.adjoint(u)) == Zeros(d.nDofs) <==> forall j :: 0 <= j < d.nDofs && Covered(entries, j) ==> At(sys.adjoint(u))(j) == 0.0)
  {
    hide Served;
    hide Running;
    hide RunningDomains;
    hide Operators;
    hide LocalOperator;
    hide SchwarzPrecond;
    hide LocalTerm;
    hide Gradient;
    hide EnergyOf;
    hide VanishesOn;
    hide SystemOf;
    var sys := SchwarzSystem(d, scale, entries);
    SystemFields(d, scale, entries, u);
    var g := sys.adjoint(u);
    DomainsRun(d, scale, entries);
    SchwarzSystemOperators(d, scale, entries);
    SchwarzUnseen(sys, entries, g);
    forall k | 0 <= k < |entries| ensures LocalTerm(entries, g, g)(k) == 0.0 <==> VanishesOn(entries[k], g) {
      assert DesignDomain(d, scale, entries[k]);
      var s, m :| Served(d, scale, entries[k], s, m);
      SeenExactly(d, scale, entries[k], s, m, At(u), g);
      TermIsEnergy(entries, g, k);
    }
    CoveredIff(entries, g);
  }

  lemma SystemFields(d: Design, scale: Option<seq<real>>, entries: seq<SubdomainEntry>, u: seq<real>)
    requires |u| == d.nObs
    ensures var sys := SchwarzSystem(d, scale, entries);
      && sys.n == d.nDofs && sys.m == d.nObs && sys.precond == SchwarzPrecond(entries, d.nDofs)
      && IsGradient(d, scale, At(u), sys.adjoint(u))
  {
    hide Matrix;
    hide Dot;
  }

  lemma TermIsEnergy(entries: seq<SubdomainEntry>, g: seq<real>, k: nat)
    requires SoundEntries(entries, |g|) && k < |entries|
    ensures LocalTerm(entries, g, g)(k) == EnergyOf(entries[k], g)
  {
    hide LocalOperator;
    hide Inner;
  }

  lemma CoveredIff(entries: seq<SubdomainEntry>, g: seq<real>)
    ensures (forall k :: 0 <= k < |entries| ==> VanishesOn(entries[k], g)) <==> forall j :: Covered(entries, j) ==> At(g)(j) == 0.0
  {
    if forall k :: 0 <= k < |entries| ==> VanishesOn(entries[k], g) {
      forall j | Covered(entries, j) ensures At(g)(j) == 0.0 {
        var k :| 0 <= k < |entries| && Holds(entries[k], j);
        var t :| 0 <= t < |entries[k].indices| && entries[k].indices[t] == j;
        assert VanishesOn(entries[k], g);
      }
    }
    if forall j :: Covered(entries, j) ==> At(g)(j) == 0.0 {
      forall k | 0 <= k < |entries| ensures VanishesOn(entries[k], g) {
        var e := entries[k];
        forall t | 0 <= t < |e.indices| ensures At(g)(e.indices[t]) == 0.0 {
          assert Holds(e, e.indices[t]);
          assert Covered(entries, e.indices[t]);
        }
      }
    }
  }

  // ---- What the reported normal-equation residual measures ---------------------------------

  /** Every coefficient no subdomain holds has an empty column. */
  ghost predicate UncoveredEmpty(d: Design, scale: Option<seq<real>>, entries: seq<SubdomainEntry>) {
    forall j :: 0 <= j < d.nDofs && !Covered(entries, j) ==> EmptyColumn(d, scale, j)
  }

  ghost predicate EmptyColumn(d: Design, scale: Option<seq<real>>, j: int) { forall i :: 0 <= i < d.nObs ==> Matrix(d, scale)(i, j) == 0.0 }

  lemma EmptyGradient(d: Design, scale: Option<seq<real>>, u: Vec, j: int)
    requires EmptyColumn(d, scale, j)
    ensures Gradient(d, scale, u)(j) == 0.0
  {
    hide Matrix;
    DotComm(d.nObs, u, ColOf(Matrix(d, scale), j));
    DotZero(d.nObs, ColOf(Matrix(d, scale), j), u);
  }

  /** With every nonempty column covered the preconditioner is definite on gradients. */
  lemma SchwarzDefinite(d: Design, scale: Option<seq<real>>, entries: seq<SubdomainEntry>, u: seq<real>)
    requires DesignDomains(d, scale, entries) && UncoveredEmpty(d, scale, entries) && |u| == d.nObs
    ensures var sys := SchwarzSystem(d, scale, entries);
      sys.precond(sys.adjoint(u)) == Zeros(d.nDofs) <==> sys.adjoint(u) == Zeros(d.nDofs)
  {
    hide DesignDomains;
    hide Covered;
    hide EmptyColumn;
    hide Gradient;
    hide SystemOf;
    hide SchwarzPrecond;
    var g := SchwarzSystem(d, scale, entries).adjoint(u);
    SchwarzBlindness(d, scale, entries, u);
    SystemFields(d, scale, entries, u);
    if forall j :: 0 <= j < d.nDofs && Covered(entries, j) ==> At(g)(j) == 0.0 {
      forall j | 0 <= j < d.nDofs ensures g[j] == 0.0 {
        if Covered(entries, j) { assert At(g)(j) == 0.0; } else { EmptyGradient(d, scale, At(u), j); }
      }
    }
  }

  /** The normal-equation energy the solver reports vanishes exactly at the solutions of the
      normal equations. */
  lemma NormalEquationsMet(d: Design, scale: Option<seq<real>>, entries: seq<SubdomainEntry>, b: seq<real>, x: seq<real>)
    requires DesignDomains(d, scale, entries) && UncoveredEmpty(d, scale, entries) && |b| == d.nObs && |x| == d.nDofs
    ensures var sys := SchwarzSystem(d, scale, entries);
      && Operators(sys) && |sys.apply(x)| == |b|
      && (NormalEnergy(sys, b, x) == 0.0 <==> NormalResidual(sys, b, x) == Zeros(d.nDofs))
  {
    hide DesignDomains;
    hide RunningDomains;
    hide UncoveredEmpty;
    hide Operators;
    hide Inner;
    hide SystemOf;
    hide SchwarzPrecond;
    var sys := SchwarzSystem(d, scale, entries);
    DomainsRun(d, scale, entries);
    SchwarzSystemOperators(d, scale, entries);
    SystemSizes(d, scale, entries);
    SizedApply(sys, x);
    var r := Comb(1.0, b, -1.0, sys.apply(x));
    SizedAdjoint(sys, r);
    SizedPrecond(sys, sys.adjoint(r));
    SchwarzDefinite(d, scale, entries, r);
    if NormalEnergy(sys, b, x) == 0.0 { NoEnergy(sys, sys.adjoint(r)); }
    InnerZeros(d.nDofs, sys.adjoint(r));
  }

  lemma SystemSizes(d: Design, scale: Option<seq<real>>, entries: seq<SubdomainEntry>)
    ensures var sys := SchwarzSystem(d, scale, entries); sys.n == d.nDofs && sys.m == d.nObs
  {
  }
}
