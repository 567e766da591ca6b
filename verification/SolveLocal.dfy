/** The whole local solve, in the original signed coordinates
    (crates/within/src/block_elim/solver.rs:444-467, crates/within/src/domain/factor_pairs/sddm.rs:63-82). */
module SolveLocal {
  import opened Wrappers
  import opened Sums
  import opened Csr
  import opened CrossTabs
  import opened Elimination
  import opened Sddm
  import opened AssembledSystems
  import opened Connectivity
  import opened ReducedSystem
  import opened ReducedFactors
  import opened ReducedSolve
  import opened BlockElimSolver

  /** The solver was built from the SDDM matrix `m` with an exact reduced factor. */
  ghost predicate BuiltFrom(s: BlockElimSolver, m: SddmMatrix) {
    && s.Sized() && m.Valid() && s.crossTab == m.crossTab
    && Reciprocals(m, s.invDiagElim) && FactorFits(s.reducedFactor, m, s.invDiagElim)
  }

  /** Elimination and recovery solve the SDDM system whenever it has a solution. */
  lemma RecoveredSolves(s: BlockElimSolver, m: SddmMatrix, b: seq<real>, rr: seq<real>, sol: seq<real>)
    requires BuiltFrom(s, m) && Recovered(s, b, rr, sol) && SddmSolvable(m, At(b))
    ensures SolvesSddm(m, At(sol), At(b))
  {
    hide Sum;
    hide FactorFits;
    hide KeptSolution;
    hide CrossTab.Valid;
    var e, inv, c := m.NEliminated(), s.invDiagElim, CarriedRhs(m, s.invDiagElim, At(b));
    BipartiteRhsSolvable(m, inv, At(b));
    SolvableKeptSolves(s.reducedFactor, m, inv, rr, c);
    SolvesSolutionCong(m.NKept(), SchurOf(m, inv), At(sol[e..]), Tail(e, At(sol)), c);
    InvertsDiagonal(m, inv);
    EliminationEquivalence(e, m.NKept(), m.Block(), At(m.diagonal), At(inv), At(sol), At(b));
  }

  // ---- Original coordinates ----------------------------------------------------------------

  /** `b` is the congruence of `a` by the diagonal `f`. */
  ghost predicate Congruent(n: nat, a: Mat, f: Vec, b: Mat) {
    && (forall i :: 0 <= i < n ==> f(i) != 0.0)
    && (forall i, j :: 0 <= i < n && 0 <= j < n ==> CongruentAt(a, f, b, i, j))
  }

  ghost predicate CongruentAt(a: Mat, f: Vec, b: Mat, i: int, j: int) {
    b(i, j) == f(i) * a(i, j) * f(j)
  }

  /** `x = f y`, entry by entry. */
  ghost predicate ScaledBy(n: nat, f: Vec, y: Vec, x: Vec) {
    forall i :: 0 <= i < n ==> ScaledAt(f, y, x, i)
  }

  ghost predicate ScaledAt(f: Vec, y: Vec, x: Vec, i: int) { x(i) == f(i) * y(i) }

  /** (F A F) y, row by row, is F times A (F y). */
  lemma CongruentRow(n: nat, a: Mat, b: Mat, f: Vec, y: Vec, x: Vec, i: int)
    requires Congruent(n, a, f, b) && ScaledBy(n, f, y, x) && 0 <= i < n
    ensures MulVec(n, b, y)(i) == f(i) * MulVec(n, a, x)(i)
  {
    var r, q := RowOf(a, i), RowOf(b, i);
    var t, u := k => q(k) * y(k), k => r(k) * x(k);
    forall j {:trigger t(j)} | 0 <= j < n ensures t(j) == f(i) * u(j) {
      assert CongruentAt(a, f, b, i, j) && ScaledAt(f, y, x, j);
      RegroupProduct(f(i), a(i, j), f(j), y(j));
    }
    SumScale(n, f(i), u, t);
  }

  lemma RegroupProduct(f: real, a: real, g: real, y: real)
    ensures (f * a * g) * y == f * (a * (g * y))
  {
  }

  lemma Cancel(f: real, u: real, v: real)
    requires f != 0.0
    ensures f * u == f * v <==> u == v
  {
  }

  /** Solving in folded coordinates is solving in original ones. */
  lemma CongruentSystems(n: nat, a: Mat, b: Mat, f: Vec, y: Vec, x: Vec, r: Vec, fr: Vec)
    requires Congruent(n, a, f, b) && ScaledBy(n, f, y, x) && ScaledBy(n, f, r, fr)
    ensures Solves(n, a, x, r) <==> Solves(n, b, y, fr)
  {
    var u, v := MulVec(n, a, x), MulVec(n, b, y);
    forall i | 0 <= i < n ensures u(i) == r(i) <==> v(i) == fr(i) {
      CongruentRow(n, a, b, f, y, x, i);
      assert ScaledAt(f, r, fr, i);
      Cancel(f(i), u(i), r(i));
    }
  }

  // ---- The method --------------------------------------------------------------------------

  ghost function Scales(coords: CoordinateMap, e: nat): Vec { i => coords.Scale(e, i) }

  /** `a` is the original matrix: folding it by the solver's map gives the SDDM matrix. */
  ghost predicate Represents(a: Mat, s: BlockElimSolver, m: SddmMatrix) {
    Congruent(m.crossTab.NLocal(), a, Scales(s.coordinates, m.NEliminated()), Full(m))
  }

  lemma FoldScales(coords: CoordinateMap, e: nat, v: seq<real>)
    ensures ScaledBy(|v|, Scales(coords, e), At(v), At(FoldedVec(coords, e, v)))
  {
    var f, y, x := Scales(coords, e), At(v), At(FoldedVec(coords, e, v));
    forall i | 0 <= i < |v| ensures ScaledAt(f, y, x, i) {
      assert FoldedVec(coords, e, v)[i] == coords.Scale(e, i) * v[i];
    }
  }

  /** The right-hand side the elimination sees: folded, and centred when the gauge floats. */
  ghost function InputRhs(s: BlockElimSolver, r: seq<real>): (b: seq<real>)
    ensures |b| == |r|
  {
    var fr := FoldedVec(s.coordinates, s.NEliminated(), r);
    if s.reducedFactor.Gauge() == Some(Floating) then MeanFree(fr) else fr
  }

  lemma UnfoldSolution(a: Mat, s: BlockElimSolver, m: SddmMatrix, r: Vec, fr: Vec)
    requires Represents(a, s, m) && Solvable(m.crossTab.NLocal(), a, r)
    requires ScaledBy(m.crossTab.NLocal(), Scales(s.coordinates, m.NEliminated()), r, fr)
    ensures SddmSolvable(m, fr)
  {
    hide Solves;
    hide CongruentAt;
    hide ScaledBy;
    hide Full;
    var n, f := m.crossTab.NLocal(), Scales(s.coordinates, m.NEliminated());
    var x: Vec :| Solves(n, a, x, r);
    var y: Vec := Unfolded(f, x);
    UnfoldedScales(n, f, x);
    CongruentSystems(n, a, Full(m), f, y, x, r, fr);
    FullSolves(m, y, fr);
  }

  function Unfolded(f: Vec, x: Vec): Vec { i => if f(i) == 0.0 then 0.0 else x(i) / f(i) }

  lemma UnfoldedScales(n: nat, f: Vec, x: Vec)
    requires forall i :: 0 <= i < n ==> f(i) != 0.0
    ensures ScaledBy(n, f, Unfolded(f, x), x)
  {
    var y := Unfolded(f, x);
    forall i | 0 <= i < n ensures ScaledAt(f, y, x, i) { DivideBack(f(i), x(i)); }
  }

  lemma FullSolves(m: SddmMatrix, y: Vec, b: Vec)
    ensures Solves(m.crossTab.NLocal(), Full(m), y, b) <==> SolvesSddm(m, y, b)
  {
    hide Dot;
    hide SolvesBipartite;
    hide Assembled;
    hide Balanced;
    hide SddmMatrix.Valid;
    AssembledIsBipartite(m.NEliminated(), m.NKept(), m.Block(), At(m.diagonal), y, b);
  }

  /** On a solvable system the centring is a no-op. */
  lemma SolvableInput(s: BlockElimSolver, m: SddmMatrix, r: seq<real>)
    requires BuiltFrom(s, m) && |r| == s.NInternal()
    requires SddmSolvable(m, At(FoldedVec(s.coordinates, s.NEliminated(), r)))
    ensures InputRhs(s, r) == FoldedVec(s.coordinates, s.NEliminated(), r)
  {
    hide Sum;
    var fr := FoldedVec(s.coordinates, s.NEliminated(), r);
    if s.reducedFactor.Gauge() == Some(Floating) {
      var y: Vec :| SolvesSddm(m, y, At(fr));
      UnsignedBalanced(m);
      SolvableSumsToZero(m.NEliminated(), m.NKept(), m.Block(), At(m.diagonal), At(m.groundEdges), y, At(fr));
      MeanFreeOfZeroSum(fr);
    }
  }

  /** What one local solve achieves: `y` in folded coordinates, `x` in original ones. */
  ghost predicate SolvedLocally(s: BlockElimSolver, m: SddmMatrix, r: seq<real>, y: seq<real>, x: seq<real>) {
    && |r| == |y| == m.crossTab.NLocal() && x == FoldedVec(s.coordinates, m.NEliminated(), y)
    && (SddmSolvable(m, At(InputRhs(s, r))) ==> SolvesSddm(m, At(y), At(InputRhs(s, r))))
    && (s.reducedFactor.Gauge() == Some(Floating) ==> Sum(|y|, At(y)) == 0.0)
  }

  /** The unfolded vector solves the original system exactly when the folded one solves the
      SDDM system for the folded right-hand side. */
  lemma OriginalIffFolded(a: Mat, s: BlockElimSolver, m: SddmMatrix, r: seq<real>, y: seq<real>, x: seq<real>)
    requires Represents(a, s, m) && |r| == |y| == m.crossTab.NLocal() && x == FoldedVec(s.coordinates, m.NEliminated(), y)
    ensures Solves(|r|, a, At(x), At(r)) <==> SolvesSddm(m, At(y), At(FoldedVec(s.coordinates, m.NEliminated(), r)))
  {
    hide Solves;
    hide SolvesSddm;
    hide Congruent;
    hide ScaledBy;
    hide FoldedVec;
    hide Scales;
    hide Full;
    var e, fr := m.NEliminated(), FoldedVec(s.coordinates, m.NEliminated(), r);
    FoldScales(s.coordinates, e, r);
    FoldScales(s.coordinates, e, y);
    FullSolves(m, At(y), At(fr));
    CongruentSystems(|r|, a, Full(m), Scales(s.coordinates, e), At(y), At(x), At(r), At(fr));
  }

  /** A solvable original system is solved. */
  lemma SolvedInOriginal(a: Mat, s: BlockElimSolver, m: SddmMatrix, r: seq<real>, y: seq<real>, x: seq<real>)
    requires BuiltFrom(s, m) && SolvedLocally(s, m, r, y, x)
    requires Represents(a, s, m) && Solvable(|r|, a, At(r))
    ensures Solves(|r|, a, At(x), At(r))
  {
    hide Solves;
    hide Represents;
    hide ScaledBy;
    hide FoldedVec;
    hide SddmMatrix.Valid;
    FoldScales(s.coordinates, m.NEliminated(), r);
    UnfoldSolution(a, s, m, At(r), At(FoldedVec(s.coordinates, m.NEliminated(), r)));
    SolvableInput(s, m, r);
    OriginalIffFolded(a, s, m, r, y, x);
  }

  // ---- Connected components ----------------------------------------------------------------

  /** The right-hand side in folded coordinates, before any centring. */
  ghost function FoldedRhs(s: BlockElimSolver, m: SddmMatrix, r: seq<real>): Vec {
    At(FoldedVec(s.coordinates, m.NEliminated(), r))
  }

  lemma FloatingGauge(s: BlockElimSolver, m: SddmMatrix)
    requires BuiltFrom(s, m) && s.reducedFactor.Gauge() == Some(Floating)
    ensures m.Unsigned() && m.grounding.Floating?
  {
  }

  /** The local solve of a connected component solves the original equations exactly when the
      component answers the folded right-hand side. */
  lemma SolvesIffAnswerable(a: Mat, s: BlockElimSolver, m: SddmMatrix, r: seq<real>, y: seq<real>, x: seq<real>)
    requires BuiltFrom(s, m) && SolvedLocally(s, m, r, y, x) && Represents(a, s, m) && ConnectedMatrix(m)
    ensures Solves(|r|, a, At(x), At(r)) <==> Answerable(m, FoldedRhs(s, m, r))
  {
    hide Solves;
    hide SolvesSddm;
    hide Represents;
    hide Answerable;
    hide FoldedVec;
    hide SddmMatrix.Valid;
    hide ConnectedMatrix;
    SddmSolvableIff(m, FoldedRhs(s, m, r));
    OriginalIffFolded(a, s, m, r, y, x);
    if SddmSolvable(m, FoldedRhs(s, m, r)) { SolvableInput(s, m, r); }
  }

  /** With a floating gauge the centred folded system is always solved, and the original
      equations hold exactly when the folded right-hand side sums to zero. */
  lemma FloatingSolvesIffBalanced(a: Mat, s: BlockElimSolver, m: SddmMatrix, r: seq<real>, y: seq<real>, x: seq<real>)
    requires BuiltFrom(s, m) && SolvedLocally(s, m, r, y, x) && Represents(a, s, m) && ConnectedMatrix(m)
    requires s.reducedFactor.Gauge() == Some(Floating)
    ensures SolvesSddm(m, At(y), At(InputRhs(s, r)))
    ensures Solves(|r|, a, At(x), At(r)) <==> Sum(|r|, FoldedRhs(s, m, r)) == 0.0
  {
    hide Solves;
    hide SolvesSddm;
    hide Represents;
    hide Answerable;
    hide FoldedVec;
    hide SddmMatrix.Valid;
    hide ConnectedMatrix;
    FloatingGauge(s, m);
    InputSumsToZero(s, r);
    FloatingAnswers(m, At(InputRhs(s, r)));
    SddmSolvableIff(m, At(InputRhs(s, r)));
    FloatingAnswers(m, FoldedRhs(s, m, r));
    SolvesIffAnswerable(a, s, m, r, y, x);
  }

  /** The result before the closing mean subtraction and unfold. */
  lemma CentredSolution(s: BlockElimSolver, m: SddmMatrix, b: seq<real>, z: seq<real>)
    requires BuiltFrom(s, m) && |b| == |z| == m.crossTab.NLocal() && s.reducedFactor.Gauge() == Some(Floating)
    requires SolvesSddm(m, At(z), At(b))
    ensures SolvesSddm(m, At(MeanFree(z)), At(b))
  {
    UnsignedBalanced(m);
    var y := MeanFree(z);
    forall i | 0 <= i < |z| ensures At(y)(i) == At(z)(i) - Mean(z) { assert y[i] == z[i] - Mean(z); }
    ShiftKeepsSolution(m.NEliminated(), m.NKept(), m.Block(), At(m.diagonal), At(m.groundEdges), At(z), At(y), Mean(z), At(b));
  }

  lemma InputSumsToZero(s: BlockElimSolver, r: seq<real>)
    requires s.reducedFactor.Gauge() == Some(Floating)
    ensures Sum(|r|, At(InputRhs(s, r))) == 0.0
  {
    MeanFreeSumsToZero(FoldedVec(s.coordinates, s.NEliminated(), r));
  }

  /** The folded result, centred when the gauge floats, is what `SolvedLocally` describes. */
  lemma AssembleSolved(s: BlockElimSolver, m: SddmMatrix, r: seq<real>, rr: seq<real>, z: seq<real>, y: seq<real>, x: seq<real>)
    requires BuiltFrom(s, m) && |r| == s.NInternal() && Recovered(s, InputRhs(s, r), rr, z)
    requires y == if s.reducedFactor.Gauge() == Some(Floating) then MeanFree(z) else z
    requires x == FoldedVec(s.coordinates, s.NEliminated(), y)
    ensures SolvedLocally(s, m, r, y, x)
  {
    var b := InputRhs(s, r);
    if s.reducedFactor.Gauge() == Some(Floating) {
      InputSumsToZero(s, r);
      MeanFreeSumsToZero(z);
    }
    if SddmSolvable(m, At(b)) {
      RecoveredSolves(s, m, b, rr, z);
      if s.reducedFactor.Gauge() == Some(Floating) { CentredSolution(s, m, b, z); }
    }
  }

  /** `solve_local`: fold, gauge, eliminate, gauge, unfold. It fails exactly when the reduced
      solve does. Every original system that has a solution is solved in place, in the original
      signed coordinates; for a connected component those are the systems it answers. */
  method SolveLocal(s: BlockElimSolver, rhs: array<real>, sol: array<real>, ghost m: SddmMatrix)
    returns (r: Result<(), LocalSolveError>, ghost y: seq<real>, ghost rr: seq<real>)
    requires BuiltFrom(s, m) && rhs != sol && rhs.Length >= s.ScratchSize() && sol.Length >= s.ScratchSize()
    modifies rhs, sol
    ensures |rr| == s.NKept() && Carried(s.crossTab, s.invDiagElim, InputRhs(s, old(rhs[..s.NInternal()])), rr)
    ensures r.Ok? <==> KeptSolution(s.reducedFactor, s.NKept(), rr).Some?
    ensures r.Ok? ==> SolvedLocally(s, m, old(rhs[..s.NInternal()]), y, sol[..s.NInternal()])
    ensures r.Ok? ==> forall a :: Represents(a, s, m) && Solvable(s.NInternal(), a, At(old(rhs[..s.NInternal()]))) ==>
              Solves(s.NInternal(), a, At(sol[..s.NInternal()]), At(old(rhs[..s.NInternal()])))
    ensures r.Ok? && ConnectedMatrix(m) ==> forall a :: Represents(a, s, m) ==>
              (Solves(s.NInternal(), a, At(sol[..s.NInternal()]), At(old(rhs[..s.NInternal()]))) <==>
               Answerable(m, FoldedRhs(s, m, old(rhs[..s.NInternal()]))))
  {
    hide Answerable;
    hide ConnectedMatrix;
    hide KeptSolution;
    hide Carried;
    var n, e := s.NInternal(), s.NEliminated();
    ghost var r0 := rhs[..n];
    FoldInPlace(s.coordinates, rhs, n, e);
    if s.reducedFactor.Gauge() == Some(Floating) {
      CentreFirst(rhs, n);
    }
    assert rhs[..n] == InputRhs(s, r0);
    r, rr := EliminateAndRecover(s, rhs, sol);
    y := [];
    if r.Ok? {
      ghost var z := sol[..n];
      if s.reducedFactor.Gauge() == Some(Floating) {
        CentreFirst(sol, n);
      }
      y := sol[..n];
      FoldInPlace(s.coordinates, sol, n, e);
      FinishSolve(s, m, r0, rr, z, y, sol[..n]);
    }
  }

  method CentreFirst(a: array<real>, n: nat)
    requires n <= a.Length
    modifies a
    ensures a[..n] == MeanFree(old(a[..n])) && a[n..] == old(a[n..])
  {
    assert a[..n] == a[0..0 + n];
    SubtractMean(a, 0, n);
    assert a[..n] == a[0..0 + n];
  }

  lemma FinishSolve(s: BlockElimSolver, m: SddmMatrix, r: seq<real>, rr: seq<real>, z: seq<real>, y: seq<real>, x: seq<real>)
    requires BuiltFrom(s, m) && |r| == s.NInternal() && Recovered(s, InputRhs(s, r), rr, z)
    requires y == if s.reducedFactor.Gauge() == Some(Floating) then MeanFree(z) else z
    requires x == FoldedVec(s.coordinates, s.NEliminated(), y)
    ensures SolvedLocally(s, m, r, y, x)
    ensures forall a :: Represents(a, s, m) && Solvable(|r|, a, At(r)) ==> Solves(|r|, a, At(x), At(r))
    ensures ConnectedMatrix(m) ==> forall a :: Represents(a, s, m) ==> (Solves(|r|, a, At(x), At(r)) <==> Answerable(m, FoldedRhs(s, m, r)))
  {
    hide BuiltFrom;
    hide SolvedLocally;
    hide Represents;
    hide Solves;
    hide Answerable;
    hide ConnectedMatrix;
    AssembleSolved(s, m, r, rr, z, y, x);
    forall a | Represents(a, s, m) && Solvable(|r|, a, At(r)) ensures Solves(|r|, a, At(x), At(r)) {
      SolvedInOriginal(a, s, m, r, y, x);
    }
    if ConnectedMatrix(m) {
      forall a | Represents(a, s, m) ensures Solves(|r|, a, At(x), At(r)) <==> Answerable(m, FoldedRhs(s, m, r)) {
        SolvesIffAnswerable(a, s, m, r, y, x);
      }
    }
  }
}
