/** The local solve as an operator: on a connected component whose gauge fits it is linear,
    symmetric and of nonnegative energy
    (crates/within/src/block_elim/solver.rs:444-467, crates/within/src/domain/factor_pairs/sddm.rs:63-82). */
module LocalOperators {
  import opened Wrappers
  import opened Sums
  import opened Csr
  import opened CrossTabs
  import opened Elimination
  import opened Sddm
  import opened Fredholm
  import opened AssembledSystems
  import opened SddmKernel
  import opened Connectivity
  import opened ReducedSystem
  import opened ReducedFactors
  import opened ReducedSolve
  import opened BlockElimSolver
  import opened SolveLocal
  import opened Vectors

  /** The gauge leaves nothing undetermined: it floats, some node is grounded, or no signs
      balance the component. */
  ghost predicate Determined(s: BlockElimSolver, m: SddmMatrix) {
    || s.reducedFactor.Gauge() == Some(Floating)
    || SomeGround(m.crossTab.NLocal(), At(m.groundEdges))
    || forall z: Vec :: !SignBalance(m.NEliminated(), m.NKept(), m.Block(), z)
  }

  /** A solver for a connected component, its gauge fitting. */
  ghost predicate Fitting(s: BlockElimSolver, m: SddmMatrix) {
    BuiltFrom(s, m) && ConnectedMatrix(m) && Determined(s, m)
  }

  /** Mean-free where the gauge floats. */
  ghost predicate InGauge(s: BlockElimSolver, b: seq<real>) {
    s.reducedFactor.Gauge() == Some(Floating) ==> Sum(|b|, At(b)) == 0.0
  }

  lemma GaugedIsAnswerable(s: BlockElimSolver, m: SddmMatrix, b: seq<real>)
    requires Fitting(s, m) && |b| == m.crossTab.NLocal() && InGauge(s, b)
    ensures Answerable(m, At(b))
  {
    hide Sum;
    hide Connected;
    hide SignBalance;
    hide SddmMatrix.Valid;
    if s.reducedFactor.Gauge() == Some(Floating) {
      FloatingGauge(s, m);
      FloatingAnswers(m, At(b));
    }
  }

  /** The matrix applied to a vector. */
  ghost function Applied(m: SddmMatrix, y: seq<real>): (b: seq<real>)
    ensures |b| == |y|
  {
    seq(|y|, i requires 0 <= i < |y| => MulVec(|y|, Full(m), At(y))(i))
  }

  lemma AppliedIff(m: SddmMatrix, y: seq<real>, b: seq<real>)
    requires |y| == |b| == m.crossTab.NLocal()
    ensures SolvesSddm(m, At(y), At(b)) <==> Applied(m, y) == b
  {
    hide Dot;
    hide Full;
    hide SolvesSddm;
    FullSolves(m, At(y), At(b));
    if Applied(m, y) == b {
      forall i | 0 <= i < |y| ensures MulVec(|y|, Full(m), At(y))(i) == At(b)(i) { assert Applied(m, y)[i] == b[i]; }
    }
  }

  lemma AppliedAt(m: SddmMatrix, y: seq<real>, i: nat)
    requires i < |y|
    ensures Applied(m, y)[i] == Dot(|y|, RowOf(Full(m), i), At(y))
  {
    hide Dot;
    hide Full;
    assert Applied(m, y)[i] == MulVec(|y|, Full(m), At(y))(i);
  }

  lemma AppliedComb(m: SddmMatrix, a: real, y: seq<real>, b: real, y': seq<real>)
    requires |y| == |y'|
    ensures Applied(m, Comb(a, y, b, y')) == Comb(a, Applied(m, y), b, Applied(m, y'))
  {
    hide Dot;
    hide Full;
    var l, r := Applied(m, Comb(a, y, b, y')), Comb(a, Applied(m, y), b, Applied(m, y'));
    forall i | 0 <= i < |y| ensures l[i] == r[i] {
      AppliedAt(m, Comb(a, y, b, y'), i);
      AppliedAt(m, y, i);
      AppliedAt(m, y', i);
      DotComb(|y|, RowOf(Full(m), i), a, y, b, y');
    }
  }

  /** The folded solution of a local solve, always. */
  lemma AlwaysSolved(s: BlockElimSolver, m: SddmMatrix, r: seq<real>, y: seq<real>, x: seq<real>)
    requires Fitting(s, m) && SolvedLocally(s, m, r, y, x)
    ensures InGauge(s, y) && |y| == |r| == m.crossTab.NLocal() && Applied(m, y) == InputRhs(s, r)
  {
    hide SolvesSddm;
    hide Connected;
    hide FoldedVec;
    hide SddmMatrix.Valid;
    if s.reducedFactor.Gauge() == Some(Floating) { InputSumsToZero(s, r); }
    GaugedIsAnswerable(s, m, InputRhs(s, r));
    SddmSolvableIff(m, At(InputRhs(s, r)));
    AppliedIff(m, y, InputRhs(s, r));
  }

  // ---- Uniqueness --------------------------------------------------------------------------

  lemma BalancedMatrix(m: SddmMatrix)
    requires m.Valid()
    ensures Balanced(m.NEliminated(), m.NKept(), MagnitudeOf(m.Block()), At(m.diagonal), At(m.groundEdges))
    ensures m.NEliminated() + m.NKept() == m.crossTab.NLocal()
    ensures forall i :: 0 <= i < m.crossTab.NLocal() ==> At(m.groundEdges)(i) >= 0.0
  {
    hide Balanced;
    hide CrossTab.Valid;
    BalancedSame(m.NEliminated(), m.NKept(), m.Magnitude(), MagnitudeOf(m.Block()), At(m.diagonal), At(m.groundEdges));
  }

  /** A vector in gauge on which every edge is tight vanishes. */
  lemma NullVanishes(s: BlockElimSolver, m: SddmMatrix, z: seq<real>)
    requires Fitting(s, m) && |z| == m.crossTab.NLocal() && InGauge(s, z)
    requires Null(m.NEliminated(), m.NKept(), m.Block(), At(m.groundEdges), At(z))
    ensures z == Zeros(|z|)
  {
    hide Dot;
    hide Connected;
    hide Answers;
    hide Null;
    hide SddmMatrix.Valid;
    GaugedIsAnswerable(s, m, z);
    NullPairing(m.NEliminated(), m.NKept(), m.Block(), At(m.groundEdges), At(z), At(z));
    SelfZero(z);
  }

  lemma KernelVanishes(s: BlockElimSolver, m: SddmMatrix, z: seq<real>)
    requires Fitting(s, m) && |z| == m.crossTab.NLocal() && InGauge(s, z) && Applied(m, z) == Zeros(|z|)
    ensures z == Zeros(|z|)
  {
    hide Dot;
    hide Connected;
    hide Balanced;
    hide SddmMatrix.Valid;
    hide Null;
    BalancedMatrix(m);
    forall i | 0 <= i < |z| ensures MulVec(|z|, Full(m), At(z))(i) == 0.0 { assert Applied(m, z)[i] == 0.0; }
    assert InKernel(|z|, Full(m), At(z));
    KernelIsNull(m.NEliminated(), m.NKept(), m.Block(), At(m.diagonal), At(m.groundEdges), At(z));
    NullVanishes(s, m, z);
  }

  lemma SumComb(a: real, y: seq<real>, b: real, y': seq<real>)
    requires |y| == |y'|
    ensures Sum(|y|, At(Comb(a, y, b, y'))) == a * Sum(|y|, At(y)) + b * Sum(|y|, At(y'))
  {
    hide Sum;
    var f, g := i => a * At(y)(i), i => b * At(y')(i);
    SumScale(|y|, a, At(y), f);
    SumScale(|y|, b, At(y'), g);
    SumAdd(|y|, f, g, At(Comb(a, y, b, y')));
  }

  lemma GaugeComb(s: BlockElimSolver, a: real, y: seq<real>, b: real, y': seq<real>)
    requires |y| == |y'| && InGauge(s, y) && InGauge(s, y')
    ensures InGauge(s, Comb(a, y, b, y'))
  {
    hide Sum;
    SumComb(a, y, b, y');
  }

  /** In gauge there is one solution. */
  lemma GaugedUnique(s: BlockElimSolver, m: SddmMatrix, y: seq<real>, y': seq<real>)
    requires Fitting(s, m) && |y| == |y'| == m.crossTab.NLocal() && InGauge(s, y) && InGauge(s, y') && Applied(m, y) == Applied(m, y')
    ensures y == y'
  {
    hide InGauge;
    hide Applied;
    hide SddmMatrix.Valid;
    hide Connected;
    var z := Comb(1.0, y, -1.0, y');
    GaugeComb(s, 1.0, y, -1.0, y');
    AppliedComb(m, 1.0, y, -1.0, y');
    NoDifference(Applied(m, y));
    KernelVanishes(s, m, z);
    SameDifference(y, y');
  }

  // ---- Linearity ---------------------------------------------------------------------------

  lemma FoldedComb(coords: CoordinateMap, e: nat, a: real, r: seq<real>, b: real, r': seq<real>)
    requires |r| == |r'|
    ensures FoldedVec(coords, e, Comb(a, r, b, r')) == Comb(a, FoldedVec(coords, e, r), b, FoldedVec(coords, e, r'))
  {
    var x, y := FoldedVec(coords, e, Comb(a, r, b, r')), Comb(a, FoldedVec(coords, e, r), b, FoldedVec(coords, e, r'));
    forall i | 0 <= i < |r| ensures x[i] == y[i] { FoldScalars(coords.Scale(e, i), a, r[i], b, r'[i]); }
  }

  lemma FoldScalars(f: real, a: real, x: real, b: real, y: real)
    ensures f * (a * x + b * y) == a * (f * x) + b * (f * y)
  {
  }

  lemma MeanComb(a: real, r: seq<real>, b: real, r': seq<real>)
    requires |r| == |r'|
    ensures Mean(Comb(a, r, b, r')) == a * Mean(r) + b * Mean(r')
  {
    hide Sum;
    SumComb(a, r, b, r');
    if |r| > 0 { SplitQuotient(a, Sum(|r|, At(r)), b, Sum(|r|, At(r')), |r| as real); }
  }

  lemma SplitQuotient(a: real, x: real, b: real, y: real, n: real)
    requires n != 0.0
    ensures (a * x + b * y) / n == a * (x / n) + b * (y / n)
  {
  }

  lemma MeanFreeComb(a: real, r: seq<real>, b: real, r': seq<real>)
    requires |r| == |r'|
    ensures MeanFree(Comb(a, r, b, r')) == Comb(a, MeanFree(r), b, MeanFree(r'))
  {
    hide Mean;
    MeanComb(a, r, b, r');
    var x, y := MeanFree(Comb(a, r, b, r')), Comb(a, MeanFree(r), b, MeanFree(r'));
    forall i | 0 <= i < |r| ensures x[i] == y[i] { ShiftScalars(a, r[i], Mean(r), b, r'[i], Mean(r')); }
  }

  lemma ShiftScalars(a: real, x: real, m: real, b: real, y: real, k: real)
    ensures (a * x + b * y) - (a * m + b * k) == a * (x - m) + b * (y - k)
  {
  }

  lemma InputComb(s: BlockElimSolver, a: real, r: seq<real>, b: real, r': seq<real>)
    requires |r| == |r'|
    ensures InputRhs(s, Comb(a, r, b, r')) == Comb(a, InputRhs(s, r), b, InputRhs(s, r'))
  {
    hide MeanFree;
    hide FoldedVec;
    FoldedComb(s.coordinates, s.NEliminated(), a, r, b, r');
    MeanFreeComb(a, FoldedVec(s.coordinates, s.NEliminated(), r), b, FoldedVec(s.coordinates, s.NEliminated(), r'));
  }

  /** The solve of a combination is the combination of the solves. */
  lemma LocalLinear(s: BlockElimSolver, m: SddmMatrix, a: real, r: seq<real>, y: seq<real>, x: seq<real>,
                    b: real, r': seq<real>, y': seq<real>, x': seq<real>, y'': seq<real>, x'': seq<real>)
    requires Fitting(s, m) && SolvedLocally(s, m, r, y, x) && SolvedLocally(s, m, r', y', x') && |r| == |r'|
    requires SolvedLocally(s, m, Comb(a, r, b, r'), y'', x'')
    ensures |x| == |x'| && x'' == Comb(a, x, b, x')
  {
    hide Fitting;
    hide InGauge;
    hide InputRhs;
    hide Applied;
    hide FoldedVec;
    hide SddmSolvable;
    hide SolvesSddm;
    AlwaysSolved(s, m, r, y, x);
    AlwaysSolved(s, m, r', y', x');
    AlwaysSolved(s, m, Comb(a, r, b, r'), y'', x'');
    InputComb(s, a, r, b, r');
    AppliedComb(m, a, y, b, y');
    GaugeComb(s, a, y, b, y');
    GaugedUnique(s, m, y'', Comb(a, y, b, y'));
    FoldedComb(s.coordinates, m.NEliminated(), a, y, b, y');
  }

  // ---- Energy ------------------------------------------------------------------------------

  lemma FoldMoves(coords: CoordinateMap, e: nat, y: seq<real>, r: seq<real>)
    requires |y| == |r|
    ensures Inner(FoldedVec(coords, e, y), r) == Inner(y, FoldedVec(coords, e, r))
  {
    var f, g := i => At(FoldedVec(coords, e, y))(i) * At(r)(i), i => At(y)(i) * At(FoldedVec(coords, e, r))(i);
    forall i | 0 <= i < |y| ensures f(i) == g(i) {
      assert At(FoldedVec(coords, e, y))(i) == coords.Scale(e, i) * y[i];
      assert At(FoldedVec(coords, e, r))(i) == coords.Scale(e, i) * r[i];
      MoveScalars(coords.Scale(e, i), y[i], r[i]);
    }
    SumCong(|y|, f, g);
  }

  lemma MoveScalars(f: real, y: real, r: real)
    ensures (f * y) * r == y * (f * r)
  {
  }

  /** A mean-free vector does not see a subtracted mean. */
  lemma MeanUnseen(y: seq<real>, r: seq<real>)
    requires |y| == |r| && Sum(|y|, At(y)) == 0.0
    ensures Inner(y, MeanFree(r)) == Inner(y, r)
  {
    hide Sum;
    hide Dot;
    hide Mean;
    var c, q := Mean(r), MeanFree(r);
    forall i {:trigger At(q)(i)} | 0 <= i < |r| ensures At(q)(i) == At(r)(i) - c {}
    DotLessMean(|y|, At(y), At(r), c, At(q));
  }

  lemma DotLessMean(n: nat, y: Vec, r: Vec, c: real, q: Vec)
    requires Sum(n, y) == 0.0 && forall i {:trigger q(i)} :: 0 <= i < n ==> q(i) == r(i) - c
    ensures Dot(n, y, q) == Dot(n, y, r)
  {
    hide Sum;
    var f: Vec := i => y(i) * r(i);
    var g: Vec := i => c * y(i);
    SumScale(n, c, y, g);
    SumSub(n, f, g, i => y(i) * q(i));
  }

  /** What the solution of one right-hand side sees of another: both folded solutions through
      the matrix. */
  lemma LocalPairing(s: BlockElimSolver, m: SddmMatrix, r: seq<real>, y: seq<real>, x: seq<real>, r': seq<real>, y': seq<real>, x': seq<real>)
    requires Fitting(s, m) && SolvedLocally(s, m, r, y, x) && SolvedLocally(s, m, r', y', x')
    ensures |x| == |r'| == |y| == |y'| == m.crossTab.NLocal()
    ensures Inner(x, r') == Dot(|y|, At(y), MulVec(|y|, Full(m), At(y')))
  {
    hide Dot;
    hide Sum;
    hide Full;
    hide MeanFree;
    hide FoldedVec;
    hide Fitting;
    hide SddmSolvable;
    hide SolvesSddm;
    AlwaysSolved(s, m, r, y, x);
    AlwaysSolved(s, m, r', y', x');
    SameBlocks(s, m);
    var e, fr := m.NEliminated(), FoldedVec(s.coordinates, m.NEliminated(), r');
    FoldMoves(s.coordinates, e, y, r');
    if s.reducedFactor.Gauge() == Some(Floating) { MeanUnseen(y, fr); }
    forall i | 0 <= i < |y| ensures At(InputRhs(s, r'))(i) == MulVec(|y|, Full(m), At(y'))(i) { assert Applied(m, y')[i] == InputRhs(s, r')[i]; }
    DotCong(|y|, At(y), At(InputRhs(s, r')), At(y), MulVec(|y|, Full(m), At(y')));
  }

  lemma SameBlocks(s: BlockElimSolver, m: SddmMatrix)
    requires Fitting(s, m)
    ensures s.NEliminated() == m.NEliminated() && m.Valid() && m.NEliminated() + m.NKept() == m.crossTab.NLocal()
  {
    BalancedMatrix(m);
  }

  /** The local solve is symmetric. */
  lemma LocalSymmetric(s: BlockElimSolver, m: SddmMatrix, r: seq<real>, y: seq<real>, x: seq<real>, r': seq<real>, y': seq<real>, x': seq<real>)
    requires Fitting(s, m) && SolvedLocally(s, m, r, y, x) && SolvedLocally(s, m, r', y', x')
    ensures |x| == |r'| == |x'| == |r| && Inner(x, r') == Inner(x', r)
  {
    hide Dot;
    hide Inner;
    hide Fitting;
    hide SddmSolvable;
    hide SolvesSddm;
    LocalPairing(s, m, r, y, x, r', y', x');
    LocalPairing(s, m, r', y', x', r, y, x);
    SameBlocks(s, m);
    AssembledSymmetric(m.NEliminated(), m.NKept(), m.Block(), At(m.diagonal));
    SymmetricPairing(|y|, Full(m), At(y), At(y'));
  }

  /** Its energy is nonnegative, and zero only for a right-hand side the elimination never sees. */
  lemma LocalEnergy(s: BlockElimSolver, m: SddmMatrix, r: seq<real>, y: seq<real>, x: seq<real>)
    requires Fitting(s, m) && SolvedLocally(s, m, r, y, x)
    ensures |x| == |r| && Inner(x, r) >= 0.0
    ensures Inner(x, r) == 0.0 <==> InputRhs(s, r) == Zeros(|r|)
  {
    hide Dot;
    hide Fitting;
    hide Null;
    hide InGauge;
    hide Balanced;
    hide SddmSolvable;
    hide SolvesSddm;
    hide InputRhs;
    hide SddmMatrix.Valid;
    LocalPairing(s, m, r, y, x, r, y, x);
    AlwaysSolved(s, m, r, y, x);
    SameBlocks(s, m);
    BalancedMatrix(m);
    EnergyNonneg(m.NEliminated(), m.NKept(), m.Block(), At(m.diagonal), At(m.groundEdges), At(y));
    AppliedZeros(m, |y|);
    if Inner(x, r) == 0.0 { NullVanishes(s, m, y); }
    if InputRhs(s, r) == Zeros(|r|) {
      KernelVanishes(s, m, y);
      EnergyOfZeros(m, |y|);
    }
  }

  lemma AppliedZeros(m: SddmMatrix, n: nat)
    ensures Applied(m, Zeros(n)) == Zeros(n)
  {
    hide Dot;
    hide Full;
    forall i | 0 <= i < n ensures Applied(m, Zeros(n))[i] == 0.0 {
      AppliedAt(m, Zeros(n), i);
      DotComm(n, RowOf(Full(m), i), At(Zeros(n)));
      DotZero(n, At(Zeros(n)), RowOf(Full(m), i));
    }
  }

  lemma EnergyOfZeros(m: SddmMatrix, n: nat)
    ensures Energy(n, Full(m), At(Zeros(n))) == 0.0
  {
    hide Full;
    DotZero(n, At(Zeros(n)), MulVec(n, Full(m), At(Zeros(n))));
  }
}
