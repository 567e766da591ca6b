/** Building a local solver from a converted component
    (crates/within/src/block_elim/solver.rs:154-218, 302-348, crates/within/src/domain/factor_pairs/sddm.rs:85-106). */
module Build {
  import opened Wrappers
  import opened Sums
  import opened Csr
  import opened CrossTabs
  import opened Transposition
  import opened Elimination
  import opened Sddm
  import opened ReducedSystem
  import opened ExplicitLaplacian
  import opened EdgeSort
  import opened SampledSchur
  import opened Cover
  import opened ReducedFactors
  import opened ReducedSolve
  import opened BlockElimSolver
  import opened AssembledSystems
  import opened SolveLocal
  import opened Convert

  datatype BuildError = SingularDiagonal(index: nat) | LocalSolverBuild

  ghost predicate PositiveUpTo(d: seq<real>, n: nat) { n <= |d| && forall k :: 0 <= k < n ==> d[k] > 0.0 }

  /** `Eliminated::new`: reciprocals of the eliminated diagonal, or the first entry that is not positive. */
  method Eliminated(m: SddmMatrix) returns (r: Result<seq<real>, BuildError>)
    requires m.NEliminated() <= |m.diagonal|
    ensures r.Ok? ==> Reciprocals(m, r.value)
    ensures r.Err? ==> r.error.SingularDiagonal? && r.error.index < m.NEliminated() && m.diagonal[r.error.index] <= 0.0
    ensures r.Err? ==> forall k :: 0 <= k < r.error.index ==> m.diagonal[k] > 0.0
  {
    var inv := [];
    for i := 0 to m.NEliminated()
      invariant |inv| == i && forall k :: 0 <= k < i ==> m.diagonal[k] > 0.0
      invariant forall k :: 0 <= k < i ==> inv[k] > 0.0 && inv[k] * m.diagonal[k] == 1.0
    {
      var d := m.diagonal[i];
      if d <= 0.0 {
        return Err(SingularDiagonal(i));
      }
      ReciprocalPositive(d);
      inv := inv + [1.0 / d];
    }
    r := Ok(inv);
  }

  lemma ReciprocalPositive(d: real)
    requires d > 0.0
    ensures 1.0 / d > 0.0 && (1.0 / d) * d == 1.0
  {
  }

  /** What the backend does when its dense factorization fails, and how it can fail. */
  datatype ExactFailure = Fail | FallBackToApproximate

  datatype BackendError = DenseFactorizationFailed | OtherFailure

  type Backend = (CsrBlock, ExactFailure) -> Result<Factor, BackendError>

  /** The factorization is external: what it returns is a factor of the matrix it was given. */
  ghost predicate ExactBackend(factorize: Backend) {
    forall l: CsrBlock, mode :: l.Sorted() && l.nrows == l.ncols && factorize(l, mode).Ok? ==>
      FactorOf(factorize(l, mode).value, l.nrows, MatrixOf(l))
  }

  /** The exact complement, or one sampled star by star. */
  datatype SchurMode = Exact | Approximate(sampler: Sampler)

  datatype SolverConfig = SolverConfig(exactBelow: nat, schur: SchurMode) {
    ghost predicate Valid() { schur.Approximate? ==> SoundSampler(schur.sampler) }

    /** Small enough for a dense factorization of the exact complement. */
    predicate TriesExact(m: SddmMatrix) { exactBelow > 0 && m.NKept() <= exactBelow }
  }

  lemma FactorOfCong(f: Factor, dim: nat, m: Mat, m': Mat)
    requires FactorOf(f, dim, m) && forall i, j :: 0 <= i < dim && 0 <= j < dim ==> m(i, j) == m'(i, j)
    ensures FactorOf(f, dim, m')
  {
    forall b | |b| == f.n ensures SolvesWhenSolvable(f, dim, m', b) {
      assert SolvesWhenSolvable(f, dim, m, b);
      if f.solve(b).Some? && Solvable(dim, m', At(b)) && ZeroPast(dim, b) {
        var x: Vec :| Solves(dim, m', x, At(b));
        SolvesCong(dim, m', m, x, At(b), At(b));
        SolvesCong(dim, m, m', At(f.solve(b).value), At(b), At(b));
      }
    }
  }

  /** `l` stores the reduced matrix of `m`, bordered by its ground when it has one. */
  ghost predicate StoresReduced(m: SddmMatrix, inv: seq<real>, l: CsrBlock) {
    && l.Sorted() && l.nrows == l.ncols == ReducedDim(m.NKept(), m.grounding)
    && forall i, j :: 0 <= i < l.nrows && 0 <= j < l.nrows ==> l.Entry(i, j) == ReducedOf(m, inv)(i, j)
  }

  /** The dense attempt on the exact complement failed as such. */
  ghost predicate DenseFailed(m: SddmMatrix, inv: seq<real>, factorize: Backend) {
    exists l :: StoresReduced(m, inv, l) && factorize(l, Fail) == Err(DenseFactorizationFailed)
  }

  /** Which block decides, and in which mode: the exact one where it is small, unless only its
      dense factorization failed; otherwise the exact or the sampled one, as configured. */
  ghost predicate BlockFor(m: SddmMatrix, inv: seq<real>, config: SolverConfig, factorize: Backend, l: CsrBlock, mode: ExactFailure)
    requires m.Valid() && m.Unsigned() && config.Valid()
  {
    match mode
    case Fail => config.TriesExact(m) && StoresReduced(m, inv, l) && factorize(l, Fail) != Err(DenseFactorizationFailed)
    case FallBackToApproximate =>
      && (config.TriesExact(m) ==> DenseFailed(m, inv, factorize))
      && match config.schur
         case Exact => StoresReduced(m, inv, l)
         case Approximate(sampler) => WeighsLike(l, Emitted(m, sampler), ReducedDim(m.NKept(), m.grounding))
  }

  /** The block is the exact complement. */
  predicate IsExact(config: SolverConfig, mode: ExactFailure) { mode.Fail? || config.schur.Exact? }

  lemma BlockShape(m: SddmMatrix, inv: seq<real>, config: SolverConfig, factorize: Backend, l: CsrBlock, mode: ExactFailure)
    requires m.Valid() && m.Unsigned() && config.Valid() && BlockFor(m, inv, config, factorize, l, mode)
    ensures l.Sorted() && l.nrows == l.ncols == ReducedDim(m.NKept(), m.grounding)
    ensures IsExact(config, mode) ==> StoresReduced(m, inv, l)
  {
    hide SumsToZero;
    hide Emitted;
    hide CsrBlock.Entry;
    hide ReducedOf;
  }

  /** The factor the backend made of the deciding block. */
  lemma BlockFactor(m: SddmMatrix, inv: seq<real>, config: SolverConfig, factorize: Backend, l: CsrBlock, mode: ExactFailure)
    requires m.Valid() && m.Unsigned() && config.Valid() && BlockFor(m, inv, config, factorize, l, mode) && ExactBackend(factorize) && factorize(l, mode).Ok?
    ensures FactorOf(factorize(l, mode).value, ReducedDim(m.NKept(), m.grounding), MatrixOf(l))
    ensures IsExact(config, mode) ==> FactorOf(factorize(l, mode).value, ReducedDim(m.NKept(), m.grounding), ReducedOf(m, inv))
  {
    hide BlockFor;
    hide FactorOf;
    hide ReducedOf;
    BlockShape(m, inv, config, factorize, l, mode);
    if IsExact(config, mode) {
      forall i, j | 0 <= i < l.nrows && 0 <= j < l.nrows ensures MatrixOf(l)(i, j) == ReducedOf(m, inv)(i, j) {
        assert l.Entry(i, j) == ReducedOf(m, inv)(i, j);
      }
      FactorOfCong(factorize(l, mode).value, l.nrows, MatrixOf(l), ReducedOf(m, inv));
    }
  }

  /** `factor_reduced`: the backend's factor of the deciding block; it fails exactly when the
      backend does there. */
  method FactorReduced(m: SddmMatrix, inv: seq<real>, config: SolverConfig, factorize: Backend)
    returns (r: Result<Factor, BuildError>, ghost l: CsrBlock, ghost mode: ExactFailure)
    requires m.Valid() && m.Unsigned() && Reciprocals(m, inv) && ExactBackend(factorize) && config.Valid()
    ensures BlockFor(m, inv, config, factorize, l, mode) && (r.Ok? <==> factorize(l, mode).Ok?)
    ensures r.Ok? ==> r.value == factorize(l, mode).value
    ensures r.Ok? ==> FactorOf(r.value, ReducedDim(m.NKept(), m.grounding), MatrixOf(l))
    ensures r.Ok? && IsExact(config, mode) ==> FactorOf(r.value, ReducedDim(m.NKept(), m.grounding), ReducedOf(m, inv))
    ensures r.Err? ==> r.error.LocalSolverBuild?
  {
    hide FactorOf;
    hide ReducedOf;
    hide StoresReduced;
    hide WeighsLike;
    hide SoundSampler;
    hide ExactBackend;
    hide SddmMatrix.Valid;
    var exact: Option<CsrBlock> := None;
    if config.TriesExact(m) {
      var small := ExactForFactor(m, inv);
      IsReduced(m, inv, small);
      var attempt := factorize(small, Fail);
      if attempt != Err(DenseFactorizationFailed) {
        l, mode := small, Fail;
        if attempt.Err? {
          return Err(LocalSolverBuild), l, mode;
        }
        BlockFactor(m, inv, config, factorize, l, mode);
        return Ok(attempt.value), l, mode;
      }
      exact := Some(small);
    }
    var complement;
    match config.schur {
      case Approximate(sampler) => complement := Sampled(m, sampler);
      case Exact =>
        match exact {
          case Some(small) => complement := small;
          case None =>
            complement := ExactForFactor(m, inv);
            IsReduced(m, inv, complement);
        }
    }
    l, mode := complement, FallBackToApproximate;
    match factorize(complement, FallBackToApproximate) {
      case Err(_) => r := Err(LocalSolverBuild);
      case Ok(f) =>
        BlockFactor(m, inv, config, factorize, l, mode);
        r := Ok(f);
    }
  }

  lemma IsReduced(m: SddmMatrix, inv: seq<real>, l: CsrBlock)
    requires l.Sorted() && l.nrows == l.ncols == ReducedDim(m.NKept(), m.grounding)
    requires forall i, j :: 0 <= i < l.nrows && 0 <= j < l.nrows ==> l.Entry(i, j) == ReducedOf(m, inv)(i, j)
    ensures StoresReduced(m, inv, l)
  {
    hide ReducedOf;
    hide CsrBlock.Entry;
  }

  /** The block a component's backend factors: for its own matrix, or for its cover. */
  ghost predicate BackendBlock(component: LocalComponent, config: SolverConfig, factorize: Backend, l: CsrBlock, mode: ExactFailure)
    requires component.matrix.Valid() && (component.form.Laplacian? ==> component.matrix.Unsigned()) && config.Valid()
  {
    if component.form.Laplacian? then exists inv :: Reciprocals(component.matrix, inv) && BlockFor(component.matrix, inv, config, factorize, l, mode)
    else exists cover, inv ::
      IsCover(component.matrix, cover) && cover.Valid() && cover.Unsigned() && Reciprocals(cover, inv) && BlockFor(cover, inv, config, factorize, l, mode)
  }

  /** A factor of the right sizes for the kept block of `m`. */
  ghost predicate SizedFor(rf: ReducedFactor, m: SddmMatrix) {
    && rf.SpansKeptBlock(m.NKept()) && m.NKept() <= rf.SolveDimension() && WellSized(rf)
    && (rf.ExplicitGroundIndex(m.NKept()).Some? ==> m.NKept() < rf.SolveDimension())
  }

  lemma DirectSized(m: SddmMatrix, f: Factor, a: Mat)
    requires FactorOf(f, ReducedDim(m.NKept(), m.grounding), a)
    ensures SizedFor(Direct(f, m.grounding), m)
  {
    forall b | |b| == f.n && f.solve(b).Some? ensures |f.solve(b).value| == f.n {
      assert SolvesWhenSolvable(f, ReducedDim(m.NKept(), m.grounding), a, b);
    }
  }

  lemma CoverSized(m: SddmMatrix, cover: SddmMatrix, f: Factor, a: Mat)
    requires IsCover(m, cover) && FactorOf(f, ReducedDim(cover.NKept(), cover.grounding), a)
    ensures SizedFor(ReducedFactor.Cover(f, m.NKept()), m)
  {
    hide SddmMatrix.Valid;
    forall b | |b| == f.n && f.solve(b).Some? ensures |f.solve(b).value| == f.n {
      assert SolvesWhenSolvable(f, ReducedDim(cover.NKept(), cover.grounding), a, b);
    }
  }

  /** The backend's factor as the solver holds it. */
  function FactorAround(component: LocalComponent, f: Factor): ReducedFactor {
    if component.form.Laplacian? then Direct(f, component.matrix.grounding) else ReducedFactor.Cover(f, component.matrix.NKept())
  }

  /** `build`: a solver for the component's matrix; a signed one is factored behind its cover.
      It fails exactly on an eliminated diagonal that is not positive or when the backend cannot
      factor the deciding block; over an exact complement the solver fits its matrix. */
  method BuildSolver(component: LocalComponent, config: SolverConfig, factorize: Backend)
    returns (r: Result<BlockElimSolver, BuildError>, ghost l: CsrBlock, ghost mode: ExactFailure)
    requires component.matrix.Valid() && ExactBackend(factorize) && config.Valid()
    requires component.form.Laplacian? ==> component.matrix.Unsigned()
    requires component.coordinates.Scaled? ==> |component.coordinates.factors| == component.matrix.crossTab.NLocal()
    ensures r.Ok? ==> r.value.Sized() && r.value.crossTab == component.matrix.crossTab && r.value.coordinates == component.coordinates
    ensures r.Ok? ==> Reciprocals(component.matrix, r.value.invDiagElim) && factorize(l, mode).Ok?
    ensures r.Ok? ==> r.value.reducedFactor == FactorAround(component, factorize(l, mode).value)
    ensures r.Ok? && IsExact(config, mode) ==> BuiltFrom(r.value, component.matrix)
    ensures r.Err? && r.error.SingularDiagonal? <==> !PositiveUpTo(component.matrix.diagonal, component.matrix.NEliminated())
    ensures PositiveUpTo(component.matrix.diagonal, component.matrix.NEliminated()) ==>
              BackendBlock(component, config, factorize, l, mode) && (r.Ok? <==> factorize(l, mode).Ok?)
  {
    hide SddmMatrix.Valid;
    hide BlockFor;
    hide SizedFor;
    hide FactorOf;
    hide ReducedOf;
    hide ExactBackend;
    hide SolverConfig.Valid;
    hide Reciprocals;
    hide PositiveUpTo;
    var m := component.matrix;
    l, mode := Empty(0), Fail;
    DiagonalSized(m);
    var eliminated := Eliminated(m);
    if eliminated.Err? {
      NotPositive(m, eliminated.error.index);
      return Err(eliminated.error), l, mode;
    }
    var inv := eliminated.value;
    var f;
    if component.form.Laplacian? {
      ReciprocalsPositive(m, inv);
      f, l, mode := FactorReduced(m, inv, config, factorize);
      if f.Err? {
        return Err(f.error), l, mode;
      }
      DirectSized(m, f.value, MatrixOf(l));
      r := Ok(FinishBuild(component, inv, Direct(f.value, m.grounding)));
    } else {
      var cover := AssembleBipartiteCover(m);
      DiagonalSized(cover);
      var coverEliminated := Eliminated(cover);
      if coverEliminated.Err? {
        CoverSingular(m, cover, coverEliminated.error.index);
        return Err(coverEliminated.error), l, mode;
      }
      ReciprocalsPositive(m, inv);
      f, l, mode := FactorReduced(cover, coverEliminated.value, config, factorize);
      if f.Err? {
        return Err(f.error), l, mode;
      }
      CoverSized(m, cover, f.value, MatrixOf(l));
      assert IsExact(config, mode) ==> CoverFits(f.value, m, inv, cover, coverEliminated.value);
      r := Ok(FinishBuild(component, inv, ReducedFactor.Cover(f.value, m.NKept())));
    }
  }

  /** The solver's parts put together. */
  function FinishBuild(component: LocalComponent, inv: seq<real>, rf: ReducedFactor): (s: BlockElimSolver)
    requires component.matrix.Valid() && Reciprocals(component.matrix, inv) && SizedFor(rf, component.matrix)
    requires component.coordinates.Scaled? ==> |component.coordinates.factors| == component.matrix.crossTab.NLocal()
    ensures s.Sized() && s.crossTab == component.matrix.crossTab && s.invDiagElim == inv
    ensures s.coordinates == component.coordinates && s.reducedFactor == rf
    ensures FactorFits(rf, component.matrix, inv) ==> BuiltFrom(s, component.matrix)
  {
    BlockElimSolver(component.matrix.crossTab, inv, rf, component.coordinates)
  }

  lemma DiagonalSized(m: SddmMatrix)
    requires m.Valid()
    ensures |m.diagonal| == m.crossTab.NLocal()
  {
  }

  lemma NotPositive(m: SddmMatrix, k: nat)
    requires k < m.NEliminated() <= |m.diagonal| && m.diagonal[k] <= 0.0
    ensures !PositiveUpTo(m.diagonal, m.NEliminated())
  {
  }

  lemma ReciprocalsPositive(m: SddmMatrix, inv: seq<real>)
    requires Reciprocals(m, inv)
    ensures PositiveUpTo(m.diagonal, m.NEliminated())
  {
    forall k | 0 <= k < m.NEliminated() ensures m.diagonal[k] > 0.0 { PositiveFactor(inv[k], m.diagonal[k], m.diagonal[k] * m.diagonal[k]); }
  }

  lemma PositiveFactor(v: real, d: real, q: real)
    requires v > 0.0 && v * d == 1.0 && q == d * d
    ensures d > 0.0
  {
    SquareNonneg(d, q);
    assert v * q == d * (v * d);
    NonnegativeProduct(v, q, 1.0);
  }

  /** The cover repeats the eliminated diagonal: an entry that is not positive was one before. */
  lemma CoverSingular(m: SddmMatrix, cover: SddmMatrix, k: nat)
    requires m.Valid() && cover.Valid() && IsCover(m, cover) && k < cover.NEliminated() && cover.diagonal[k] <= 0.0
    ensures !PositiveUpTo(m.diagonal, m.NEliminated())
  {
    hide SddmMatrix.Valid;
    DiagonalSized(m);
    DiagonalSized(cover);
    var e := m.NEliminated();
    var i := if k < e then k else k - e;
    assert At(cover.diagonal)(k) == At(m.diagonal)(i);
    assert m.diagonal[i] <= 0.0;
  }

  /** A component converted without loss: building and solving answers the original Gram system. */
  lemma ConvertedSolverRepresents(x: CrossTab, d: seq<real>, f: seq<real>, config: ScalingConfig, comp: LocalComponent, s: BlockElimSolver)
    requires ConvertedBy(x, d, f, config, comp) && (forall i :: 0 <= i < |f| ==> f[i] != 0.0)
    requires BuiltFrom(s, comp.matrix) && s.coordinates == comp.coordinates
    ensures Represents(Gram(x, d), s, comp.matrix) <==>
            Lossless(x.NLocal(), ScaledDiagonal(d, f), OffMass(x, f), config)
  {
    hide Lossless;
    hide Congruent;
    hide BuiltFrom;
    ConvertedRepresents(x, d, f, config, comp);
    FoldedBlockShape(x, d, f, config, comp);
  }

  /** A plain component adopted with its own diagonal represents its Gram matrix. */
  lemma PlainRepresents(x: CrossTab, d: seq<real>, m: SddmMatrix, s: BlockElimSolver)
    requires m.crossTab == x && m.diagonal == d && s.coordinates.Canonical?
    ensures Represents(Gram(x, d), s, m)
  {
    var e, n := x.NRows(), x.NLocal();
    var a, f, b := Gram(x, d), Scales(s.coordinates, e), Full(m);
    forall i, j | 0 <= i < n && 0 <= j < n ensures CongruentAt(a, f, b, i, j) {
      PlainEntry(e, MatrixOf(x.c), At(d), f, i, j);
    }
  }

  lemma PlainEntry(e: nat, c: Mat, d: Vec, f: Vec, i: int, j: int)
    requires f(i) == (if i < e then 1.0 else -1.0) && f(j) == if j < e then 1.0 else -1.0
    ensures CongruentAt(Assembled(e, Negated(c), d), f, Assembled(e, c, d), i, j)
  {
  }

  // ---- Orientation -------------------------------------------------------------------------

  function RotateLeft<T>(s: seq<T>, k: nat): (r: seq<T>)
    requires k <= |s|
  {
    s[k..] + s[..k]
  }

  /** `orient_for_elimination` */
  function Orient(x: CrossTab, diagonal: seq<real>, globals: seq<nat>): (r: (CrossTab, seq<real>, seq<nat>))
    requires x.Valid() && |diagonal| == |globals| == x.NLocal()
  {
    if x.NCols() <= x.NRows() then (x, diagonal, globals)
    else (CrossTab(x.ct, x.c), RotateLeft(diagonal, x.NRows()), RotateLeft(globals, x.NRows()))
  }

  /** The local index a node had before orientation. */
  function Origin(x: CrossTab, i: nat): nat {
    if x.NCols() <= x.NRows() then i else if i < x.NCols() then x.NRows() + i else i - x.NCols()
  }

  lemma SwappedValid(x: CrossTab)
    requires x.Valid()
    ensures CrossTab(x.ct, x.c).Valid()
  {
  }

  function Swapped(e: nat, n: nat, i: nat): nat { if i < n then e + i else i - n }

  ghost predicate TransposedAt(c: Mat, c': Mat, k: int, l: int) { c'(l, k) == c(k, l) }

  lemma SwappedAssembled(e: nat, n: nat, c: Mat, c': Mat, d: Vec, d': Vec, i: nat, j: nat)
    requires forall k, l :: 0 <= k < e && 0 <= l < n ==> TransposedAt(c, c', k, l)
    requires i < e + n && j < e + n && d'(i) == d(Swapped(e, n, i))
    ensures Assembled(n, Negated(c'), d')(i, j) == Assembled(e, Negated(c), d)(Swapped(e, n, i), Swapped(e, n, j))
  {
    if i < n && j >= n { assert TransposedAt(c, c', j - n, i); }
    if i >= n && j < n { assert TransposedAt(c, c', i - n, j); }
  }

  lemma SwappedGram(x: CrossTab, d: seq<real>, d': seq<real>, i: nat, j: nat)
    requires x.Valid() && |d| == x.NLocal() && d' == RotateLeft(d, x.NRows()) && i < x.NLocal() && j < x.NLocal()
    ensures Gram(CrossTab(x.ct, x.c), d')(i, j) ==
            Gram(x, d)(Swapped(x.NRows(), x.NCols(), i), Swapped(x.NRows(), x.NCols(), j))
  {
    var c, ct := MatrixOf(x.c), MatrixOf(x.ct);
    forall k, l | 0 <= k < x.NRows() && 0 <= l < x.NCols() ensures TransposedAt(c, ct, k, l) {
      TransposeEntry(x.c, x.ct, k, l);
    }
    SwappedAssembled(x.NRows(), x.NCols(), c, ct, At(d), At(d'), i, j);
  }

  /** The larger block comes first, and the Gram matrix is the same one, renumbered. */
  lemma OrientedSameGram(x: CrossTab, d: seq<real>, globals: seq<nat>, i: nat, j: nat)
    requires x.Valid() && |d| == |globals| == x.NLocal() && i < x.NLocal() && j < x.NLocal()
    ensures var (y, e, g) := Orient(x, d, globals);
      && y.Valid() && |e| == |g| == y.NLocal() && y.NCols() <= y.NRows()
      && Gram(y, e)(i, j) == Gram(x, d)(Origin(x, i), Origin(x, j)) && g[i] == globals[Origin(x, i)]
  {
    hide Gram;
    hide CrossTab.Valid;
    if x.NRows() < x.NCols() {
      var k := x.NRows();
      Shaped(x);
      SwappedValid(x);
      SwappedGram(x, d, RotateLeft(d, k), i, j);
      assert RotateLeft(globals, k)[i] == globals[Swapped(k, x.NCols(), i)];
    }
  }
}
