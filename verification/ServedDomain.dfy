/** The subdomains a design's channel pairs are split into serve its Schwarz preconditioner, and
    together they hold every coefficient with a nonempty column
    (crates/within/src/domain/factor_pairs.rs:42-152, crates/within/src/operator/schwarz.rs:89-113). */
module ServedDomains {
  import opened Wrappers
  import opened Sums
  import opened Csr
  import opened CrossTabs
  import opened Transposition
  import opened Elimination
  import opened AssembledSystems
  import opened Sddm
  import opened FoldingSigns
  import opened DominanceScaling
  import opened Components
  import opened Extraction
  import opened Connectivity
  import opened ReducedFactors
  import opened ReducedSolve
  import opened BlockElimSolver
  import opened SolveLocal
  import opened LocalOperators
  import opened Convert
  import opened ConvertComponent
  import opened Build
  import opened LocalAnswers
  import opened SplitSubdomains
  import opened DomainAnswers
  import opened Accumulation
  import opened PairAssembly
  import opened Subdomains
  import opened PartitionOfUnity
  import opened DesignOperator
  import opened PairGrams
  import opened DomainGrams
  import opened SchwarzDesigns

  /** The solver built for a component, with what the build promises of it. */
  ghost predicate SolverOf(s: BlockElimSolver, c: LocalComponent) {
    && BuiltFrom(s, c.matrix) && s.coordinates == c.coordinates
    && (s.reducedFactor.Direct? <==> c.form.Laplacian?)
  }

  /** The subdomain made of a domain and its solver: positive weights, and a solve that succeeds. */
  ghost predicate EntryOf(e: SubdomainEntry, nDofs: nat, dom: LocalDomain, s: BlockElimSolver) {
    && e.Valid(nDofs) && e.indices == dom.globals && PositiveWeights(e.weights)
    && (forall r :: |r| == |e.indices| ==> SolvedBy(e, s, dom.component.matrix, r))
  }

  /** The floating-classification budget of a nonnegative total is not negative. */
  ghost predicate RoundoffNonnegative(config: ScalingConfig) { forall n: nat, t :: t >= 0.0 ==> config.roundoff(n, t) >= 0.0 }

  // ---- The gauge fits ----------------------------------------------------------------------

  /** A grounded matrix has a ground edge, the roundoff budget being nonnegative. */
  lemma GroundedHasGround(n: nat, d: Vec, s: Vec, config: ScalingConfig, m: SddmMatrix)
    requires Finalized(n, d, s, config, m) && m.grounding.Grounded? && config.roundoff(n, Sum(n, RaisedTo(d, s))) >= 0.0
    ensures SomeGround(n, At(m.groundEdges))
  {
    hide Sum;
    var g := Surpluses(d, s);
    if forall i :: 0 <= i < n ==> g(i) <= 0.0 {
      forall i | 0 <= i < n ensures g(i) == 0.0 { assert g(i) == Max(Clamped(d(i), s(i)) - s(i), 0.0); }
      SumZero(n, g);
    } else {
      var i :| 0 <= i < n && g(i) > 0.0;
      assert FinalizedAt(d, s, m, i);
      assert At(m.groundEdges)(i) > 0.0;
    }
  }

  lemma OffMassNonneg(x: CrossTab, f: seq<real>, i: int)
    ensures OffMass(x, f)(i) >= 0.0
  {
    hide Sum;
    hide CsrBlock.Entry;
    hide FoldedWeight;
    var r, c := FoldedRowMass(x, f, i), FoldedColMass(x, f, i - x.NRows());
    forall j | 0 <= j < x.NCols() ensures r(j) >= 0.0 { assert r(j) == Abs(FoldedWeight(At(f)(i), At(f)(x.NRows() + j), x.c.Entry(i, j))); }
    forall k | 0 <= k < x.NRows() ensures c(k) >= 0.0 {
      assert c(k) == Abs(FoldedWeight(At(f)(k), At(f)(x.NRows() + (i - x.NRows())), x.c.Entry(k, i - x.NRows())));
    }
    SumNonneg(x.NCols(), r);
    SumNonneg(x.NRows(), c);
  }

  lemma RaisedNonnegative(x: CrossTab, d: seq<real>, f: seq<real>)
    ensures Sum(x.NLocal(), RaisedTo(ScaledDiagonal(d, f), OffMass(x, f))) >= 0.0
  {
    hide Sum;
    hide OffMass;
    var (d', s) := (ScaledDiagonal(d, f), OffMass(x, f));
    forall i | 0 <= i < x.NLocal() ensures RaisedTo(d', s)(i) >= 0.0 { OffMassNonneg(x, f, i); }
    SumNonneg(x.NLocal(), RaisedTo(d', s));
  }

  /** A general component's gauge leaves nothing undetermined: a grounded one has a ground edge,
      and one behind the cover has no sign balance. */
  lemma GeneralDetermined(x: CrossTab, d: seq<real>, f: seq<real>, config: ScalingConfig, sqrt: real -> real, c: LocalComponent,
                          report: Option<UncertifiedScaling>, s: BlockElimSolver)
    requires ConvertedWith(x, d, f, config, sqrt, c, report) && x.c.Nonzero() && SolverOf(s, c)
    requires RoundoffNonnegative(config)
    ensures Determined(s, c.matrix)
  {
    hide Connected;
    hide SignBalance;
    hide Undirected;
    hide Signature;
    hide Reports;
    hide OffMass;
    hide SddmMatrix.Valid;
    hide CrossTab.Valid;
    hide CsrBlock.Nonzero;
    hide Finalized;
    hide IsFolded;
    hide ReachedScales;
    FactorsNonzero(f, ReachedScales(x, d, config, sqrt));
    ConvertedShape(x, d, f, config, c);
    match s.reducedFactor
    case Direct(_, g) =>
      if c.matrix.grounding.Grounded? {
        RaisedNonnegative(x, d, f);
        GroundedHasGround(x.NLocal(), ScaledDiagonal(d, f), OffMass(x, f), config, c.matrix);
      }
    case Cover(_, _) =>
      forall z: Vec ensures !SignBalance(x.NRows(), x.NCols(), c.matrix.Block(), z) { NoBalance(x, d, f, config, c, z); }
  }

  lemma ConvertedShape(x: CrossTab, d: seq<real>, f: seq<real>, config: ScalingConfig, c: LocalComponent)
    requires ConvertedBy(x, d, f, config, c)
    ensures c.matrix.NEliminated() == x.NRows() && c.matrix.NKept() == x.NCols() && c.matrix.crossTab.NLocal() == x.NLocal()
    ensures Finalized(x.NLocal(), ScaledDiagonal(d, f), OffMass(x, f), config, c.matrix)
  {
    hide OffMass;
    hide SddmMatrix.Valid;
    FoldedBlockShape(x, d, f, config, c);
  }

  // ---- One domain --------------------------------------------------------------------------

  /** An assembled channel pair. */
  datatype AssembledPair = AssembledPair(rows: Channel, cols: Channel, columns: PairColumns, activeRows: seq<bool>, activeCols: seq<bool>,
                                         active: ActiveLevels, l2g: seq<nat>, crossTab: CrossTab, rowDiag: seq<real>, colDiag: seq<real>) {
    function Diagonal(): seq<real> { rowDiag + colDiag }
  }

  ghost predicate PairSound(d: Design, scale: Option<seq<real>>, q: AssembledPair) {
    && Accounted(d, scale, q.rows, q.cols, q.columns, q.activeRows, q.activeCols, q.active, q.l2g)
    && q.crossTab.Valid() && Accumulated(q.columns, q.active, q.crossTab.c, q.rowDiag, q.colDiag)
  }

  /** A component of the pair and the domain made of it. */
  ghost predicate CutFrom(q: AssembledPair, comp: BipartiteComponent, part: Part, cls: ComponentClass, config: ScalingConfig,
                          sqrt: real -> real, dom: LocalDomain, report: Option<UncertifiedScaling>) {
    && PartOf(q.crossTab, q.Diagonal(), q.l2g, comp, part) && IsClass(q.crossTab.Graph(), comp, q.crossTab.NRows())
    && DomainOf(part, cls, config, sqrt, dom, report)
  }

  /** Nothing is clamped or rounded away where a general component is taken as ungrounded. */
  ghost predicate KeptWhole(part: Part, cls: ComponentClass, config: ScalingConfig, sqrt: real -> real, dom: LocalDomain) {
    cls.General? && dom.component.matrix.grounding.Floating? && part.crossTab.Valid() && |part.diagonal| == |part.globals| == part.crossTab.NLocal() ==>
      var (z, d, g) := Orient(part.crossTab, part.diagonal, part.globals);
      z.Valid() && |d| == z.NLocal() && LosslessReached(z, d, config, sqrt)
  }

  ghost predicate LosslessReached(z: CrossTab, d: seq<real>, config: ScalingConfig, sqrt: real -> real)
    requires z.Valid() && |d| == z.NLocal()
  {
    var f := ReachedScales(z, d, config, sqrt);
    Lossless(z.NLocal(), ScaledDiagonal(d, f), OffMass(z, f), config)
  }

  lemma PairNonzero(d: Design, scale: Option<seq<real>>, q: AssembledPair)
    requires PairSound(d, scale, q)
    ensures q.crossTab.Valid() && q.crossTab.c.Nonzero()
  {
    hide Accounted;
    hide CrossTab.Valid;
    hide CsrBlock.Nonzero;
    hide CsrBlock.Entry;
  }

  /** What the domain's matrix has in common with its oriented part. */
  lemma DomainShape(part: Part, cls: ComponentClass, config: ScalingConfig, sqrt: real -> real, dom: LocalDomain, report: Option<UncertifiedScaling>,
                    s: BlockElimSolver)
    requires DomainOf(part, cls, config, sqrt, dom, report) && part.crossTab.c.Nonzero() && SolverOf(s, dom.component) && RoundoffNonnegative(config)
    ensures |dom.globals| == dom.component.matrix.crossTab.NLocal()
    ensures forall i :: 0 <= i < |dom.globals| ==> s.coordinates.Scale(dom.component.matrix.NEliminated(), i) != 0.0
    ensures Determined(s, dom.component.matrix)
  {
    hide CrossTab.Valid;
    hide CsrBlock.Nonzero;
    hide AreRowSums;
    hide Orient;
    hide Converted;
    hide SddmMatrix.Valid;
    hide RoundoffNonnegative;
    OrientReady(part);
    OrientedNonzero(part.crossTab, part.diagonal, part.globals);
    var (z, d, g) := Orient(part.crossTab, part.diagonal, part.globals);
    match cls
    case KnownLaplacian => AdoptedDetermined(s, dom.component);
    case General => GeneralShape(z, d, config, sqrt, dom.component, report, s);
  }

  lemma AdoptedDetermined(s: BlockElimSolver, c: LocalComponent)
    requires SolverOf(s, c) && c.form.Laplacian? && c.matrix.grounding.Floating?
    ensures Determined(s, c.matrix)
  {
    hide SignBalance;
    hide SddmMatrix.Valid;
  }

  lemma GeneralShape(z: CrossTab, d: seq<real>, config: ScalingConfig, sqrt: real -> real, c: LocalComponent, report: Option<UncertifiedScaling>, s: BlockElimSolver)
    requires Converted(z, d, config, sqrt, c, report) && z.c.Nonzero() && SolverOf(s, c) && RoundoffNonnegative(config)
    ensures c.matrix.crossTab.NLocal() == z.NLocal() && Determined(s, c.matrix)
    ensures forall i :: 0 <= i < z.NLocal() ==> s.coordinates.Scale(c.matrix.NEliminated(), i) != 0.0
  {
    hide CrossTab.Valid;
    hide CsrBlock.Nonzero;
    hide Undirected;
    hide SignsOf;
    hide Reports;
    hide OffMass;
    hide IsFolded;
    hide Finalized;
    hide Determined;
    hide ReachedScales;
    hide SddmMatrix.Valid;
    hide BuiltFrom;
    hide RoundoffNonnegative;
    var f :| ConvertedWith(z, d, f, config, sqrt, c, report);
    FactorsNonzero(f, ReachedScales(z, d, config, sqrt));
    ConvertedShape(z, d, f, config, c);
    GeneralDetermined(z, d, f, config, sqrt, c, report, s);
  }

  /** The domain runs: connected, determined, and scaled by nonzero factors. */
  lemma DomainRuns(d: Design, scale: Option<seq<real>>, q: AssembledPair, comp: BipartiteComponent, part: Part, cls: ComponentClass,
                   config: ScalingConfig, sqrt: real -> real, dom: LocalDomain, report: Option<UncertifiedScaling>, s: BlockElimSolver, e: SubdomainEntry)
    requires PairSound(d, scale, q) && CutFrom(q, comp, part, cls, config, sqrt, dom, report)
    requires SolverOf(s, dom.component) && EntryOf(e, d.nDofs, dom, s) && RoundoffNonnegative(config)
    ensures Running(d.nDofs, e, s, dom.component.matrix)
  {
    hide PairSound;
    hide PartOf;
    hide IsClass;
    hide DomainOf;
    hide Connected;
    hide Determined;
    hide BuiltFrom;
    hide SolvedBy;
    hide CrossTab.Valid;
    hide CsrBlock.Nonzero;
    hide RoundoffNonnegative;
    PairNonzero(d, scale, q);
    PartNonzero(q.crossTab, q.Diagonal(), q.l2g, comp, part);
    DomainConnected(q.crossTab, q.Diagonal(), q.l2g, comp, part, cls, config, sqrt, dom, report);
    DomainShape(part, cls, config, sqrt, dom, report, s);
  }

  // ---- What a floating domain was folded from ----------------------------------------------

  /** A floating general component kept whole represents its Gram matrix. */
  lemma GeneralRepresents(z: CrossTab, d: seq<real>, config: ScalingConfig, sqrt: real -> real, c: LocalComponent, report: Option<UncertifiedScaling>, s: BlockElimSolver)
    requires Converted(z, d, config, sqrt, c, report) && SolverOf(s, c) && z.Valid() && |d| == z.NLocal() && LosslessReached(z, d, config, sqrt)
    ensures Represents(Gram(z, d), s, c.matrix)
  {
    hide CrossTab.Valid;
    hide Undirected;
    hide SignsOf;
    hide Reports;
    hide OffMass;
    hide ConvertedBy;
    hide Lossless;
    hide Represents;
    hide ReachedScales;
    hide SddmMatrix.Valid;
    hide BuiltFrom;
    var f :| ConvertedWith(z, d, f, config, sqrt, c, report);
    var q, n := ReachedScales(z, d, config, sqrt), z.NLocal();
    FactorsNonzero(f, q);
    SameScaled(z, d, f, q);
    LosslessCong(n, ScaledDiagonal(d, q), OffMass(z, q), ScaledDiagonal(d, f), OffMass(z, f), config);
    ConvertedSolverRepresents(z, d, f, config, c, s);
  }

  /** A component adopted with its exact row sums represents its Gram matrix. */
  lemma AdoptedRepresents(z: CrossTab, d: seq<real>, c: LocalComponent, s: BlockElimSolver)
    requires AreRowSums(z, false, d) && AreRowSums(z, false, c.matrix.diagonal) && c.matrix.crossTab == z && z.Valid()
    requires c.coordinates.Canonical? && SolverOf(s, c)
    ensures Represents(Gram(z, d), s, c.matrix)
  {
    hide AreRowSums;
    hide SddmMatrix.Valid;
    hide Represents;
    hide CrossTab.Valid;
    hide BuiltFrom;
    AreSized(z, d);
    SameRowSums(z, d, c.matrix.diagonal);
    PlainRepresents(z, d, c.matrix, s);
  }

  /** An intercept pair's row sums are exact on every part. */
  lemma InterceptPart(d: Design, scale: Option<seq<real>>, q: AssembledPair, comp: BipartiteComponent, part: Part)
    requires PairSound(d, scale, q) && q.columns.rowLoad.None? && q.columns.colLoad.None?
    requires PartOf(q.crossTab, q.Diagonal(), q.l2g, comp, part) && IsClass(q.crossTab.Graph(), comp, q.crossTab.NRows())
    ensures part.crossTab.Valid() && |part.diagonal| == |part.globals| == part.crossTab.NLocal()
    ensures AreRowSums(part.crossTab, false, part.diagonal)
  {
    hide Accumulated;
    hide PartOf;
    hide IsClass;
    hide AreRowSums;
    hide CrossTab.Valid;
    hide CsrBlock.Nonzero;
    hide Numbered;
    PairFits(d, scale, q.rows, q.cols, q.columns, q.activeRows, q.activeCols, q.active, q.l2g);
    ActiveFits(d, q);
    InterceptPairIsExact(q.columns, q.active, q.crossTab, q.rowDiag, q.colDiag, (n, t) => 0.0);
    PartReady(q.crossTab, q.Diagonal(), q.l2g, comp, part);
    PartRowSums(q.crossTab, q.Diagonal(), q.l2g, comp, part);
  }

  lemma ActiveFits(d: Design, q: AssembledPair)
    requires InDesign(d, q.rows) && InDesign(d, q.cols) && Numbered(d, q.rows, q.cols, q.activeRows, q.activeCols, q.active, q.l2g)
    ensures q.active.Valid()
  {
    hide Places;
    hide Actives;
  }

  /** Only a pair of two constant columns is taken as a known Laplacian. */
  ghost predicate ClassFits(q: AssembledPair, cls: ComponentClass) {
    cls.KnownLaplacian? <==> q.columns.rowLoad.None? && q.columns.colLoad.None?
  }

  lemma DomainRepresents(d: Design, scale: Option<seq<real>>, q: AssembledPair, comp: BipartiteComponent, part: Part, cls: ComponentClass,
                         config: ScalingConfig, sqrt: real -> real, dom: LocalDomain, report: Option<UncertifiedScaling>, s: BlockElimSolver)
    requires PairSound(d, scale, q) && CutFrom(q, comp, part, cls, config, sqrt, dom, report) && ClassFits(q, cls)
    requires SolverOf(s, dom.component) && KeptWhole(part, cls, config, sqrt, dom) && dom.component.matrix.grounding.Floating?
    requires part.crossTab.Valid() && |part.diagonal| == |part.globals| == part.crossTab.NLocal()
    ensures var (z, dz, ids) := Orient(part.crossTab, part.diagonal, part.globals); |dz| == z.NLocal() && Represents(Gram(z, dz), s, dom.component.matrix)
  {
    hide PairSound;
    hide PartOf;
    hide IsClass;
    hide AreRowSums;
    hide CrossTab.Valid;
    hide LosslessReached;
    hide Converted;
    hide Represents;
    hide Gram;
    hide Orient;
    hide SddmMatrix.Valid;
    hide BuiltFrom;
    OrientReady(part);
    var (z, dz, ids) := Orient(part.crossTab, part.diagonal, part.globals);
    match cls
    case KnownLaplacian =>
      InterceptPart(d, scale, q, comp, part);
      AdoptedRepresents(z, dz, dom.component, s);
    case General => GeneralRepresents(z, dz, config, sqrt, dom.component, report, s);
  }

  /** A domain of an assembled pair serves the design, unless a general component taken as
      ungrounded lost something in its conversion. */
  lemma DomainServes(d: Design, scale: Option<seq<real>>, q: AssembledPair, comp: BipartiteComponent, part: Part, cls: ComponentClass,
                     config: ScalingConfig, sqrt: real -> real, dom: LocalDomain, report: Option<UncertifiedScaling>, s: BlockElimSolver, e: SubdomainEntry)
    requires PairSound(d, scale, q) && CutFrom(q, comp, part, cls, config, sqrt, dom, report) && ClassFits(q, cls)
    requires SolverOf(s, dom.component) && EntryOf(e, d.nDofs, dom, s) && RoundoffNonnegative(config)
    requires KeptWhole(part, cls, config, sqrt, dom)
    ensures Served(d, scale, e, s, dom.component.matrix)
  {
    hide Running;
    hide PartOf;
    hide IsClass;
    hide AreRowSums;
    hide CrossTab.Valid;
    hide Converted;
    hide Represents;
    hide LocalNormal;
    hide Gram;
    hide Orient;
    hide KeptWhole;
    hide Accounted;
    hide Accumulated;
    hide BuiltFrom;
    hide SolvedBy;
    hide RoundoffNonnegative;
    DomainRuns(d, scale, q, comp, part, cls, config, sqrt, dom, report, s, e);
    if s.reducedFactor.Gauge() == Some(Floating) {
      FloatingMatrix(s, dom.component.matrix);
      DomainRepresents(d, scale, q, comp, part, cls, config, sqrt, dom, report, s);
      var (z, dz, ids) := Orient(part.crossTab, part.diagonal, part.globals);
      DomainGramIsNormal(d, scale, q.rows, q.cols, q.columns, q.activeRows, q.activeCols, q.active, q.l2g, q.crossTab, q.rowDiag, q.colDiag,
                         comp, part, z, dz, ids);
      assert Represents(Gram(z, dz), s, dom.component.matrix) && LocalNormal(d, scale, Gram(z, dz), e.indices);
    }
  }

  lemma FloatingMatrix(s: BlockElimSolver, m: SddmMatrix)
    requires BuiltFrom(s, m) && s.reducedFactor.Gauge() == Some(Floating)
    ensures m.grounding.Floating?
  {
  }
}
