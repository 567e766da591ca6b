/** What the local solve of one subdomain answers, from the connected component it came from
    (crates/within/src/domain/factor_pairs.rs:94-152, crates/within/src/block_elim/solver.rs:444-467). */
module DomainAnswers {
  import opened Wrappers
  import opened Sums
  import opened Csr
  import opened CrossTabs
  import opened Transposition
  import opened Elimination
  import opened Sddm
  import opened FoldingSigns
  import opened DominanceScaling
  import opened AssembledSystems
  import opened Components
  import opened Connectivity
  import opened BlockElimSolver
  import opened SolveLocal
  import opened Convert
  import opened ConvertComponent
  import opened Build
  import opened LocalAnswers
  import opened SplitSubdomains
  import opened ReducedFactors

  /** The solver built for the domain of a reachability class solves the system it represents
      exactly for the right-hand sides the domain's matrix answers. */
  lemma DomainSolves(x: CrossTab, diagonal: seq<real>, l2g: seq<nat>, comp: BipartiteComponent, part: Part, cls: ComponentClass,
                     config: ScalingConfig, sqrt: real -> real, dom: LocalDomain, report: Option<UncertifiedScaling>,
                     a: Mat, s: BlockElimSolver, r: seq<real>, y: seq<real>, sol: seq<real>)
    requires PartOf(x, diagonal, l2g, comp, part) && IsClass(x.Graph(), comp, x.NRows()) && x.c.Nonzero()
    requires DomainOf(part, cls, config, sqrt, dom, report) && BuiltFrom(s, dom.component.matrix)
    requires Represents(a, s, dom.component.matrix) && SolvedLocally(s, dom.component.matrix, r, y, sol)
    ensures Solves(|r|, a, At(sol), At(r)) <==> Answerable(dom.component.matrix, FoldedRhs(s, dom.component.matrix, r))
  {
    hide PartOf;
    hide IsClass;
    hide CsrBlock.Nonzero;
    hide DomainOf;
    hide BuiltFrom;
    hide Represents;
    hide SolvedLocally;
    hide Solves;
    hide Answerable;
    hide Connected;
    DomainConnected(x, diagonal, l2g, comp, part, cls, config, sqrt, dom, report);
    SolvesIffAnswerable(a, s, dom.component.matrix, r, y, sol);
  }

  /** The transpose stores no zero either. */
  lemma TransposeNonzero(x: CrossTab)
    requires x.Valid() && x.c.Nonzero()
    ensures x.ct.Nonzero()
  {
    forall k, t | 0 <= k < x.ct.nrows && 0 <= t < |x.ct.Row(k)| ensures x.ct.Row(k)[t].1 != 0.0 {
      TransposedValue(x, k, t);
    }
  }

  lemma TransposedValue(x: CrossTab, k: nat, t: nat)
    requires x.Valid() && x.c.Nonzero() && k < x.NCols() && t < |x.ct.Row(k)|
    ensures x.ct.Row(k)[t].1 != 0.0
  {
    var (i, v) := x.ct.Row(k)[t];
    assert InRange(x.ct.Row(k), x.NRows());
    assert Stores(x.ct.Row(k), i, v);
    assert Stores(x.c.Row(i), k, v);
  }

  lemma OrientedNonzero(x: CrossTab, d: seq<real>, globals: seq<nat>)
    requires x.Valid() && x.c.Nonzero() && |d| == |globals| == x.NLocal()
    ensures Orient(x, d, globals).0.Valid() && Orient(x, d, globals).0.c.Nonzero()
  {
    hide CsrBlock.Nonzero;
    hide IsTranspose;
    if x.NRows() < x.NCols() {
      SwappedValid(x);
      TransposeNonzero(x);
    }
  }

  lemma LoadCong(n: nat, sigma: seq<real>, f: seq<real>, g: seq<real>, r: seq<real>)
    requires FactorsOf(f, g) && n <= |f|
    ensures Sum(n, SignedLoad(sigma, f, r)) == Sum(n, SignedLoad(sigma, g, r))
  {
    forall i | 0 <= i < n ensures SignedLoad(sigma, f, r)(i) == SignedLoad(sigma, g, r)(i) {
      assert At(f)(i) == f[i] && At(g)(i) == g[i] && (f[i] == g[i] || f[i] == -g[i]);
      assert Abs(At(f)(i)) == Abs(At(g)(i));
    }
    SumCong(n, SignedLoad(sigma, f, r), SignedLoad(sigma, g, r));
  }

  lemma SameSignatures(x: CrossTab, f: seq<real>, g: seq<real>, r: seq<real>)
    requires x.Valid() && Undirected(x.Graph()) && FactorsOf(f, g) && |f| == x.NLocal()
    ensures OrthogonalToSignatures(x, f, r) <==> OrthogonalToSignatures(x, g, r)
  {
    hide FactorsOf;
    hide SignedLoad;
    hide Signature;
    hide Sum;
    hide Undirected;
    forall sigma ensures Sum(x.NLocal(), SignedLoad(sigma, f, r)) == Sum(x.NLocal(), SignedLoad(sigma, g, r)) { LoadCong(x.NLocal(), sigma, f, g, r); }
  }

  lemma StrictCong(n: nat, d: Vec, s: Vec, d': Vec, s': Vec)
    requires forall i :: 0 <= i < n ==> d(i) == d'(i) && s(i) == s'(i)
    ensures StrictlyDominant(n, d, s) <==> StrictlyDominant(n, d', s')
  {
    if i :| 0 <= i < n && s(i) < d(i) { assert s'(i) < d'(i); }
    if i :| 0 <= i < n && s'(i) < d'(i) { assert s(i) < d(i); }
  }

  /** A component converted generally, under the scaling the relaxation reaches: without loss,
      its signed Gram system is solved exactly when some scaled row is strictly dominant or the
      right-hand side, weighted by the scales, is orthogonal to every signature. */
  lemma ConvertedAnswersGram(z: CrossTab, d: seq<real>, config: ScalingConfig, sqrt: real -> real, c: LocalComponent,
                             report: Option<UncertifiedScaling>, s: BlockElimSolver, r: seq<real>, y: seq<real>, sol: seq<real>)
    requires Converted(z, d, config, sqrt, c, report) && z.Valid() && |d| == z.NLocal() && z.c.Nonzero() && Undirected(z.Graph())
    requires Connected(z.NRows(), z.NCols(), MatrixOf(z.c))
    requires BuiltFrom(s, c.matrix) && s.coordinates == c.coordinates && SolvedLocally(s, c.matrix, r, y, sol)
    requires var q := ReachedScales(z, d, config, sqrt); Lossless(z.NLocal(), ScaledDiagonal(d, q), OffMass(z, q), config)
    ensures var q := ReachedScales(z, d, config, sqrt);
      Solves(|r|, Gram(z, d), At(sol), At(r)) <==>
      StrictlyDominant(z.NLocal(), ScaledDiagonal(d, q), OffMass(z, q)) || OrthogonalToSignatures(z, q, r)
  {
    hide Connected;
    hide CsrBlock.Nonzero;
    hide ConvertedBy;
    hide Lossless;
    hide SolvedLocally;
    hide BuiltFrom;
    hide SignsOf;
    hide Reports;
    hide Undirected;
    hide StrictlyDominant;
    hide OrthogonalToSignatures;
    hide ReachedScales;
    hide OffMass;
    hide FactorsOf;
    var f :| ConvertedWith(z, d, f, config, sqrt, c, report);
    var q, n := ReachedScales(z, d, config, sqrt), z.NLocal();
    FactorsNonzero(f, q);
    SameScaled(z, d, f, q);
    LosslessCong(n, ScaledDiagonal(d, q), OffMass(z, q), ScaledDiagonal(d, f), OffMass(z, f), config);
    StrictCong(n, ScaledDiagonal(d, q), OffMass(z, q), ScaledDiagonal(d, f), OffMass(z, f));
    SameSignatures(z, f, q, r);
    LocalSolveAnswersGram(z, d, f, config, c, s, r, y, sol);
  }

  lemma IsUndirected(z: CrossTab, d: seq<real>, config: ScalingConfig, sqrt: real -> real, c: LocalComponent, report: Option<UncertifiedScaling>)
    requires Converted(z, d, config, sqrt, c, report)
    ensures z.Valid() && |d| == z.NLocal() && Undirected(z.Graph())
  {
    hide ConvertedBy;
    hide Undirected;
    hide SignsOf;
    hide Reports;
    hide FactorsOf;
  }

  /** Extract, orient, convert, build and solve together, from a reachability class. */
  lemma DomainAnswersGram(x: CrossTab, diagonal: seq<real>, l2g: seq<nat>, comp: BipartiteComponent, part: Part, config: ScalingConfig,
                          sqrt: real -> real, dom: LocalDomain, report: Option<UncertifiedScaling>,
                          z: CrossTab, d: seq<real>, globals: seq<nat>,
                          s: BlockElimSolver, r: seq<real>, y: seq<real>, sol: seq<real>)
    requires PartOf(x, diagonal, l2g, comp, part) && IsClass(x.Graph(), comp, x.NRows()) && x.c.Nonzero()
    requires DomainOf(part, General, config, sqrt, dom, report)
    requires (z, d, globals) == Orient(part.crossTab, part.diagonal, part.globals) && z.Valid() && |d| == z.NLocal()
    requires var q := ReachedScales(z, d, config, sqrt); Lossless(z.NLocal(), ScaledDiagonal(d, q), OffMass(z, q), config)
    requires BuiltFrom(s, dom.component.matrix) && s.coordinates == dom.component.coordinates && SolvedLocally(s, dom.component.matrix, r, y, sol)
    ensures Undirected(z.Graph())
    ensures var q := ReachedScales(z, d, config, sqrt);
      Solves(|r|, Gram(z, d), At(sol), At(r)) <==>
      StrictlyDominant(z.NLocal(), ScaledDiagonal(d, q), OffMass(z, q)) || OrthogonalToSignatures(z, q, r)
  {
    hide Connected;
    hide CsrBlock.Nonzero;
    hide IsClass;
    hide Orient;
    hide PartOf;
    hide Converted;
    hide Lossless;
    hide SolvedLocally;
    hide BuiltFrom;
    hide Undirected;
    hide StrictlyDominant;
    hide OrthogonalToSignatures;
    hide ReachedScales;
    hide OffMass;
    PartConnected(x, diagonal, l2g, comp, part);
    PartNonzero(x, diagonal, l2g, comp, part);
    OrientedConnected(part.crossTab, part.diagonal, part.globals);
    OrientedNonzero(part.crossTab, part.diagonal, part.globals);
    IsUndirected(z, d, config, sqrt, dom.component, report);
    ConvertedAnswersGram(z, d, config, sqrt, dom.component, report, s, r, y, sol);
  }

  // ---- Intercept pairs ---------------------------------------------------------------------

  lemma CanonicalSum(e: nat, n: nat, r: seq<real>)
    requires |r| == e + n
    ensures Sum(e + n, At(FoldedVec(Canonical, e, r))) == Sum(e, At(r)) - Sum(n, Tail(e, At(r)))
  {
    hide Sum;
    var f := At(FoldedVec(Canonical, e, r));
    forall i | 0 <= i < e ensures f(i) == At(r)(i) {}
    forall j | 0 <= j < n ensures Tail(e, f)(j) == -1.0 * Tail(e, At(r))(j) {}
    SumSplit(e, n, f, Tail(e, f));
    SumCong(e, f, At(r));
    SumScale(n, -1.0, Tail(e, At(r)), Tail(e, f));
  }

  /** An exact intercept pair's component, extracted, oriented, adopted, built and solved: its
      Gram system is solved exactly when the right-hand side has one total over the rows and
      over the columns. */
  lemma ExactDomainAnswersGram(x: CrossTab, diagonal: seq<real>, l2g: seq<nat>, comp: BipartiteComponent, part: Part, config: ScalingConfig,
                               sqrt: real -> real, dom: LocalDomain, report: Option<UncertifiedScaling>,
                               z: CrossTab, d: seq<real>, globals: seq<nat>,
                               s: BlockElimSolver, r: seq<real>, y: seq<real>, sol: seq<real>)
    requires PartOf(x, diagonal, l2g, comp, part) && IsClass(x.Graph(), comp, x.NRows()) && x.c.Nonzero() && AreRowSums(x, false, diagonal)
    requires DomainOf(part, KnownLaplacian, config, sqrt, dom, report)
    requires (z, d, globals) == Orient(part.crossTab, part.diagonal, part.globals) && z.Valid()
    requires BuiltFrom(s, dom.component.matrix) && s.coordinates == dom.component.coordinates && s.reducedFactor.Direct?
    requires SolvedLocally(s, dom.component.matrix, r, y, sol)
    ensures |r| == z.NLocal() && dom.component.matrix.diagonal == d
    ensures Solves(|r|, Gram(z, d), At(sol), At(r)) <==> Sum(z.NRows(), At(r)) == Sum(z.NCols(), Tail(z.NRows(), At(r)))
  {
    hide Connected;
    hide CsrBlock.Nonzero;
    hide IsClass;
    hide Orient;
    hide PartOf;
    hide AreRowSums;
    hide SddmMatrix.Valid;
    hide CrossTab.Valid;
    hide Represents;
    hide SddmSolvable;
    hide SolvesSddm;
    hide Solves;
    hide Sum;
    hide Gram;
    hide FoldedVec;
    var m := dom.component.matrix;
    DomainConnected(x, diagonal, l2g, comp, part, KnownLaplacian, config, sqrt, dom, report);
    PartRowSums(x, diagonal, l2g, comp, part);
    OrientReady(part);
    AreSized(z, d);
    SameRowSums(z, d, m.diagonal);
    PlainRepresents(z, d, m, s);
    FloatingSolvesIffBalanced(Gram(z, d), s, m, r, y, sol);
    Shaped(z);
    CanonicalSum(z.NRows(), z.NCols(), r);
  }

  lemma PartNonzero(x: CrossTab, diagonal: seq<real>, l2g: seq<nat>, comp: BipartiteComponent, part: Part)
    requires PartOf(x, diagonal, l2g, comp, part) && x.c.Nonzero()
    ensures part.crossTab.c.Nonzero()
  {
    hide CsrBlock.Nonzero;
    PartExtracted(x, diagonal, l2g, comp, part);
  }

  lemma FactorsNonzero(f: seq<real>, scales: seq<real>)
    requires FactorsOf(f, scales)
    ensures AllNonzero(f) && |f| == |scales|
  {
  }
}
