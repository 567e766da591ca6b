/** A coefficient with an empty column: no preconditioned gradient touches it, so the solver leaves
    it exactly zero (crates/within/src/domain/factor_pairs.rs:94-114, crates/within/src/operator/schwarz.rs:89-103, 214-224,
    crates/within/src/solver/reparam.rs:43-47, crates/schwarz-precond/src/schwarz/preconditioner.rs:82-90). */
module ZeroColumns {
  import opened Wrappers
  import opened Sums
  import opened Vectors
  import opened Csr
  import opened CrossTabs
  import opened Transposition
  import opened Elimination
  import opened AssembledSystems
  import opened FoldingSigns
  import opened DominanceScaling
  import opened Components
  import opened Extraction
  import opened BlockElimSolver
  import opened Convert
  import opened ConvertComponent
  import opened SplitSubdomains
  import opened DomainAnswers
  import opened Accumulation
  import opened Subdomains
  import opened PartitionOfUnity
  import opened Bidiagonal
  import opened Attainables
  import opened DesignOperator
  import opened DesignSystem
  import opened PairGrams
  import opened DomainGrams
  import opened SchwarzOperators
  import opened SchwarzDesigns
  import opened ServedDomains
  import opened BuiltDomains
  import opened DomainBuilds
  import opened DiagonalPreconditioners

  // ---- No preconditioner, and the diagonal one ---------------------------------------------

  /** The system touches no coefficient whose column is empty. */
  ghost predicate LeavesEmpty(d: Design, scale: Option<seq<real>>, sys: System) {
    forall j: nat :: j < d.nDofs && EmptyColumn(d, scale, j) ==> Untouched(sys, j)
  }

  function Unchanged(): seq<real> -> seq<real> { x => x }

  /** The weighted design without a preconditioner. */
  ghost function PlainSystem(d: Design, scale: Option<seq<real>>): System { SystemOf(d, scale, Unchanged()) }

  lemma PlainOperators(d: Design, scale: Option<seq<real>>)
    ensures Operators(PlainSystem(d, scale))
  {
    hide Inner;
    hide Operators;
    hide Matrix;
    var sys := PlainSystem(d, scale);
    forall a, x, b, y | |x| == d.nDofs && |y| == d.nDofs ensures LinearAt(Unchanged(), d.nDofs, a, x, b, y) {}
    forall x, y | |x| == sys.n && |y| == sys.n ensures SymmetricAt(sys, x, y) {}
    forall x | |x| == sys.n ensures NonnegativeAt(sys, x) { SelfNonneg(x); }
    DesignOperators(d, scale, Unchanged());
  }

  lemma GradientEntry(d: Design, scale: Option<seq<real>>, precond: seq<real> -> seq<real>, u: seq<real>, j: nat)
    requires |u| == d.nObs && j < d.nDofs
    ensures var g := SystemOf(d, scale, precond).adjoint(u); |g| == d.nDofs && g[j] == Gradient(d, scale, At(u))(j)
  {
    hide Matrix;
    hide Dot;
  }

  lemma PlainLeavesEmpty(d: Design, scale: Option<seq<real>>)
    ensures LeavesEmpty(d, scale, PlainSystem(d, scale))
  {
    hide Matrix;
    hide Gradient;
    hide EmptyColumn;
    var sys := PlainSystem(d, scale);
    forall j: nat | j < d.nDofs && EmptyColumn(d, scale, j) ensures Untouched(sys, j) {
      forall u | |u| == sys.m ensures UntouchedAt(sys, j, u) {
        GradientEntry(d, scale, Unchanged(), u, j);
        EmptyGradient(d, scale, At(u), j);
      }
    }
  }

  lemma DiagonalLeavesEmpty(d: Design, scale: Option<seq<real>>, inv: seq<real>)
    requires InverseDiagonal(d, scale, inv)
    ensures LeavesEmpty(d, scale, DiagonalSystem(d, scale, inv))
  {
    hide Matrix;
    hide Gradient;
    hide EmptyColumn;
    hide Normal;
    var sys := DiagonalSystem(d, scale, inv);
    forall j: nat | j < d.nDofs && EmptyColumn(d, scale, j) ensures Untouched(sys, j) {
      EmptyNormal(d, scale, j);
      assert PseudoInverse(inv[j], Normal(d, scale)(j, j));
      forall u | |u| == sys.m ensures UntouchedAt(sys, j, u) {
        var g := sys.adjoint(u);
        assert |g| == d.nDofs && sys.precond(g)[j] == inv[j] * g[j];
      }
    }
  }

  // ---- The Schwarz preconditioner ----------------------------------------------------------

  lemma {:induction false} NotAmong(adds: seq<(nat, real)>, j: int)
    requires forall t :: 0 <= t < |adds| ==> adds[t].0 != j
    ensures AddedAt(adds, j) == 0.0
  {
    if adds != [] { NotAmong(adds[1..], j); }
  }

  lemma UncoveredPlan(entries: seq<SubdomainEntry>, r: seq<real>, j: nat, k: nat)
    requires SoundEntries(entries, |r|) && !Covered(entries, j) && k < |entries|
    ensures PlannedAt(Plans(entries, r)[k], j) == 0.0
  {
    hide LocalOperator;
    var e := entries[k];
    PlanIsAdds(e, r);
    var adds := e.Adds(Solution(e, r));
    forall t | 0 <= t < |adds| ensures adds[t].0 != j {
      assert adds[t].0 == e.indices[t];
      assert e.indices[t] == j ==> Holds(e, j);
    }
    NotAmong(adds, j);
  }

  /** An uncovered coefficient stays in the null space. */
  lemma UncoveredZero(entries: seq<SubdomainEntry>, r: seq<real>, j: nat)
    requires SoundEntries(entries, |r|) && !Covered(entries, j) && j < |r|
    ensures SchwarzApply(entries, r)[j] == 0.0
  {
    hide Sum;
    hide LocalOperator;
    hide Covered;
    hide PlannedAt;
    var plans := Plans(entries, r);
    var f: int -> real := s => if 0 <= s < |plans| then PlannedAt(plans[s], j) else 0.0;
    forall k | 0 <= k < |entries| ensures f(k) == 0.0 { UncoveredPlan(entries, r, j, k); }
    SumZero(|entries|, f);
    SumCong(|plans|, s => if 0 <= s < |plans| then PlannedAt(plans[s], j) else 0.0, f);
    assert SchwarzApply(entries, r)[j] == SchwarzSum(plans, j);
  }

  lemma UncoveredUntouched(d: Design, scale: Option<seq<real>>, entries: seq<SubdomainEntry>, j: nat)
    requires SoundEntries(entries, d.nDofs) && !Covered(entries, j) && j < d.nDofs
    ensures Untouched(SchwarzSystem(d, scale, entries), j)
  {
    hide SoundEntries;
    hide Covered;
    hide Matrix;
    hide Dot;
    var sys := SchwarzSystem(d, scale, entries);
    forall u | |u| == sys.m ensures UntouchedAt(sys, j, u) { UncoveredZero(entries, sys.adjoint(u), j); }
  }

  // ---- Empty columns are in no domain ------------------------------------------------------

  /** A node whose column is empty meets no other node. */
  lemma EmptyNode(d: Design, scale: Option<seq<real>>, q: AssembledPair, t: nat, u: nat)
    requires PairSound(d, scale, q) && t < q.crossTab.NLocal() == |q.l2g| && u < q.crossTab.NLocal() && EmptyColumn(d, scale, q.l2g[t])
    ensures Gram(q.crossTab, q.Diagonal())(t, u) == 0.0
  {
    hide Matrix;
    hide Dot;
    hide Gram;
    hide Accounted;
    hide Accumulated;
    hide CrossTab.Valid;
    PairGramIsNormal(d, scale, q.rows, q.cols, q.columns, q.activeRows, q.activeCols, q.active, q.l2g, q.crossTab, q.rowDiag, q.colDiag, t, u);
    var m := Matrix(d, scale);
    DotZero(d.nObs, ColOf(m, q.l2g[t]), ColOf(m, q.l2g[u]));
  }

  /** A stored entry is not zero. */
  lemma StoredNonzero(c: CsrBlock, i: nat)
    requires c.Sorted() && c.Nonzero() && i < c.nrows && c.Row(i) != []
    ensures c.Row(i)[0].0 < c.ncols && c.Entry(i, c.Row(i)[0].0) != 0.0
  {
    CoefStored(c.Row(i), 0);
    assert NoZeros(c.Row(i));
  }

  /** A node with an edge meets some node with a weight that is not zero. */
  lemma EdgeMeets(x: CrossTab, d: seq<real>, t: nat) returns (u: nat)
    requires x.Valid() && x.c.Nonzero() && |d| == x.NLocal() && t < x.NLocal() && x.Graph()[t] != []
    ensures u < x.NLocal() && Gram(x, d)(t, u) != 0.0
  {
    hide CsrBlock.Entry;
    hide CsrBlock.Nonzero;
    hide Gram;
    Shaped(x);
    assert x.Graph()[t] == x.Neighbors(t);
    if t < x.NRows() {
      StoredNonzero(x.c, t);
      u := x.NRows() + x.c.Row(t)[0].0;
    } else {
      var k := t - x.NRows();
      TransposeNonzero(x);
      StoredNonzero(x.ct, k);
      u := x.ct.Row(k)[0].0;
      TransposeEntry(x.c, x.ct, u, k);
    }
    GramAt(x, d, t, u);
  }

  lemma EmptyIsolated(d: Design, scale: Option<seq<real>>, q: AssembledPair, t: nat)
    requires PairSound(d, scale, q) && t < q.crossTab.NLocal() == |q.l2g| && EmptyColumn(d, scale, q.l2g[t])
    ensures q.crossTab.Valid() && |q.Diagonal()| == q.crossTab.NLocal() && q.crossTab.Graph()[t] == [] && q.Diagonal()[t] == 0.0
  {
    hide EmptyColumn;
    hide Gram;
    hide Accounted;
    hide Accumulated;
    hide CrossTab.Valid;
    hide CsrBlock.Nonzero;
    PairNonzero(d, scale, q);
    AccumulatedSized(q);
    Shaped(q.crossTab);
    EmptyNode(d, scale, q, t, t);
    GramAt(q.crossTab, q.Diagonal(), t, t);
    if q.crossTab.Graph()[t] != [] {
      var u := EdgeMeets(q.crossTab, q.Diagonal(), t);
      EmptyNode(d, scale, q, t, u);
    }
  }

  /** A node of a class of more than one has an edge. */
  lemma SharedHasEdge(g: seq<Row>, comp: BipartiteComponent, nRows: nat, i: nat, k: nat)
    requires IsClass(g, comp, nRows) && comp.Has(nRows, i) && comp.Has(nRows, k) && i < |g| && k < |g| && k != i
    ensures g[i] != []
  {
    hide BipartiteComponent.Has;
    assert Reach(g, i, k);
    var n: nat :| ReachIn(g, i, k, n);
    var m: nat :| Linked(g, i, m) && ReachIn(g, m, k, n - 1);
  }

  /** A component with an empty column is dead. */
  lemma EmptyIsDead(d: Design, scale: Option<seq<real>>, q: AssembledPair, comp: BipartiteComponent, part: Part, b: nat)
    requires PairSound(d, scale, q) && PartOf(q.crossTab, q.Diagonal(), q.l2g, comp, part) && b < |part.globals|
    requires IsClass(q.crossTab.Graph(), comp, q.crossTab.NRows()) && EmptyColumn(d, scale, part.globals[b])
    ensures AllZero(part.diagonal)
  {
    hide EmptyColumn;
    hide PairSound;
    hide IsClass;
    hide Extracted;
    hide CrossTab.Valid;
    hide BipartiteComponent.Has;
    var x, ids := q.crossTab, Locals(comp, q.crossTab.NRows());
    PartRows(x, q.Diagonal(), q.l2g, comp, part);
    EmptyIsolated(d, scale, q, ids[b]);
    Shaped(x);
    forall t | 0 <= t < |part.diagonal| ensures part.diagonal[t] == 0.0 {
      LocalIsMember(comp, x.NRows(), b);
      LocalIsMember(comp, x.NRows(), t);
      if ids[t] != ids[b] { SharedHasEdge(x.Graph(), comp, x.NRows(), ids[b], ids[t]); }
    }
  }

  lemma PartRows(x: CrossTab, diagonal: seq<real>, l2g: seq<nat>, comp: BipartiteComponent, part: Part)
    requires PartOf(x, diagonal, l2g, comp, part)
    ensures forall r :: 0 <= r < |comp.rows| ==> comp.rows[r] < x.NRows()
  {
    hide CsrBlock.Entry;
    hide CsrBlock.Nonzero;
    hide CsrBlock.Nonnegative;
    hide CrossTab.Valid;
  }

  /** No domain of a pair has a coefficient whose column is empty. */
  lemma EmptyInNoDomain(d: Design, scale: Option<seq<real>>, config: ScalingConfig, sqrt: real -> real, w: PairSplit, u: nat, i: nat)
    requires SplitSound(d, scale, config, sqrt, w) && u < |w.domains| && i < |w.domains[u].globals|
    ensures !EmptyColumn(d, scale, w.domains[u].globals[i])
  {
    hide SplitSound;
    hide PairSound;
    hide EmptyColumn;
    hide PartOf;
    hide IsClass;
    hide DomainOf;
    hide AllZero;
    DomainCut(d, scale, config, sqrt, w, u);
    DomainAlive(d, scale, config, sqrt, w, u);
    var a := w.alive[u];
    var b := IdOfPart(w.parts[a], w.cls, config, sqrt, w.domains[u], w.reports[u], i);
    if EmptyColumn(d, scale, w.domains[u].globals[i]) { EmptyIsDead(d, scale, w.pair, w.comps[a], w.parts[a], b); }
  }

  lemma DomainAlive(d: Design, scale: Option<seq<real>>, config: ScalingConfig, sqrt: real -> real, w: PairSplit, u: nat)
    requires SplitSound(d, scale, config, sqrt, w) && u < |w.domains|
    ensures |w.alive| == |w.domains| && w.alive[u] < |w.parts| && !AllZero(w.parts[w.alive[u]].diagonal)
  {
    hide CutSound;
    hide DomainOf;
    hide AllZero;
    assert w.alive[u] in w.alive;
  }

  lemma EmptyUncovered(d: Design, scale: Option<seq<real>>, config: ScalingConfig, sqrt: real -> real, splits: seq<PairSplit>,
                       weights: seq<PartitionWeights>, entries: seq<SubdomainEntry>, solvers: seq<BlockElimSolver>, j: nat)
    requires Prepared(d, scale, config, sqrt, splits, weights, entries, solvers) && EmptyColumn(d, scale, j)
    ensures !Covered(entries, j)
  {
    hide Prepared;
    hide SplitSound;
    hide EmptyColumn;
    hide SolverOf;
    hide SolvedBy;
    hide SubdomainEntry.Valid;
    hide PositiveWeights;
    if Covered(entries, j) {
      var k :| 0 <= k < |entries| && Holds(entries[k], j);
      var i :| 0 <= i < |entries[k].indices| && entries[k].indices[i] == j;
      var t, u := EntryAt(d, scale, config, sqrt, splits, weights, entries, solvers, k);
      EmptyInNoDomain(d, scale, config, sqrt, splits[t], u, i);
    }
  }

  lemma SchwarzLeavesEmpty(d: Design, scale: Option<seq<real>>, config: ScalingConfig, sqrt: real -> real, splits: seq<PairSplit>,
                           weights: seq<PartitionWeights>, entries: seq<SubdomainEntry>, solvers: seq<BlockElimSolver>)
    requires Prepared(d, scale, config, sqrt, splits, weights, entries, solvers) && RoundoffNonnegative(config)
    ensures LeavesEmpty(d, scale, SchwarzSystem(d, scale, entries))
  {
    hide Prepared;
    hide Untouched;
    hide EmptyColumn;
    hide RunningDomains;
    hide SoundEntries;
    hide Operators;
    hide RoundoffNonnegative;
    hide Covered;
    BuiltRun(d, scale, config, sqrt, splits, weights, entries, solvers);
    SchwarzSystemOperators(d, scale, entries);
    forall j: nat | j < d.nDofs && EmptyColumn(d, scale, j) ensures Untouched(SchwarzSystem(d, scale, entries), j) {
      EmptyUncovered(d, scale, config, sqrt, splits, weights, entries, solvers, j);
      UncoveredUntouched(d, scale, entries, j);
    }
  }

  // ---- The iterate -------------------------------------------------------------------------

  /** What the solver returns is zero at every empty column. */
  lemma EmptyStaysZero(d: Design, scale: Option<seq<real>>, sys: System, x: seq<real>, j: nat)
    requires LeavesEmpty(d, scale, sys) && sys.n == d.nDofs && Attainable(sys, x) && j < d.nDofs && EmptyColumn(d, scale, j)
    ensures |x| == d.nDofs && x[j] == 0.0
  {
    hide Attainable;
    hide EmptyColumn;
    hide Untouched;
    AttainableSized(sys, x);
    UntouchedStaysZero(sys, x, j);
  }

  lemma AttainableSized(sys: System, x: seq<real>)
    requires Attainable(sys, x)
    ensures |x| == sys.n
  {
  }
}
