/** All domains of a design: every channel pair assembled and split, and every coefficient with a
    nonempty column held by some domain
    (crates/within/src/domain/factor_pairs.rs:42-92, crates/within/src/domain/cross_tab.rs:25-38, 138-161). */
module BuiltDomains {
  import opened Wrappers
  import opened Sums
  import opened Vectors
  import opened Csr
  import opened CrossTabs
  import opened Transposition
  import opened Elimination
  import opened AssembledSystems
  import opened Sddm
  import opened FoldingSigns
  import opened DominanceScaling
  import opened Components
  import opened Extraction
  import opened Connectivity
  import opened BlockElimSolver
  import opened SolveLocal
  import opened Convert
  import opened ConvertComponent
  import opened Build
  import opened SplitSubdomains
  import opened Accumulation
  import opened PairAssembly
  import opened Subdomains
  import opened PartitionOfUnity
  import opened DesignOperator
  import opened PairGrams
  import opened DomainGrams
  import opened SchwarzDesigns
  import opened ServedDomains

  // ---- One pair ----------------------------------------------------------------------------

  /** An assembled pair, its components and the domains made of them. */
  datatype PairSplit = PairSplit(pair: AssembledPair, cls: ComponentClass, comps: seq<BipartiteComponent>, parts: seq<Part>,
                                 alive: seq<nat>, domains: seq<LocalDomain>, reports: seq<Option<UncertifiedScaling>>)

  /** The pair cut into its components. */
  ghost predicate CutSound(d: Design, scale: Option<seq<real>>, w: PairSplit) {
    && PairSound(d, scale, w.pair) && ClassFits(w.pair, w.cls)
    && Partition(w.pair.crossTab.Graph(), w.comps, w.pair.crossTab.NRows()) && |w.parts| == |w.comps|
    && forall k :: 0 <= k < |w.parts| ==> PartOf(w.pair.crossTab, w.pair.Diagonal(), w.pair.l2g, w.comps[k], w.parts[k])
  }

  /** And one domain for each component that is not dead. */
  ghost predicate SplitSound(d: Design, scale: Option<seq<real>>, config: ScalingConfig, sqrt: real -> real, w: PairSplit) {
    && CutSound(d, scale, w)
    && Survivors(w.parts, |w.parts|, w.alive) && DomainsOf(w.parts, w.cls, config, sqrt, w.domains, w.reports, w.alive)
  }

  lemma DomainCut(d: Design, scale: Option<seq<real>>, config: ScalingConfig, sqrt: real -> real, w: PairSplit, u: nat)
    requires SplitSound(d, scale, config, sqrt, w) && u < |w.domains|
    ensures |w.alive| == |w.domains| == |w.reports| && w.alive[u] < |w.parts| == |w.comps|
    ensures PairSound(d, scale, w.pair) && ClassFits(w.pair, w.cls)
    ensures CutFrom(w.pair, w.comps[w.alive[u]], w.parts[w.alive[u]], w.cls, config, sqrt, w.domains[u], w.reports[u])
  {
    hide PairSound;
    hide ClassFits;
    hide Partition;
    hide PartOf;
    hide DomainOf;
    hide IsClass;
    hide CrossTab.Valid;
    PairNonzero(d, scale, w.pair);
    PartitionClass(w, w.alive[u]);
  }

  lemma PartitionClass(w: PairSplit, a: nat)
    requires w.pair.crossTab.Valid() && Partition(w.pair.crossTab.Graph(), w.comps, w.pair.crossTab.NRows()) && a < |w.comps|
    ensures IsClass(w.pair.crossTab.Graph(), w.comps[a], w.pair.crossTab.NRows())
  {
    hide IsClass;
    hide Held;
  }

  // ---- A node with a nonempty column -------------------------------------------------------

  /** The node's diagonal entry is the energy of its column. */
  lemma DiagonalIsEnergy(d: Design, scale: Option<seq<real>>, q: AssembledPair, t: nat)
    requires PairSound(d, scale, q) && t < q.crossTab.NLocal()
    ensures |q.l2g| == |q.Diagonal()| == q.crossTab.NLocal()
    ensures var c := ColOf(Matrix(d, scale), q.l2g[t]); q.Diagonal()[t] == Dot(d.nObs, c, c)
  {
    hide Matrix;
    hide Gram;
    hide Dot;
    hide Accounted;
    hide Accumulated;
    hide CrossTab.Valid;
    PairGramIsNormal(d, scale, q.rows, q.cols, q.columns, q.activeRows, q.activeCols, q.active, q.l2g, q.crossTab, q.rowDiag, q.colDiag, t, t);
    AccumulatedSized(q);
    GramAt(q.crossTab, q.Diagonal(), t, t);
  }

  lemma AccumulatedSized(q: AssembledPair)
    requires q.crossTab.Valid() && Accumulated(q.columns, q.active, q.crossTab.c, q.rowDiag, q.colDiag)
    ensures |q.Diagonal()| == q.crossTab.NLocal()
  {
    hide Sum;
    hide CsrBlock.Entry;
    hide CsrBlock.Nonzero;
    hide CsrBlock.Sorted;
    hide IsTranspose;
    Shaped(q.crossTab);
  }

  lemma NonemptyDiagonal(d: Design, scale: Option<seq<real>>, q: AssembledPair, t: nat, i: nat)
    requires PairSound(d, scale, q) && t < q.crossTab.NLocal() && |q.l2g| == |q.Diagonal()| == q.crossTab.NLocal()
    requires i < d.nObs && Matrix(d, scale)(i, q.l2g[t]) != 0.0
    ensures q.Diagonal()[t] != 0.0
  {
    hide Matrix;
    hide Dot;
    hide PairSound;
    DiagonalIsEnergy(d, scale, q, t);
    if q.Diagonal()[t] == 0.0 { SquaresVanish(d.nObs, ColOf(Matrix(d, scale), q.l2g[t]), i); }
  }

  // ---- From the node to its domain ---------------------------------------------------------

  /** A node's place in its component. */
  lemma PlaceInPart(x: CrossTab, diagonal: seq<real>, l2g: seq<nat>, comp: BipartiteComponent, part: Part, t: nat) returns (b: nat)
    requires PartOf(x, diagonal, l2g, comp, part) && comp.Has(x.NRows(), t) && t < x.NLocal()
    ensures |l2g| == |diagonal| == x.NLocal() && b < |part.diagonal| == |part.globals|
    ensures part.diagonal[b] == diagonal[t] && part.globals[b] == l2g[t]
  {
    hide CrossTab.Valid;
    hide Extracted;
    if t < x.NRows() {
      b :| 0 <= b < |comp.rows| && comp.rows[b] == t;
    } else {
      var k :| 0 <= k < |comp.cols| && comp.cols[k] == t - x.NRows();
      b := |comp.rows| + k;
    }
    assert Locals(comp, x.NRows())[b] == t;
  }

  /** Orientation keeps the ids. */
  lemma OrientKeepsIds(x: CrossTab, d: seq<real>, globals: seq<nat>, b: nat) returns (k: nat)
    requires x.Valid() && |d| == |globals| == x.NLocal() && b < |globals|
    ensures k < |Orient(x, d, globals).2| && Orient(x, d, globals).2[k] == globals[b]
  {
    hide CrossTab.Valid;
    k := if x.NCols() <= x.NRows() then b else if b < x.NRows() then x.NCols() + b else b - x.NRows();
  }

  ghost predicate AmongIds(dom: LocalDomain, j: int) { exists k :: 0 <= k < |dom.globals| && dom.globals[k] == j }

  /** A node whose diagonal is not zero is in some domain. */
  lemma NodeHeld(d: Design, scale: Option<seq<real>>, config: ScalingConfig, sqrt: real -> real, w: PairSplit, t: nat) returns (u: nat)
    requires SplitSound(d, scale, config, sqrt, w) && t < w.pair.crossTab.NLocal()
    requires |w.pair.l2g| == |w.pair.Diagonal()| == w.pair.crossTab.NLocal() && w.pair.Diagonal()[t] != 0.0
    ensures u < |w.domains| && AmongIds(w.domains[u], w.pair.l2g[t])
  {
    hide PairSound;
    hide ClassFits;
    hide PartOf;
    hide DomainOf;
    hide IsClass;
    hide Orient;
    hide AmongIds;
    var x := w.pair.crossTab;
    PairNonzero(d, scale, w.pair);
    var a := Holder(w, t);
    var b := PlaceInPart(x, w.pair.Diagonal(), w.pair.l2g, w.comps[a], w.parts[a], t);
    assert !AllZero(w.parts[a].diagonal);
    assert a in w.alive;
    u :| 0 <= u < |w.alive| && w.alive[u] == a;
    DomainHolds(w.parts[a], w.cls, config, sqrt, w.domains[u], w.reports[u], b);
  }

  lemma Holder(w: PairSplit, t: nat) returns (a: nat)
    requires w.pair.crossTab.Valid() && Partition(w.pair.crossTab.Graph(), w.comps, w.pair.crossTab.NRows()) && t < w.pair.crossTab.NLocal()
    ensures a < |w.comps| && w.comps[a].Has(w.pair.crossTab.NRows(), t)
  {
    hide IsClass;
    hide CrossTab.Valid;
    GraphFits(w.pair.crossTab);
    assert Held(w.comps, w.pair.crossTab.NRows(), t);
    a :| 0 <= a < |w.comps| && w.comps[a].Has(w.pair.crossTab.NRows(), t);
  }

  lemma DomainHolds(part: Part, cls: ComponentClass, config: ScalingConfig, sqrt: real -> real, dom: LocalDomain, report: Option<UncertifiedScaling>, b: nat)
    requires DomainOf(part, cls, config, sqrt, dom, report) && b < |part.globals|
    ensures AmongIds(dom, part.globals[b])
  {
    hide Converted;
    hide AreRowSums;
    hide CrossTab.Valid;
    hide SddmMatrix.Valid;
    hide Orient;
    var k := OrientKeepsIds(part.crossTab, part.diagonal, part.globals, b);
  }

  // ---- From the column to the node ---------------------------------------------------------

  /** A level that occurs has a node in every pair its channel takes part in. */
  lemma OccurringNode(d: Design, scale: Option<seq<real>>, q: AssembledPair, ch: Channel, i: nat) returns (t: nat)
    requires PairSound(d, scale, q) && (ch == q.rows || ch == q.cols) && i < d.nObs
    ensures InDesign(d, ch) && t < q.crossTab.NLocal() == |q.l2g| && q.l2g[t] == Base(d, ch) + LevelOf(d, ch.term, i)
  {
    hide Places;
    hide Actives;
    hide Base;
    hide Accumulated;
    hide PairOf;
    hide CrossTab.Valid;
    PairInDesign(d, scale, q);
    PairSizes(q);
    assert OccursActive(d, q.rows, q.activeRows, i) && OccursActive(d, q.cols, q.activeCols, i);
    if ch == q.rows {
      PairGrams.Placed(q.activeRows, q.active.rowMap, LevelOf(d, ch.term, i));
      t := q.active.rowMap[LevelOf(d, ch.term, i)].value;
    } else {
      PairGrams.Placed(q.activeCols, q.active.colMap, LevelOf(d, ch.term, i));
      t := q.active.nRows + q.active.colMap[LevelOf(d, ch.term, i)].value;
    }
  }

  lemma PairInDesign(d: Design, scale: Option<seq<real>>, q: AssembledPair)
    requires PairSound(d, scale, q)
    ensures InDesign(d, q.rows) && InDesign(d, q.cols) && Numbered(d, q.rows, q.cols, q.activeRows, q.activeCols, q.active, q.l2g)
  {
    hide Numbered;
    hide Accumulated;
    hide CrossTab.Valid;
  }

  lemma PairSizes(q: AssembledPair)
    requires q.crossTab.Valid() && Accumulated(q.columns, q.active, q.crossTab.c, q.rowDiag, q.colDiag)
    ensures q.crossTab.NRows() == q.active.nRows && q.crossTab.NCols() == q.active.nCols
  {
    hide Sum;
    hide CsrBlock.Entry;
    hide CsrBlock.Nonzero;
    hide CsrBlock.Sorted;
    hide IsTranspose;
    Shaped(q.crossTab);
  }

  /** A coefficient whose column is not empty is in a domain of every pair its channel takes part in. */
  lemma ColumnHeld(d: Design, scale: Option<seq<real>>, config: ScalingConfig, sqrt: real -> real, w: PairSplit, ch: Channel, i: nat, j: nat) returns (u: nat)
    requires SplitSound(d, scale, config, sqrt, w) && (ch == w.pair.rows || ch == w.pair.cols) && InDesign(d, ch)
    requires i < d.nObs && j == Base(d, ch) + LevelOf(d, ch.term, i) && Matrix(d, scale)(i, j) != 0.0
    ensures u < |w.domains| && AmongIds(w.domains[u], j)
  {
    hide PairSound;
    hide Matrix;
    hide ClassFits;
    hide Partition;
    hide PartOf;
    hide DomainsOf;
    hide Survivors;
    hide AmongIds;
    hide Base;
    var t := OccurringNode(d, scale, w.pair, ch, i);
    DiagonalIsEnergy(d, scale, w.pair, t);
    NonemptyDiagonal(d, scale, w.pair, t, i);
    u := NodeHeld(d, scale, config, sqrt, w, t);
  }

  /** Every id of a domain is a coefficient of the design. */
  lemma DomainIds(d: Design, scale: Option<seq<real>>, config: ScalingConfig, sqrt: real -> real, w: PairSplit, u: nat, i: nat)
    requires SplitSound(d, scale, config, sqrt, w) && u < |w.domains| && i < |w.domains[u].globals|
    ensures w.domains[u].globals[i] < d.nDofs
  {
    hide SplitSound;
    hide PairSound;
    hide PartOf;
    hide IsClass;
    hide DomainOf;
    hide Base;
    DomainCut(d, scale, config, sqrt, w, u);
    var (q, part) := (w.pair, w.parts[w.alive[u]]);
    var b := IdOfPart(part, w.cls, config, sqrt, w.domains[u], w.reports[u], i);
    var t := NodeOfPart(q.crossTab, q.Diagonal(), q.l2g, w.comps[w.alive[u]], part, b);
    PairIds(d, scale, q, t);
  }

  lemma IdOfPart(part: Part, cls: ComponentClass, config: ScalingConfig, sqrt: real -> real, dom: LocalDomain, report: Option<UncertifiedScaling>, i: nat)
    returns (b: nat)
    requires DomainOf(part, cls, config, sqrt, dom, report) && i < |dom.globals|
    ensures b < |part.globals| && part.globals[b] == dom.globals[i]
  {
    hide Converted;
    hide AreRowSums;
    hide CrossTab.Valid;
    hide SddmMatrix.Valid;
    hide Gram;
    b := Origin(part.crossTab, i);
    OriginBound(part.crossTab, i);
    OrientedSameGram(part.crossTab, part.diagonal, part.globals, i, i);
  }

  lemma NodeOfPart(x: CrossTab, diagonal: seq<real>, l2g: seq<nat>, comp: BipartiteComponent, part: Part, b: nat) returns (t: nat)
    requires PartOf(x, diagonal, l2g, comp, part) && b < |part.globals|
    ensures t < x.NLocal() == |l2g| && part.globals[b] == l2g[t]
  {
    hide CrossTab.Valid;
    hide Extracted;
    t := Locals(comp, x.NRows())[b];
  }

  lemma PairIds(d: Design, scale: Option<seq<real>>, q: AssembledPair, t: nat)
    requires PairSound(d, scale, q) && t < q.crossTab.NLocal() == |q.l2g|
    ensures q.l2g[t] < d.nDofs
  {
    hide Base;
    hide Accumulated;
    hide Accounted;
    hide NodeLevel;
    PairSizes(q);
    NodeColumn(d, scale, q.rows, q.cols, q.columns, q.activeRows, q.activeCols, q.active, q.l2g, t);
    DofInBlock(d, NodeChannel(q.rows, q.cols, q.active.nRows, t), NodeLevel(q.activeRows, q.activeCols, q.active.nRows, t));
  }
}
