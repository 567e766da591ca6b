/** The Gram matrix behind one subdomain is the submatrix of the normal matrix `D^T W D` at the
    subdomain's coefficients, so whatever it sends to zero no gradient of the design meets
    (crates/within/src/domain/factor_pairs.rs:94-152). */
module DomainGrams {
  import opened Wrappers
  import opened Sums
  import opened Csr
  import opened CrossTabs
  import opened Transposition
  import opened Elimination
  import opened Fredholm
  import opened AssembledSystems
  import opened Components
  import opened Extraction
  import opened ClassConnectivity
  import opened Sddm
  import opened Convert
  import opened Build
  import opened SplitSubdomains
  import opened Accumulation
  import opened DesignOperator
  import opened PairGrams

  ghost predicate NormalAt(d: Design, scale: Option<seq<real>>, a: Mat, ids: seq<nat>, t: int, u: int)
    requires 0 <= t < |ids| && 0 <= u < |ids|
  {
    a(t, u) == Normal(d, scale)(ids[t], ids[u])
  }

  /** `a` is the normal matrix at the coefficients `ids`. */
  ghost predicate LocalNormal(d: Design, scale: Option<seq<real>>, a: Mat, ids: seq<nat>) {
    forall t, u :: 0 <= t < |ids| && 0 <= u < |ids| ==> NormalAt(d, scale, a, ids, t, u)
  }

  // ---- Extraction --------------------------------------------------------------------------

  lemma LocalsInjective(comp: BipartiteComponent, x: CrossTab, t: nat, u: nat)
    requires Fits(comp, x) && t < |Locals(comp, x.NRows())| && u < |Locals(comp, x.NRows())| && t != u
    ensures Locals(comp, x.NRows())[t] != Locals(comp, x.NRows())[u]
  {
    NodeInjective(comp, x, t, u);
  }

  lemma GramAt(x: CrossTab, d: seq<real>, i: nat, j: nat)
    requires |d| == x.NLocal() && i < |d| && j < |d|
    ensures Gram(x, d)(i, j) ==
            if i == j then d[i]
            else if i < x.NRows() && j >= x.NRows() then x.c.Entry(i, j - x.NRows())
            else if i >= x.NRows() && j < x.NRows() then x.c.Entry(j, i - x.NRows())
            else 0.0
  {
    hide CsrBlock.Entry;
  }

  lemma PartSizes(x: CrossTab, diagonal: seq<real>, l2g: seq<nat>, comp: BipartiteComponent, part: Part, t: nat)
    requires PartOf(x, diagonal, l2g, comp, part) && t < part.crossTab.NLocal()
    ensures var (ids, y) := (Locals(comp, x.NRows()), part.crossTab);
      && |ids| == |part.diagonal| == |part.globals| == y.NLocal() && |diagonal| == |l2g| == x.NLocal() && ids[t] < |l2g|
      && y.NRows() == |comp.rows| && y.NCols() == |comp.cols| && Fits(comp, x)
      && part.diagonal[t] == diagonal[ids[t]] && part.globals[t] == l2g[ids[t]]
      && (if t < y.NRows() then ids[t] == comp.rows[t] < x.NRows() else ids[t] == x.NRows() + comp.cols[t - y.NRows()])
  {
    hide CsrBlock.Entry;
    hide CsrBlock.Nonzero;
    hide CsrBlock.Nonnegative;
    hide CrossTab.Valid;
  }

  lemma PartEntry(x: CrossTab, diagonal: seq<real>, l2g: seq<nat>, comp: BipartiteComponent, part: Part, a: nat, b: nat)
    requires PartOf(x, diagonal, l2g, comp, part) && a < |comp.rows| && b < |comp.cols|
    ensures part.crossTab.c.Entry(a, b) == x.c.Entry(comp.rows[a], comp.cols[b])
  {
    hide CsrBlock.Entry;
    hide CsrBlock.Nonzero;
    hide CsrBlock.Nonnegative;
    hide CrossTab.Valid;
    hide Locals;
    hide Gather;
  }

  /** Extraction keeps the Gram matrix. */
  lemma PartGram(x: CrossTab, diagonal: seq<real>, l2g: seq<nat>, comp: BipartiteComponent, part: Part, t: nat, u: nat)
    requires PartOf(x, diagonal, l2g, comp, part) && t < part.crossTab.NLocal() && u < part.crossTab.NLocal()
    ensures var ids := Locals(comp, x.NRows());
      && |ids| == |part.diagonal| == |part.globals| == part.crossTab.NLocal() && ids[t] < |l2g| && ids[u] < |l2g|
      && Gram(part.crossTab, part.diagonal)(t, u) == Gram(x, diagonal)(ids[t], ids[u])
      && part.globals[t] == l2g[ids[t]]
  {
    hide PartOf;
    hide Gram;
    hide Fits;
    hide Locals;
    hide CsrBlock.Entry;
    var ids, y := Locals(comp, x.NRows()), part.crossTab;
    PartSizes(x, diagonal, l2g, comp, part, t);
    PartSizes(x, diagonal, l2g, comp, part, u);
    GramAt(y, part.diagonal, t, u);
    GramAt(x, diagonal, ids[t], ids[u]);
    if t != u { LocalsInjective(comp, x, t, u); }
    if t < y.NRows() && u >= y.NRows() { PartEntry(x, diagonal, l2g, comp, part, t, u - y.NRows()); }
    if t >= y.NRows() && u < y.NRows() { PartEntry(x, diagonal, l2g, comp, part, u, t - y.NRows()); }
  }

  lemma OriginBound(x: CrossTab, i: nat)
    requires i < x.NLocal()
    ensures Origin(x, i) < x.NLocal()
  {
  }

  /** Extracted and oriented, the component's Gram matrix is the normal matrix at its coefficients. */
  lemma DomainGramIsNormal(d: Design, scale: Option<seq<real>>, rows: Channel, cols: Channel, p: PairColumns, activeRows: seq<bool>,
                           activeCols: seq<bool>, active: ActiveLevels, l2g: seq<nat>,
                           x: CrossTab, rowDiag: seq<real>, colDiag: seq<real>, comp: BipartiteComponent, part: Part,
                           z: CrossTab, dz: seq<real>, ids: seq<nat>)
    requires Accounted(d, scale, rows, cols, p, activeRows, activeCols, active, l2g)
    requires x.Valid() && Accumulated(p, active, x.c, rowDiag, colDiag) && PartOf(x, rowDiag + colDiag, l2g, comp, part)
    requires part.crossTab.Valid() && |part.diagonal| == |part.globals| == part.crossTab.NLocal()
    requires (z, dz, ids) == Orient(part.crossTab, part.diagonal, part.globals)
    ensures |ids| == |dz| == z.NLocal() && LocalNormal(d, scale, Gram(z, dz), ids)
  {
    hide Accounted;
    hide Accumulated;
    hide PartOf;
    hide Gram;
    hide Orient;
    hide Origin;
    hide Locals;
    hide Normal;
    hide CrossTab.Valid;
    var y, own := part.crossTab, Locals(comp, x.NRows());
    OrientReady(part);
    OrientSized(part);
    forall t, u | 0 <= t < |ids| && 0 <= u < |ids| ensures NormalAt(d, scale, Gram(z, dz), ids, t, u) {
      OrientedSameGram(y, part.diagonal, part.globals, t, u);
      OrientedSameGram(y, part.diagonal, part.globals, u, t);
      var (i, j) := (Origin(y, t), Origin(y, u));
      OriginBound(y, t);
      OriginBound(y, u);
      PartGram(x, rowDiag + colDiag, l2g, comp, part, i, j);
      PartGram(x, rowDiag + colDiag, l2g, comp, part, j, i);
      PartWhole(x, rowDiag + colDiag, l2g, comp, part);
      PairGramIsNormal(d, scale, rows, cols, p, activeRows, activeCols, active, l2g, x, rowDiag, colDiag, own[i], own[j]);
    }
  }

  lemma OrientSized(part: Part)
    requires part.crossTab.Valid() && |part.diagonal| == |part.globals| == part.crossTab.NLocal()
    ensures var (z, dz, ids) := Orient(part.crossTab, part.diagonal, part.globals);
      |ids| == |dz| == z.NLocal() == part.crossTab.NLocal()
  {
    hide IsTranspose;
    Shaped(part.crossTab);
  }

  lemma PartWhole(x: CrossTab, diagonal: seq<real>, l2g: seq<nat>, comp: BipartiteComponent, part: Part)
    requires PartOf(x, diagonal, l2g, comp, part)
    ensures |diagonal| == |l2g| == x.NLocal()
  {
  }
}
