/** Splitting a pair's cross-tabulation into local subdomains
    (crates/within/src/domain/factor_pairs.rs:94-152). */
module SplitSubdomains {
  import opened Wrappers
  import opened Sums
  import opened Csr
  import opened Transposition
  import opened CrossTabs
  import opened Elimination
  import opened Sddm
  import opened FoldingSigns
  import opened DominanceScaling
  import opened Convert
  import opened ConvertComponent
  import opened Build
  import opened Components
  import opened Extraction
  import opened AssembledSystems
  import opened Connectivity
  import opened ClassConnectivity
  import opened LocalAnswers

  /** One component's share: its block, its flat diagonal and its global ids. */
  datatype Part = Part(crossTab: CrossTab, diagonal: seq<real>, globals: seq<nat>)

  /** Local ids of a component, rows first. */
  function Locals(comp: BipartiteComponent, nRows: nat): (ids: seq<nat>)
    ensures |ids| == |comp.rows| + |comp.cols|
  {
    comp.rows + seq(|comp.cols|, t requires 0 <= t < |comp.cols| => nRows + comp.cols[t])
  }

  function Gather<T>(values: seq<T>, ids: seq<nat>): (r: seq<T>)
    requires forall t :: 0 <= t < |ids| ==> ids[t] < |values|
    ensures |r| == |ids|
  {
    seq(|ids|, t requires 0 <= t < |ids| => values[ids[t]])
  }

  ghost predicate PartOf(x: CrossTab, diagonal: seq<real>, l2g: seq<nat>, comp: BipartiteComponent, part: Part) {
    && x.Valid() && |diagonal| == |l2g| == x.NLocal()
    && Extracted(x, comp, part.crossTab)
    && (forall t :: 0 <= t < |Locals(comp, x.NRows())| ==> Locals(comp, x.NRows())[t] < x.NLocal())
    && part.diagonal == Gather(diagonal, Locals(comp, x.NRows()))
    && part.globals == Gather(l2g, Locals(comp, x.NRows()))
  }

  lemma LocalsBound(x: CrossTab, comp: BipartiteComponent)
    requires Fits(comp, x)
    ensures forall t :: 0 <= t < |Locals(comp, x.NRows())| ==> Locals(comp, x.NRows())[t] < x.NLocal()
  {
  }

  /** A component of the graph lists rows and columns of the block. */
  lemma ComponentFits(x: CrossTab, comps: seq<BipartiteComponent>, a: nat)
    requires x.Valid() && Partition(x.Graph(), comps, x.NRows()) && a < |comps|
    ensures Fits(comps[a], x)
  {
    hide Reach;
    hide Undirected;
    var comp, n := comps[a], x.NRows();
    assert IsClass(x.Graph(), comp, n);
    forall t | 0 <= t < |comp.rows| ensures comp.rows[t] < n { assert comp.rows[t] in comps[a].rows; }
    forall t | 0 <= t < |comp.cols| ensures comp.cols[t] < x.NCols() {
      assert comp.Has(n, n + comp.cols[t]);
    }
  }

  // ---- A single component is the whole block -----------------------------------------------

  lemma {:induction false} AscendsAtLeast(s: seq<nat>, t: nat)
    requires Ascends(s) && t < |s|
    ensures s[t] >= t
  {
    if t > 0 { AscendsAtLeast(s, t - 1); }
  }

  /** A strictly ascending list of everything below `n` is the identity. */
  lemma AscendsAll(s: seq<nat>, n: nat)
    requires Ascends(s) && (forall t :: 0 <= t < |s| ==> s[t] < n) && forall i: nat :: i < n ==> i in s
    ensures |s| == n && forall t :: 0 <= t < n ==> s[t] == t
  {
    if |s| > 0 { AscendsAtLeast(s, |s| - 1); }
    forall t | 0 <= t < |s| ensures s[t] == t {
      AscendsPrefix(s, n, t);
    }
    if |s| < n { ListedBelow(s, |s|); }
  }

  lemma ListedBelow(s: seq<nat>, k: nat)
    requires k in s && forall t :: 0 <= t < |s| ==> s[t] == t
    ensures k < |s|
  {
  }

  lemma {:induction false} AscendsPrefix(s: seq<nat>, n: nat, t: nat)
    requires Ascends(s) && (forall i: nat :: i < n ==> i in s) && t < |s| && s[t] < n
    ensures s[t] == t
    decreases t
  {
    AscendsAtLeast(s, t);
    if s[t] != t {
      assert t in s;
      var u :| 0 <= u < |s| && s[u] == t;
      OrderOfIds(s, u, t);
      AscendsPrefix(s, n, u);
      assert false;
    }
  }

  /** With one component nothing is extracted; the block already is what extraction would give. */
  lemma WholeIsExtracted(x: CrossTab, comps: seq<BipartiteComponent>)
    requires x.Valid() && Partition(x.Graph(), comps, x.NRows()) && |comps| == 1
    ensures Extracted(x, comps[0], x)
    ensures Locals(comps[0], x.NRows()) == seq(x.NLocal(), i => i)
  {
    hide IsClass;
    hide Undirected;
    var comp, n := comps[0], x.NRows();
    ComponentFits(x, comps, 0);
    forall i: nat | i < x.NLocal() ensures comp.Has(n, i) {
      assert Held(comps, n, i);
    }
    forall i: nat | i < n ensures i in comp.rows { assert comp.Has(n, i); }
    forall j: nat | j < x.NCols() ensures j in comp.cols { assert comp.Has(n, n + j); }
    AscendsAll(comp.rows, n);
    AscendsAll(comp.cols, x.NCols());
  }

  // ---- The split ---------------------------------------------------------------------------

  /** The blocks, diagonals and ids of all components, before dead ones are dropped. */
  method ExtractAll(x: CrossTab, diagonal: seq<real>, l2g: seq<nat>) returns (parts: seq<Part>, comps: seq<BipartiteComponent>)
    requires x.Valid() && |diagonal| == |l2g| == x.NLocal()
    ensures Partition(x.Graph(), comps, x.NRows()) && |parts| == |comps|
    ensures forall k :: 0 <= k < |parts| ==> PartOf(x, diagonal, l2g, comps[k], parts[k])
  {
    hide Partition;
    hide Vacant;
    hide Extracted;
    hide Locals;
    comps := BipartiteConnectedComponents(x);
    if |comps| == 1 {
      WholeIsExtracted(x, comps);
      var ids := Locals(comps[0], x.NRows());
      parts := [Part(x, Gather(diagonal, ids), Gather(l2g, ids))];
      return;
    }
    var rowRemap := new Option<nat>[x.NRows()](_ => None);
    var colRemap := new Option<nat>[x.NCols()](_ => None);
    FreshVacant(rowRemap[..]);
    FreshVacant(colRemap[..]);
    parts := [];
    for k := 0 to |comps|
      invariant Vacant(rowRemap[..]) && Vacant(colRemap[..]) && |parts| == k
      invariant forall l :: 0 <= l < k ==> PartOf(x, diagonal, l2g, comps[l], parts[l])
    {
      ComponentFits(x, comps, k);
      LocalsBound(x, comps[k]);
      var y := ExtractComponent(x, comps[k], rowRemap, colRemap);
      var ids := Locals(comps[k], x.NRows());
      parts := parts + [Part(y, Gather(diagonal, ids), Gather(l2g, ids))];
    }
  }

  lemma FreshVacant(r: Remap)
    requires forall j :: 0 <= j < |r| ==> r[j] == None
    ensures Vacant(r)
  {
  }

  // ---- Nothing is lost between components --------------------------------------------------

  /** A nonzero entry is an edge of the graph. */
  lemma EntryLinks(x: CrossTab, i: nat, j: nat)
    requires x.Valid() && i < x.NRows() && j < x.NCols() && x.c.Entry(i, j) != 0.0
    ensures Linked(x.Graph(), i, x.NRows() + j) && Linked(x.Graph(), x.NRows() + j, i)
  {
    hide Undirected;
    hide IsTranspose;
    hide CrossTab.Valid;
    hide CrossTab.Graph;
    hide CsrBlock.Valid;
    hide CsrBlock.Entry;
    hide Linked;
    Shaped(x);
    GraphUndirected(x);
    EntryLeads(x, i, j);
    LinkedSymmetric(x.Graph(), i, x.NRows() + j);
  }

  lemma EntryLeads(x: CrossTab, i: nat, j: nat)
    requires x.Valid() && i < x.NRows() && j < x.NCols() && x.c.Entry(i, j) != 0.0
    ensures Linked(x.Graph(), i, x.NRows() + j)
  {
    hide Coef;
    hide IsTranspose;
    Shaped(x);
    var g, r, n := x.Graph(), x.c.Row(i), x.NRows();
    EntryStored(r, j);
    var t :| 0 <= t < |r| && r[t].0 == j && r[t].1 == Coef(r, j);
    RowInGraph(x, i);
    assert g[i][t] == (n + j, r[t].1);
  }

  /** Both ends of an edge belong to a class, or neither does. */
  lemma ClassKeepsEdge(g: seq<Row>, comp: BipartiteComponent, nRows: nat, i: nat, j: nat)
    requires IsClass(g, comp, nRows) && Linked(g, i, j) && Linked(g, j, i)
    ensures comp.Has(nRows, i) <==> comp.Has(nRows, j)
  {
    hide BipartiteComponent.Has;
    hide Reach;
    hide Linked;
    ReachSelf(g, i);
    ReachSelf(g, j);
    ReachExtends(g, i, i, j);
    ReachExtends(g, j, j, i);
  }

  /** Nonzero entries never cross components. */
  lemma EntryStaysInside(x: CrossTab, comp: BipartiteComponent, i: nat, j: nat)
    requires x.Valid() && IsClass(x.Graph(), comp, x.NRows()) && i < x.NRows() && j < x.NCols() && x.c.Entry(i, j) != 0.0
    ensures i in comp.rows <==> j in comp.cols
  {
    hide IsClass;
    hide Linked;
    hide Coef;
    EntryLinks(x, i, j);
    ClassKeepsEdge(x.Graph(), comp, x.NRows(), i, x.NRows() + j);
  }

  function Picked(f: Vec, ids: seq<nat>): Vec { b => if 0 <= b < |ids| then f(ids[b]) else 0.0 }

  /** Summing over the listed indices is summing over all, when the rest are zero. */
  lemma {:induction false} SumPicked(n: nat, f: Vec, ids: seq<nat>)
    requires Ascends(ids) && (forall t :: 0 <= t < |ids| ==> ids[t] < n) && forall i: nat :: i < n && i !in ids ==> f(i) == 0.0
    ensures Sum(|ids|, Picked(f, ids)) == Sum(n, f)
  {
    hide Sum;
    if n == 0 {
      SumZero(0, f);
      SumZero(0, Picked(f, ids));
    } else {
      SumStep(n - 1, f);
      var m := |ids| - 1;
      if |ids| > 0 && ids[m] == n - 1 {
        var q := ids[..m];
        forall i: nat | i < n - 1 && i !in q ensures f(i) == 0.0 { NotAdded(ids, i); }
        SumPicked(n - 1, f, q);
        SumCong(m, Picked(f, ids), Picked(f, q));
        SumStep(m, Picked(f, ids));
      } else {
        AllBelow(ids, n);
        SumPicked(n - 1, f, ids);
      }
    }
  }

  lemma NotAdded(ids: seq<nat>, i: nat)
    requires |ids| > 0 && i !in ids[..|ids| - 1] && i != ids[|ids| - 1]
    ensures i !in ids
  {
    assert ids == ids[..|ids| - 1] + [ids[|ids| - 1]];
  }

  lemma AllBelow(ids: seq<nat>, n: nat)
    requires Ascends(ids) && n > 0 && (forall t :: 0 <= t < |ids| ==> ids[t] < n) && (|ids| > 0 ==> ids[|ids| - 1] != n - 1)
    ensures n - 1 !in ids && forall t :: 0 <= t < |ids| ==> ids[t] < n - 1
  {
    forall t | 0 <= t < |ids| ensures ids[t] < n - 1 {
      if t < |ids| - 1 { assert ids[t] < ids[|ids| - 1]; }
    }
  }

  lemma PartRow(x: CrossTab, comp: BipartiteComponent, y: CrossTab, a: nat)
    requires x.Valid() && Extracted(x, comp, y) && IsClass(x.Graph(), comp, x.NRows()) && a < |comp.rows|
    ensures Sum(y.NCols(), RowOf(MatrixOf(y.c), a)) == Sum(x.NCols(), RowOf(MatrixOf(x.c), comp.rows[a]))
  {
    hide Sum;
    hide IsClass;
    hide Coef;
    hide IsTranspose;
    var i, f := comp.rows[a], RowOf(MatrixOf(x.c), comp.rows[a]);
    forall j: nat | j < x.NCols() && j !in comp.cols ensures f(j) == 0.0 {
      if x.c.Entry(i, j) != 0.0 { EntryStaysInside(x, comp, i, j); }
    }
    SumPicked(x.NCols(), f, comp.cols);
    SumCong(y.NCols(), Picked(f, comp.cols), RowOf(MatrixOf(y.c), a));
  }

  lemma PartCol(x: CrossTab, comp: BipartiteComponent, y: CrossTab, b: nat)
    requires x.Valid() && Extracted(x, comp, y) && IsClass(x.Graph(), comp, x.NRows()) && b < |comp.cols|
    ensures Sum(y.NRows(), ColOf(MatrixOf(y.c), b)) == Sum(x.NRows(), ColOf(MatrixOf(x.c), comp.cols[b]))
  {
    hide Sum;
    hide IsClass;
    hide Coef;
    hide IsTranspose;
    var j, f := comp.cols[b], ColOf(MatrixOf(x.c), comp.cols[b]);
    forall i: nat | i < x.NRows() && i !in comp.rows ensures f(i) == 0.0 {
      if x.c.Entry(i, j) != 0.0 { EntryStaysInside(x, comp, i, j); }
    }
    SumPicked(x.NRows(), f, comp.rows);
    SumCong(y.NRows(), Picked(f, comp.rows), ColOf(MatrixOf(y.c), b));
  }

  /** The plain row sums, without the magnitude switch. */
  lemma PlainSums(x: CrossTab, s: seq<real>)
    requires |s| == x.NLocal()
    ensures AreRowSums(x, false, s) <==>
            && (forall i :: 0 <= i < x.NRows() ==> At(s)(i) == Sum(x.NCols(), RowOf(MatrixOf(x.c), i)))
            && (forall j :: 0 <= j < x.NCols() ==> Tail(x.NRows(), At(s))(j) == Sum(x.NRows(), ColOf(MatrixOf(x.c), j)))
  {
    hide Sum;
    hide CsrBlock.Entry;
    var w, m := Weighed(x.c, false), MatrixOf(x.c);
    forall i | 0 <= i < x.NRows() ensures Sum(x.NCols(), RowOf(w, i)) == Sum(x.NCols(), RowOf(m, i)) { SumCong(x.NCols(), RowOf(w, i), RowOf(m, i)); }
    forall j | 0 <= j < x.NCols() ensures Sum(x.NRows(), ColOf(w, j)) == Sum(x.NRows(), ColOf(m, j)) { SumCong(x.NRows(), ColOf(w, j), ColOf(m, j)); }
  }

  lemma PartDiagonal(x: CrossTab, diagonal: seq<real>, l2g: seq<nat>, comp: BipartiteComponent, part: Part)
    requires PartOf(x, diagonal, l2g, comp, part)
    ensures |part.diagonal| == part.crossTab.NLocal() && part.crossTab.NRows() == |comp.rows| && part.crossTab.NCols() == |comp.cols|
    ensures forall a {:trigger comp.rows[a]} :: 0 <= a < |comp.rows| ==> comp.rows[a] < x.NRows() && At(part.diagonal)(a) == At(diagonal)(comp.rows[a])
    ensures forall b {:trigger comp.cols[b]} :: 0 <= b < |comp.cols| ==> comp.cols[b] < x.NCols() && Tail(|comp.rows|, At(part.diagonal))(b) == Tail(x.NRows(), At(diagonal))(comp.cols[b])
  {
    hide CrossTab.Valid;
    hide CsrBlock.Entry;
    hide CsrBlock.Nonzero;
    hide CsrBlock.Nonnegative;
  }

  lemma PartExtracted(x: CrossTab, diagonal: seq<real>, l2g: seq<nat>, comp: BipartiteComponent, part: Part)
    requires PartOf(x, diagonal, l2g, comp, part)
    ensures x.Valid() && |diagonal| == x.NLocal() && Extracted(x, comp, part.crossTab)
  {
  }

  /** Row sums survive extraction. */
  lemma PartRowSums(x: CrossTab, diagonal: seq<real>, l2g: seq<nat>, comp: BipartiteComponent, part: Part)
    requires PartOf(x, diagonal, l2g, comp, part) && IsClass(x.Graph(), comp, x.NRows()) && AreRowSums(x, false, diagonal)
    ensures AreRowSums(part.crossTab, false, part.diagonal)
  {
    hide Sum;
    hide IsClass;
    hide AreRowSums;
    hide CrossTab.Valid;
    hide CsrBlock.Entry;
    hide PartOf;
    hide Extracted;
    var y, d := part.crossTab, part.diagonal;
    PartExtracted(x, diagonal, l2g, comp, part);
    PartDiagonal(x, diagonal, l2g, comp, part);
    PlainSums(x, diagonal);
    PlainSums(y, d);
    forall a | 0 <= a < y.NRows() ensures At(d)(a) == Sum(y.NCols(), RowOf(MatrixOf(y.c), a)) {
      PartRow(x, comp, y, a);
      assert At(diagonal)(comp.rows[a]) == Sum(x.NCols(), RowOf(MatrixOf(x.c), comp.rows[a]));
    }
    forall b | 0 <= b < y.NCols() ensures Tail(y.NRows(), At(d))(b) == Sum(y.NRows(), ColOf(MatrixOf(y.c), b)) {
      PartCol(x, comp, y, b);
      assert Tail(x.NRows(), At(diagonal))(comp.cols[b]) == Sum(x.NRows(), ColOf(MatrixOf(x.c), comp.cols[b]));
    }
  }

  // ---- Surviving diagonals -----------------------------------------------------------------

  lemma StoredEntry(c: CsrBlock, i: nat, t: nat)
    requires c.Sorted() && c.Nonzero() && c.Nonnegative() && i < c.nrows && t < |c.Row(i)|
    ensures c.Entry(i, c.Row(i)[t].0) == c.Row(i)[t].1 > 0.0
  {
    CoefStored(c.Row(i), t);
    assert c.Row(i)[t].1 == c.data[c.indptr[i] + t];
    assert NoZeros(c.Row(i));
  }

  lemma NoEntries(c: CsrBlock, i: nat, j: nat)
    requires c.Valid() && i < c.nrows && c.Row(i) == []
    ensures c.Entry(i, j) == 0.0
  {
    CoefAbsent(c.Row(i), j);
  }

  /** A row's sum is positive exactly when the row stores something. */
  lemma RowDegree(x: CrossTab, i: nat)
    requires x.Valid() && x.c.Nonzero() && x.c.Nonnegative() && i < x.NRows()
    ensures var s := Sum(x.NCols(), RowOf(MatrixOf(x.c), i)); if x.c.Row(i) == [] then s == 0.0 else s > 0.0
  {
    hide Sum;
    hide CsrBlock.Entry;
    hide IsTranspose;
    var f, r := RowOf(MatrixOf(x.c), i), x.c.Row(i);
    forall j | 0 <= j < x.NCols() ensures f(j) >= 0.0 { NonnegativeEntry(x.c, i, j); }
    if r == [] {
      forall j: nat | j < x.NCols() ensures f(j) == 0.0 { NoEntries(x.c, i, j); }
      SumZero(x.NCols(), f);
    } else {
      StoredEntry(x.c, i, 0);
      SumBoundsTerm(x.NCols(), r[0].0, f);
    }
  }

  lemma TransposedRow(x: CrossTab, k: nat, t: nat)
    requires x.Valid() && x.c.Nonzero() && x.c.Nonnegative() && k < x.NCols() && t < |x.ct.Row(k)|
    ensures x.ct.Row(k)[t].0 < x.NRows() && x.c.Entry(x.ct.Row(k)[t].0, k) == x.ct.Row(k)[t].1 > 0.0
  {
    hide CsrBlock.Entry;
    var (i, v) := x.ct.Row(k)[t];
    assert InRange(x.ct.Row(k), x.NRows());
    assert Stores(x.ct.Row(k), i, v);
    assert Stores(x.c.Row(i), k, v);
    var u :| 0 <= u < |x.c.Row(i)| && x.c.Row(i)[u] == (k, v);
    StoredEntry(x.c, i, u);
  }

  lemma ColDegree(x: CrossTab, k: nat)
    requires x.Valid() && x.c.Nonzero() && x.c.Nonnegative() && k < x.NCols()
    ensures var s := Sum(x.NRows(), ColOf(MatrixOf(x.c), k)); if x.ct.Row(k) == [] then s == 0.0 else s > 0.0
  {
    hide Sum;
    hide CsrBlock.Entry;
    var f, r := ColOf(MatrixOf(x.c), k), x.ct.Row(k);
    forall i | 0 <= i < x.NRows() ensures f(i) >= 0.0 { NonnegativeEntry(x.c, i, k); }
    if r == [] {
      forall i: nat | i < x.NRows() ensures f(i) == 0.0 {
        TransposeEntry(x.c, x.ct, i, k);
        NoEntries(x.ct, k, i);
      }
      SumZero(x.NRows(), f);
    } else {
      TransposedRow(x, k, 0);
      SumBoundsTerm(x.NRows(), r[0].0, f);
    }
  }

  /** An exact diagonal is positive at nodes with an edge and zero at the others. */
  lemma NodeDegree(x: CrossTab, d: seq<real>, i: nat)
    requires x.Valid() && x.c.Nonzero() && x.c.Nonnegative() && AreRowSums(x, false, d) && i < x.NLocal()
    ensures if x.Graph()[i] == [] then d[i] == 0.0 else d[i] > 0.0
  {
    hide Sum;
    hide AreRowSums;
    hide IsTranspose;
    Shaped(x);
    AreSized(x, d);
    PlainSums(x, d);
    assert x.Graph()[i] == x.Neighbors(i);
    if i < x.NRows() {
      RowDegree(x, i);
      assert d[i] == At(d)(i);
    } else {
      ColDegree(x, i - x.NRows());
      assert d[i] == Tail(x.NRows(), At(d))(i - x.NRows());
    }
  }

  lemma AreSized(x: CrossTab, d: seq<real>)
    requires AreRowSums(x, false, d)
    ensures |d| == x.NLocal()
  {
  }

  /** In a class either no node has an edge or every node has one. */
  lemma ClassAlike(g: seq<Row>, comp: BipartiteComponent, nRows: nat, i: nat, k: nat)
    requires Undirected(g) && IsClass(g, comp, nRows) && comp.Has(nRows, i) && comp.Has(nRows, k) && i < |g| && k < |g| && g[i] != []
    ensures g[k] != []
  {
    hide Undirected;
    hide BipartiteComponent.Has;
    if k != i {
      assert Reach(g, k, i);
      var n: nat :| ReachIn(g, k, i, n);
      var m: nat :| Linked(g, k, m) && ReachIn(g, m, i, n - 1);
    }
  }

  lemma LocalIsMember(comp: BipartiteComponent, nRows: nat, t: nat)
    requires t < |Locals(comp, nRows)| && forall r :: 0 <= r < |comp.rows| ==> comp.rows[r] < nRows
    ensures comp.Has(nRows, Locals(comp, nRows)[t])
  {
  }

  predicate AllZero(d: seq<real>) { forall t :: 0 <= t < |d| ==> d[t] == 0.0 }

  ghost predicate AllPositive(d: seq<real>) { forall t :: 0 <= t < |d| ==> d[t] > 0.0 }

  /** A component that is not dead has a positive diagonal throughout: zero-weight and unused
      levels only ever appear as dead singletons. */
  lemma SurvivorsArePositive(x: CrossTab, diagonal: seq<real>, l2g: seq<nat>, comp: BipartiteComponent, part: Part)
    requires PartOf(x, diagonal, l2g, comp, part) && IsClass(x.Graph(), comp, x.NRows()) && AreRowSums(x, false, diagonal)
    requires x.c.Nonzero() && x.c.Nonnegative()
    ensures AllZero(part.diagonal) || AllPositive(part.diagonal)
  {
    hide IsClass;
    hide AreRowSums;
    hide CsrBlock.Entry;
    hide IsTranspose;
    Shaped(x);
    var g, n, ids := x.Graph(), x.NRows(), Locals(comp, x.NRows());
    if t :| 0 <= t < |ids| && part.diagonal[t] != 0.0 {
      NodeDegree(x, diagonal, ids[t]);
      GraphUndirected(x);
      forall u | 0 <= u < |ids| ensures part.diagonal[u] > 0.0 {
        LocalIsMember(comp, n, t);
        LocalIsMember(comp, n, u);
        ClassAlike(g, comp, n, ids[t], ids[u]);
        NodeDegree(x, diagonal, ids[u]);
      }
    }
  }

  // ---- Orientation and conversion ----------------------------------------------------------

  lemma {:induction false} OrientedSums(x: CrossTab, d: seq<real>)
    requires x.Valid() && AreRowSums(x, false, d)
    ensures AreRowSums(CrossTab(x.ct, x.c), false, RotateLeft(d, x.NRows()))
  {
    hide Sum;
    hide AreRowSums;
    hide CsrBlock.Entry;
    AreSized(x, d);
    var y, e := CrossTab(x.ct, x.c), RotateLeft(d, x.NRows());
    PlainSums(x, d);
    PlainSums(y, e);
    forall i | 0 <= i < y.NRows() ensures At(e)(i) == Sum(y.NCols(), RowOf(MatrixOf(y.c), i)) {
      forall j | 0 <= j < y.NCols() ensures RowOf(MatrixOf(y.c), i)(j) == ColOf(MatrixOf(x.c), i)(j) { TransposeEntry(x.c, x.ct, j, i); }
      SumCong(y.NCols(), RowOf(MatrixOf(y.c), i), ColOf(MatrixOf(x.c), i));
      assert At(e)(i) == Tail(x.NRows(), At(d))(i);
    }
    forall j | 0 <= j < y.NCols() ensures Tail(y.NRows(), At(e))(j) == Sum(y.NRows(), ColOf(MatrixOf(y.c), j)) {
      forall i | 0 <= i < y.NRows() ensures ColOf(MatrixOf(y.c), j)(i) == RowOf(MatrixOf(x.c), j)(i) { TransposeEntry(x.c, x.ct, j, i); }
      SumCong(y.NRows(), ColOf(MatrixOf(y.c), j), RowOf(MatrixOf(x.c), j));
      assert Tail(y.NRows(), At(e))(j) == At(d)(j);
    }
  }

  /** The transpose stores no negative weight either. */
  lemma TransposeNonnegative(x: CrossTab)
    requires x.Valid() && x.c.Nonnegative()
    ensures x.ct.Nonnegative()
  {
    forall p | 0 <= p < |x.ct.data| ensures x.ct.data[p] >= 0.0 {
      var k := HoldingRow(x.ct, p);
      var (i, v) := x.ct.Row(k)[p - x.ct.indptr[k]];
      assert Stores(x.ct.Row(k), i, v);
      assert Stores(x.c.Row(i), k, v);
      var u :| 0 <= u < |x.c.Row(i)| && x.c.Row(i)[u] == (k, v);
      assert x.c.data[x.c.indptr[i] + u] == v;
    }
  }

  datatype ComponentClass = KnownLaplacian | General

  datatype LocalDomain = LocalDomain(globals: seq<nat>, component: LocalComponent)

  /** What one surviving component becomes, and the warning it leaves. */
  ghost predicate DomainOf(part: Part, cls: ComponentClass, config: ScalingConfig, sqrt: real -> real, dom: LocalDomain, report: Option<UncertifiedScaling>) {
    && part.crossTab.Valid() && |part.diagonal| == |part.globals| == part.crossTab.NLocal()
    && var (y, d, g) := Orient(part.crossTab, part.diagonal, part.globals);
      && dom.globals == g
      && match cls
         case KnownLaplacian =>
           && dom.component.matrix.Valid() && dom.component.matrix.Unsigned() && dom.component.matrix.crossTab == y
           && dom.component.matrix.grounding.Floating? && dom.component.form.Laplacian? && dom.component.coordinates.Canonical?
           && AreRowSums(y, false, dom.component.matrix.diagonal) && report.None?
         case General => Converted(y, d, config, sqrt, dom.component, report)
  }

  /** The conversion refuses a component: a known Laplacian whose diagonal is too far from its
      row sums; otherwise a diagonal that is not positive, or in error mode a deficit beyond the
      tolerance under the scaling the relaxation reaches. */
  ghost predicate Refused(part: Part, cls: ComponentClass, config: ScalingConfig, budget: (nat, real) -> real, sqrt: real -> real) {
    && part.crossTab.Valid() && |part.diagonal| == |part.globals| == part.crossTab.NLocal()
    && var (y, d, g) := Orient(part.crossTab, part.diagonal, part.globals);
      match cls
      case KnownLaplacian => TooFar(y, d, budget)
      case General => y.Valid() && |d| == y.NLocal() && NotConvertible(y, d, config, sqrt)
  }

  /** The diagonal is further from the row sums than the validation budget. */
  ghost predicate TooFar(x: CrossTab, d: seq<real>, budget: (nat, real) -> real) {
    exists s :: AreRowSums(x, false, s) && |s| == |d| && Distance(d, s) > budget(x.NLocal(), Sum(x.NLocal(), At(d)))
  }

  /** The claim of a known Laplacian holds exactly, and the validation budget is not negative. */
  ghost predicate ExactLaplacian(x: CrossTab, diagonal: seq<real>, budget: (nat, real) -> real) {
    AreRowSums(x, false, diagonal) && x.c.Nonzero() && forall n: nat, t :: budget(n, t) >= 0.0
  }

  lemma PartReady(x: CrossTab, diagonal: seq<real>, l2g: seq<nat>, comp: BipartiteComponent, part: Part)
    requires PartOf(x, diagonal, l2g, comp, part)
    ensures part.crossTab.Valid() && |part.diagonal| == |part.globals| == part.crossTab.NLocal()
    ensures x.c.Nonnegative() ==> part.crossTab.c.Nonnegative()
  {
  }

  lemma RotatedPositive(d: seq<real>, k: nat)
    requires k <= |d|
    ensures AllPositive(d) ==> AllPositive(RotateLeft(d, k))
  {
  }

  lemma OrientReady(part: Part)
    requires part.crossTab.Valid() && |part.diagonal| == |part.globals| == part.crossTab.NLocal()
    ensures var (y, d, g) := Orient(part.crossTab, part.diagonal, part.globals);
      && y.Valid() && |d| == |g| == y.NLocal()
      && (part.crossTab.c.Nonnegative() ==> y.c.Nonnegative())
      && (AreRowSums(part.crossTab, false, part.diagonal) ==> AreRowSums(y, false, d))
      && (AllPositive(part.diagonal) ==> AllPositive(d))
  {
    hide AreRowSums;
    hide IsTranspose;
    hide CsrBlock.Nonnegative;
    var x := part.crossTab;
    if x.NRows() < x.NCols() {
      Shaped(x);
      SwappedValid(x);
      if x.c.Nonnegative() { TransposeNonnegative(x); }
      if AreRowSums(x, false, part.diagonal) { OrientedSums(x, part.diagonal); }
      RotatedPositive(part.diagonal, x.NRows());
    }
  }

  /** Orient one surviving component and convert it. */
  method ConvertPart(part: Part, cls: ComponentClass, config: ScalingConfig, budget: (nat, real) -> real, sqrt: real -> real)
    returns (r: Result<LocalDomain, NotScalable>, report: Option<UncertifiedScaling>)
    requires part.crossTab.Valid() && |part.diagonal| == |part.globals| == part.crossTab.NLocal()
    requires cls.KnownLaplacian? ==> part.crossTab.c.Nonnegative()
    requires config.tolerance >= 0.0 && IsSqrt(sqrt)
    ensures r.Ok? ==> DomainOf(part, cls, config, sqrt, r.value, report)
    ensures r.Err? <==> Refused(part, cls, config, budget, sqrt)
    ensures r.Err? ==> report.None?
    ensures cls.KnownLaplacian? && AreRowSums(part.crossTab, false, part.diagonal) && (forall n: nat, t :: budget(n, t) >= 0.0) ==>
              r.Ok? && r.value.component.matrix.diagonal == Orient(part.crossTab, part.diagonal, part.globals).1
  {
    hide AreRowSums;
    hide Converted;
    hide NotConvertible;
    hide Distance;
    hide CsrBlock.Nonnegative;
    hide CrossTab.Valid;
    hide Orient;
    hide TooFar;
    hide Sum;
    OrientReady(part);
    var (y, d, g) := Orient(part.crossTab, part.diagonal, part.globals);
    report := None;
    if cls.KnownLaplacian? {
      var c := ConvertKnownLaplacian(y, d, budget);
      RefusedClaim(y, d, budget);
      if c.Err? {
        return Err(c.error), None;
      }
      r := Ok(LocalDomain(g, c.value));
    } else {
      var c;
      c, report := ConvertGeneral(y, d, config, sqrt);
      if c.Err? {
        return Err(c.error), None;
      }
      r := Ok(LocalDomain(g, c.value));
    }
  }

  /** There are row sums, and only one list of them. */
  lemma RefusedClaim(x: CrossTab, d: seq<real>, budget: (nat, real) -> real)
    requires x.Valid() && |d| == x.NLocal()
    ensures exists s :: AreRowSums(x, false, s)
    ensures forall s :: AreRowSums(x, false, s) ==>
              |s| == |d| && (TooFar(x, d, budget) <==> Distance(d, s) > budget(x.NLocal(), Sum(x.NLocal(), At(d))))
  {
    hide AreRowSums;
    hide Distance;
    hide Sum;
    hide CrossTab.Valid;
    RowSumsExist(x);
    forall s | AreRowSums(x, false, s)
      ensures |s| == |d| && (TooFar(x, d, budget) <==> Distance(d, s) > budget(x.NLocal(), Sum(x.NLocal(), At(d))))
    {
      AreSized(x, s);
      if TooFar(x, d, budget) {
        var t :| AreRowSums(x, false, t) && |t| == |d| && Distance(d, t) > budget(x.NLocal(), Sum(x.NLocal(), At(d)));
        SameRowSums(x, t, s);
      }
    }
  }

  lemma RowSumsExist(x: CrossTab)
    ensures exists s :: AreRowSums(x, false, s)
  {
    hide Sum;
    var w := Weighed(x.c, false);
    var s := seq(x.NLocal(), i => if i < x.NRows() then Sum(x.NCols(), RowOf(w, i)) else Sum(x.NRows(), ColOf(w, i - x.NRows())));
    forall j | 0 <= j < x.NCols() ensures Tail(x.NRows(), At(s))(j) == Sum(x.NRows(), ColOf(w, j)) {
      assert s[x.NRows() + j] == Sum(x.NRows(), ColOf(w, j));
    }
    assert AreRowSums(x, false, s);
  }

  /** Indices of the components that are not dead, in order. */
  ghost predicate Survivors(parts: seq<Part>, n: nat, alive: seq<nat>) {
    && n <= |parts| && Ascends(alive) && (forall t :: 0 <= t < |alive| ==> alive[t] < n)
    && forall k: nat :: k < n ==> (k in alive <==> !AllZero(parts[k].diagonal))
  }

  lemma NextSurvivor(parts: seq<Part>, n: nat, alive: seq<nat>)
    requires Survivors(parts, n, alive) && n < |parts|
    ensures Survivors(parts, n + 1, if AllZero(parts[n].diagonal) then alive else alive + [n])
  {
    var next := if AllZero(parts[n].diagonal) then alive else alive + [n];
    forall k: nat | k < n + 1 ensures k in next <==> !AllZero(parts[k].diagonal) {}
  }

  /** One domain per surviving component, with its report. */
  ghost predicate DomainsOf(parts: seq<Part>, cls: ComponentClass, config: ScalingConfig, sqrt: real -> real, domains: seq<LocalDomain>, reports: seq<Option<UncertifiedScaling>>, alive: seq<nat>) {
    && |domains| == |alive| == |reports|
    && forall t :: 0 <= t < |alive| ==> alive[t] < |parts| && DomainOf(parts[alive[t]], cls, config, sqrt, domains[t], reports[t])
  }

  /** The warnings among the reports, in order. */
  function Given(reports: seq<Option<UncertifiedScaling>>): seq<UncertifiedScaling> {
    if reports == [] then []
    else
      var rest := Given(reports[..|reports| - 1]);
      match reports[|reports| - 1]
      case None => rest
      case Some(u) => rest + [u]
  }

  lemma GivenPush(reports: seq<Option<UncertifiedScaling>>, u: Option<UncertifiedScaling>)
    ensures Given(reports + [u]) == Given(reports) + if u.Some? then [u.value] else []
  {
    assert (reports + [u])[..|reports|] == reports;
  }

  /** Component `k` is alive and refused. */
  ghost predicate RefusedAt(parts: seq<Part>, cls: ComponentClass, config: ScalingConfig, budget: (nat, real) -> real, sqrt: real -> real, k: int)
    requires 0 <= k < |parts|
  {
    !AllZero(parts[k].diagonal) && Refused(parts[k], cls, config, budget, sqrt)
  }

  lemma DomainsPush(parts: seq<Part>, cls: ComponentClass, config: ScalingConfig, sqrt: real -> real, domains: seq<LocalDomain>,
                    reports: seq<Option<UncertifiedScaling>>, alive: seq<nat>, dom: LocalDomain, report: Option<UncertifiedScaling>, k: nat)
    requires DomainsOf(parts, cls, config, sqrt, domains, reports, alive) && k < |parts| && DomainOf(parts[k], cls, config, sqrt, dom, report)
    ensures DomainsOf(parts, cls, config, sqrt, domains + [dom], reports + [report], alive + [k])
  {
    hide DomainOf;
  }

  lemma NoDomains(parts: seq<Part>, cls: ComponentClass, config: ScalingConfig, sqrt: real -> real)
    ensures DomainsOf(parts, cls, config, sqrt, [], [], [])
  {
  }

  /** `split_into_subdomains`: the surviving components in order, oriented, converted and
      reported on. It fails exactly when the conversion refuses a surviving component. When the
      pair is an exact Laplacian nothing is rejected and every diagonal is positive. Without
      stored zeros every domain's matrix is connected. */
  method SplitIntoSubdomains(x: CrossTab, rowDiag: seq<real>, colDiag: seq<real>, l2g: seq<nat>, cls: ComponentClass,
                             config: ScalingConfig, budget: (nat, real) -> real, sqrt: real -> real)
    returns (r: Result<seq<LocalDomain>, NotScalable>, warnings: seq<UncertifiedScaling>, comps: seq<BipartiteComponent>,
             ghost parts: seq<Part>, ghost alive: seq<nat>, ghost reports: seq<Option<UncertifiedScaling>>)
    requires x.Valid() && |rowDiag| == x.NRows() && |colDiag| == x.NCols() && |l2g| == x.NLocal()
    requires cls.KnownLaplacian? ==> x.c.Nonnegative()
    requires config.tolerance >= 0.0 && IsSqrt(sqrt)
    ensures Partition(x.Graph(), comps, x.NRows()) && |parts| == |comps|
    ensures forall k :: 0 <= k < |parts| ==> PartOf(x, rowDiag + colDiag, l2g, comps[k], parts[k])
    ensures r.Err? <==> exists k :: 0 <= k < |parts| && RefusedAt(parts, cls, config, budget, sqrt, k)
    ensures r.Ok? ==> Survivors(parts, |parts|, alive) && DomainsOf(parts, cls, config, sqrt, r.value, reports, alive) && warnings == Given(reports)
    ensures r.Ok? && x.c.Nonzero() ==> forall t :: 0 <= t < |r.value| ==> ConnectedMatrix(r.value[t].component.matrix)
    ensures cls.KnownLaplacian? && ExactLaplacian(x, rowDiag + colDiag, budget) ==>
              r.Ok? && forall t :: 0 <= t < |r.value| ==> AllPositive(r.value[t].component.matrix.diagonal)
  {
    hide Partition;
    hide PartOf;
    hide DomainOf;
    hide DomainsOf;
    hide IsClass;
    hide Refused;
    hide AreRowSums;
    hide AllZero;
    hide AllPositive;
    hide Orient;
    hide Survivors;
    hide ConnectedMatrix;
    hide Given;
    hide CrossTab.Valid;
    hide CsrBlock.Nonzero;
    hide CsrBlock.Nonnegative;
    var diagonal := rowDiag + colDiag;
    var all;
    all, comps := ExtractAll(x, diagonal, l2g);
    parts, alive, reports := all, [], [];
    var domains := [];
    warnings := [];
    NoSurvivors(parts);
    NothingGiven();
    NoDomains(parts, cls, config, sqrt);
    for k := 0 to |all|
      invariant forall l :: 0 <= l < k ==> !RefusedAt(parts, cls, config, budget, sqrt, l)
      invariant Survivors(parts, k, alive) && DomainsOf(parts, cls, config, sqrt, domains, reports, alive) && warnings == Given(reports)
      invariant x.c.Nonzero() ==> forall t :: 0 <= t < |domains| ==> ConnectedMatrix(domains[t].component.matrix)
      invariant cls.KnownLaplacian? && ExactLaplacian(x, diagonal, budget) ==>
          forall t :: 0 <= t < |domains| ==> AllPositive(domains[t].component.matrix.diagonal)
    {
      var part := all[k];
      NextSurvivor(parts, k, alive);
      if AllZero(part.diagonal) {
        continue;
      }
      PartReady(x, diagonal, l2g, comps[k], part);
      var dom, report;
      dom, report := ConvertPart(part, cls, config, budget, sqrt);
      ClassOfPart(x, comps, k);
      if cls.KnownLaplacian? && ExactLaplacian(x, diagonal, budget) {
        PartRowSums(x, diagonal, l2g, comps[k], part);
        SurvivorsArePositive(x, diagonal, l2g, comps[k], part);
        OrientReady(part);
      }
      if dom.Err? {
        assert RefusedAt(parts, cls, config, budget, sqrt, k);
        return Err(dom.error), warnings, comps, parts, alive, reports;
      }
      if x.c.Nonzero() { DomainConnected(x, diagonal, l2g, comps[k], part, cls, config, sqrt, dom.value, report); }
      DomainsPush(parts, cls, config, sqrt, domains, reports, alive, dom.value, report, k);
      domains := domains + [dom.value];
      alive := alive + [k];
      GivenPush(reports, report);
      reports := reports + [report];
      if report.Some? {
        warnings := warnings + [report.value];
      }
    }
    r := Ok(domains);
  }

  lemma NothingGiven()
    ensures Given([]) == []
  {
  }

  lemma PartConnected(x: CrossTab, diagonal: seq<real>, l2g: seq<nat>, comp: BipartiteComponent, part: Part)
    requires PartOf(x, diagonal, l2g, comp, part) && IsClass(x.Graph(), comp, x.NRows()) && x.c.Nonzero()
    ensures Connected(part.crossTab.NRows(), part.crossTab.NCols(), MatrixOf(part.crossTab.c))
  {
    hide IsClass;
    hide Extracted;
    hide Locals;
    hide CsrBlock.Nonzero;
    hide Connected;
    ExtractedConnected(x, comp, part.crossTab);
  }

  /** The domain of a reachability class has a connected matrix. */
  lemma DomainConnected(x: CrossTab, diagonal: seq<real>, l2g: seq<nat>, comp: BipartiteComponent, part: Part, cls: ComponentClass,
                        config: ScalingConfig, sqrt: real -> real, dom: LocalDomain, report: Option<UncertifiedScaling>)
    requires PartOf(x, diagonal, l2g, comp, part) && IsClass(x.Graph(), comp, x.NRows()) && x.c.Nonzero()
    requires DomainOf(part, cls, config, sqrt, dom, report)
    ensures ConnectedMatrix(dom.component.matrix)
  {
    hide IsClass;
    hide PartOf;
    hide Connected;
    hide AreRowSums;
    hide Converted;
    hide CsrBlock.Nonzero;
    hide Orient;
    PartConnected(x, diagonal, l2g, comp, part);
    OrientedConnected(part.crossTab, part.diagonal, part.globals);
    if cls.General? {
      var (y, d, g) := Orient(part.crossTab, part.diagonal, part.globals);
      ConvertedIsConnected(y, d, config, sqrt, dom.component, report);
    }
  }

  lemma ConvertedIsConnected(x: CrossTab, d: seq<real>, config: ScalingConfig, sqrt: real -> real, comp: LocalComponent, report: Option<UncertifiedScaling>)
    requires Converted(x, d, config, sqrt, comp, report) && Connected(x.NRows(), x.NCols(), MatrixOf(x.c))
    ensures ConnectedMatrix(comp.matrix)
  {
    hide ConvertedBy;
    hide Connected;
    hide Reports;
    hide SignsOf;
    var f :| ConvertedWith(x, d, f, config, sqrt, comp, report);
    assert AllNonzero(f);
    ConvertedConnected(x, d, f, config, comp);
  }

  lemma NoSurvivors(parts: seq<Part>)
    ensures Survivors(parts, 0, [])
  {
  }

  lemma ClassOfPart(x: CrossTab, comps: seq<BipartiteComponent>, k: nat)
    requires x.Valid() && Partition(x.Graph(), comps, x.NRows()) && k < |comps|
    ensures IsClass(x.Graph(), comps[k], x.NRows())
  {
  }
}
