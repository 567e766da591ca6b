/** A component found by the search is connected as a matrix: every cut of its nodes is
    crossed by a nonzero entry (crates/within/src/domain/cross_tab.rs:84-88, 161-265). */
module ClassConnectivity {
  import opened Sums
  import opened Csr
  import opened Transposition
  import opened CrossTabs
  import opened Elimination
  import opened FoldingSigns
  import opened Components
  import opened Extraction
  import opened Connectivity

  /** The node of the whole graph behind local index `t` of a component. */
  function Node(comp: BipartiteComponent, nRows: nat, t: nat): nat
    requires t < |comp.rows| + |comp.cols|
  {
    if t < |comp.rows| then comp.rows[t] else nRows + comp.cols[t - |comp.rows|]
  }

  lemma NodeIsMember(comp: BipartiteComponent, x: CrossTab, t: nat)
    requires Fits(comp, x) && t < |comp.rows| + |comp.cols|
    ensures comp.Has(x.NRows(), Node(comp, x.NRows(), t)) && Node(comp, x.NRows(), t) < x.NLocal()
  {
  }

  lemma DistinctIds(ids: seq<nat>, a: nat, b: nat)
    requires Ascends(ids) && a < |ids| && b < |ids| && a != b
    ensures ids[a] != ids[b]
  {
    if a < b { assert ids[a] < ids[b]; } else { assert ids[b] < ids[a]; }
  }

  lemma NodeInjective(comp: BipartiteComponent, x: CrossTab, t: nat, u: nat)
    requires Fits(comp, x) && t < |comp.rows| + |comp.cols| && u < |comp.rows| + |comp.cols| && t != u
    ensures Node(comp, x.NRows(), t) != Node(comp, x.NRows(), u)
  {
    hide Ascends;
    var r := |comp.rows|;
    if t < r && u < r {
      DistinctIds(comp.rows, t, u);
    } else if t >= r && u >= r {
      DistinctIds(comp.cols, t - r, u - r);
    }
  }

  lemma MemberHasIndex(comp: BipartiteComponent, nRows: nat, i: nat) returns (t: nat)
    requires comp.Has(nRows, i)
    ensures t < |comp.rows| + |comp.cols| && Node(comp, nRows, t) == i
  {
    if i < nRows {
      t :| 0 <= t < |comp.rows| && comp.rows[t] == i;
    } else {
      var u :| 0 <= u < |comp.cols| && comp.cols[u] == i - nRows;
      t := |comp.rows| + u;
    }
  }

  /** A stored edge leaving a row node is a nonzero entry. */
  lemma RowLinkEntry(x: CrossTab, i: nat, j: nat)
    requires x.Valid() && x.c.Nonzero() && i < x.NRows() && Linked(x.Graph(), i, j)
    ensures x.NRows() <= j < x.NLocal() && x.c.Entry(i, j - x.NRows()) != 0.0
  {
    hide Coef;
    hide IsTranspose;
    Shaped(x);
    var g, n, r := x.Graph(), x.NRows(), x.c.Row(i);
    assert g[i] == x.Neighbors(i) == Shift(r, n);
    var t :| 0 <= t < |g[i]| && g[i][t].0 == j;
    assert g[i][t] == (n + r[t].0, r[t].1);
    CoefStored(r, t);
    assert NoZeros(r);
  }

  /** A stored edge is a nonzero entry between a row and a column node. */
  lemma LinkEntry(x: CrossTab, i: nat, j: nat)
    requires x.Valid() && x.c.Nonzero() && i < x.NLocal() && Linked(x.Graph(), i, j)
    ensures if i < x.NRows() then x.NRows() <= j < x.NLocal() && x.c.Entry(i, j - x.NRows()) != 0.0
            else j < x.NRows() && x.c.Entry(j, i - x.NRows()) != 0.0
  {
    hide CsrBlock.Entry;
    hide CsrBlock.Nonzero;
    hide IsTranspose;
    Shaped(x);
    if i < x.NRows() {
      RowLinkEntry(x, i, j);
    } else {
      var g := x.Graph();
      assert g[i] == x.Neighbors(i);
      var t :| 0 <= t < |g[i]| && g[i][t].0 == j;
      assert (j, g[i][t].1) in x.Neighbors(i);
      EdgeFromColumn(x, i, j, g[i][t].1);
      GraphUndirected(x);
      LinkedSymmetric(g, i, j);
      RowLinkEntry(x, j, i);
    }
  }

  /** An edge between two nodes of the component joins their local indices. */
  lemma LocalEdgeAgrees(x: CrossTab, comp: BipartiteComponent, y: CrossTab, p: int -> bool, t: nat, w: nat)
    requires x.Valid() && x.c.Nonzero() && Extracted(x, comp, y)
    requires t < y.NLocal() && w < y.NLocal() && Respects(y.NRows(), y.NCols(), MatrixOf(y.c), p)
    requires Linked(x.Graph(), Node(comp, x.NRows(), t), Node(comp, x.NRows(), w))
    ensures p(t) == p(w)
  {
    hide CsrBlock.Entry;
    hide CrossTab.Valid;
    hide Linked;
    hide CsrBlock.Nonzero;
    hide CsrBlock.Nonnegative;
    var n, r := x.NRows(), |comp.rows|;
    NodeIsMember(comp, x, t);
    NodeIsMember(comp, x, w);
    LinkEntry(x, Node(comp, n, t), Node(comp, n, w));
    if t < r {
      assert y.c.Entry(t, w - r) == x.c.Entry(comp.rows[t], comp.cols[w - r]);
      assert AgreesAt(r, MatrixOf(y.c), p, t, w - r);
    } else {
      assert y.c.Entry(w, t - r) == x.c.Entry(comp.rows[w], comp.cols[t - r]);
      assert AgreesAt(r, MatrixOf(y.c), p, w, t - r);
    }
  }

  lemma NextInClass(g: seq<Row>, comp: BipartiteComponent, nRows: nat, i: nat, m: nat)
    requires IsClass(g, comp, nRows) && comp.Has(nRows, i) && Linked(g, i, m)
    ensures comp.Has(nRows, m)
  {
    hide Linked;
    hide ReachIn;
    hide BipartiteComponent.Has;
    ReachSelf(g, i);
    ReachExtends(g, i, i, m);
  }

  /** Along any path the labelling does not change. */
  lemma {:induction false} PathUniform(x: CrossTab, comp: BipartiteComponent, y: CrossTab, p: int -> bool, t: nat, u: nat, k: nat)
    requires x.Valid() && x.c.Nonzero() && IsClass(x.Graph(), comp, x.NRows()) && Extracted(x, comp, y)
    requires t < y.NLocal() && u < y.NLocal() && Respects(y.NRows(), y.NCols(), MatrixOf(y.c), p)
    requires ReachIn(x.Graph(), Node(comp, x.NRows(), t), Node(comp, x.NRows(), u), k)
    ensures p(t) == p(u)
    decreases k
  {
    hide IsClass;
    hide CrossTab.Valid;
    hide CsrBlock.Nonzero;
    hide CsrBlock.Nonnegative;
    hide CsrBlock.Entry;
    hide Respects;
    hide Linked;
    hide BipartiteComponent.Has;
    hide Fits;
    Shaped(x);
    var g, n := x.Graph(), x.NRows();
    if k == 0 {
      if t != u { NodeInjective(comp, x, t, u); }
    } else {
      var m: nat :| Linked(g, Node(comp, n, t), m) && ReachIn(g, m, Node(comp, n, u), k - 1);
      NodeIsMember(comp, x, t);
      NextInClass(g, comp, n, Node(comp, n, t), m);
      var w := MemberHasIndex(comp, n, m);
      LocalEdgeAgrees(x, comp, y, p, t, w);
      PathUniform(x, comp, y, p, w, u, k - 1);
    }
  }

  /** The extracted block of a reachability class is connected. */
  lemma ExtractedConnected(x: CrossTab, comp: BipartiteComponent, y: CrossTab)
    requires x.Valid() && x.c.Nonzero() && IsClass(x.Graph(), comp, x.NRows()) && Extracted(x, comp, y)
    ensures Connected(y.NRows(), y.NCols(), MatrixOf(y.c))
  {
    hide CrossTab.Valid;
    hide CsrBlock.Nonzero;
    hide CsrBlock.Nonnegative;
    hide CsrBlock.Entry;
    hide Respects;
    hide Fits;
    hide BipartiteComponent.Has;
    Shaped(x);
    var g, n, l := x.Graph(), x.NRows(), y.NLocal();
    forall p: int -> bool | Respects(y.NRows(), y.NCols(), MatrixOf(y.c), p) ensures Uniform(l, p) {
      forall i | 0 <= i < l ensures p(i) == p(0) {
        NodeIsMember(comp, x, i);
        NodeIsMember(comp, x, 0);
        assert Reach(g, Node(comp, n, i), Node(comp, n, 0));
        var k: nat :| ReachIn(g, Node(comp, n, i), Node(comp, n, 0), k);
        PathUniform(x, comp, y, p, i, 0, k);
      }
    }
  }
}
