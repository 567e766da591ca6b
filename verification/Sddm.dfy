/** The bipartite SDDM form of a component: nonnegative ground edges account exactly for the
    gap between each diagonal and its row's off-diagonal magnitude
    (crates/within/src/domain/factor_pairs/sddm.rs). */
module Sddm {
  import opened Sums
  import opened Csr
  import opened CrossTabs
  import opened Elimination

  function Weigh(v: real, magnitude: bool): real { if magnitude then Abs(v) else v }

  /** A block's matrix, or that of its magnitudes. */
  ghost function Weighed(c: CsrBlock, magnitude: bool): Mat { (i, j) => Weigh(c.Entry(i, j), magnitude) }

  datatype Grounding = Floating | Grounded

  datatype MatrixForm = Laplacian | SignedPendingCover

  /** The two-block system: eliminated nodes occupy the first `NEliminated` slots of each vector. */
  datatype SddmMatrix = SddmMatrix(crossTab: CrossTab, diagonal: seq<real>, groundEdges: seq<real>, grounding: Grounding) {
    function NEliminated(): nat { crossTab.NRows() }

    function NKept(): nat { crossTab.NCols() }

    /** The (negated) off-diagonal block. */
    ghost function Block(): Mat { MatrixOf(crossTab.c) }

    ghost function Magnitude(): Mat { Weighed(crossTab.c, true) }

    /** Diagonal = off-diagonal magnitude + ground edge, and a floating matrix has no ground. */
    ghost predicate Valid() {
      && crossTab.Valid()
      && |diagonal| == |groundEdges| == crossTab.NLocal()
      && Balanced(NEliminated(), NKept(), Magnitude(), At(diagonal), At(groundEdges))
      && (forall i :: 0 <= i < |groundEdges| ==> groundEdges[i] >= 0.0)
      && (grounding.Floating? ==> Ungrounded(crossTab.NLocal(), At(groundEdges)))
    }

    /** No negative weight: the matrix is a Z-matrix. */
    ghost predicate Unsigned() { crossTab.c.Nonnegative() }
  }

  lemma {:induction false} CoefNonnegative(r: Row, j: int)
    requires forall t :: 0 <= t < |r| ==> r[t].1 >= 0.0
    ensures Coef(r, j) >= 0.0
  {
    if r != [] { CoefNonnegative(r[..|r| - 1], j); }
  }

  lemma NonnegativeEntry(c: CsrBlock, i: int, j: int)
    requires c.Nonnegative()
    ensures c.Entry(i, j) >= 0.0
  {
    if 0 <= i < c.nrows { CoefNonnegative(c.Row(i), j); }
  }

  /** Without signs the balance is about the block itself. */
  lemma UnsignedBalanced(m: SddmMatrix)
    requires m.Valid() && m.Unsigned()
    ensures Balanced(m.NEliminated(), m.NKept(), m.Block(), At(m.diagonal), At(m.groundEdges))
  {
    var e, n, d, g := m.NEliminated(), m.NKept(), At(m.diagonal), At(m.groundEdges);
    forall k | 0 <= k < e ensures d(k) == Sum(n, RowOf(m.Block(), k)) + g(k) {
      forall j | 0 <= j < n ensures RowOf(m.Block(), k)(j) == RowOf(m.Magnitude(), k)(j) {
        NonnegativeEntry(m.crossTab.c, k, j);
      }
      SumCong(n, RowOf(m.Block(), k), RowOf(m.Magnitude(), k));
    }
    forall j | 0 <= j < n ensures Tail(e, d)(j) == Sum(e, ColOf(m.Block(), j)) + Tail(e, g)(j) {
      forall k | 0 <= k < e ensures ColOf(m.Block(), j)(k) == ColOf(m.Magnitude(), j)(k) {
        NonnegativeEntry(m.crossTab.c, k, j);
      }
      SumCong(e, ColOf(m.Block(), j), ColOf(m.Magnitude(), j));
    }
  }
}
