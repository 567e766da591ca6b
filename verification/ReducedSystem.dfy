/** `exact_for_factor`: SDDM in, Laplacian out
    (crates/within/src/block_elim/schur.rs:70-79, 197-210). */
module ReducedSystem {
  import opened Sums
  import opened Csr
  import opened CrossTabs
  import opened Transposition
  import opened Elimination
  import opened Gremban
  import opened Sddm
  import opened SchurComplement
  import opened ExplicitLaplacian
  import opened Spmv

  /** The reciprocals of the eliminated diagonal, all positive. */
  ghost predicate Reciprocals(m: SddmMatrix, inv: seq<real>) {
    && |inv| == m.NEliminated() <= |m.diagonal|
    && forall k :: 0 <= k < |inv| ==> inv[k] > 0.0 && inv[k] * m.diagonal[k] == 1.0
  }

  ghost function SchurOf(m: SddmMatrix, inv: seq<real>): Mat {
    Schur(m.NEliminated(), m.Block(), At(m.diagonal), At(inv))
  }

  ghost function SurplusOf(m: SddmMatrix, inv: seq<real>): Vec {
    Surplus(m.NEliminated(), m.Block(), At(inv), At(m.groundEdges))
  }

  /** The matrix whose factor solves the reduced system. */
  ghost function ReducedOf(m: SddmMatrix, inv: seq<real>): Mat {
    ReducedMat(m.NKept(), SchurOf(m, inv), SurplusOf(m, inv), m.grounding)
  }

  /** Multiplying by the stored transpose gathers a column of the block. */
  lemma TransposedProduct(x: CrossTab, inv: Vec, b: Vec, scaled: Vec, i: nat)
    requires x.Valid() && i < x.NCols()
    requires forall k :: 0 <= k < x.NRows() ==> scaled(k) == inv(k) * b(k)
    ensures MulVec(x.NRows(), MatrixOf(x.ct), scaled)(i) == Dot(x.NRows(), Weighted(MatrixOf(x.c), inv, i), b)
  {
    var e, c := x.NRows(), MatrixOf(x.c);
    forall k | 0 <= k < e ensures RowOf(MatrixOf(x.ct), i)(k) == ColOf(c, i)(k) { TransposeEntry(x.c, x.ct, k, i); }
    DotCong(e, RowOf(MatrixOf(x.ct), i), scaled, ColOf(c, i), Times(inv, b));
    DotComm(e, ColOf(c, i), Times(inv, b));
    WeightedDot(e, c, inv, b, i);
  }

  /** Kept entries plus the loadings of the scaled eliminated ones: one product with the
      stored transpose carries a vector over to the kept block. */
  method CarryOver(x: CrossTab, inv: seq<real>, b: seq<real>) returns (s: seq<real>)
    requires x.Valid() && |inv| == x.NRows() && |b| == x.NLocal()
    ensures |s| == x.NCols()
    ensures forall i :: 0 <= i < |s| ==> s[i] == ReducedRhs(x.NRows(), MatrixOf(x.c), At(inv), At(b))(i)
  {
    hide Sum;
    var e, n := x.NRows(), x.NCols();
    var scaled := seq(e, k requires 0 <= k < e => inv[k] * b[k]);
    var kept := b[e..];
    var y := new real[n](_ => 0.0);
    SpmvAssignAdd(x.ct, scaled, kept, y, 0);
    s := y[..];
    forall i | 0 <= i < n ensures s[i] == ReducedRhs(e, MatrixOf(x.c), At(inv), At(b))(i) {
      assert y[0 + i] == kept[i] + MulVec(e, MatrixOf(x.ct), At(scaled))(i);
      assert Tail(e, At(b))(i) == b[e + i] == kept[i];
      TransposedProduct(x, At(inv), At(b), At(scaled), i);
    }
  }

  lemma SurplusUngrounded(m: SddmMatrix, inv: seq<real>, i: nat)
    requires m.Valid() && m.grounding.Floating? && i < m.NKept()
    ensures SurplusOf(m, inv)(i) == 0.0
  {
    DotZero(m.NEliminated(), Weighted(m.Block(), At(inv), i), At(m.groundEdges));
  }

  lemma SurplusNonnegative(m: SddmMatrix, inv: seq<real>, i: nat)
    requires m.Valid() && m.Unsigned() && Reciprocals(m, inv) && i < m.NKept()
    ensures SurplusOf(m, inv)(i) >= 0.0
  {
    var w, g := Weighted(m.Block(), At(inv), i), At(m.groundEdges);
    forall k | 0 <= k < m.NEliminated() ensures w(k) * g(k) >= 0.0 {
      NonnegativeEntry(m.crossTab.c, k, i);
      assert m.Block()(k, i) >= 0.0 && At(inv)(k) > 0.0 && g(k) >= 0.0;
      NonnegativeProduct(m.Block()(k, i), At(inv)(k), g(k));
    }
    SumNonneg(m.NEliminated(), k => w(k) * g(k));
  }

  lemma NonnegativeProduct(x: real, y: real, z: real)
    requires x >= 0.0 && y >= 0.0 && z >= 0.0
    ensures (x * y) * z >= 0.0
  {
  }

  /** `reduced_surplus` */
  method ReducedSurplus(m: SddmMatrix, inv: seq<real>) returns (s: seq<real>)
    requires m.Valid() && |inv| == m.NEliminated()
    ensures |s| == m.NKept() && forall i :: 0 <= i < |s| ==> s[i] == SurplusOf(m, inv)(i)
  {
    var n := m.NKept();
    if m.grounding.Floating? {
      s := seq(n, _ => 0.0);
      forall i | 0 <= i < n ensures SurplusOf(m, inv)(i) == 0.0 { SurplusUngrounded(m, inv, i); }
      return;
    }
    s := CarryOver(m.crossTab, inv, m.groundEdges);
  }

  lemma InvertsDiagonal(m: SddmMatrix, inv: seq<real>)
    requires Reciprocals(m, inv)
    ensures Inverts(m.NEliminated(), At(m.diagonal), At(inv))
  {
  }

  /** The diagonal rebuilt as off-diagonal weight plus surplus is the true Schur diagonal. */
  lemma RebuiltDiagonalIsSchur(m: SddmMatrix, inv: seq<real>, p: Mat, u: Vec, i: nat)
    requires m.Valid() && m.Unsigned() && Reciprocals(m, inv) && i < m.NKept()
    requires forall j :: 0 <= j < m.NKept() ==> RowOf(p, i)(j) == RowOf(SchurOf(m, inv), i)(j)
    requires u(i) == SurplusOf(m, inv)(i)
    ensures u(i) - (Sum(m.NKept(), RowOf(p, i)) - p(i, i)) == SchurOf(m, inv)(i, i)
  {
    UnsignedBalanced(m);
    InvertsDiagonal(m, inv);
    SchurRowSum(m.NEliminated(), m.NKept(), m.Block(), At(m.diagonal), At(inv), At(m.groundEdges), i);
    SumCong(m.NKept(), RowOf(p, i), RowOf(SchurOf(m, inv), i));
    assert RowOf(p, i)(i) == RowOf(SchurOf(m, inv), i)(i);
  }

  lemma ReducedEntry(m: SddmMatrix, inv: seq<real>, p: Mat, u: seq<real>, i: nat, j: nat)
    requires m.Valid() && m.Unsigned() && Reciprocals(m, inv)
    requires |u| == m.NKept() && forall k :: 0 <= k < |u| ==> u[k] == SurplusOf(m, inv)(k)
    requires forall k, l :: 0 <= k < |u| && 0 <= l < |u| ==> p(k, l) == SchurOf(m, inv)(k, l)
    requires i < ReducedDim(m.NKept(), m.grounding) && j < ReducedDim(m.NKept(), m.grounding)
    ensures ReducedMat(|u|, Rebuilt(|u|, p, At(u)), At(u), m.grounding)(i, j) == ReducedOf(m, inv)(i, j)
  {
    if i == j && i < |u| {
      RebuiltDiagonalIsSchur(m, inv, p, At(u), i);
    }
    SumCong(|u|, At(u), SurplusOf(m, inv));
  }

  /** `exact_for_factor`: the matrix handed to the factorization is the Schur complement,
      bordered by its ground vertex. */
  method ExactForFactor(m: SddmMatrix, inv: seq<real>) returns (l: CsrBlock)
    requires m.Valid() && m.Unsigned() && Reciprocals(m, inv)
    ensures l.Sorted() && l.nrows == l.ncols == ReducedDim(m.NKept(), m.grounding)
    ensures forall i: nat, j: nat :: i < l.nrows && j < l.nrows ==> l.Entry(i, j) == ReducedOf(m, inv)(i, j)
  {
    var principal := Exact(m, inv);
    var surplus := ReducedSurplus(m, inv);
    forall i | 0 <= i < |surplus| ensures surplus[i] >= 0.0 { SurplusNonnegative(m, inv, i); }
    l := BuildExplicitLaplacian(principal, surplus, m.grounding);
    ghost var p := MatrixOf(principal);
    forall k, j | 0 <= k < |surplus| && 0 <= j < |surplus| ensures p(k, j) == SchurOf(m, inv)(k, j) {
      assert principal.Entry(k, j) == SchurOf(m, inv)(k, j);
    }
    forall i: nat, j: nat | i < l.nrows && j < l.nrows ensures l.Entry(i, j) == ReducedOf(m, inv)(i, j) {
      ReducedEntry(m, inv, p, surplus, i, j);
    }
  }

  /** The reduced matrix is a graph Laplacian: symmetric, nonpositive off the diagonal, and
      every row, the ground row included, sums to zero. */
  lemma ReducedIsLaplacian(m: SddmMatrix, inv: seq<real>, i: nat, j: nat)
    requires m.Valid() && m.Unsigned() && Reciprocals(m, inv)
    requires i < ReducedDim(m.NKept(), m.grounding) && j < ReducedDim(m.NKept(), m.grounding)
    ensures ReducedOf(m, inv)(i, j) == ReducedOf(m, inv)(j, i)
    ensures i != j ==> ReducedOf(m, inv)(i, j) <= 0.0
    ensures Sum(ReducedDim(m.NKept(), m.grounding), RowOf(ReducedOf(m, inv), i)) == 0.0
  {
    ReducedSymmetric(m, inv, i, j);
    if i != j { ReducedOffDiagonal(m, inv, i, j); }
    ReducedRowSum(m, inv, i);
  }

  lemma ReducedSymmetric(m: SddmMatrix, inv: seq<real>, i: nat, j: nat)
    ensures ReducedOf(m, inv)(i, j) == ReducedOf(m, inv)(j, i)
  {
    SchurSymmetric(m.NEliminated(), m.Block(), At(m.diagonal), At(inv), i, j);
  }

  lemma FillNonnegative(m: SddmMatrix, inv: seq<real>, i: nat, j: nat)
    requires m.Unsigned() && Reciprocals(m, inv)
    ensures Fill(m.NEliminated(), m.Block(), At(inv), i)(j) >= 0.0
  {
    var w, c := Weighted(m.Block(), At(inv), i), ColOf(m.Block(), j);
    forall k | 0 <= k < m.NEliminated() ensures w(k) * c(k) >= 0.0 {
      NonnegativeEntry(m.crossTab.c, k, i);
      NonnegativeEntry(m.crossTab.c, k, j);
      assert At(inv)(k) > 0.0;
      NonnegativeProduct(m.Block()(k, i), At(inv)(k), c(k));
    }
    SumNonneg(m.NEliminated(), k => w(k) * c(k));
  }

  lemma ReducedOffDiagonal(m: SddmMatrix, inv: seq<real>, i: nat, j: nat)
    requires m.Valid() && m.Unsigned() && Reciprocals(m, inv) && i != j
    requires i < ReducedDim(m.NKept(), m.grounding) && j < ReducedDim(m.NKept(), m.grounding)
    ensures ReducedOf(m, inv)(i, j) <= 0.0
  {
    if i < m.NKept() && j < m.NKept() {
      FillNonnegative(m, inv, i, j);
    } else if i < m.NKept() {
      SurplusNonnegative(m, inv, i);
    } else {
      SurplusNonnegative(m, inv, j);
    }
  }

  lemma SchurRowSums(m: SddmMatrix, inv: seq<real>)
    requires m.Valid() && m.Unsigned() && Reciprocals(m, inv)
    ensures RowSums(m.NKept(), SchurOf(m, inv), SurplusOf(m, inv))
  {
    UnsignedBalanced(m);
    InvertsDiagonal(m, inv);
    forall i | 0 <= i < m.NKept() ensures Sum(m.NKept(), RowOf(SchurOf(m, inv), i)) == SurplusOf(m, inv)(i) {
      SchurRowSum(m.NEliminated(), m.NKept(), m.Block(), At(m.diagonal), At(inv), At(m.groundEdges), i);
    }
  }

  lemma ReducedRowSum(m: SddmMatrix, inv: seq<real>, i: nat)
    requires m.Valid() && m.Unsigned() && Reciprocals(m, inv) && i < ReducedDim(m.NKept(), m.grounding)
    ensures Sum(ReducedDim(m.NKept(), m.grounding), RowOf(ReducedOf(m, inv), i)) == 0.0
  {
    SchurRowSums(m, inv);
    if m.grounding.Grounded? {
      ExplicitRowSumsZero(m.NKept(), SchurOf(m, inv), SurplusOf(m, inv), i);
    } else {
      SurplusUngrounded(m, inv, i);
      assert Sum(m.NKept(), RowOf(SchurOf(m, inv), i)) == SurplusOf(m, inv)(i);
    }
  }
}
