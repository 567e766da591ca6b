/** The reduced system handed to the factorization: off-diagonals from the Schur rows, the
    diagonal rebuilt from them, and the surplus as explicit edges to a ground vertex
    (crates/within/src/block_elim/schur.rs:197-268). */
module ExplicitLaplacian {
  import opened Wrappers
  import opened Sums
  import opened Csr
  import opened Elimination
  import opened Gremban
  import opened Sddm
  import opened SchurComplement
  import opened Spmv

  /** `p` with each diagonal replaced by the off-diagonal weight plus `u`. */
  ghost function Rebuilt(n: nat, p: Mat, u: Vec): Mat {
    (i, j) => if i == j then u(i) - (Sum(n, RowOf(p, i)) - p(i, i)) else p(i, j)
  }

  /** The matrix over the kept block, bordered by a ground vertex when grounded. */
  ghost function ReducedMat(n: nat, s: Mat, u: Vec, grounding: Grounding): Mat {
    if grounding.Grounded? then Explicit(n, s, u) else s
  }

  function ReducedDim(n: nat, grounding: Grounding): nat { if grounding.Grounded? then n + 1 else n }

  ghost function OffDiagonal(i: int): (int, real) -> real { (j, v) => if j == i then 0.0 else v }

  lemma OffDiagonalSum(r: Row, n: nat, i: nat)
    requires Ascending(r) && InRange(r, n) && i < n
    ensures Fold(r, OffDiagonal(i)) == Sum(n, Coefs(r)) - Coef(r, i)
  {
    FoldIsSum(r, n, OffDiagonal(i));
    SumUpdate(n, i, Coefs(r), j => OffDiagonal(i)(j, Coef(r, j)));
  }

  /** `out` is `r` with the weight of column `i` replaced by `d`. */
  ghost predicate Replaced(r: Row, out: Row, i: nat, d: real) {
    && |out| == |r|
    && forall t :: 0 <= t < |r| ==> out[t] == if r[t].0 == i then (i, d) else r[t]
  }

  lemma ReplacedCoef(r: Row, out: Row, i: nat, d: real, j: int)
    requires Ascending(r) && Replaced(r, out, i, d) && HasColumn(r, i)
    ensures Ascending(out) && Coef(out, j) == if j == i then d else Coef(r, j)
  {
    if t :| 0 <= t < |r| && r[t].0 == j {
      CoefStored(r, t);
      CoefStored(out, t);
    } else {
      CoefAbsent(r, j);
      CoefAbsent(out, j);
    }
  }

  /** One row: copy the off-diagonals, then fill in `adjacency + surplus` on the diagonal. */
  method RebuildRow(r: Row, n: nat, i: nat, surplus: real) returns (out: Row)
    requires ReducedRow(r, i, n) && i < n
    ensures Replaced(r, out, i, surplus - (Sum(n, Coefs(r)) - Coef(r, i)))
  {
    hide Sum;
    out := [];
    var adjacency := 0.0;
    var diagonalPosition: Option<nat> := None;
    for t := 0 to |r|
      invariant |out| == t && forall u :: 0 <= u < t ==> out[u] == if r[u].0 == i then (i, 0.0) else r[u]
      invariant adjacency == -Fold(r[..t], OffDiagonal(i))
      invariant diagonalPosition.Some? ==> diagonalPosition.value < t && r[diagonalPosition.value].0 == i
      invariant diagonalPosition.None? ==> forall u :: 0 <= u < t ==> r[u].0 != i
    {
      var (j, value) := r[t];
      FoldStep(r, t, OffDiagonal(i));
      if j == i {
        diagonalPosition := Some(|out|);
        out := out + [(j, 0.0)];
      } else {
        adjacency := adjacency - value;
        out := out + [(j, value)];
      }
    }
    assert r[..|r|] == r;
    OffDiagonalSum(r, n, i);
    var pos := diagonalPosition.value;
    assert forall u :: 0 <= u < |r| && u != pos ==> r[u].0 != i;
    out := out[pos := (i, adjacency + surplus)];
  }

  /** The ground row: minus the surplus at each grounded vertex, and their sum. */
  method GroundRowOf(surplus: seq<real>) returns (out: Row)
    requires forall i :: 0 <= i < |surplus| ==> surplus[i] >= 0.0
    ensures Ascending(out) && InRange(out, |surplus| + 1)
    ensures forall j :: 0 <= j < |surplus| ==> Coef(out, j) == -surplus[j]
    ensures Coef(out, |surplus|) == Sum(|surplus|, At(surplus))
  {
    out := [];
    var total := 0.0;
    for i := 0 to |surplus|
      invariant Ascending(out) && InRange(out, i)
      invariant forall j :: 0 <= j < |surplus| ==> Coef(out, j) == if j < i then -surplus[j] else 0.0
      invariant total == Sum(i, At(surplus))
    {
      if surplus[i] > 0.0 {
        forall j ensures Coef(out + [(i, -surplus[i])], j) == Coef(out, j) + (if i == j then -surplus[i] else 0.0) {
          CoefOfPush(out, i, -surplus[i], j);
        }
        out := out + [(i, -surplus[i])];
      }
      SumStep(i, At(surplus));
      total := total + surplus[i];
    }
    CoefAbsent(out, |surplus|);
    forall j ensures Coef(out + [(|surplus|, total)], j) == Coef(out, j) + (if |surplus| == j then total else 0.0) {
      CoefOfPush(out, |surplus|, total, j);
    }
    out := out + [(|surplus|, total)];
  }

  /** Row `i` of the bordered rebuilt matrix. */
  ghost predicate IsBorderedRow(r: Row, n: nat, dim: nat, p: Mat, u: Vec, grounding: Grounding, i: nat) {
    && Ascending(r) && InRange(r, dim)
    && forall j: nat :: j < dim ==> Coef(r, j) == ReducedMat(n, Rebuilt(n, p, u), u, grounding)(i, j)
  }

  method BorderRow(r: Row, n: nat, i: nat, surplus: seq<real>, grounding: Grounding, ghost p: Mat) returns (out: Row)
    requires ReducedRow(r, i, n) && i < n == |surplus| && surplus[i] >= 0.0
    requires forall j: nat :: j < n ==> Coef(r, j) == p(i, j)
    ensures IsBorderedRow(out, n, ReducedDim(n, grounding), p, At(surplus), grounding, i)
  {
    hide Sum;
    hide Coef;
    out := RebuildRow(r, n, i, surplus[i]);
    ghost var d := surplus[i] - (Sum(n, Coefs(r)) - Coef(r, i));
    SumCong(n, Coefs(r), RowOf(p, i));
    forall j: nat | j < n ensures Coef(out, j) == Rebuilt(n, p, At(surplus))(i, j) {
      ReplacedCoef(r, out, i, d, j);
    }
    ReplacedCoef(r, out, i, d, 0);
    assert InRange(out, n);
    CoefAbsent(out, n);
    if grounding.Grounded? && surplus[i] > 0.0 {
      forall j ensures Coef(out + [(n, -surplus[i])], j) == Coef(out, j) + (if n == j then -surplus[i] else 0.0) {
        CoefOfPush(out, n, -surplus[i], j);
      }
      out := out + [(n, -surplus[i])];
    }
  }

  /** The first rows of the bordered matrix have been written. */
  ghost predicate BorderedRows(l: CsrBlock, n: nat, p: Mat, u: Vec, grounding: Grounding) {
    && l.Valid() && l.ncols == ReducedDim(n, grounding)
    && forall k: nat :: k < l.nrows ==> IsBorderedRow(l.Row(k), n, l.ncols, p, u, grounding, k)
  }

  method AppendBordered(l: CsrBlock, row: Row, n: nat, ghost p: Mat, ghost u: Vec, grounding: Grounding) returns (r: CsrBlock)
    requires BorderedRows(l, n, p, u, grounding)
    requires IsBorderedRow(row, n, ReducedDim(n, grounding), p, u, grounding, l.nrows)
    ensures BorderedRows(r, n, p, u, grounding) && r.nrows == l.nrows + 1 && r.ncols == l.ncols
  {
    hide IsBorderedRow;
    assert InRange(row, l.ncols) by { BorderedInRange(row, n, p, u, grounding, l.nrows); }
    AppendRows(l, row);
    r := Append(l, row);
  }

  lemma BorderedInRange(row: Row, n: nat, p: Mat, u: Vec, grounding: Grounding, i: nat)
    requires IsBorderedRow(row, n, ReducedDim(n, grounding), p, u, grounding, i)
    ensures InRange(row, ReducedDim(n, grounding))
  {
  }

  lemma BorderedEntry(l: CsrBlock, n: nat, p: Mat, u: Vec, grounding: Grounding, i: nat, j: nat)
    requires BorderedRows(l, n, p, u, grounding) && i < l.nrows && j < l.ncols
    ensures l.Entry(i, j) == ReducedMat(n, Rebuilt(n, p, u), u, grounding)(i, j)
  {
    hide ReducedMat;
    assert IsBorderedRow(l.Row(i), n, l.ncols, p, u, grounding, i);
  }

  lemma BorderedSorted(l: CsrBlock, n: nat, p: Mat, u: Vec, grounding: Grounding)
    requires BorderedRows(l, n, p, u, grounding)
    ensures l.Sorted()
  {
    hide ReducedMat;
    forall i | 0 <= i < l.nrows ensures Ascending(l.Row(i)) {
      assert IsBorderedRow(l.Row(i), n, l.ncols, p, u, grounding, i);
    }
  }

  method BorderGround(surplus: seq<real>, ghost p: Mat) returns (row: Row)
    requires forall i :: 0 <= i < |surplus| ==> surplus[i] >= 0.0
    ensures IsBorderedRow(row, |surplus|, |surplus| + 1, p, At(surplus), Grounded, |surplus|)
  {
    row := GroundRowOf(surplus);
  }

  /** `build_explicit_laplacian` */
  method BuildExplicitLaplacian(principal: CsrBlock, surplus: seq<real>, grounding: Grounding) returns (l: CsrBlock)
    requires principal.Valid() && principal.nrows == principal.ncols == |surplus|
    requires forall i: nat :: i < principal.nrows ==> ReducedRow(principal.Row(i), i, principal.ncols)
    requires forall i :: 0 <= i < |surplus| ==> surplus[i] >= 0.0
    ensures var n := |surplus|;
      && l.Sorted() && l.nrows == l.ncols == ReducedDim(n, grounding)
      && forall i: nat, j: nat :: i < l.nrows && j < l.nrows ==>
           l.Entry(i, j) == ReducedMat(n, Rebuilt(n, MatrixOf(principal), At(surplus)), At(surplus), grounding)(i, j)
  {
    hide IsBorderedRow;
    hide ReducedMat;
    hide ReducedRow;
    var n := |surplus|;
    ghost var p, u := MatrixOf(principal), At(surplus);
    l := Empty(ReducedDim(n, grounding));
    for i := 0 to n
      invariant l.nrows == i && BorderedRows(l, n, p, u, grounding)
    {
      var row := BorderRow(principal.Row(i), n, i, surplus, grounding, p);
      l := AppendBordered(l, row, n, p, u, grounding);
    }
    if grounding.Grounded? {
      var row := BorderGround(surplus, p);
      l := AppendBordered(l, row, n, p, u, grounding);
    }
    BorderedSorted(l, n, p, u, grounding);
    forall i: nat, j: nat | i < l.nrows && j < l.nrows
      ensures l.Entry(i, j) == ReducedMat(n, Rebuilt(n, p, u), u, grounding)(i, j)
    {
      BorderedEntry(l, n, p, u, grounding, i, j);
    }
  }
}
