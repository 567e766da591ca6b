/** `assemble_bipartite_cover`: the Gremban cover of a signed component
    (crates/within/src/block_elim/solver.rs:221-277). */
module Cover {
  import opened Sums
  import opened Csr
  import opened CrossTabs
  import opened Transposition
  import opened Elimination
  import opened Gremban
  import opened Sddm

  function Part(x: real, negative: bool): real { if negative then Neg(x) else Pos(x) }

  /** The entries of one sign, as magnitudes, at columns shifted by `base`. */
  function Selected(r: Row, base: nat, negative: bool): Row {
    if r == [] then []
    else
      var (c, v) := r[|r| - 1];
      var s := Selected(r[..|r| - 1], base, negative);
      if (v < 0.0) != negative then s else s + [(c + base, Abs(v))]
  }

  lemma {:induction false} SelectedShape(r: Row, n: nat, base: nat, negative: bool)
    requires Ascending(r) && InRange(r, n)
    ensures Ascending(Selected(r, base, negative))
    ensures forall t :: 0 <= t < |Selected(r, base, negative)| ==>
              base <= Selected(r, base, negative)[t].0 < base + n && Selected(r, base, negative)[t].1 >= 0.0
  {
    if r != [] {
      var p := r[..|r| - 1];
      var (c, v) := r[|r| - 1];
      SelectedShape(p, n, base, negative);
      SelectedShape(p, c, base, negative);
    }
  }

  lemma {:induction false} SelectedCoef(r: Row, base: nat, negative: bool, j: int)
    requires Ascending(r)
    ensures Coef(Selected(r, base, negative), base + j) == Part(Coef(r, j), negative)
  {
    if r != [] {
      var p := r[..|r| - 1];
      var (c, v) := r[|r| - 1];
      SelectedCoef(p, base, negative, j);
      if c == j { CoefAbsent(p, j); }
      CoefOfPush(Selected(p, base, negative), c + base, Abs(v), base + j);
    }
  }

  /** The signed row of one copied vertex: same-sheet entries first, then cross-sheet ones. */
  method CoverRow(r: Row, n: nat, copyShifted: bool) returns (out: Row)
    ensures out == Selected(r, 0, copyShifted) + Selected(r, n, !copyShifted)
  {
    out := [];
    for half := 0 to 2
      invariant half == 0 ==> out == []
      invariant half == 1 ==> out == Selected(r, 0, copyShifted)
      invariant half == 2 ==> out == Selected(r, 0, copyShifted) + Selected(r, n, !copyShifted)
    {
      var columnShifted := half == 1;
      var columnBase := if columnShifted then n else 0;
      var selectNegative := columnShifted != copyShifted;
      ghost var first := out;
      for idx := 0 to |r|
        invariant out == first + Selected(r[..idx], columnBase, selectNegative)
      {
        var (c, value) := r[idx];
        assert r[..idx + 1][..idx] == r[..idx];
        if (value < 0.0) != selectNegative {
          continue;
        }
        out := out + [(c + columnBase, Abs(value))];
      }
      assert r[..|r|] == r;
    }
  }

  /** Column `j` of a copied row: its own sheet keeps the positive part, the other the negative. */
  ghost function CoverPart(r: Row, n: nat, shifted: bool, j: int): real {
    Part(Coef(r, Unsheet(n, j)), shifted != (j >= n))
  }

  /** A cover row is sorted, nonnegative, and splits the signed row by sign. */
  ghost predicate IsCoverRow(r: Row, n: nat, shifted: bool, out: Row) {
    && Ascending(out) && InRange(out, n + n)
    && (forall t :: 0 <= t < |out| ==> out[t].1 >= 0.0)
    && (forall j :: 0 <= j < n + n ==> Coef(out, j) == CoverPart(r, n, shifted, j))
  }

  lemma CoverRowCoef(r: Row, n: nat, shifted: bool, j: int)
    requires Ascending(r) && InRange(r, n) && 0 <= j < n + n
    ensures Coef(Selected(r, 0, shifted) + Selected(r, n, !shifted), j) == CoverPart(r, n, shifted, j)
  {
    var a, b := Selected(r, 0, shifted), Selected(r, n, !shifted);
    SelectedShape(r, n, 0, shifted);
    SelectedShape(r, n, n, !shifted);
    CoefJoin(a, b, j);
    if j < n {
      SelectedCoef(r, 0, shifted, j);
      CoefAbsent(b, j);
    } else {
      SelectedCoef(r, n, !shifted, j - n);
      CoefAbsent(a, j);
    }
  }

  lemma CoverRowSplits(r: Row, n: nat, shifted: bool)
    requires Ascending(r) && InRange(r, n)
    ensures IsCoverRow(r, n, shifted, Selected(r, 0, shifted) + Selected(r, n, !shifted))
  {
    SelectedShape(r, n, 0, shifted);
    SelectedShape(r, n, n, !shifted);
    var out := Selected(r, 0, shifted) + Selected(r, n, !shifted);
    forall j | 0 <= j < n + n ensures Coef(out, j) == CoverPart(r, n, shifted, j) {
      CoverRowCoef(r, n, shifted, j);
    }
  }

  /** `double_for_cover` */
  function DoubleForCover(values: seq<real>, nRows: nat): (d: seq<real>)
    requires nRows <= |values|
  {
    values[..nRows] + values[..nRows] + values[nRows..] + values[nRows..]
  }

  lemma DoubledOnSheets(values: seq<real>, e: nat, n: nat)
    requires |values| == e + n
    ensures |DoubleForCover(values, e)| == (e + e) + (n + n)
    ensures forall i :: 0 <= i < |DoubleForCover(values, e)| ==> DoubleForCover(values, e)[i] in values
    ensures SameOnSheets(e, n, At(values), At(DoubleForCover(values, e)))
  {
    var d := DoubleForCover(values, e);
    forall j | 0 <= j < n ensures SameOnKept(e, n, At(values), At(d), j) {
      assert d[e + e + j] == values[e + j] && d[e + e + (n + j)] == values[e + j];
    }
    forall k | 0 <= k < e ensures At(d)(k) == At(values)(k) && At(d)(e + k) == At(values)(k) {
      assert d[k] == values[k] && d[e + k] == values[k];
    }
  }

  lemma CoverRowSum(e: nat, n: nat, c: Mat, a: Mat, k: int)
    requires (forall k, j :: a(k, j) == Abs(c(k, j))) && 0 <= k < e + e
    ensures Sum(n + n, RowOf(CoverBlock(e, n, c), k)) == Sum(n, RowOf(a, Unsheet(e, k)))
  {
    FoldedSum(n, RowOf(CoverBlock(e, n, c), k), RowOf(a, Unsheet(e, k)));
  }

  lemma CoverColumnSum(e: nat, n: nat, c: Mat, a: Mat, j: int)
    requires (forall k, j :: a(k, j) == Abs(c(k, j))) && 0 <= j < n + n
    ensures Sum(e + e, ColOf(CoverBlock(e, n, c), j)) == Sum(e, ColOf(a, Unsheet(n, j)))
  {
    FoldedSum(e, ColOf(CoverBlock(e, n, c), j), ColOf(a, Unsheet(n, j)));
  }

  /** The cover keeps the balance: magnitudes split over the sheets, ground edges copied. */
  lemma CoverBalanced(e: nat, n: nat, c: Mat, a: Mat, d: Vec, g: Vec, d': Vec, g': Vec)
    requires forall k, j :: a(k, j) == Abs(c(k, j))
    requires Balanced(e, n, a, d, g) && SameOnSheets(e, n, d, d') && SameOnSheets(e, n, g, g')
    ensures Balanced(e + e, n + n, CoverBlock(e, n, c), d', g')
  {
    var m := CoverBlock(e, n, c);
    forall k | 0 <= k < e + e ensures d'(k) == Sum(n + n, RowOf(m, k)) + g'(k) {
      var k0 := Unsheet(e, k);
      CoverRowSum(e, n, c, a, k);
      assert d(k0) == Sum(n, RowOf(a, k0)) + g(k0);
      if k >= e { assert d'(e + k0) == d(k0); }
    }
    forall j | 0 <= j < n + n
      ensures Tail(e + e, d')(j) == Sum(e + e, ColOf(m, j)) + Tail(e + e, g')(j)
    {
      var j0 := Unsheet(n, j);
      CoverColumnSum(e, n, c, a, j);
      assert SameOnKept(e, n, d, d', j0) && SameOnKept(e, n, g, g', j0);
      assert Tail(e, d)(j0) == Sum(e, ColOf(a, j0)) + Tail(e, g)(j0);
    }
  }

  lemma FoldedSum(n: nat, f: Vec, a: Vec)
    requires forall j {:trigger a(j)} :: 0 <= j < n ==> a(j) == f(j) + f(n + j)
    ensures Sum(n + n, f) == Sum(n, a)
  {
    SumSplit(n, n, f, Tail(n, f));
    SumAdd(n, f, Tail(n, f), a);
  }

  /** `out` is the cover of `c`. */
  ghost predicate IsCoverBlock(c: CsrBlock, out: CsrBlock) {
    && c.Valid() && out.Valid() && out.nrows == c.nrows + c.nrows && out.ncols == c.ncols + c.ncols
    && (forall i: nat :: i < c.nrows ==> IsCoverRow(c.Row(i), c.ncols, false, out.Row(i)))
    && (forall i: nat :: i < c.nrows ==> IsCoverRow(c.Row(i), c.ncols, true, out.Row(c.nrows + i)))
  }

  method CoverCsr(c: CsrBlock) returns (out: CsrBlock)
    requires c.Sorted()
    ensures IsCoverBlock(c, out)
  {
    hide IsCoverRow;
    out := Empty(c.ncols + c.ncols);
    out := CoverSheet(c, out, false);
    ghost var first := out;
    out := CoverSheet(c, out, true);
    assert forall i: nat :: i < c.nrows ==> out.Row(i) == first.Row(0 + i);
  }

  /** One copy of every row, appended to `before`. */
  method CoverSheet(c: CsrBlock, before: CsrBlock, copyShifted: bool) returns (out: CsrBlock)
    requires c.Sorted() && before.Valid() && before.ncols == c.ncols + c.ncols
    ensures out.Valid() && out.nrows == before.nrows + c.nrows && out.ncols == before.ncols
    ensures forall i: nat :: i < before.nrows ==> out.Row(i) == before.Row(i)
    ensures forall i: nat :: i < c.nrows ==> IsCoverRow(c.Row(i), c.ncols, copyShifted, out.Row(before.nrows + i))
  {
    out := before;
    for i := 0 to c.nrows
      invariant out.Valid() && out.nrows == before.nrows + i && out.ncols == before.ncols
      invariant forall k: nat :: k < before.nrows ==> out.Row(k) == before.Row(k)
      invariant forall k: nat :: k < i ==> IsCoverRow(c.Row(k), c.ncols, copyShifted, out.Row(before.nrows + k))
    {
      var row := CoverRow(c.Row(i), c.ncols, copyShifted);
      CoverRowSplits(c.Row(i), c.ncols, copyShifted);
      AppendRows(out, row);
      out := Append(out, row);
    }
  }

  lemma CoverIsSorted(c: CsrBlock, out: CsrBlock)
    requires IsCoverBlock(c, out)
    ensures out.Sorted() && out.Nonnegative()
  {
    forall i | 0 <= i < out.nrows
      ensures Ascending(out.Row(i)) && forall t :: 0 <= t < |out.Row(i)| ==> out.Row(i)[t].1 >= 0.0
    {
      if i < c.nrows {
        assert IsCoverRow(c.Row(i), c.ncols, false, out.Row(i));
      } else {
        assert IsCoverRow(c.Row(i - c.nrows), c.ncols, true, out.Row(c.nrows + (i - c.nrows)));
      }
    }
    forall p | 0 <= p < |out.data| ensures out.data[p] >= 0.0 {
      var i := HoldingRow(out, p);
      assert out.Row(i)[p - out.indptr[i]].1 == out.data[p];
    }
  }

  lemma CoverEntry(c: CsrBlock, out: CsrBlock, i: int, j: int)
    requires IsCoverBlock(c, out) && 0 <= i < out.nrows && 0 <= j < out.ncols
    ensures out.Entry(i, j) == CoverBlock(c.nrows, c.ncols, MatrixOf(c))(i, j)
  {
    var k := Unsheet(c.nrows, i);
    assert IsCoverRow(c.Row(k), c.ncols, i >= c.nrows, out.Row(i)) by {
      if i >= c.nrows { assert c.nrows + k == i; }
    }
    assert Coef(out.Row(i), j) == CoverPart(c.Row(k), c.ncols, i >= c.nrows, j);
  }

  /** What the cover of a signed matrix is, in terms of that matrix. */
  ghost predicate IsCover(m: SddmMatrix, cover: SddmMatrix) {
    && cover.NEliminated() == m.NEliminated() + m.NEliminated()
    && cover.NKept() == m.NKept() + m.NKept()
    && cover.grounding == m.grounding
    && SameOnSheets(m.NEliminated(), m.NKept(), At(m.diagonal), At(cover.diagonal))
    && SameOnSheets(m.NEliminated(), m.NKept(), At(m.groundEdges), At(cover.groundEdges))
    && (forall i, j :: 0 <= i < cover.NEliminated() && 0 <= j < cover.NKept() ==>
          cover.Block()(i, j) == CoverBlock(m.NEliminated(), m.NKept(), m.Block())(i, j))
  }

  lemma CoverMagnitude(m: SddmMatrix, cover: SddmMatrix, k: int, j: int)
    requires IsCover(m, cover) && cover.Unsigned() && 0 <= k < cover.NEliminated() && 0 <= j < cover.NKept()
    ensures CoverBlock(m.NEliminated(), m.NKept(), m.Block())(k, j) == cover.Magnitude()(k, j)
  {
    NonnegativeEntry(cover.crossTab.c, k, j);
    assert cover.Block()(k, j) == CoverBlock(m.NEliminated(), m.NKept(), m.Block())(k, j);
  }

  lemma CoverMagnitudeBalanced(m: SddmMatrix, cover: SddmMatrix)
    requires Balanced(m.NEliminated(), m.NKept(), m.Magnitude(), At(m.diagonal), At(m.groundEdges))
    requires IsCover(m, cover) && cover.Unsigned()
    ensures Balanced(cover.NEliminated(), cover.NKept(), cover.Magnitude(), At(cover.diagonal), At(cover.groundEdges))
  {
    hide Sum;
    hide Balanced;
    hide CoverBlock;
    hide CsrBlock.Entry;
    hide CsrBlock.Nonnegative;
    var e, n := m.NEliminated(), m.NKept();
    CoverBalanced(e, n, m.Block(), m.Magnitude(), At(m.diagonal), At(m.groundEdges), At(cover.diagonal), At(cover.groundEdges));
    CoverMagnitudes(m, cover);
    BalancedSame(cover.NEliminated(), cover.NKept(), CoverBlock(e, n, m.Block()), cover.Magnitude(), At(cover.diagonal), At(cover.groundEdges));
  }

  lemma CoverMagnitudes(m: SddmMatrix, cover: SddmMatrix)
    requires IsCover(m, cover) && cover.Unsigned()
    ensures forall k, j :: 0 <= k < cover.NEliminated() && 0 <= j < cover.NKept() ==>
              CoverBlock(m.NEliminated(), m.NKept(), m.Block())(k, j) == cover.Magnitude()(k, j)
  {
    forall k, j | 0 <= k < cover.NEliminated() && 0 <= j < cover.NKept()
      ensures CoverBlock(m.NEliminated(), m.NKept(), m.Block())(k, j) == cover.Magnitude()(k, j)
    {
      CoverMagnitude(m, cover, k, j);
    }
  }

  /** `assemble_bipartite_cover`: the cover of a signed SDDM is an unsigned SDDM. */
  method AssembleBipartiteCover(m: SddmMatrix) returns (cover: SddmMatrix)
    requires m.Valid()
    ensures cover.Valid() && cover.Unsigned() && IsCover(m, cover)
  {
    var e, n := m.NEliminated(), m.NKept();
    var coverC := CoverCsr(m.crossTab.c);
    CoverIsSorted(m.crossTab.c, coverC);
    var coverCt := Transpose(coverC);
    cover := SddmMatrix(CrossTab(coverC, coverCt), DoubleForCover(m.diagonal, e), DoubleForCover(m.groundEdges, e), m.grounding);
    DoubledOnSheets(m.diagonal, e, n);
    DoubledOnSheets(m.groundEdges, e, n);
    forall i, j | 0 <= i < cover.NEliminated() && 0 <= j < cover.NKept()
      ensures cover.Block()(i, j) == CoverBlock(e, n, m.Block())(i, j)
    {
      CoverEntry(m.crossTab.c, coverC, i, j);
    }
    assert IsCover(m, cover);
    CoverMagnitudeBalanced(m, cover);
    if m.grounding.Floating? {
      forall i | 0 <= i < |cover.groundEdges| ensures At(cover.groundEdges)(i) == 0.0 {
        var k :| 0 <= k < |m.groundEdges| && m.groundEdges[k] == cover.groundEdges[i];
        assert At(m.groundEdges)(k) == 0.0;
      }
    }
  }
}
