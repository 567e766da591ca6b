/** Exact Schur complement of the eliminated block, row by row through a reused dense
    workspace (crates/within/src/block_elim/schur.rs:29-146, 197-268). */
module SchurComplement {
  import opened Sums
  import opened Csr
  import opened CrossTabs
  import opened Transposition
  import opened Sorting
  import opened Elimination
  import opened Sddm

  /** What eliminated vertex `k` with loading `w` removes from column `j`. */
  ghost function Term(b: Mat, inv: Vec, j: int): (int, real) -> real {
    (k, w) => (w * b(k, j)) * inv(k)
  }

  /** Every nonzero workspace cell is recorded; the diagonal is recorded once, first. */
  ghost predicate Tracks(work: seq<real>, touched: seq<nat>, i: nat) {
    && (forall j :: 0 <= j < |work| && work[j] != 0.0 ==> j in touched)
    && (forall u :: 0 <= u < |touched| ==> touched[u] < |work|)
    && |touched| > 0 && touched[0] == i
    && (forall u :: 0 < u < |touched| ==> touched[u] != i)
  }

  /** One scatter `work[j] -= (w v) inv`, with its bookkeeping. */
  method ScatterOne(work: array<real>, touched: seq<nat>, i: nat, j: nat, x: real) returns (touched': seq<nat>)
    requires j < work.Length && Tracks(work[..], touched, i)
    modifies work
    ensures work[j] == old(work[j]) - x
    ensures forall u :: 0 <= u < work.Length && u != j ==> work[u] == old(work[u])
    ensures Tracks(work[..], touched', i)
  {
    touched' := touched;
    if work[j] == 0.0 && j != i {
      touched' := touched' + [j];
      assert touched'[|touched|] == j;
    }
    assert forall u :: u in touched ==> u in touched';
    assert j in touched' by {
      if j == i { assert touched'[0] == i; }
    }
    work[j] := work[j] - x;
  }

  /** What scattering the row `q` with loading `w` removes from column `j`. */
  ghost function Scattered(q: Row, w: real, inv: real, j: int): real {
    if q == [] then 0.0
    else Scattered(q[..|q| - 1], w, inv, j) + (if q[|q| - 1].0 == j then (w * q[|q| - 1].1) * inv else 0.0)
  }

  lemma {:induction false} ScatteredIsTerm(q: Row, w: real, inv: real, j: int)
    ensures Scattered(q, w, inv, j) == (w * Coef(q, j)) * inv
  {
    if q != [] {
      ScatteredIsTerm(q[..|q| - 1], w, inv, j);
      ScatterAlgebra(w, Coef(q[..|q| - 1], j), q[|q| - 1].1, inv);
    }
  }

  lemma ScatterAlgebra(w: real, x: real, y: real, inv: real)
    ensures (w * (x + y)) * inv == (w * x) * inv + (w * y) * inv
  {
  }

  /** Scatter of one eliminated vertex's whole row. */
  method ScatterRow(q: Row, w: real, inv: real, i: nat, work: array<real>, touched: seq<nat>) returns (touched': seq<nat>)
    requires InRange(q, work.Length) && Tracks(work[..], touched, i)
    modifies work
    ensures forall j :: 0 <= j < work.Length ==> work[j] == old(work[j]) - Scattered(q, w, inv, j)
    ensures Tracks(work[..], touched', i)
  {
    touched' := touched;
    for s := 0 to |q|
      invariant forall j :: 0 <= j < work.Length ==> work[j] == old(work[j]) - Scattered(q[..s], w, inv, j)
      invariant Tracks(work[..], touched', i)
    {
      var (j, v) := q[s];
      assert q[..s + 1][..s] == q[..s];
      touched' := ScatterOne(work, touched', i, j, (w * v) * inv);
    }
    assert q[..|q|] == q;
  }

  /** What eliminating the vertices listed in `r` removes from column `j`. */
  ghost function Removed(c: CsrBlock, inv: Vec, r: Row, j: int): real
    requires c.Valid() && InRange(r, c.nrows)
  {
    if r == [] then 0.0
    else Removed(c, inv, r[..|r| - 1], j) + Scattered(c.Row(r[|r| - 1].0), r[|r| - 1].1, inv(r[|r| - 1].0), j)
  }

  lemma {:induction false} RemovedIsFold(m: SddmMatrix, inv: Vec, r: Row, j: int)
    requires m.crossTab.c.Valid() && InRange(r, m.NEliminated())
    ensures Removed(m.crossTab.c, inv, r, j) == Fold(r, Term(m.Block(), inv, j))
  {
    hide Scattered;
    hide Coef;
    hide CsrBlock.Valid;
    if r != [] {
      RemovedIsFold(m, inv, r[..|r| - 1], j);
      var (k, w) := r[|r| - 1];
      ScatteredIsTerm(m.crossTab.c.Row(k), w, inv(k), j);
    }
  }

  /** Folding the loadings of column `i` of `b` gives the fill of row `i`. */
  lemma TermsAreFill(r: Row, e: nat, b: Mat, inv: Vec, i: int, j: int)
    requires InRange(r, e) && Ascending(r)
    requires forall k {:trigger Coef(r, k)} :: 0 <= k < e ==> Coef(r, k) == b(k, i)
    ensures Fold(r, Term(b, inv, j)) == Fill(e, b, inv, i)(j)
  {
    hide Sum;
    var g, w, col := Term(b, inv, j), Weighted(b, inv, i), ColOf(b, j);
    FoldIsSum(r, e, g);
    forall k | 0 <= k < e ensures g(k, Coef(r, k)) == w(k) * col(k) { Rotate(b(k, i), b(k, j), inv(k)); }
    SumCong(e, k => g(k, Coef(r, k)), k => w(k) * col(k));
  }

  lemma TransposedCoef(x: CrossTab, i: nat, k: nat)
    requires x.Valid() && i < x.NCols() && k < x.NRows()
    ensures Coef(x.ct.Row(i), k) == x.c.Entry(k, i)
  {
    TransposeEntry(x.c, x.ct, k, i);
    assert x.ct.Entry(i, k) == Coef(x.ct.Row(i), k);
  }

  /** The accumulated terms of row `i` are the fill of the Schur complement. */
  lemma RemovedIsFill(m: SddmMatrix, inv: Vec, i: nat, j: nat)
    requires m.crossTab.Valid() && i < m.NKept() && j < m.NKept()
    ensures Removed(m.crossTab.c, inv, m.crossTab.ct.Row(i), j) == Fill(m.NEliminated(), m.Block(), inv, i)(j)
  {
    var e, r, b := m.NEliminated(), m.crossTab.ct.Row(i), m.Block();
    RemovedIsFold(m, inv, r, j);
    forall k {:trigger Coef(r, k)} | 0 <= k < e ensures Coef(r, k) == b(k, i) { TransposedCoef(m.crossTab, i, k); }
    TermsAreFill(r, e, b, inv, i, j);
  }

  lemma SchurEntryIsRemainder(m: SddmMatrix, inv: Vec, i: nat, j: nat)
    requires m.crossTab.Valid() && |m.diagonal| == m.crossTab.NLocal() && i < m.NKept() && j < m.NKept()
    ensures Schur(m.NEliminated(), m.Block(), At(m.diagonal), inv)(i, j)
            == Delta(i, m.diagonal[m.NEliminated() + i])(j) - Removed(m.crossTab.c, inv, m.crossTab.ct.Row(i), j)
  {
    RemovedIsFill(m, inv, i, j);
  }

  /** `compute_schur_row_dense`: the workspace holds row `i` of the Schur complement. */
  method ComputeSchurRowDense(m: SddmMatrix, inv: seq<real>, i: nat, work: array<real>) returns (touched: seq<nat>)
    requires m.crossTab.Valid() && |m.diagonal| == m.crossTab.NLocal() && |inv| == m.NEliminated()
    requires i < m.NKept() == work.Length
    requires forall j :: 0 <= j < work.Length ==> work[j] == 0.0
    modifies work
    ensures forall j :: 0 <= j < work.Length ==>
              work[j] == Schur(m.NEliminated(), m.Block(), At(m.diagonal), At(inv))(i, j)
    ensures Tracks(work[..], touched, i)
  {
    var d := m.diagonal[m.NEliminated() + i];
    touched := EliminateInto(m.crossTab.c, m.crossTab.ct.Row(i), d, inv, i, work);
    forall j | 0 <= j < work.Length
      ensures work[j] == Schur(m.NEliminated(), m.Block(), At(m.diagonal), At(inv))(i, j)
    {
      SchurEntryIsRemainder(m, At(inv), i, j);
    }
  }

  /** The double loop over the eliminated neighbours of `i` and their rows. */
  method EliminateInto(c: CsrBlock, r: Row, d: real, inv: seq<real>, i: nat, work: array<real>) returns (touched: seq<nat>)
    requires c.Valid() && InRange(r, c.nrows) && |inv| == c.nrows && i < c.ncols == work.Length
    requires forall j :: 0 <= j < work.Length ==> work[j] == 0.0
    modifies work
    ensures forall j :: 0 <= j < work.Length ==> work[j] == Delta(i, d)(j) - Removed(c, At(inv), r, j)
    ensures Tracks(work[..], touched, i)
  {
    work[i] := d;
    touched := [i];
    for t := 0 to |r|
      invariant forall j :: 0 <= j < work.Length ==> work[j] == Delta(i, d)(j) - Removed(c, At(inv), r[..t], j)
      invariant Tracks(work[..], touched, i)
    {
      var (k, w) := r[t];
      assert r[..t + 1][..t] == r[..t];
      touched := ScatterRow(c.Row(k), w, inv[k], i, work, touched);
    }
    assert r[..|r|] == r;
  }

  /** A row of the reduced matrix: ascending, no stored zero except possibly the diagonal,
      and the diagonal always stored. */
  ghost predicate ReducedRow(r: Row, i: nat, n: nat) {
    && Ascending(r) && InRange(r, n)
    && HasColumn(r, i)
    && (forall t :: 0 <= t < |r| ==> r[t].1 != 0.0 || r[t].0 == i)
  }

  lemma OneOccurrence(s: seq<nat>, t: seq<nat>, i: nat, u: nat, v: nat)
    requires |s| > 0 && s[0] == i && (forall k :: 0 < k < |s| ==> s[k] != i)
    requires multiset(s) == multiset(t) && u < v < |t| && t[v] == i
    ensures t[u] != i
  {
    assert s == [s[0]] + s[1..];
    assert i !in s[1..];
    assert multiset(s)[i] == 1;
    assert t == t[..v] + [t[v]] + t[v + 1..];
    assert t[..v][u] == t[u];
  }

  /** The state of the extraction after the first `p` recorded columns. */
  ghost predicate Extracting(w0: seq<real>, work: seq<real>, seen: seq<nat>, row: Row, i: nat) {
    && |work| == |w0| && Ascending(row) && InRange(row, |w0|)
    && (forall t :: 0 <= t < |row| ==> row[t].0 in seen)
    && (forall t :: 0 <= t < |row| ==> row[t].1 != 0.0 || row[t].0 == i)
    && (i in seen ==> HasColumn(row, i))
    && (forall j: nat :: j < |w0| ==> ExtractedAt(w0, work, seen, row, j))
  }

  ghost predicate HasColumn(row: Row, i: nat) { exists t :: 0 <= t < |row| && row[t].0 == i }

  ghost predicate ExtractedAt(w0: seq<real>, work: seq<real>, seen: seq<nat>, row: Row, j: nat)
    requires j < |w0| == |work|
  {
    if j in seen then work[j] == 0.0 && Coef(row, j) == w0[j] else work[j] == w0[j] && Coef(row, j) == 0.0
  }

  /** One column of the extraction; a column seen before now reads zero and is skipped. */
  lemma ExtractOne(w0: seq<real>, work: seq<real>, seen: seq<nat>, row: Row, i: nat, j: nat)
    requires Extracting(w0, work, seen, row, i) && j < |w0|
    requires forall u :: 0 <= u < |seen| ==> seen[u] <= j
    requires j == i ==> j !in seen
    ensures var v := work[j];
      var row' := if v != 0.0 || j == i then row + [(j, v)] else row;
      Extracting(w0, work[j := 0.0], seen + [j], row', i)
  {
    var v := work[j];
    var emit := v != 0.0 || j == i;
    var row' := if emit then row + [(j, v)] else row;
    assert ExtractedAt(w0, work, seen, row, j);
    if emit {
      assert j !in seen;
      forall s, t | 0 <= s < t < |row'| ensures row'[s].0 < row'[t].0 {
        if t == |row| { assert row[s].0 in seen; }
      }
      assert i in seen + [j] ==> HasColumn(row', i) by {
        if j == i { assert row'[|row|].0 == i; }
        else if i in seen { var t :| 0 <= t < |row| && row[t].0 == i; assert row'[t].0 == i; }
      }
    }
    var work', seen' := work[j := 0.0], seen + [j];
    forall k: nat | k < |w0| ensures ExtractedAt(w0, work', seen', row', k) {
      assert ExtractedAt(w0, work, seen, row, k);
      if emit { CoefOfPush(row, j, v, k); }
    }
  }

  /** `sorted` is the touched list in column order. */
  ghost predicate SortedTouched(touched: seq<nat>, sorted: seq<nat>, i: nat) {
    && multiset(sorted) == multiset(touched) && (forall x :: x in sorted <==> x in touched)
    && |touched| > 0 && touched[0] == i && (forall u :: 0 < u < |touched| ==> touched[u] != i)
    && (forall u, v :: 0 <= u < v < |sorted| ==> sorted[u] <= sorted[v])
  }

  lemma SortTouched(w0: seq<real>, touched: seq<nat>, i: nat)
    requires Tracks(w0, touched, i)
    ensures SortedTouched(touched, SortNats(touched), i) && Extracting(w0, w0, [], [], i)
    ensures forall j :: j in SortNats(touched) ==> j < |w0|
  {
    hide Sorting.Sort;
    SortNatsSorted(touched);
    forall j: nat | j < |w0| ensures ExtractedAt(w0, w0, [], [], j) {}
  }

  lemma ExtractNext(w0: seq<real>, work: seq<real>, touched: seq<nat>, sorted: seq<nat>, p: nat, row: Row, i: nat)
    requires SortedTouched(touched, sorted, i) && p < |sorted| && sorted[p] < |w0|
    requires Extracting(w0, work, sorted[..p], row, i)
    ensures var (j, v) := (sorted[p], work[sorted[p]]);
      Extracting(w0, work[j := 0.0], sorted[..p + 1], if v != 0.0 || j == i then row + [(j, v)] else row, i)
  {
    hide SortNats;
    hide ExtractedAt;
    var j := sorted[p];
    if j == i {
      forall u | 0 <= u < p ensures sorted[u] != i { OneOccurrence(touched, sorted, i, u, p); }
    }
    ExtractOne(w0, work, sorted[..p], row, i, j);
    assert sorted[..p + 1] == sorted[..p] + [j];
  }

  lemma ExtractedAll(w0: seq<real>, work: seq<real>, touched: seq<nat>, sorted: seq<nat>, row: Row, i: nat)
    requires Tracks(w0, touched, i) && SortedTouched(touched, sorted, i) && Extracting(w0, work, sorted, row, i)
    ensures ReducedRow(row, i, |w0|) && forall j :: 0 <= j < |w0| ==> Coef(row, j) == w0[j] && work[j] == 0.0
  {
    assert i in touched;
    forall j: nat | j < |w0| ensures Coef(row, j) == w0[j] && work[j] == 0.0 {
      assert ExtractedAt(w0, work, sorted, row, j);
    }
  }

  /** `extract_sparse_row`: the nonzero cells in column order, the diagonal kept even at
      zero, and the workspace zeroed for the next row. */
  method ExtractSparseRow(i: nat, work: array<real>, touched: seq<nat>) returns (row: Row)
    requires Tracks(work[..], touched, i)
    modifies work
    ensures ReducedRow(row, i, work.Length)
    ensures forall j :: 0 <= j < work.Length ==> Coef(row, j) == old(work[j]) && work[j] == 0.0
  {
    hide Extracting;
    hide SortNats;
    var sorted := SortNats(touched);
    row := [];
    ghost var w0 := work[..];
    SortTouched(w0, touched, i);
    for p := 0 to |sorted|
      invariant Extracting(w0, work[..], sorted[..p], row, i)
    {
      var j := sorted[p];
      assert j in sorted;
      ghost var was := work[..];
      ExtractNext(w0, was, touched, sorted, p, row, i);
      var v := work[j];
      if v != 0.0 || j == i {
        row := row + [(j, v)];
      }
      work[j] := 0.0;
      assert work[..] == was[j := 0.0];
    }
    assert sorted[..|sorted|] == sorted;
    ExtractedAll(w0, work[..], touched, sorted, row, i);
  }

  /** `exact`: the reduced matrix, one sorted row per kept vertex, one workspace for all. */
  method Exact(m: SddmMatrix, inv: seq<real>) returns (s: CsrBlock)
    requires m.crossTab.Valid() && |m.diagonal| == m.crossTab.NLocal() && |inv| == m.NEliminated()
    ensures s.Valid() && s.nrows == s.ncols == m.NKept()
    ensures forall i: nat :: i < m.NKept() ==> ReducedRow(s.Row(i), i, m.NKept())
    ensures forall i: nat, j: nat :: i < m.NKept() && j < m.NKept() ==>
              s.Entry(i, j) == Schur(m.NEliminated(), m.Block(), At(m.diagonal), At(inv))(i, j)
  {
    var n := m.NKept();
    var work := new real[n](_ => 0.0);
    s := Empty(n);
    for i := 0 to n
      invariant s.Valid() && s.nrows == i && s.ncols == n
      invariant forall j :: 0 <= j < n ==> work[j] == 0.0
      invariant forall k: nat :: k < i ==> IsSchurRow(m, inv, s.Row(k), k)
    {
      var touched := ComputeSchurRowDense(m, inv, i, work);
      var row := ExtractSparseRow(i, work, touched);
      AppendRows(s, row);
      s := Append(s, row);
    }
    forall i: nat, j: nat | i < n && j < n
      ensures s.Entry(i, j) == Schur(m.NEliminated(), m.Block(), At(m.diagonal), At(inv))(i, j)
    {
      assert IsSchurRow(m, inv, s.Row(i), i);
    }
  }

  ghost predicate IsSchurRow(m: SddmMatrix, inv: seq<real>, r: Row, i: nat) {
    && ReducedRow(r, i, m.NKept())
    && forall j: nat :: j < m.NKept() ==> Coef(r, j) == Schur(m.NEliminated(), m.Block(), At(m.diagonal), At(inv))(i, j)
  }
}
