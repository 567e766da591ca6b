/** Accumulating a channel pair's cross block: the dense table and the bucketed sparse path
    give the same block (crates/within/src/domain/cross_tab/accumulate.rs:66-273). */
module Accumulation {
  import opened Wrappers
  import opened Sums
  import opened Csr
  import opened RowFilling
  import opened Sorting

  datatype ActiveLevels = ActiveLevels(rowMap: seq<Option<nat>>, nRows: nat, colMap: seq<Option<nat>>, nCols: nat) {
    ghost predicate Valid() {
      && (forall l :: 0 <= l < |rowMap| && rowMap[l].Some? ==> rowMap[l].value < nRows)
      && (forall l :: 0 <= l < |colMap| && colMap[l].Some? ==> colMap[l].value < nCols)
    }
  }

  /** Left to right, so that a zero weight comes first. */
  function Thrice(w: real, x: real, y: real): real { w * x * y }

  /** One observation's part of the Gram matrix. */
  datatype Contribution = Contribution(cj: nat, ck: nat, cell: real, rowDiag: real, colDiag: real)

  /** The columns behind one pair; an absent loading is the intercept's, an absent weight 1. */
  datatype PairColumns = PairColumns(rowLevels: seq<nat>, colLevels: seq<nat>, rowLoad: Option<seq<real>>,
                                     colLoad: Option<seq<real>>, weights: Option<seq<real>>) {
    predicate Fits(active: ActiveLevels) {
      && |rowLevels| == |colLevels|
      && (forall u :: 0 <= u < |rowLevels| ==> rowLevels[u] < |active.rowMap| && colLevels[u] < |active.colMap|)
      && (rowLoad.Some? ==> |rowLoad.value| == |rowLevels|)
      && (colLoad.Some? ==> |colLoad.value| == |rowLevels|)
      && (weights.Some? ==> |weights.value| == |rowLevels|)
    }

    /** `decode`: nothing when either level is inactive. */
    function Decode(active: ActiveLevels, uid: nat): (o: Option<Contribution>)
      requires Fits(active) && uid < |rowLevels|
    {
      var (cj, ck) := (active.rowMap[rowLevels[uid]], active.colMap[colLevels[uid]]);
      if cj.None? || ck.None? then None
      else
        var w := if weights.Some? then weights.value[uid] else 1.0;
        var lRow := if rowLoad.Some? then rowLoad.value[uid] else 1.0;
        var lCol := if colLoad.Some? then colLoad.value[uid] else 1.0;
        Some(Contribution(cj.value, ck.value, Thrice(w, lRow, lCol), Thrice(w, lRow, lRow), Thrice(w, lCol, lCol)))
    }
  }

  lemma DecodedInRange(p: PairColumns, active: ActiveLevels, uid: nat)
    requires p.Fits(active) && active.Valid() && uid < |p.rowLevels| && p.Decode(active, uid).Some?
    ensures p.Decode(active, uid).value.cj < active.nRows && p.Decode(active, uid).value.ck < active.nCols
  {
  }

  // ---- What is accumulated -----------------------------------------------------------------

  /** What observation `uid` adds to cell (i, j). */
  ghost function CellAt(p: PairColumns, active: ActiveLevels, i: int, j: int): int -> real {
    uid =>
      if p.Fits(active) && 0 <= uid < |p.rowLevels| && p.Decode(active, uid).Some? && p.Decode(active, uid).value.cj == i && p.Decode(active, uid).value.ck == j
      then p.Decode(active, uid).value.cell else 0.0
  }

  ghost function RowDiagAt(p: PairColumns, active: ActiveLevels, i: int): int -> real {
    uid =>
      if p.Fits(active) && 0 <= uid < |p.rowLevels| && p.Decode(active, uid).Some? && p.Decode(active, uid).value.cj == i
      then p.Decode(active, uid).value.rowDiag else 0.0
  }

  ghost function ColDiagAt(p: PairColumns, active: ActiveLevels, j: int): int -> real {
    uid =>
      if p.Fits(active) && 0 <= uid < |p.rowLevels| && p.Decode(active, uid).Some? && p.Decode(active, uid).value.ck == j
      then p.Decode(active, uid).value.colDiag else 0.0
  }

  ghost predicate DiagonalsUpTo(p: PairColumns, active: ActiveLevels, rowDiag: seq<real>, colDiag: seq<real>, n: nat) {
    && |rowDiag| == active.nRows && |colDiag| == active.nCols
    && (forall i :: 0 <= i < |rowDiag| ==> rowDiag[i] == Sum(n, RowDiagAt(p, active, i)))
    && (forall j :: 0 <= j < |colDiag| ==> colDiag[j] == Sum(n, ColDiagAt(p, active, j)))
  }

  /** The block and both diagonals hold the sums over all observations, the block in
      canonical form: columns ascend strictly and no stored value is zero. */
  ghost predicate Accumulated(p: PairColumns, active: ActiveLevels, c: CsrBlock, rowDiag: seq<real>, colDiag: seq<real>) {
    && c.Sorted() && c.Nonzero() && c.nrows == active.nRows && c.ncols == active.nCols
    && (forall i, j :: 0 <= i < c.nrows && 0 <= j < c.ncols ==> c.Entry(i, j) == Sum(|p.rowLevels|, CellAt(p, active, i, j)))
    && DiagonalsUpTo(p, active, rowDiag, colDiag, |p.rowLevels|)
  }

  /** Both paths agree: the accumulated triple is unique. */
  lemma AccumulatedUnique(p: PairColumns, active: ActiveLevels, c: CsrBlock, c': CsrBlock, r: seq<real>, r': seq<real>, k: seq<real>, k': seq<real>)
    requires Accumulated(p, active, c, r, k) && Accumulated(p, active, c', r', k')
    ensures c == c' && r == r' && k == k'
  {
    hide Sum;
    CanonicalBlocksUnique(c, c');
  }

  lemma NothingAccumulated(p: PairColumns, active: ActiveLevels, rowDiag: seq<real>, colDiag: seq<real>)
    requires rowDiag == seq(active.nRows, _ => 0.0) && colDiag == seq(active.nCols, _ => 0.0)
    ensures DiagonalsUpTo(p, active, rowDiag, colDiag, 0)
  {
  }

  /** An inactive observation adds nothing anywhere. */
  lemma Skipped(p: PairColumns, active: ActiveLevels, uid: nat, rowDiag: seq<real>, colDiag: seq<real>)
    requires p.Fits(active) && uid < |p.rowLevels| && p.Decode(active, uid).None? && DiagonalsUpTo(p, active, rowDiag, colDiag, uid)
    ensures DiagonalsUpTo(p, active, rowDiag, colDiag, uid + 1)
    ensures forall i, j :: CellAt(p, active, i, j)(uid) == 0.0
  {
    hide Sum;
    forall i | 0 <= i < |rowDiag| ensures rowDiag[i] == Sum(uid + 1, RowDiagAt(p, active, i)) { SumStep(uid, RowDiagAt(p, active, i)); }
    forall j | 0 <= j < |colDiag| ensures colDiag[j] == Sum(uid + 1, ColDiagAt(p, active, j)) { SumStep(uid, ColDiagAt(p, active, j)); }
  }

  lemma DiagonalsStep(p: PairColumns, active: ActiveLevels, uid: nat, rowDiag: seq<real>, colDiag: seq<real>)
    requires p.Fits(active) && active.Valid() && uid < |p.rowLevels| && p.Decode(active, uid).Some?
    requires DiagonalsUpTo(p, active, rowDiag, colDiag, uid)
    ensures var o := p.Decode(active, uid).value;
      && o.cj < |rowDiag| && o.ck < |colDiag|
      && DiagonalsUpTo(p, active, rowDiag[o.cj := rowDiag[o.cj] + o.rowDiag], colDiag[o.ck := colDiag[o.ck] + o.colDiag], uid + 1)
  {
    hide Sum;
    hide PairColumns.Decode;
    DecodedInRange(p, active, uid);
    var o := p.Decode(active, uid).value;
    var r, k := rowDiag[o.cj := rowDiag[o.cj] + o.rowDiag], colDiag[o.ck := colDiag[o.ck] + o.colDiag];
    forall i | 0 <= i < |r| ensures r[i] == Sum(uid + 1, RowDiagAt(p, active, i)) { SumStep(uid, RowDiagAt(p, active, i)); }
    forall j | 0 <= j < |k| ensures k[j] == Sum(uid + 1, ColDiagAt(p, active, j)) { SumStep(uid, ColDiagAt(p, active, j)); }
  }

  // ---- The dense path ----------------------------------------------------------------------

  /** Row-major position. */
  function Flat(i: nat, j: nat, ncols: nat): nat { i * ncols + j }

  lemma FlatPlace(i: nat, j: nat, k: nat, l: nat, nrows: nat, ncols: nat)
    requires i < nrows && j < ncols && k < nrows && l < ncols
    ensures Flat(i, j, ncols) < nrows * ncols
    ensures Flat(i, j, ncols) == Flat(k, l, ncols) ==> i == k && j == l
  {
    FlatBound(i, j, nrows, ncols);
    if i < k { FlatBound(i, j, k, ncols); }
    if k < i { FlatBound(k, l, i, ncols); }
  }

  lemma FlatBound(i: nat, j: nat, nrows: nat, ncols: nat)
    requires i < nrows && j < ncols
    ensures Flat(i, j, ncols) < nrows * ncols
  {
    assert (i + 1) * ncols == i * ncols + ncols;
    assert (i + 1) * ncols <= nrows * ncols;
  }

  ghost predicate TableUpTo(p: PairColumns, active: ActiveLevels, table: seq<real>, n: nat) {
    && |table| == active.nRows * active.nCols
    && forall i: nat, j: nat {:trigger Flat(i, j, active.nCols)} :: i < active.nRows && j < active.nCols ==>
         Flat(i, j, active.nCols) < |table| && table[Flat(i, j, active.nCols)] == Sum(n, CellAt(p, active, i, j))
  }

  lemma EmptyTable(p: PairColumns, active: ActiveLevels, table: seq<real>)
    requires |table| == active.nRows * active.nCols && forall q :: 0 <= q < |table| ==> table[q] == 0.0
    ensures TableUpTo(p, active, table, 0)
  {
    forall i: nat, j: nat {:trigger Flat(i, j, active.nCols)} | i < active.nRows && j < active.nCols ensures Flat(i, j, active.nCols) < |table| {
      FlatBound(i, j, active.nRows, active.nCols);
    }
  }

  lemma TableSkips(p: PairColumns, active: ActiveLevels, table: seq<real>, uid: nat)
    requires TableUpTo(p, active, table, uid) && forall i, j :: CellAt(p, active, i, j)(uid) == 0.0
    ensures TableUpTo(p, active, table, uid + 1)
  {
    hide Sum;
    hide Flat;
    hide CellAt;
    forall i: nat, j: nat {:trigger Flat(i, j, active.nCols)} | i < active.nRows && j < active.nCols
      ensures Flat(i, j, active.nCols) < |table| && table[Flat(i, j, active.nCols)] == Sum(uid + 1, CellAt(p, active, i, j))
    {
      SumStep(uid, CellAt(p, active, i, j));
    }
  }

  lemma TableStep(p: PairColumns, active: ActiveLevels, table: seq<real>, uid: nat, o: Contribution)
    requires p.Fits(active) && uid < |p.rowLevels| && p.Decode(active, uid) == Some(o) && o.cj < active.nRows && o.ck < active.nCols
    requires TableUpTo(p, active, table, uid)
    ensures var q := Flat(o.cj, o.ck, active.nCols); q < |table| && TableUpTo(p, active, table[q := table[q] + o.cell], uid + 1)
  {
    hide Sum;
    hide Flat;
    hide PairColumns.Decode;
    var n := active.nCols;
    FlatPlace(o.cj, o.ck, o.cj, o.ck, active.nRows, n);
    var q := Flat(o.cj, o.ck, n);
    var t := table[q := table[q] + o.cell];
    forall i: nat, j: nat {:trigger Flat(i, j, n)} | i < active.nRows && j < n
      ensures Flat(i, j, n) < |t| && t[Flat(i, j, n)] == Sum(uid + 1, CellAt(p, active, i, j))
    {
      SumStep(uid, CellAt(p, active, i, j));
      FlatPlace(i, j, o.cj, o.ck, active.nRows, n);
    }
  }

  /** The nonzero cells of the first `n` columns of a table row. */
  function RowOfTable(table: seq<real>, i: nat, ncols: nat, n: nat): (r: Row)
    requires n <= ncols && forall j: nat {:trigger Flat(i, j, ncols)} :: j < ncols ==> Flat(i, j, ncols) < |table|
  {
    if n == 0 then []
    else
      var (p, v) := (RowOfTable(table, i, ncols, n - 1), table[Flat(i, n - 1, ncols)]);
      if v != 0.0 then p + [(n - 1, v)] else p
  }

  lemma {:induction false} TableRowCanonical(table: seq<real>, i: nat, ncols: nat, n: nat)
    requires n <= ncols && forall j: nat {:trigger Flat(i, j, ncols)} :: j < ncols ==> Flat(i, j, ncols) < |table|
    ensures var r := RowOfTable(table, i, ncols, n);
      && Ascending(r) && NoZeros(r) && InRange(r, n)
      && forall j: nat :: j < ncols ==> Coef(r, j) == if j < n then table[Flat(i, j, ncols)] else 0.0
  {
    hide Flat;
    hide Coef;
    hide Ascending;
    hide NoZeros;
    hide InRange;
    if n == 0 {
      EmptyCanonical();
      forall j: nat | j < ncols ensures Coef([], j) == 0.0 { CoefAbsent([], j); }
    } else {
      TableRowCanonical(table, i, ncols, n - 1);
      CanonicalPush(RowOfTable(table, i, ncols, n - 1), n - 1, table[Flat(i, n - 1, ncols)]);
    }
  }

  lemma EmptyCanonical()
    ensures Ascending([]) && NoZeros([]) && InRange([], 0)
  {
  }

  /** A nonzero cell past the row's columns extends it. */
  lemma CanonicalPush(p: Row, c: nat, v: real)
    requires Ascending(p) && NoZeros(p) && InRange(p, c)
    ensures var r := if v != 0.0 then p + [(c, v)] else p;
      Ascending(r) && NoZeros(r) && InRange(r, c + 1) && forall j: nat :: Coef(r, j) == if j == c then v else Coef(p, j)
  {
    hide Coef;
    forall j: nat ensures Coef(p + [(c, v)], j) == Coef(p, j) + (if c == j then v else 0.0) { CoefOfPush(p, c, v, j); }
    CoefAbsent(p, c);
  }

  /** Every place of the table exists. */
  ghost predicate FullTable(table: seq<real>, nrows: nat, ncols: nat) {
    forall i: nat, j: nat {:trigger Flat(i, j, ncols)} :: i < nrows && j < ncols ==> Flat(i, j, ncols) < |table|
  }

  ghost predicate TableRows(c: CsrBlock, table: seq<real>, nrows: nat, ncols: nat)
    requires FullTable(table, nrows, ncols)
  {
    && c.Valid() && c.nrows <= nrows && c.ncols == ncols
    && forall k: nat :: k < c.nrows ==> c.Row(k) == RowOfTable(table, k, ncols, ncols)
  }

  /** The counting pass. */
  method TableRowPointers(table: seq<real>, nrows: nat, ncols: nat) returns (indptr: seq<nat>)
    requires FullTable(table, nrows, ncols)
    ensures |indptr| == nrows + 1 && indptr[0] == 0
    ensures forall k :: 0 <= k < nrows ==> indptr[k + 1] == indptr[k] + |RowOfTable(table, k, ncols, ncols)|
  {
    hide Flat;
    indptr := seq(nrows + 1, _ => 0);
    for i := 0 to nrows
      invariant |indptr| == nrows + 1 && indptr[0] == 0
      invariant forall k :: 0 <= k < i ==> indptr[k + 1] == indptr[k] + |RowOfTable(table, k, ncols, ncols)|
    {
      var count := 0;
      for j := 0 to ncols
        invariant count == |RowOfTable(table, i, ncols, j)|
      {
        if table[Flat(i, j, ncols)] != 0.0 {
          count := count + 1;
        }
      }
      indptr := indptr[i + 1 := indptr[i] + count];
    }
  }

  /** One row of the pushing pass. */
  method PushTableRow(table: seq<real>, i: nat, nrows: nat, ncols: nat, indices: seq<nat>, data: seq<real>)
    returns (indices': seq<nat>, data': seq<real>)
    requires FullTable(table, nrows, ncols) && i < nrows
    ensures indices' == indices + Cols(RowOfTable(table, i, ncols, ncols)) && data' == data + Vals(RowOfTable(table, i, ncols, ncols))
  {
    hide Flat;
    hide Cols;
    hide Vals;
    indices', data' := indices, data;
    NoCols();
    for j := 0 to ncols
      invariant indices' == indices + Cols(RowOfTable(table, i, ncols, j)) && data' == data + Vals(RowOfTable(table, i, ncols, j))
    {
      var v := table[Flat(i, j, ncols)];
      if v != 0.0 {
        PushCols(RowOfTable(table, i, ncols, j), j, v);
        indices' := indices' + [j];
        data' := data' + [v];
      }
    }
  }

  lemma NoCols()
    ensures Cols([]) == [] && Vals([]) == []
  {
  }

  /** `from_dense_table`: a counting pass for the row pointers, then the nonzero cells. */
  method FromDenseTable(table: seq<real>, nrows: nat, ncols: nat) returns (c: CsrBlock)
    requires FullTable(table, nrows, ncols)
    ensures TableRows(c, table, nrows, ncols) && c.nrows == nrows
  {
    hide Flat;
    hide TableRows;
    hide RowOfTable;
    hide Cols;
    hide Vals;
    var indptr := TableRowPointers(table, nrows, ncols);
    var indices: seq<nat>, data: seq<real> := [], [];
    ghost var b := Empty(ncols);
    NoTableRows(b, table, nrows, ncols);
    for i := 0 to nrows
      invariant b.nrows == i && b.ncols == ncols && TableRows(b, table, nrows, ncols)
      invariant b.indices == indices && b.data == data && b.indptr == indptr[..i + 1] && |indices| == indptr[i]
    {
      indices, data := PushTableRow(table, i, nrows, ncols, indices, data);
      ghost var r := RowOfTable(table, i, ncols, ncols);
      AppendTableRow(b, table, nrows, ncols, r);
      b := Append(b, r);
      assert indptr[..i + 2] == indptr[..i + 1] + [indptr[i + 1]];
    }
    c := CsrBlock(indptr, indices, data, nrows, ncols);
    assert indptr[..nrows + 1] == indptr;
    assert c == b;
  }

  lemma PushCols(r: Row, j: nat, v: real)
    ensures Cols(r + [(j, v)]) == Cols(r) + [j] && Vals(r + [(j, v)]) == Vals(r) + [v]
  {
  }

  lemma NoTableRows(b: CsrBlock, table: seq<real>, nrows: nat, ncols: nat)
    requires FullTable(table, nrows, ncols) && b == Empty(ncols)
    ensures TableRows(b, table, nrows, ncols)
  {
  }

  lemma AppendTableRow(b: CsrBlock, table: seq<real>, nrows: nat, ncols: nat, r: Row)
    requires FullTable(table, nrows, ncols) && TableRows(b, table, nrows, ncols) && b.nrows < nrows
    requires r == RowOfTable(table, b.nrows, ncols, ncols)
    ensures TableRows(Append(b, r), table, nrows, ncols)
  {
    hide Flat;
    hide RowOfTable;
    TableRowCanonical(table, b.nrows, ncols, ncols);
    AppendRows(b, r);
  }

  lemma TableFull(p: PairColumns, active: ActiveLevels, table: seq<real>, n: nat)
    requires TableUpTo(p, active, table, n)
    ensures FullTable(table, active.nRows, active.nCols)
  {
    hide Flat;
  }

  /** The dense block is canonical and holds the table. */
  lemma TableBlock(p: PairColumns, active: ActiveLevels, table: seq<real>, c: CsrBlock)
    requires TableUpTo(p, active, table, |p.rowLevels|) && FullTable(table, active.nRows, active.nCols)
    requires TableRows(c, table, active.nRows, active.nCols) && c.nrows == active.nRows
    ensures c.Sorted() && c.Nonzero()
    ensures forall i, j :: 0 <= i < c.nrows && 0 <= j < c.ncols ==> c.Entry(i, j) == Sum(|p.rowLevels|, CellAt(p, active, i, j))
  {
    hide Sum;
    hide Flat;
    hide Coef;
    hide CellAt;
    forall i: nat | i < c.nrows
      ensures Ascending(c.Row(i)) && NoZeros(c.Row(i))
      ensures forall j: nat :: j < c.ncols ==> Coef(c.Row(i), j) == table[Flat(i, j, c.ncols)]
    {
      TableRowCanonical(table, i, c.ncols, c.ncols);
    }
    forall i: nat, j: nat | i < c.nrows && j < c.ncols ensures c.Entry(i, j) == Sum(|p.rowLevels|, CellAt(p, active, i, j)) {
      assert Coef(c.Row(i), j) == table[Flat(i, j, c.ncols)];
    }
  }

  /** `accumulate_dense_cross_block` */
  method AccumulateDense(p: PairColumns, active: ActiveLevels) returns (c: CsrBlock, rowDiag: seq<real>, colDiag: seq<real>)
    requires p.Fits(active) && active.Valid()
    ensures Accumulated(p, active, c, rowDiag, colDiag)
  {
    hide Sum;
    hide Flat;
    hide CellAt;
    hide DiagonalsUpTo;
    hide TableUpTo;
    hide TableRows;
    hide PairColumns.Decode;
    rowDiag, colDiag := seq(active.nRows, _ => 0.0), seq(active.nCols, _ => 0.0);
    NothingAccumulated(p, active, rowDiag, colDiag);
    var table := seq(active.nRows * active.nCols, _ => 0.0);
    EmptyTable(p, active, table);
    for uid := 0 to |p.rowLevels|
      invariant DiagonalsUpTo(p, active, rowDiag, colDiag, uid) && TableUpTo(p, active, table, uid)
    {
      var decoded := p.Decode(active, uid);
      if decoded.None? {
        Skipped(p, active, uid, rowDiag, colDiag);
        TableSkips(p, active, table, uid);
        continue;
      }
      var o := decoded.value;
      DecodedInRange(p, active, uid);
      DiagonalsStep(p, active, uid, rowDiag, colDiag);
      TableStep(p, active, table, uid, o);
      rowDiag := rowDiag[o.cj := rowDiag[o.cj] + o.rowDiag];
      colDiag := colDiag[o.ck := colDiag[o.ck] + o.colDiag];
      var q := Flat(o.cj, o.ck, active.nCols);
      table := table[q := table[q] + o.cell];
    }
    TableFull(p, active, table, |p.rowLevels|);
    c := FromDenseTable(table, active.nRows, active.nCols);
    TableShape(c, table, active.nRows, active.nCols);
    TableBlock(p, active, table, c);
  }

  lemma TableShape(c: CsrBlock, table: seq<real>, nrows: nat, ncols: nat)
    requires FullTable(table, nrows, ncols) && TableRows(c, table, nrows, ncols)
    ensures c.ncols == ncols
  {
  }

  // ---- The sparse path ---------------------------------------------------------------------

  /** What the first `n` observations put into row `i`, in their order. */
  function RowPart(p: PairColumns, active: ActiveLevels, n: nat, i: nat): (r: Row)
    requires p.Fits(active) && n <= |p.rowLevels|
  {
    if n == 0 then []
    else
      var (q, d) := (RowPart(p, active, n - 1, i), p.Decode(active, n - 1));
      if d.Some? && d.value.cj == i then q + [(d.value.ck, d.value.cell)] else q
  }

  lemma PartStep(p: PairColumns, active: ActiveLevels, n: nat, i: nat)
    requires p.Fits(active) && n < |p.rowLevels|
    ensures var d := p.Decode(active, n);
      RowPart(p, active, n + 1, i) == if d.Some? && d.value.cj == i then RowPart(p, active, n, i) + [(d.value.ck, d.value.cell)] else RowPart(p, active, n, i)
  {
  }

  lemma {:induction false} PartGrows(p: PairColumns, active: ActiveLevels, n: nat, m: nat, i: nat)
    requires p.Fits(active) && n <= m <= |p.rowLevels|
    ensures |RowPart(p, active, n, i)| <= |RowPart(p, active, m, i)|
    decreases m
  {
    if n < m { PartGrows(p, active, n, m - 1, i); }
  }

  lemma {:induction false} PartInRange(p: PairColumns, active: ActiveLevels, n: nat, i: nat)
    requires p.Fits(active) && active.Valid() && n <= |p.rowLevels|
    ensures InRange(RowPart(p, active, n, i), active.nCols)
  {
    if n > 0 { PartInRange(p, active, n - 1, i); }
  }

  /** A row's bucket carries exactly the cells of that row. */
  lemma {:induction false} PartCoef(p: PairColumns, active: ActiveLevels, n: nat, i: nat, j: nat)
    requires p.Fits(active) && n <= |p.rowLevels|
    ensures Coef(RowPart(p, active, n, i), j) == Sum(n, CellAt(p, active, i, j))
  {
    hide Coef;
    hide PairColumns.Decode;
    if n == 0 {
      CoefAbsent([], j);
    } else {
      PartCoef(p, active, n - 1, i, j);
      SumStep(n - 1, CellAt(p, active, i, j));
      var d := p.Decode(active, n - 1);
      if d.Some? { CoefOfPush(RowPart(p, active, n - 1, i), d.value.ck, d.value.cell, j); }
    }
  }

  /** Where each row's bucket begins. */
  ghost predicate BucketLayout(p: PairColumns, active: ActiveLevels, starts: seq<nat>) {
    && p.Fits(active) && |starts| == active.nRows + 1 && starts[0] == 0
    && forall i {:trigger RowPart(p, active, |p.rowLevels|, i)} :: 0 <= i < active.nRows ==> starts[i + 1] == starts[i] + |RowPart(p, active, |p.rowLevels|, i)|
  }

  lemma BucketEnd(p: PairColumns, active: ActiveLevels, starts: seq<nat>, i: nat)
    requires BucketLayout(p, active, starts) && i < active.nRows
    ensures starts[i + 1] == starts[i] + |RowPart(p, active, |p.rowLevels|, i)|
  {
  }

  lemma {:induction false} BucketMono(p: PairColumns, active: ActiveLevels, starts: seq<nat>, i: nat, j: nat)
    requires BucketLayout(p, active, starts) && i <= j <= active.nRows
    ensures starts[i] <= starts[j]
    decreases j
  {
    if i < j {
      BucketMono(p, active, starts, i, j - 1);
      BucketEnd(p, active, starts, j - 1);
    }
  }

  ghost predicate BucketAt(p: PairColumns, active: ActiveLevels, starts: seq<nat>, cursor: seq<nat>, cols: seq<nat>, vals: seq<real>, n: nat, i: nat)
    requires p.Fits(active) && n <= |p.rowLevels| && i < |starts| && i < |cursor|
  {
    cursor[i] == starts[i] + |RowPart(p, active, n, i)| && Holds(cols, vals, starts[i], RowPart(p, active, n, i))
  }

  ghost predicate Bucketed(p: PairColumns, active: ActiveLevels, starts: seq<nat>, cursor: seq<nat>, cols: seq<nat>, vals: seq<real>, n: nat) {
    && BucketLayout(p, active, starts) && n <= |p.rowLevels|
    && |cursor| == active.nRows && |cols| == |vals| == starts[active.nRows]
    && forall i :: 0 <= i < active.nRows ==> BucketAt(p, active, starts, cursor, cols, vals, n, i)
  }

  lemma EmptyBuckets(p: PairColumns, active: ActiveLevels, starts: seq<nat>, cursor: seq<nat>, cols: seq<nat>, vals: seq<real>)
    requires BucketLayout(p, active, starts) && cursor == starts[..active.nRows] && |cols| == |vals| == starts[active.nRows]
    ensures Bucketed(p, active, starts, cursor, cols, vals, 0)
  {
    forall i | 0 <= i < active.nRows ensures BucketAt(p, active, starts, cursor, cols, vals, 0, i) {
      BucketMono(p, active, starts, i, active.nRows);
    }
  }

  lemma BucketsSkip(p: PairColumns, active: ActiveLevels, starts: seq<nat>, cursor: seq<nat>, cols: seq<nat>, vals: seq<real>, n: nat)
    requires Bucketed(p, active, starts, cursor, cols, vals, n) && n < |p.rowLevels| && p.Decode(active, n).None?
    ensures Bucketed(p, active, starts, cursor, cols, vals, n + 1)
  {
    hide Holds;
    hide PairColumns.Decode;
    var next := n + 1;
    forall i | 0 <= i < active.nRows ensures BucketAt(p, active, starts, cursor, cols, vals, next, i) {
      PartStep(p, active, n, i);
      assert BucketAt(p, active, starts, cursor, cols, vals, n, i);
    }
  }

  lemma BucketOther(p: PairColumns, active: ActiveLevels, starts: seq<nat>, n: nat, a: nat, i: nat, q: nat)
    requires BucketLayout(p, active, starts) && n <= |p.rowLevels| && a < active.nRows && i < active.nRows && i != a
    requires starts[a] <= q < starts[a + 1]
    ensures !(starts[i] <= q < starts[i] + |RowPart(p, active, n, i)|)
  {
    hide RowPart;
    PartGrows(p, active, n, |p.rowLevels|, i);
    BucketEnd(p, active, starts, i);
    if i < a { BucketMono(p, active, starts, i + 1, a); } else { BucketMono(p, active, starts, a + 1, i); }
  }

  /** Room is left in the bucket of the next contribution. */
  lemma BucketRoom(p: PairColumns, active: ActiveLevels, starts: seq<nat>, n: nat, o: Contribution)
    requires BucketLayout(p, active, starts) && n < |p.rowLevels| && p.Decode(active, n) == Some(o) && o.cj < active.nRows
    ensures starts[o.cj] + |RowPart(p, active, n, o.cj)| < starts[o.cj + 1] <= starts[active.nRows]
  {
    hide RowPart;
    hide PairColumns.Decode;
    PartStep(p, active, n, o.cj);
    PartGrows(p, active, n + 1, |p.rowLevels|, o.cj);
    BucketEnd(p, active, starts, o.cj);
    BucketMono(p, active, starts, o.cj + 1, active.nRows);
  }

  lemma BucketStep(p: PairColumns, active: ActiveLevels, starts: seq<nat>, cursor: seq<nat>, cols: seq<nat>, vals: seq<real>, n: nat, o: Contribution)
    requires Bucketed(p, active, starts, cursor, cols, vals, n) && n < |p.rowLevels| && p.Decode(active, n) == Some(o) && o.cj < active.nRows
    ensures var pos := cursor[o.cj];
      && pos < |cols|
      && Bucketed(p, active, starts, cursor[o.cj := pos + 1], cols[pos := o.ck], vals[pos := o.cell], n + 1)
  {
    hide Holds;
    hide RowPart;
    hide PairColumns.Decode;
    var a, next := o.cj, n + 1;
    assert BucketAt(p, active, starts, cursor, cols, vals, n, a);
    BucketRoom(p, active, starts, n, o);
    var pos := cursor[a];
    var cursor', cols', vals' := cursor[a := pos + 1], cols[pos := o.ck], vals[pos := o.cell];
    forall i | 0 <= i < active.nRows ensures BucketAt(p, active, starts, cursor', cols', vals', next, i) {
      PartStep(p, active, n, i);
      assert BucketAt(p, active, starts, cursor, cols, vals, n, i);
      if i == a {
        WriteNext(cols, vals, starts[i], RowPart(p, active, n, i), o.ck, o.cell);
      } else {
        BucketOther(p, active, starts, n, a, i, pos);
        WriteElsewhere(cols, vals, starts[i], RowPart(p, active, n, i), pos, o.ck, o.cell);
      }
    }
  }

  /** The first pass: diagonals and row counts. */
  method CountRows(p: PairColumns, active: ActiveLevels) returns (counts: seq<nat>, rowDiag: seq<real>, colDiag: seq<real>)
    requires p.Fits(active) && active.Valid()
    ensures DiagonalsUpTo(p, active, rowDiag, colDiag, |p.rowLevels|)
    ensures |counts| == active.nRows && forall i :: 0 <= i < |counts| ==> counts[i] == |RowPart(p, active, |p.rowLevels|, i)|
  {
    hide Sum;
    hide DiagonalsUpTo;
    hide CellAt;
    hide PairColumns.Decode;
    rowDiag, colDiag := seq(active.nRows, _ => 0.0), seq(active.nCols, _ => 0.0);
    NothingAccumulated(p, active, rowDiag, colDiag);
    counts := seq(active.nRows, _ => 0);
    for uid := 0 to |p.rowLevels|
      invariant DiagonalsUpTo(p, active, rowDiag, colDiag, uid)
      invariant |counts| == active.nRows && forall i :: 0 <= i < |counts| ==> counts[i] == |RowPart(p, active, uid, i)|
    {
      var decoded := p.Decode(active, uid);
      if decoded.None? {
        Skipped(p, active, uid, rowDiag, colDiag);
        continue;
      }
      var o := decoded.value;
      DecodedInRange(p, active, uid);
      DiagonalsStep(p, active, uid, rowDiag, colDiag);
      rowDiag := rowDiag[o.cj := rowDiag[o.cj] + o.rowDiag];
      colDiag := colDiag[o.ck := colDiag[o.ck] + o.colDiag];
      counts := counts[o.cj := counts[o.cj] + 1];
    }
  }

  /** The second pass: every contribution into its row's bucket. */
  method FillBuckets(p: PairColumns, active: ActiveLevels, counts: seq<nat>) returns (starts: seq<nat>, cols: seq<nat>, vals: seq<real>)
    requires p.Fits(active) && active.Valid()
    requires |counts| == active.nRows && forall i :: 0 <= i < |counts| ==> counts[i] == |RowPart(p, active, |p.rowLevels|, i)|
    ensures BucketLayout(p, active, starts) && |cols| == |vals| == starts[active.nRows]
    ensures forall i :: 0 <= i < active.nRows ==> Holds(cols, vals, starts[i], RowPart(p, active, |p.rowLevels|, i))
  {
    hide Holds;
    hide RowPart;
    hide PairColumns.Decode;
    starts := seq(active.nRows + 1, _ => 0);
    for i := 0 to active.nRows
      invariant |starts| == active.nRows + 1 && starts[0] == 0
      invariant forall k {:trigger RowPart(p, active, |p.rowLevels|, k)} :: 0 <= k < i ==> starts[k + 1] == starts[k] + |RowPart(p, active, |p.rowLevels|, k)|
    {
      starts := starts[i + 1 := starts[i] + counts[i]];
    }
    cols, vals := seq(starts[active.nRows], _ => 0), seq(starts[active.nRows], _ => 0.0);
    var cursor: seq<nat> := starts[..active.nRows];
    EmptyBuckets(p, active, starts, cursor, cols, vals);
    for uid := 0 to |p.rowLevels|
      invariant Bucketed(p, active, starts, cursor, cols, vals, uid)
    {
      var decoded := p.Decode(active, uid);
      if decoded.None? {
        BucketsSkip(p, active, starts, cursor, cols, vals, uid);
        continue;
      }
      var o := decoded.value;
      DecodedInRange(p, active, uid);
      BucketStep(p, active, starts, cursor, cols, vals, uid, o);
      var pos := cursor[o.cj];
      cols, vals := cols[pos := o.ck], vals[pos := o.cell];
      cursor := cursor[o.cj := cursor[o.cj] + 1];
    }
    forall i | 0 <= i < active.nRows ensures Holds(cols, vals, starts[i], RowPart(p, active, |p.rowLevels|, i)) {
      assert BucketAt(p, active, starts, cursor, cols, vals, |p.rowLevels|, i);
    }
  }

  /** Every nonzero workspace cell is on the list, however often. */
  ghost predicate Noted(work: seq<real>, touched: seq<nat>) {
    && (forall t :: 0 <= t < |touched| ==> touched[t] < |work|)
    && (forall j: nat :: j < |work| && work[j] != 0.0 ==> j in touched)
  }

  lemma NotedAfter(work: seq<real>, touched: seq<nat>, j: nat, v: real)
    requires Noted(work, touched) && j < |work|
    ensures Noted(work[j := work[j] + v], if work[j] == 0.0 then touched + [j] else touched)
  {
    var t := if work[j] == 0.0 then touched + [j] else touched;
    var w := work[j := work[j] + v];
    forall k: nat | k < |w| && w[k] != 0.0 ensures k in t {
      if k == j {
        if work[j] == 0.0 { assert t[|touched|] == j; }
      } else {
        assert k in touched;
      }
    }
  }

  /** Adding one bucket into the workspace. A cell that cancels to zero midway is listed again
      when it is next touched. */
  method ScatterBucket(cols: seq<nat>, vals: seq<real>, start: nat, end: nat, work: array<real>, ghost r: Row) returns (touched: seq<nat>)
    requires Holds(cols, vals, start, r) && end == start + |r| && InRange(r, work.Length)
    requires forall j :: 0 <= j < work.Length ==> work[j] == 0.0
    modifies work
    ensures Noted(work[..], touched) && forall j :: 0 <= j < work.Length ==> work[j] == Coef(r, j)
  {
    hide Coef;
    hide Noted;
    touched := [];
    NothingNoted(work[..]);
    forall j | 0 <= j < work.Length ensures Coef(r[..0], j) == 0.0 { CoefAbsent(r[..0], j); }
    for idx := start to end
      invariant Noted(work[..], touched) && forall j :: 0 <= j < work.Length ==> work[j] == Coef(r[..idx - start], j)
    {
      ghost var t := idx - start;
      assert cols[start + t] == r[t].0 && vals[start + t] == r[t].1;
      var col := cols[idx];
      ghost var was := work[..];
      NotedAfter(was, touched, col, vals[idx]);
      if work[col] == 0.0 {
        touched := touched + [col];
      }
      work[col] := work[col] + vals[idx];
      assert work[..] == was[col := was[col] + vals[idx]];
      assert r[..t + 1] == r[..t] + [(r[t].0, r[t].1)];
      forall j | 0 <= j < work.Length ensures work[j] == Coef(r[..t + 1], j) {
        CoefOfPush(r[..t], r[t].0, r[t].1, j);
        assert was[j] == Coef(r[..t], j);
      }
    }
    assert r[..|r|] == r;
  }

  lemma NothingNoted(work: seq<real>)
    requires forall j :: 0 <= j < |work| ==> work[j] == 0.0
    ensures Noted(work, [])
  {
  }

  /** While the sorted list is drained: visited cells are cleared and stored. */
  ghost predicate Draining(w0: seq<real>, work: seq<real>, seen: seq<nat>, row: Row) {
    && |work| == |w0| && Ascending(row) && NoZeros(row)
    && (forall t :: 0 <= t < |row| ==> row[t].0 in seen)
    && (forall j: nat :: j < |w0| ==> DrainedAt(w0, work, seen, row, j))
  }

  ghost predicate DrainedAt(w0: seq<real>, work: seq<real>, seen: seq<nat>, row: Row, j: nat)
    requires j < |w0| == |work|
  {
    if j in seen then work[j] == 0.0 && Coef(row, j) == w0[j] else work[j] == w0[j] && Coef(row, j) == 0.0
  }

  lemma DrainOne(w0: seq<real>, work: seq<real>, seen: seq<nat>, row: Row, j: nat)
    requires Draining(w0, work, seen, row) && j < |w0| && forall u :: 0 <= u < |seen| ==> seen[u] <= j
    ensures Draining(w0, work[j := 0.0], seen + [j], if work[j] != 0.0 then row + [(j, work[j])] else row)
  {
    hide Coef;
    var v, seen', work' := work[j], seen + [j], work[j := 0.0];
    var row' := if v != 0.0 then row + [(j, v)] else row;
    assert DrainedAt(w0, work, seen, row, j);
    assert seen'[|seen|] == j;
    forall k: nat ensures k in seen' <==> k in seen || k == j {
      if k in seen {
        var u :| 0 <= u < |seen| && seen[u] == k;
        assert seen'[u] == k;
      }
    }
    if v != 0.0 {
      forall t | 0 <= t < |row| ensures row[t].0 < j {
        assert row[t].0 in seen;
      }
    }
    forall k: nat | k < |w0| ensures DrainedAt(w0, work', seen', row', k) {
      assert DrainedAt(w0, work, seen, row, k);
      if v != 0.0 { CoefOfPush(row, j, v, k); }
    }
  }

  lemma DrainStart(w0: seq<real>)
    ensures Draining(w0, w0, [], [])
  {
  }

  lemma DrainEnd(w0: seq<real>, work: seq<real>, touched: seq<nat>, sorted: seq<nat>, row: Row)
    requires Draining(w0, work, sorted, row) && Noted(w0, touched) && forall x :: x in sorted <==> x in touched
    ensures forall j :: 0 <= j < |w0| ==> work[j] == 0.0 && Coef(row, j) == w0[j]
    ensures Ascending(row) && NoZeros(row) && InRange(row, |w0|)
  {
    hide Coef;
    forall j: nat | j < |w0| ensures work[j] == 0.0 && Coef(row, j) == w0[j] {
      assert DrainedAt(w0, work, sorted, row, j);
    }
    forall t | 0 <= t < |row| ensures row[t].0 < |w0| { assert row[t].0 in touched; }
  }

  /** Reading the workspace out in column order; it is all zero again afterwards. */
  method DrainRow(work: array<real>, touched: seq<nat>) returns (row: Row)
    requires Noted(work[..], touched)
    modifies work
    ensures Ascending(row) && NoZeros(row) && InRange(row, work.Length)
    ensures forall j :: 0 <= j < work.Length ==> work[j] == 0.0 && Coef(row, j) == old(work[j])
  {
    hide Coef;
    hide Draining;
    hide SortNats;
    ghost var w0 := work[..];
    var sorted := SortNats(touched);
    SortNatsSorted(touched);
    row := [];
    DrainStart(w0);
    for t := 0 to |sorted|
      invariant Draining(w0, work[..], sorted[..t], row)
    {
      var col := sorted[t];
      assert col in sorted;
      ghost var was := work[..];
      DrainOne(w0, was, sorted[..t], row, col);
      assert sorted[..t + 1] == sorted[..t] + [col];
      var v := work[col];
      if v != 0.0 {
        row := row + [(col, v)];
      }
      work[col] := 0.0;
      assert work[..] == was[col := 0.0];
    }
    assert sorted[..|sorted|] == sorted;
    DrainEnd(w0, work[..], touched, sorted, row);
  }

  ghost predicate SparseRow(p: PairColumns, active: ActiveLevels, r: Row, i: nat)
    requires p.Fits(active)
  {
    Ascending(r) && NoZeros(r) && forall j: nat :: j < active.nCols ==> Coef(r, j) == Coef(RowPart(p, active, |p.rowLevels|, i), j)
  }

  ghost predicate SparseRows(p: PairColumns, active: ActiveLevels, c: CsrBlock)
    requires p.Fits(active)
  {
    && c.Valid() && c.nrows <= active.nRows && c.ncols == active.nCols
    && forall k: nat :: k < c.nrows ==> SparseRow(p, active, c.Row(k), k)
  }

  lemma NoSparseRows(p: PairColumns, active: ActiveLevels)
    requires p.Fits(active)
    ensures SparseRows(p, active, Empty(active.nCols))
  {
  }

  lemma AppendSparse(p: PairColumns, active: ActiveLevels, c: CsrBlock, r: Row)
    requires p.Fits(active) && SparseRows(p, active, c) && c.nrows < active.nRows && SparseRow(p, active, r, c.nrows) && InRange(r, active.nCols)
    ensures SparseRows(p, active, Append(c, r))
  {
    hide SparseRow;
    AppendRows(c, r);
  }

  /** The third pass: one row at a time through a shared workspace. */
  method MergeBuckets(p: PairColumns, active: ActiveLevels, starts: seq<nat>, cols: seq<nat>, vals: seq<real>) returns (c: CsrBlock)
    requires active.Valid() && BucketLayout(p, active, starts) && |cols| == |vals| == starts[active.nRows]
    requires forall i :: 0 <= i < active.nRows ==> Holds(cols, vals, starts[i], RowPart(p, active, |p.rowLevels|, i))
    ensures SparseRows(p, active, c) && c.nrows == active.nRows
  {
    hide Coef;
    hide Holds;
    hide RowPart;
    hide Noted;
    hide SparseRows;
    hide Cols;
    hide Vals;
    var work := new real[active.nCols](_ => 0.0);
    c := Empty(active.nCols);
    NoSparseRows(p, active);
    for row := 0 to active.nRows
      invariant forall j :: 0 <= j < work.Length ==> work[j] == 0.0
      invariant SparseRows(p, active, c) && c.nrows == row
    {
      ghost var part := RowPart(p, active, |p.rowLevels|, row);
      BucketEnd(p, active, starts, row);
      PartInRange(p, active, |p.rowLevels|, row);
      var touched := ScatterBucket(cols, vals, starts[row], starts[row + 1], work, part);
      var r := DrainRow(work, touched);
      assert SparseRow(p, active, r, row);
      AppendSparse(p, active, c, r);
      c := Append(c, r);
    }
  }

  lemma SparseBlock(p: PairColumns, active: ActiveLevels, c: CsrBlock)
    requires p.Fits(active) && SparseRows(p, active, c) && c.nrows == active.nRows
    ensures c.Sorted() && c.Nonzero() && c.ncols == active.nCols
    ensures forall i, j :: 0 <= i < c.nrows && 0 <= j < c.ncols ==> c.Entry(i, j) == Sum(|p.rowLevels|, CellAt(p, active, i, j))
  {
    hide Sum;
    hide Coef;
    hide CellAt;
    hide RowPart;
    forall i: nat | i < c.nrows ensures Ascending(c.Row(i)) && NoZeros(c.Row(i)) { assert SparseRow(p, active, c.Row(i), i); }
    forall i: nat, j: nat | i < c.nrows && j < c.ncols ensures c.Entry(i, j) == Sum(|p.rowLevels|, CellAt(p, active, i, j)) {
      assert SparseRow(p, active, c.Row(i), i);
      PartCoef(p, active, |p.rowLevels|, i, j);
    }
  }

  /** `accumulate_sparse_cross_block` */
  method AccumulateSparse(p: PairColumns, active: ActiveLevels) returns (c: CsrBlock, rowDiag: seq<real>, colDiag: seq<real>)
    requires p.Fits(active) && active.Valid()
    ensures Accumulated(p, active, c, rowDiag, colDiag)
  {
    hide Sum;
    hide CellAt;
    hide DiagonalsUpTo;
    hide SparseRows;
    hide RowPart;
    hide Holds;
    var counts;
    counts, rowDiag, colDiag := CountRows(p, active);
    var starts, cols, vals := FillBuckets(p, active, counts);
    c := MergeBuckets(p, active, starts, cols, vals);
    SparseBlock(p, active, c);
  }

  /** `accumulate`: whichever path is taken, the result is the one accumulated triple. */
  method Accumulate(p: PairColumns, active: ActiveLevels, goSparse: bool) returns (c: CsrBlock, rowDiag: seq<real>, colDiag: seq<real>)
    requires p.Fits(active) && active.Valid()
    ensures Accumulated(p, active, c, rowDiag, colDiag)
  {
    if goSparse {
      c, rowDiag, colDiag := AccumulateSparse(p, active);
    } else {
      c, rowDiag, colDiag := AccumulateDense(p, active);
    }
  }

  // ---- Intercept pairs ---------------------------------------------------------------------

  lemma InterceptCell(p: PairColumns, active: ActiveLevels, i: int, j: int, uid: nat)
    requires p.Fits(active) && active.Valid() && p.rowLoad.None? && p.colLoad.None? && uid < |p.rowLevels|
    ensures p.Decode(active, uid).Some? ==> p.Decode(active, uid).value.cj < active.nRows && p.Decode(active, uid).value.ck < active.nCols
    ensures RowDiagAt(p, active, i)(uid) == if p.Decode(active, uid).Some? && p.Decode(active, uid).value.cj == i then p.Decode(active, uid).value.cell else 0.0
    ensures ColDiagAt(p, active, j)(uid) == if p.Decode(active, uid).Some? && p.Decode(active, uid).value.ck == j then p.Decode(active, uid).value.cell else 0.0
    ensures CellAt(p, active, i, j)(uid) ==
            if p.Decode(active, uid).Some? && p.Decode(active, uid).value.cj == i && p.Decode(active, uid).value.ck == j
            then p.Decode(active, uid).value.cell else 0.0
  {
  }

  lemma InterceptRowTerm(p: PairColumns, active: ActiveLevels, i: nat, uid: nat)
    requires p.Fits(active) && active.Valid() && p.rowLoad.None? && p.colLoad.None? && uid < |p.rowLevels|
    ensures Sum(active.nCols, j => CellAt(p, active, i, j)(uid)) == RowDiagAt(p, active, i)(uid)
  {
    hide Sum;
    hide CellAt;
    hide RowDiagAt;
    hide ColDiagAt;
    hide PairColumns.Decode;
    var f := (j: int) => CellAt(p, active, i, j)(uid);
    var d := p.Decode(active, uid);
    forall j ensures f(j) == if d.Some? && d.value.cj == i && d.value.ck == j then d.value.cell else 0.0 {
      InterceptCell(p, active, i, j, uid);
    }
    InterceptCell(p, active, i, 0, uid);
    if d.Some? && d.value.cj == i {
      SumDelta(active.nCols, d.value.ck, f);
    } else {
      SumZero(active.nCols, f);
    }
  }

  lemma InterceptColTerm(p: PairColumns, active: ActiveLevels, j: nat, uid: nat)
    requires p.Fits(active) && active.Valid() && p.rowLoad.None? && p.colLoad.None? && uid < |p.rowLevels|
    ensures Sum(active.nRows, i => CellAt(p, active, i, j)(uid)) == ColDiagAt(p, active, j)(uid)
  {
    hide Sum;
    hide CellAt;
    hide RowDiagAt;
    hide ColDiagAt;
    hide PairColumns.Decode;
    var f := (i: int) => CellAt(p, active, i, j)(uid);
    var d := p.Decode(active, uid);
    forall i ensures f(i) == if d.Some? && d.value.cj == i && d.value.ck == j then d.value.cell else 0.0 {
      InterceptCell(p, active, i, j, uid);
    }
    InterceptCell(p, active, 0, j, uid);
    if d.Some? && d.value.ck == j {
      SumDelta(active.nRows, d.value.cj, f);
    } else {
      SumZero(active.nRows, f);
    }
  }

  /** Between intercepts each diagonal entry is its row's (column's) sum of the block: the
      pair's Gram matrix is already a Laplacian up to sign. */
  lemma InterceptDiagonals(p: PairColumns, active: ActiveLevels, c: CsrBlock, rowDiag: seq<real>, colDiag: seq<real>)
    requires p.Fits(active) && active.Valid() && p.rowLoad.None? && p.colLoad.None? && Accumulated(p, active, c, rowDiag, colDiag)
    ensures forall i :: 0 <= i < active.nRows ==> rowDiag[i] == Sum(active.nCols, RowOf(MatrixOf(c), i))
    ensures forall j :: 0 <= j < active.nCols ==> colDiag[j] == Sum(active.nRows, ColOf(MatrixOf(c), j))
  {
    hide Sum;
    hide CellAt;
    hide RowDiagAt;
    hide ColDiagAt;
    forall i | 0 <= i < active.nRows ensures rowDiag[i] == Sum(active.nCols, RowOf(MatrixOf(c), i)) {
      ColumnsFirst(p, active, c, i, rowDiag, colDiag);
    }
    forall j | 0 <= j < active.nCols ensures colDiag[j] == Sum(active.nRows, ColOf(MatrixOf(c), j)) {
      RowsFirst(p, active, c, j, rowDiag, colDiag);
    }
  }

  lemma ColumnsFirst(p: PairColumns, active: ActiveLevels, c: CsrBlock, i: nat, rowDiag: seq<real>, colDiag: seq<real>)
    requires p.Fits(active) && active.Valid() && p.rowLoad.None? && p.colLoad.None? && Accumulated(p, active, c, rowDiag, colDiag) && i < active.nRows
    ensures rowDiag[i] == Sum(active.nCols, RowOf(MatrixOf(c), i))
  {
    hide Sum;
    hide CellAt;
    hide RowDiagAt;
    var n, f := |p.rowLevels|, (j: int, uid: int) => CellAt(p, active, i, j)(uid);
    SumSwap(active.nCols, n, f);
    forall j | 0 <= j < active.nCols ensures Sum(n, uid => f(j, uid)) == RowOf(MatrixOf(c), i)(j) {
      SumCong(n, uid => f(j, uid), CellAt(p, active, i, j));
      assert c.Entry(i, j) == Sum(n, CellAt(p, active, i, j));
    }
    SumCong(active.nCols, j => Sum(n, uid => f(j, uid)), RowOf(MatrixOf(c), i));
    forall uid | 0 <= uid < n ensures Sum(active.nCols, j => f(j, uid)) == RowDiagAt(p, active, i)(uid) {
      InterceptRowTerm(p, active, i, uid);
      SumCong(active.nCols, j => f(j, uid), j => CellAt(p, active, i, j)(uid));
    }
    SumCong(n, uid => Sum(active.nCols, j => f(j, uid)), RowDiagAt(p, active, i));
  }

  lemma RowsFirst(p: PairColumns, active: ActiveLevels, c: CsrBlock, j: nat, rowDiag: seq<real>, colDiag: seq<real>)
    requires p.Fits(active) && active.Valid() && p.rowLoad.None? && p.colLoad.None? && Accumulated(p, active, c, rowDiag, colDiag) && j < active.nCols
    ensures colDiag[j] == Sum(active.nRows, ColOf(MatrixOf(c), j))
  {
    hide Sum;
    hide CellAt;
    hide ColDiagAt;
    var n, f := |p.rowLevels|, (i: int, uid: int) => CellAt(p, active, i, j)(uid);
    SumSwap(active.nRows, n, f);
    forall i | 0 <= i < active.nRows ensures Sum(n, uid => f(i, uid)) == ColOf(MatrixOf(c), j)(i) {
      SumCong(n, uid => f(i, uid), CellAt(p, active, i, j));
      assert c.Entry(i, j) == Sum(n, CellAt(p, active, i, j));
    }
    SumCong(active.nRows, i => Sum(n, uid => f(i, uid)), ColOf(MatrixOf(c), j));
    forall uid | 0 <= uid < n ensures Sum(active.nRows, i => f(i, uid)) == ColDiagAt(p, active, j)(uid) {
      InterceptColTerm(p, active, j, uid);
      SumCong(active.nRows, i => f(i, uid), i => CellAt(p, active, i, j)(uid));
    }
    SumCong(n, uid => Sum(active.nRows, i => f(i, uid)), ColDiagAt(p, active, j));
  }
}
