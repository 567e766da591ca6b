/** From active levels and observations to a channel pair's cross-tabulation
    (crates/within/src/domain/cross_tab.rs:39-82, 136-159). */
module PairAssembly {
  import opened Wrappers
  import opened Sums
  import opened Csr
  import opened Transposition
  import opened CrossTabs
  import opened Elimination
  import opened Sddm
  import opened Convert
  import opened Components
  import opened Extraction
  import opened Accumulation
  import opened SplitSubdomains

  /** The active levels among the first `k`, in order. */
  function Actives(active: seq<bool>, k: nat): (ids: seq<nat>)
    requires k <= |active|
  {
    if k == 0 then [] else if active[k - 1] then Actives(active, k - 1) + [k - 1] else Actives(active, k - 1)
  }

  lemma {:induction false} ActivesAscend(active: seq<bool>, k: nat)
    requires k <= |active|
    ensures Ascends(Actives(active, k)) && |Actives(active, k)| <= k
    ensures forall t :: 0 <= t < |Actives(active, k)| ==> Actives(active, k)[t] < k && active[Actives(active, k)[t]]
    ensures forall j: nat :: j < k && active[j] ==> j in Actives(active, k)
  {
    if k > 0 {
      ActivesAscend(active, k - 1);
      var p, q := Actives(active, k - 1), Actives(active, k);
      forall j: nat | j < k && active[j] ensures j in q {
        if j < k - 1 { assert j in p; } else { assert q[|p|] == j; }
      }
    }
  }

  /** `compact_map`: active levels numbered from 0 in order, the rest unmapped. */
  method CompactMap(active: seq<bool>) returns (remap: Remap, n: nat)
    ensures |remap| == |active| && n == |Actives(active, |active|)|
    ensures Places(remap, Actives(active, |active|))
  {
    hide Places;
    remap := seq(|active|, _ => None);
    n := 0;
    NothingPlaced(remap);
    for j := 0 to |active|
      invariant |remap| == |active| && n == |Actives(active, j)| && Places(remap, Actives(active, j))
      invariant forall l :: j <= l < |remap| ==> remap[l].None?
    {
      if active[j] {
        ActivesAscend(active, j);
        PlaceActive(remap, Actives(active, j), j);
        remap := remap[j := Some(n)];
        n := n + 1;
      }
    }
  }

  lemma NothingPlaced(remap: Remap)
    requires Vacant(remap)
    ensures Places(remap, [])
  {
  }

  lemma PlaceActive(remap: Remap, ids: seq<nat>, j: nat)
    requires Places(remap, ids) && j < |remap| && forall t :: 0 <= t < |ids| ==> ids[t] < j
    ensures Places(remap[j := Some(|ids|)], ids + [j])
  {
    var r, q := remap[j := Some(|ids|)], ids + [j];
    forall l | 0 <= l < |r| && r[l].Some? ensures r[l].value < |q| && q[r[l].value] == l {
      if l != j { assert ids[remap[l].value] == l; }
    }
  }

  function Offset(base: nat, ids: seq<nat>): (r: seq<nat>)
    ensures |r| == |ids|
  {
    seq(|ids|, t requires 0 <= t < |ids| => base + ids[t])
  }

  /** The compact numbering of a pair, and which global column each local node is. */
  ghost predicate Mapped(activeRows: seq<bool>, activeCols: seq<bool>, baseRows: nat, baseCols: nat, active: ActiveLevels, l2g: seq<nat>) {
    var rows, cols := Actives(activeRows, |activeRows|), Actives(activeCols, |activeCols|);
    && active.Valid() && active.nRows == |rows| && active.nCols == |cols|
    && |active.rowMap| == |activeRows| && |active.colMap| == |activeCols|
    && Places(active.rowMap, rows) && Places(active.colMap, cols)
    && l2g == Offset(baseRows, rows) + Offset(baseCols, cols)
  }

  /** `build_compact_mapping`: nothing when either side has no active level. */
  method BuildCompactMapping(activeRows: seq<bool>, activeCols: seq<bool>, baseRows: nat, baseCols: nat)
    returns (r: Option<(ActiveLevels, seq<nat>)>)
    ensures r.Some? ==> Mapped(activeRows, activeCols, baseRows, baseCols, r.value.0, r.value.1)
    ensures r.None? <==> (forall j :: 0 <= j < |activeRows| ==> !activeRows[j]) || (forall k :: 0 <= k < |activeCols| ==> !activeCols[k])
  {
    hide Actives;
    hide Places;
    hide Ascends;
    hide Mapped;
    var rowMap, nRows := CompactMap(activeRows);
    var colMap, nCols := CompactMap(activeCols);
    ActivesAscend(activeRows, |activeRows|);
    ActivesAscend(activeCols, |activeCols|);
    NoActives(activeRows);
    NoActives(activeCols);
    if nRows == 0 || nCols == 0 {
      return None;
    }
    var localToGlobal := PushActive(activeRows, baseRows, []);
    localToGlobal := PushActive(activeCols, baseCols, localToGlobal);
    IsMapped(activeRows, activeCols, baseRows, baseCols, ActiveLevels(rowMap, nRows, colMap, nCols), localToGlobal);
    r := Some((ActiveLevels(rowMap, nRows, colMap, nCols), localToGlobal));
  }

  lemma IsMapped(activeRows: seq<bool>, activeCols: seq<bool>, baseRows: nat, baseCols: nat, active: ActiveLevels, l2g: seq<nat>)
    requires active.nRows == |Actives(activeRows, |activeRows|)| && active.nCols == |Actives(activeCols, |activeCols|)|
    requires |active.rowMap| == |activeRows| && |active.colMap| == |activeCols|
    requires Places(active.rowMap, Actives(activeRows, |activeRows|)) && Places(active.colMap, Actives(activeCols, |activeCols|))
    requires l2g == Offset(baseRows, Actives(activeRows, |activeRows|)) + Offset(baseCols, Actives(activeCols, |activeCols|))
    ensures Mapped(activeRows, activeCols, baseRows, baseCols, active, l2g)
  {
    hide Actives;
  }

  lemma NoActives(active: seq<bool>)
    ensures |Actives(active, |active|)| == 0 <==> forall j :: 0 <= j < |active| ==> !active[j]
  {
    ActivesAscend(active, |active|);
    var q := Actives(active, |active|);
    if |q| > 0 { assert active[q[0]]; }
    if j :| 0 <= j < |active| && active[j] { assert j in q; }
  }

  method PushActive(active: seq<bool>, base: nat, start: seq<nat>) returns (r: seq<nat>)
    ensures r == start + Offset(base, Actives(active, |active|))
  {
    r := start;
    for j := 0 to |active|
      invariant r == start + Offset(base, Actives(active, j))
    {
      if active[j] {
        r := r + [base + j];
      }
    }
  }

  /** Observation weights, where present, are not negative. */
  predicate WeightsNonnegative(p: PairColumns) {
    p.weights.Some? ==> forall u :: 0 <= u < |p.weights.value| ==> p.weights.value[u] >= 0.0
  }

  lemma InterceptCells(p: PairColumns, active: ActiveLevels, i: int, j: int, uid: nat)
    requires p.Fits(active) && p.rowLoad.None? && p.colLoad.None? && WeightsNonnegative(p) && uid < |p.rowLevels|
    ensures CellAt(p, active, i, j)(uid) >= 0.0
  {
  }

  /** Between intercepts no stored cell is negative. */
  lemma InterceptBlockNonnegative(p: PairColumns, active: ActiveLevels, c: CsrBlock, rowDiag: seq<real>, colDiag: seq<real>)
    requires p.Fits(active) && p.rowLoad.None? && p.colLoad.None? && WeightsNonnegative(p) && Accumulated(p, active, c, rowDiag, colDiag)
    ensures c.Nonnegative()
  {
    hide Sum;
    hide Coef;
    hide CellAt;
    forall q | 0 <= q < |c.data| ensures c.data[q] >= 0.0 {
      var i := HoldingRow(c, q);
      var r, t := c.Row(i), q - c.indptr[i];
      CoefStored(r, t);
      assert c.Entry(i, r[t].0) == Sum(|p.rowLevels|, CellAt(p, active, i, r[t].0));
      forall uid | 0 <= uid < |p.rowLevels| ensures CellAt(p, active, i, r[t].0)(uid) >= 0.0 { InterceptCells(p, active, i, r[t].0, uid); }
      SumNonneg(|p.rowLevels|, CellAt(p, active, i, r[t].0));
    }
  }

  lemma AccumulatedShape(p: PairColumns, active: ActiveLevels, c: CsrBlock, rowDiag: seq<real>, colDiag: seq<real>)
    requires Accumulated(p, active, c, rowDiag, colDiag)
    ensures c.Nonzero() && c.nrows == active.nRows == |rowDiag| && c.ncols == active.nCols == |colDiag|
  {
  }

  /** An intercept pair is an exact Laplacian: its diagonals are the row and column sums. */
  lemma InterceptPairIsExact(p: PairColumns, active: ActiveLevels, x: CrossTab, rowDiag: seq<real>, colDiag: seq<real>, budget: (nat, real) -> real)
    requires p.Fits(active) && active.Valid() && p.rowLoad.None? && p.colLoad.None? && x.Valid() && Accumulated(p, active, x.c, rowDiag, colDiag)
    requires forall n: nat, t :: budget(n, t) >= 0.0
    ensures ExactLaplacian(x, rowDiag + colDiag, budget)
  {
    hide Sum;
    hide CellAt;
    hide RowDiagAt;
    hide ColDiagAt;
    hide AreRowSums;
    hide CsrBlock.Entry;
    hide Accumulated;
    hide CsrBlock.Nonzero;
    hide CrossTab.Valid;
    AccumulatedShape(p, active, x.c, rowDiag, colDiag);
    InterceptDiagonals(p, active, x.c, rowDiag, colDiag);
    var d := rowDiag + colDiag;
    PlainSums(x, d);
    forall i | 0 <= i < x.NRows() ensures At(d)(i) == Sum(x.NCols(), RowOf(MatrixOf(x.c), i)) { assert d[i] == rowDiag[i]; }
    forall j | 0 <= j < x.NCols() ensures Tail(x.NRows(), At(d))(j) == Sum(x.NRows(), ColOf(MatrixOf(x.c), j)) { assert d[x.NRows() + j] == colDiag[j]; }
  }

  /** `build_for_pair_with_active` */
  method BuildForPair(p: PairColumns, activeRows: seq<bool>, activeCols: seq<bool>, baseRows: nat, baseCols: nat, goSparse: bool)
    returns (r: Option<(CrossTab, seq<real>, seq<real>, seq<nat>)>, ghost active: ActiveLevels)
    requires |p.rowLevels| == |p.colLevels| && forall u :: 0 <= u < |p.rowLevels| ==> p.rowLevels[u] < |activeRows| && p.colLevels[u] < |activeCols|
    requires p.rowLoad.Some? ==> |p.rowLoad.value| == |p.rowLevels|
    requires p.colLoad.Some? ==> |p.colLoad.value| == |p.rowLevels|
    requires p.weights.Some? ==> |p.weights.value| == |p.rowLevels|
    ensures r.None? <==> (forall j :: 0 <= j < |activeRows| ==> !activeRows[j]) || (forall k :: 0 <= k < |activeCols| ==> !activeCols[k])
    ensures r.Some? ==> r.value.0.Valid() && |r.value.1| == r.value.0.NRows() && |r.value.2| == r.value.0.NCols() && |r.value.3| == r.value.0.NLocal()
    ensures r.Some? ==> var (x, rowDiag, colDiag, l2g) := r.value;
              && x.Valid() && Mapped(activeRows, activeCols, baseRows, baseCols, active, l2g)
              && p.Fits(active) && Accumulated(p, active, x.c, rowDiag, colDiag)
              && (p.rowLoad.None? && p.colLoad.None? && WeightsNonnegative(p) ==> x.c.Nonnegative())
  {
    hide Accumulated;
    hide Places;
    hide CsrBlock.Nonnegative;
    var m := BuildCompactMapping(activeRows, activeCols, baseRows, baseCols);
    if m.None? {
      active := ActiveLevels([], 0, [], 0);
      return None, active;
    }
    var (levels, l2g) := m.value;
    active := levels;
    var c, rowDiag, colDiag := Accumulate(p, levels, goSparse);
    AccumulatedSorted(p, levels, c, rowDiag, colDiag);
    var ct := Transpose(c);
    if p.rowLoad.None? && p.colLoad.None? && WeightsNonnegative(p) { InterceptBlockNonnegative(p, levels, c, rowDiag, colDiag); }
    r := Some((CrossTab(c, ct), rowDiag, colDiag, l2g));
  }

  lemma AccumulatedSorted(p: PairColumns, active: ActiveLevels, c: CsrBlock, rowDiag: seq<real>, colDiag: seq<real>)
    requires Accumulated(p, active, c, rowDiag, colDiag)
    ensures c.Sorted() && |rowDiag| == c.nrows == active.nRows && |colDiag| == c.ncols == active.nCols
  {
  }
}
