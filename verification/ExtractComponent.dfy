/** Extracting one component's cross-tabulation and diagonal through reusable remap buffers
    (crates/within/src/domain/cross_tab.rs:107-117, 207-265). */
module Extraction {
  import opened Wrappers
  import opened Sums
  import opened Csr
  import opened Transposition
  import opened CrossTabs
  import opened Elimination
  import opened Sddm
  import opened FoldingSigns
  import opened Components

  type Remap = seq<Option<nat>>

  /** `remap` sends each listed id to its place in the list and nothing else. */
  ghost predicate Places(remap: Remap, ids: seq<nat>) {
    && (forall t :: 0 <= t < |ids| ==> ids[t] < |remap| && remap[ids[t]] == Some(t))
    && (forall j :: 0 <= j < |remap| && remap[j].Some? ==> remap[j].value < |ids| && ids[remap[j].value] == j)
  }

  ghost predicate Vacant(remap: Remap) { forall j :: 0 <= j < |remap| ==> remap[j].None? }

  /** The buffer after the first `n` ids have been written. */
  ghost predicate Writing(remap: Remap, ids: seq<nat>, n: nat) {
    n <= |ids| && Places(remap, ids[..n])
  }

  lemma WriteId(remap: Remap, ids: seq<nat>, n: nat)
    requires Writing(remap, ids, n) && n < |ids| && Ascends(ids) && ids[n] < |remap|
    ensures Writing(remap[ids[n] := Some(n)], ids, n + 1)
  {
    var r := remap[ids[n] := Some(n)];
    var p, q := ids[..n], ids[..n + 1];
    forall t | 0 <= t < |q| ensures q[t] < |r| && r[q[t]] == Some(t) {
      if t < n { assert p[t] == ids[t] < ids[n]; }
    }
    forall j | 0 <= j < |r| && r[j].Some? ensures r[j].value < |q| && q[r[j].value] == j {
      if j != ids[n] { assert p[r[j].value] == j; }
    }
  }

  /** Filling a vacant buffer. */
  method FillRemap(remap: array<Option<nat>>, ids: seq<nat>)
    requires Vacant(remap[..]) && Ascends(ids) && forall t :: 0 <= t < |ids| ==> ids[t] < remap.Length
    modifies remap
    ensures Places(remap[..], ids)
  {
    hide Ascends;
    hide Places;
    VacantPlaces(remap[..], ids);
    for n := 0 to |ids|
      invariant Writing(remap[..], ids, n)
    {
      ghost var was := remap[..];
      WriteId(was, ids, n);
      remap[ids[n]] := Some(n);
      assert remap[..] == was[ids[n] := Some(n)];
    }
    assert ids[..|ids|] == ids;
  }

  lemma VacantPlaces(remap: Remap, ids: seq<nat>)
    requires Vacant(remap)
    ensures Writing(remap, ids, 0)
  {
  }

  /** Resetting exactly what was written leaves the buffer vacant. */
  method ResetRemap(remap: array<Option<nat>>, ids: seq<nat>)
    requires Places(remap[..], ids)
    modifies remap
    ensures Vacant(remap[..])
  {
    for n := 0 to |ids|
      invariant forall j :: 0 <= j < remap.Length ==> remap[j] == if j in ids[..n] then None else old(remap[j])
    {
      assert ids[..n + 1] == ids[..n] + [ids[n]];
      assert ids[n] < |old(remap[..])|;
      remap[ids[n]] := None;
    }
    forall j | 0 <= j < remap.Length ensures remap[j].None? {
      ghost var was := old(remap[..]);
      assert was[j] == old(remap[j]);
      if was[j].Some? { assert ids[..|ids|][was[j].value] == j; }
    }
  }

  // ---- One row -----------------------------------------------------------------------------

  /** The entries whose column is kept, renumbered. */
  function Kept(r: Row, remap: Remap): (s: Row)
    requires InRange(r, |remap|)
  {
    if r == [] then []
    else
      var (p, (j, v)) := (Kept(r[..|r| - 1], remap), r[|r| - 1]);
      if remap[j].Some? then p + [(remap[j].value, v)] else p
  }

  lemma OrderOfIds(ids: seq<nat>, a: nat, b: nat)
    requires Ascends(ids) && a < |ids| && b < |ids| && ids[a] < ids[b]
    ensures a < b
  {
  }

  lemma {:induction false} KeptAscends(r: Row, remap: Remap, ids: seq<nat>)
    requires InRange(r, |remap|) && Places(remap, ids) && Ascends(ids) && Ascending(r)
    ensures Ascending(Kept(r, remap)) && InRange(Kept(r, remap), |ids|)
    ensures r != [] ==> forall t :: 0 <= t < |Kept(r, remap)| ==> ids[Kept(r, remap)[t].0] <= r[|r| - 1].0
  {
    if r != [] {
      var q := r[..|r| - 1];
      var (j, v) := r[|r| - 1];
      KeptAscends(q, remap, ids);
      var p := Kept(q, remap);
      forall t | 0 <= t < |p| ensures ids[p[t].0] < j {
        if q != [] { assert q[|q| - 1].0 < j; }
      }
      if remap[j].Some? {
        forall t | 0 <= t < |p| ensures p[t].0 < remap[j].value {
          OrderOfIds(ids, p[t].0, remap[j].value);
        }
      }
    }
  }

  lemma {:induction false} KeptCoef(r: Row, remap: Remap, ids: seq<nat>, b: nat)
    requires InRange(r, |remap|) && Places(remap, ids) && b < |ids|
    ensures Coef(Kept(r, remap), b) == Coef(r, ids[b])
  {
    hide Coef;
    if r == [] {
      CoefAbsent([], b);
      CoefAbsent([], ids[b]);
    } else {
      var q := r[..|r| - 1];
      var (j, v) := r[|r| - 1];
      KeptCoef(q, remap, ids, b);
      assert r == q + [(j, v)];
      CoefOfPush(q, j, v, ids[b]);
      if remap[j].Some? { CoefOfPush(Kept(q, remap), remap[j].value, v, b); }
    }
  }

  lemma {:induction false} KeptValues(r: Row, remap: Remap, t: nat)
    requires InRange(r, |remap|) && t < |Kept(r, remap)|
    ensures exists u :: 0 <= u < |r| && r[u].1 == Kept(r, remap)[t].1
  {
    var q := r[..|r| - 1];
    if t < |Kept(q, remap)| {
      KeptValues(q, remap, t);
      var u :| 0 <= u < |q| && q[u].1 == Kept(q, remap)[t].1;
      assert r[u].1 == Kept(r, remap)[t].1;
    } else {
      assert r[|r| - 1].1 == Kept(r, remap)[t].1;
    }
  }

  method KeepRow(r: Row, remap: Remap) returns (s: Row)
    requires InRange(r, |remap|)
    ensures s == Kept(r, remap)
  {
    s := [];
    for t := 0 to |r|
      invariant s == Kept(r[..t], remap)
    {
      assert r[..t + 1][..t] == r[..t];
      var (j, v) := r[t];
      if remap[j].Some? {
        s := s + [(remap[j].value, v)];
      }
    }
    assert r[..|r|] == r;
  }

  // ---- The block ---------------------------------------------------------------------------

  ghost predicate Fits(comp: BipartiteComponent, x: CrossTab) {
    && Ascends(comp.rows) && Ascends(comp.cols)
    && (forall t :: 0 <= t < |comp.rows| ==> comp.rows[t] < x.NRows())
    && (forall t :: 0 <= t < |comp.cols| ==> comp.cols[t] < x.NCols())
  }

  ghost predicate KeptRows(x: CrossTab, comp: BipartiteComponent, remap: Remap, b: CsrBlock)
    requires x.c.Valid()
  {
    && b.Valid() && b.nrows <= |comp.rows| && b.ncols == |comp.cols| && |remap| == x.NCols()
    && forall a: nat :: a < b.nrows ==> comp.rows[a] < x.NRows() && b.Row(a) == Kept(x.c.Row(comp.rows[a]), remap)
  }

  lemma AppendKept(x: CrossTab, comp: BipartiteComponent, remap: Remap, b: CsrBlock, r: Row)
    requires x.c.Sorted() && Fits(comp, x) && KeptRows(x, comp, remap, b) && b.nrows < |comp.rows| && Places(remap, comp.cols)
    requires r == Kept(x.c.Row(comp.rows[b.nrows]), remap)
    ensures KeptRows(x, comp, remap, Append(b, r))
  {
    hide Kept;
    KeptAscends(x.c.Row(comp.rows[b.nrows]), remap, comp.cols);
    AppendRows(b, r);
  }

  /** What extraction promises: every kept entry at its renumbered place, order and sign intact. */
  ghost predicate Extracted(x: CrossTab, comp: BipartiteComponent, y: CrossTab) {
    && y.Valid() && y.NRows() == |comp.rows| && y.NCols() == |comp.cols| && Fits(comp, x)
    && (forall a, b :: 0 <= a < |comp.rows| && 0 <= b < |comp.cols| ==> y.c.Entry(a, b) == x.c.Entry(comp.rows[a], comp.cols[b]))
    && (x.c.Nonzero() ==> y.c.Nonzero())
    && (x.c.Nonnegative() ==> y.c.Nonnegative())
  }

  lemma KeptNonzero(x: CrossTab, comp: BipartiteComponent, remap: Remap, b: CsrBlock)
    requires x.c.Valid() && KeptRows(x, comp, remap, b) && x.c.Nonzero()
    ensures b.Nonzero()
  {
    hide Kept;
    forall a | 0 <= a < b.nrows ensures NoZeros(b.Row(a)) {
      var r := x.c.Row(comp.rows[a]);
      forall t | 0 <= t < |b.Row(a)| ensures b.Row(a)[t].1 != 0.0 { KeptValues(r, remap, t); }
    }
  }

  lemma KeptNonnegative(x: CrossTab, comp: BipartiteComponent, remap: Remap, b: CsrBlock)
    requires x.c.Valid() && KeptRows(x, comp, remap, b) && x.c.Nonnegative()
    ensures b.Nonnegative()
  {
    hide Kept;
    forall p | 0 <= p < |b.data| ensures b.data[p] >= 0.0 {
      var a := HoldingRow(b, p);
      var r := x.c.Row(comp.rows[a]);
      var t := p - b.indptr[a];
      KeptValues(r, remap, t);
      var u :| 0 <= u < |r| && r[u].1 == b.Row(a)[t].1;
      assert r[u].1 == x.c.data[x.c.indptr[comp.rows[a]] + u];
    }
  }

  lemma KeptBlock(x: CrossTab, comp: BipartiteComponent, remap: Remap, b: CsrBlock)
    requires x.c.Sorted() && Fits(comp, x) && KeptRows(x, comp, remap, b) && b.nrows == |comp.rows| && Places(remap, comp.cols)
    ensures b.Sorted()
    ensures forall i, j :: 0 <= i < |comp.rows| && 0 <= j < |comp.cols| ==> b.Entry(i, j) == x.c.Entry(comp.rows[i], comp.cols[j])
  {
    hide Kept;
    hide Coef;
    hide Places;
    forall a | 0 <= a < b.nrows ensures Ascending(b.Row(a)) { KeptAscends(x.c.Row(comp.rows[a]), remap, comp.cols); }
    forall i, j | 0 <= i < |comp.rows| && 0 <= j < |comp.cols| ensures b.Entry(i, j) == x.c.Entry(comp.rows[i], comp.cols[j]) {
      KeptCoef(x.c.Row(comp.rows[i]), remap, comp.cols, j);
    }
  }

  lemma NoKeptRows(x: CrossTab, comp: BipartiteComponent, remap: Remap)
    requires x.c.Valid() && |remap| == x.NCols()
    ensures KeptRows(x, comp, remap, Empty(|comp.cols|))
  {
  }

  lemma FitsMeaning(comp: BipartiteComponent, x: CrossTab)
    requires Fits(comp, x)
    ensures Ascends(comp.rows) && Ascends(comp.cols)
    ensures forall t :: 0 <= t < |comp.rows| ==> comp.rows[t] < x.NRows()
    ensures forall t :: 0 <= t < |comp.cols| ==> comp.cols[t] < x.NCols()
  {
  }

  /** `extract_component`: buffers arrive vacant and leave vacant. */
  method ExtractComponent(x: CrossTab, comp: BipartiteComponent, rowRemap: array<Option<nat>>, colRemap: array<Option<nat>>) returns (y: CrossTab)
    requires x.Valid() && Fits(comp, x) && rowRemap != colRemap
    requires rowRemap.Length == x.NRows() && colRemap.Length == x.NCols() && Vacant(rowRemap[..]) && Vacant(colRemap[..])
    modifies rowRemap, colRemap
    ensures Extracted(x, comp, y)
    ensures Vacant(rowRemap[..]) && Vacant(colRemap[..])
  {
    hide Places;
    hide Vacant;
    hide Kept;
    hide KeptRows;
    hide Fits;
    hide Ascends;
    hide IsTranspose;
    FitsMeaning(comp, x);
    FillRemap(rowRemap, comp.rows);
    FillRemap(colRemap, comp.cols);
    ghost var rows, cols := rowRemap[..], colRemap[..];
    var c := Empty(|comp.cols|);
    NoKeptRows(x, comp, cols);
    for newRow := 0 to |comp.rows|
      invariant c.nrows == newRow && c.ncols == |comp.cols| && KeptRows(x, comp, cols, c)
      invariant rowRemap[..] == rows && colRemap[..] == cols
    {
      var r := KeepRow(x.c.Row(comp.rows[newRow]), colRemap[..]);
      AppendKept(x, comp, cols, c, r);
      c := Append(c, r);
    }
    KeptBlock(x, comp, cols, c);
    if x.c.Nonzero() { KeptNonzero(x, comp, cols, c); }
    if x.c.Nonnegative() { KeptNonnegative(x, comp, cols, c); }
    var ct := Transpose(c);
    y := CrossTab(c, ct);
    ResetRemap(rowRemap, comp.rows);
    ResetRemap(colRemap, comp.cols);
  }
}
