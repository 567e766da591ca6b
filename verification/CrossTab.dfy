/** A channel pair's cross-tabulation: `C`, its transpose, and the bipartite graph they
    span over the local nodes `[rows | cols]` (crates/within/src/domain/cross_tab.rs). */
module CrossTabs {
  import opened Sums
  import opened Csr
  import opened Transposition

  function Shift(r: Row, off: nat): (s: Row)
    ensures |s| == |r|
  {
    seq(|r|, t requires 0 <= t < |r| => (off + r[t].0, r[t].1))
  }

  datatype CrossTab = CrossTab(c: CsrBlock, ct: CsrBlock) {

    ghost predicate Valid() {
      c.Sorted() && IsTranspose(c, ct)
    }

    function NRows(): nat { c.nrows }

    function NCols(): nat { c.ncols }

    function NLocal(): nat { c.nrows + c.ncols }

    /** Row nodes walk `C`, column nodes walk its transpose. */
    function Neighbors(i: nat): (r: Row)
      requires c.Valid() && ct.Valid() && ct.nrows == c.ncols && ct.ncols == c.nrows
      requires i < NLocal()
      ensures InRange(r, NLocal())
    {
      if i < NRows() then Shift(c.Row(i), NRows()) else ct.Row(i - NRows())
    }

    /** The adjacency lists of all local nodes. */
    function Graph(): (g: seq<Row>)
      requires c.Valid() && ct.Valid() && ct.nrows == c.ncols && ct.ncols == c.nrows
      ensures |g| == NLocal() && forall i :: 0 <= i < |g| ==> g[i] == Neighbors(i)
    {
      seq(NLocal(), i requires 0 <= i < NLocal() => Neighbors(i))
    }
  }

  /** Adjacency lists in which each edge is listed at both ends with one weight. */
  ghost predicate Undirected(g: seq<Row>) {
    && (forall i :: 0 <= i < |g| ==> InRange(g[i], |g|))
    && (forall i, j, v :: 0 <= i < |g| && (j, v) in g[i] ==> (i, v) in g[j])
  }

  lemma ShiftIn(r: Row, off: nat, j: nat, v: real)
    ensures (off + j, v) in Shift(r, off) <==> (j, v) in r
  {
    if (j, v) in r {
      var t :| 0 <= t < |r| && r[t] == (j, v);
      assert Shift(r, off)[t] == (off + j, v);
    }
    if (off + j, v) in Shift(r, off) {
      var t :| 0 <= t < |r| && Shift(r, off)[t] == (off + j, v);
      assert r[t] == (j, v);
    }
  }

  lemma StoresIn(r: Row, j: nat, v: real)
    ensures Stores(r, j, v) <==> (j, v) in r
  {
  }

  lemma MirrorIn(x: CrossTab, i: nat, j: nat, v: real)
    requires x.Valid() && i < x.NRows() && j < x.NCols()
    ensures (i, v) in x.ct.Row(j) <==> (j, v) in x.c.Row(i)
  {
    StoresIn(x.ct.Row(j), i, v);
    StoresIn(x.c.Row(i), j, v);
  }

  /** The shapes and column bounds a valid cross-tabulation guarantees. */
  lemma Shaped(x: CrossTab)
    requires x.Valid()
    ensures x.c.Valid() && x.ct.Valid() && x.ct.nrows == x.c.ncols && x.ct.ncols == x.c.nrows
  {
  }

  lemma InRow(r: Row, n: nat, j: nat, v: real)
    requires InRange(r, n) && (j, v) in r
    ensures j < n
  {
  }

  lemma EdgeFromRow(x: CrossTab, i: nat, j: nat, v: real)
    requires x.Valid() && i < x.NRows() && (j, v) in x.Neighbors(i)
    ensures x.NRows() <= j < x.NLocal() && (i, v) in x.Neighbors(j)
  {
    hide IsTranspose;
    Shaped(x);
    var n, r := x.NRows(), x.c.Row(i);
    ShiftedColumn(r, n, j, v);
    ShiftIn(r, n, j - n, v);
    InRow(r, x.NCols(), j - n, v);
    MirrorIn(x, i, j - n, v);
  }

  lemma ShiftedColumn(r: Row, off: nat, j: nat, v: real)
    requires (j, v) in Shift(r, off)
    ensures off <= j
  {
  }

  lemma EdgeFromColumn(x: CrossTab, i: nat, j: nat, v: real)
    requires x.Valid() && x.NRows() <= i < x.NLocal() && (j, v) in x.Neighbors(i)
    ensures j < x.NRows() && (i, v) in x.Neighbors(j)
  {
    hide IsTranspose;
    Shaped(x);
    var k := i - x.NRows();
    InRow(x.ct.Row(k), x.NRows(), j, v);
    MirrorIn(x, j, k, v);
    ShiftIn(x.c.Row(j), x.NRows(), k, v);
  }

  /** The bipartite graph is undirected: each edge is seen from both of its ends. */
  lemma GraphUndirected(x: CrossTab)
    requires x.Valid()
    ensures Undirected(x.Graph())
  {
    var g := x.Graph();
    forall i, j, v | 0 <= i < |g| && (j, v) in g[i] ensures (i, v) in g[j] {
      if i < x.NRows() { EdgeFromRow(x, i, j, v); } else { EdgeFromColumn(x, i, j, v); }
    }
  }

  /** A row node's adjacency is its stored row, shifted past the row nodes. */
  lemma RowInGraph(x: CrossTab, i: nat)
    requires x.Valid() && i < x.NRows()
    ensures |x.Graph()| == x.NLocal() && x.Graph()[i] == Shift(x.c.Row(i), x.NRows())
  {
    hide IsTranspose;
    Shaped(x);
    assert x.Graph()[i] == x.Neighbors(i);
  }

  /** A nonzero coefficient is stored. */
  lemma EntryStored(r: Row, j: int)
    requires Ascending(r) && Coef(r, j) != 0.0
    ensures exists t :: 0 <= t < |r| && r[t].0 == j && r[t].1 == Coef(r, j)
  {
    hide Coef;
    if t :| 0 <= t < |r| && r[t].0 == j {
      CoefStored(r, t);
      assert r[t].0 == j && r[t].1 == Coef(r, j);
    } else {
      CoefAbsent(r, j);
    }
  }
}
