/** `CsrBlock::transpose` (crates/within/src/csr_block.rs:59-90): meaning, order and involution. */
module Transposition {
  import opened Csr
  import opened Buckets

  /** `t` stores exactly the mirror image of what `a` stores, in ascending rows. */
  ghost predicate IsTranspose(a: CsrBlock, t: CsrBlock) {
    && a.Valid() && t.Sorted()
    && t.nrows == a.ncols && t.ncols == a.nrows
    && (forall i, j, v :: 0 <= i < a.nrows && 0 <= j < a.ncols ==>
          (Stores(t.Row(j), i, v) <==> Stores(a.Row(i), j, v)))
  }

  /** What the placement loop leaves behind once every position has been placed. */
  ghost predicate Placed(a: CsrBlock, t: CsrBlock) {
    && a.Valid()
    && t.nrows == a.ncols && t.ncols == a.nrows
    && |t.indices| == |a.indices| == |t.data|
    && |t.indptr| == a.ncols + 1
    && (forall k :: 0 <= k <= a.ncols ==> t.indptr[k] == Less(a.indices, k, |a.indices|))
    && (forall p {:trigger Slot(a.indices, p)} :: 0 <= p < |a.indices| ==>
          && Slot(a.indices, p) < |a.indices|
          && t.indices[Slot(a.indices, p)] == HoldingRow(a, p)
          && t.data[Slot(a.indices, p)] == a.data[p])
  }

  lemma PlacedIsValid(a: CsrBlock, t: CsrBlock)
    requires Placed(a, t)
    ensures t.Valid()
  {
    var n := |a.indices|;
    LessZero(a.indices, n);
    LessAll(a.indices, a.ncols, n);
    forall i, j | 0 <= i <= j <= a.ncols ensures t.indptr[i] <= t.indptr[j] {
      LessMono(a.indices, i, j, n);
    }
    forall s | 0 <= s < n ensures t.indices[s] < a.nrows {
      var p := SlotOnto(a.indices, s);
    }
  }

  /** The row of the output that holds the slot of `p` is the column of `p`. */
  lemma SlotRow(a: CsrBlock, t: CsrBlock, p: nat)
    requires Placed(a, t) && t.Valid() && p < |a.indices|
    ensures t.indptr[a.indices[p]] <= Slot(a.indices, p) < t.indptr[a.indices[p] + 1]
    ensures HoldingRow(t, Slot(a.indices, p)) == a.indices[p]
  {
    SlotInBucket(a.indices, p);
    HoldingRowUnique(t, Slot(a.indices, p), a.indices[p]);
  }

  lemma PlacedKeeps(a: CsrBlock, t: CsrBlock, i: nat, j: nat, v: real)
    requires Placed(a, t) && t.Valid() && i < a.nrows && j < a.ncols
    requires Stores(a.Row(i), j, v)
    ensures Stores(t.Row(j), i, v)
  {
    hide Slot;
    hide HoldingRow;
    var s :| 0 <= s < |a.Row(i)| && a.Row(i)[s] == (j, v);
    var p := a.indptr[i] + s;
    HoldingRowUnique(a, p, i);
    SlotRow(a, t, p);
    assert t.Row(j)[Slot(a.indices, p) - t.indptr[j]] == (i, v);
  }

  lemma PlacedOnly(a: CsrBlock, t: CsrBlock, i: nat, j: nat, v: real)
    requires Placed(a, t) && t.Valid() && i < a.nrows && j < a.ncols
    requires Stores(t.Row(j), i, v)
    ensures Stores(a.Row(i), j, v)
  {
    hide Less;
    hide HoldingRowBelow;
    hide Slot;
    var s :| 0 <= s < |t.Row(j)| && t.Row(j)[s] == (i, v);
    var p := SlotOnto(a.indices, t.indptr[j] + s);
    HoldingRowUnique(t, t.indptr[j] + s, j);
    SlotRow(a, t, p);
    assert HoldingRow(a, p) == i && a.indices[p] == j && a.data[p] == v;
    assert a.Row(i)[p - a.indptr[i]] == (j, v);
  }

  lemma PlacedAscends(a: CsrBlock, t: CsrBlock, j: nat)
    requires Placed(a, t) && t.Valid() && a.Sorted() && j < a.ncols
    ensures Ascending(t.Row(j))
  {
    hide Less;
    hide HoldingRow;
    hide Slot;
    forall x, y | 0 <= x < y < |t.Row(j)| ensures t.Row(j)[x].0 < t.Row(j)[y].0 {
      var sx, sy := t.indptr[j] + x, t.indptr[j] + y;
      var p := SlotOnto(a.indices, sx);
      var q := SlotOnto(a.indices, sy);
      HoldingRowUnique(t, sx, j);
      HoldingRowUnique(t, sy, j);
      SlotRow(a, t, p);
      SlotRow(a, t, q);
      if q < p { SlotOrder(a.indices, q, p); }
      assert p < q;
      SameColumnAscends(a, p, q);
    }
  }

  lemma AscendingAt(a: CsrBlock, i: nat, p: nat, q: nat)
    requires a.Sorted() && i < a.nrows && a.indptr[i] <= p < q < a.indptr[i + 1]
    ensures a.indices[p] < a.indices[q]
  {
    assert a.Row(i)[p - a.indptr[i]].0 < a.Row(i)[q - a.indptr[i]].0;
  }

  /** In an ascending block a column's positions come from strictly ascending rows. */
  lemma SameColumnAscends(a: CsrBlock, p: nat, q: nat)
    requires a.Sorted() && p < q < |a.indices| && a.indices[p] == a.indices[q]
    ensures HoldingRow(a, p) < HoldingRow(a, q)
  {
    var i := HoldingRow(a, p);
    if q < a.indptr[i + 1] { AscendingAt(a, i, p, q); }
  }

  method Transpose(a: CsrBlock) returns (t: CsrBlock)
    requires a.Sorted()
    ensures IsTranspose(a, t) && t.Nnz() == a.Nnz()
  {
    hide CsrBlock.Row;
    hide Stores;
    hide Less;
    hide Zip;
    var nnz := a.Nnz();
    var indptr := BucketStarts(a.indices, a.ncols);
    var cursor := indptr[..a.ncols];
    var indices: seq<nat> := seq(nnz, _ => 0);
    var data: seq<real> := seq(nnz, _ => 0.0);
    for srcRow := 0 to a.nrows
      invariant |indices| == |data| == nnz && |cursor| == a.ncols
      invariant Partial(a, cursor, indices, data, a.indptr[srcRow])
    {
      var start, end := a.indptr[srcRow], a.indptr[srcRow + 1];
      for idx := start to end
        invariant |indices| == |data| == nnz && |cursor| == a.ncols
        invariant Partial(a, cursor, indices, data, idx)
      {
        var dstRow := a.indices[idx];
        var pos := cursor[dstRow];
        SlotInBucket(a.indices, idx);
        HoldingRowUnique(a, idx, srcRow);
        ghost var c, x, d := cursor, indices, data;
        indices := indices[pos := srcRow];
        data := data[pos := a.data[idx]];
        cursor := cursor[dstRow := cursor[dstRow] + 1];
        PlaceOne(a, c, x, d, cursor, indices, data, idx);
      }
    }
    t := CsrBlock(indptr, indices, data, a.ncols, a.nrows);
    forall p {:trigger Slot(a.indices, p)} | 0 <= p < nnz ensures Slot(a.indices, p) < nnz {
      SlotInBucket(a.indices, p);
    }
    PlacedIsValid(a, t);
    forall i, j, v | 0 <= i < a.nrows && 0 <= j < a.ncols
      ensures Stores(t.Row(j), i, v) <==> Stores(a.Row(i), j, v)
    {
      if Stores(a.Row(i), j, v) { PlacedKeeps(a, t, i, j, v); }
      if Stores(t.Row(j), i, v) { PlacedOnly(a, t, i, j, v); }
    }
    forall j | 0 <= j < a.ncols ensures Ascending(t.Row(j)) { PlacedAscends(a, t, j); }
  }

  /** The placement loop's invariant: the first `n` positions sit in their slots. */
  ghost predicate Partial(a: CsrBlock, cursor: seq<nat>, indices: seq<nat>, data: seq<real>, n: nat)
    requires a.Valid()
  {
    && n <= |a.indices| == |indices| == |data| && |cursor| == a.ncols
    && (forall k :: 0 <= k < a.ncols ==> cursor[k] == Less(a.indices, k, |a.indices|) + Count(a.indices, k, n))
    && (forall p {:trigger Slot(a.indices, p)} :: 0 <= p < n ==>
          && Slot(a.indices, p) < |a.indices|
          && indices[Slot(a.indices, p)] == HoldingRow(a, p) && data[Slot(a.indices, p)] == a.data[p])
  }

  lemma PlaceOne(a: CsrBlock, c: seq<nat>, x: seq<nat>, d: seq<real>, c': seq<nat>, x': seq<nat>, d': seq<real>, n: nat)
    requires a.Valid() && Partial(a, c, x, d, n) && n < |a.indices|
    requires Slot(a.indices, n) < |a.indices|
    requires c' == c[a.indices[n] := c[a.indices[n]] + 1]
    requires x' == x[Slot(a.indices, n) := HoldingRow(a, n)] && d' == d[Slot(a.indices, n) := a.data[n]]
    ensures Partial(a, c', x', d', n + 1)
  {
    forall p {:trigger Slot(a.indices, p)} | 0 <= p < n + 1
      ensures Slot(a.indices, p) < |a.indices|
      ensures x'[Slot(a.indices, p)] == HoldingRow(a, p) && d'[Slot(a.indices, p)] == a.data[p]
    {
      if p < n { SlotInjective(a.indices, p, n); }
    }
  }

  /** The transpose denotes the mirrored matrix. */
  lemma TransposeEntry(a: CsrBlock, t: CsrBlock, i: int, j: int)
    requires a.Sorted() && IsTranspose(a, t)
    ensures t.Entry(j, i) == a.Entry(i, j)
  {
    if 0 <= i < a.nrows && 0 <= j < a.ncols {
      if s :| 0 <= s < |a.Row(i)| && a.Row(i)[s].0 == j {
        CoefStored(a.Row(i), s);
        var v := a.Row(i)[s].1;
        assert Stores(a.Row(i), j, v);
        assert Stores(t.Row(j), i, v);
        var r :| 0 <= r < |t.Row(j)| && t.Row(j)[r] == (i, v);
        CoefStored(t.Row(j), r);
      } else {
        CoefAbsent(a.Row(i), j);
        if r :| 0 <= r < |t.Row(j)| && t.Row(j)[r].0 == i {
          assert Stores(t.Row(j), i, t.Row(j)[r].1);
          assert false;
        }
        CoefAbsent(t.Row(j), i);
      }
    } else {
      if 0 <= i < a.nrows { EntryOutside(a, i, j); }
      if 0 <= j < a.ncols { EntryOutside(t, j, i); }
    }
  }

  /** Transposing twice gives back the identical block. */
  lemma TransposeTwice(a: CsrBlock, t: CsrBlock, u: CsrBlock)
    requires a.Sorted() && IsTranspose(a, t) && IsTranspose(t, u)
    ensures u == a
  {
    SortedBlocksUnique(u, a);
  }
}
