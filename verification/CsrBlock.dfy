/** Compressed sparse rows: the storage of every cross block `C`, its transpose and
    every reduced matrix (crates/within/src/csr_block.rs). */
module Csr {
  import opened Sums

  /** A sparse row as the `(column, weight)` pairs its iterator yields. */
  type Row = seq<(nat, real)>

  function Zip(cols: seq<nat>, vals: seq<real>): (r: Row)
    requires |cols| == |vals|
    ensures |r| == |cols|
  {
    seq(|cols|, t requires 0 <= t < |cols| => (cols[t], vals[t]))
  }

  function Cols(r: Row): (c: seq<nat>)
    ensures |c| == |r|
  {
    seq(|r|, t requires 0 <= t < |r| => r[t].0)
  }

  function Vals(r: Row): (v: seq<real>)
    ensures |v| == |r|
  {
    seq(|r|, t requires 0 <= t < |r| => r[t].1)
  }

  /** The coefficient of column `j`: the total weight stored for it. */
  ghost function Coef(r: Row, j: int): real {
    if r == [] then 0.0
    else Coef(r[..|r| - 1], j) + (if r[|r| - 1].0 == j then r[|r| - 1].1 else 0.0)
  }

  /** Sum of g(column, weight) over the stored pairs, in storage order. */
  ghost function Fold(r: Row, g: (int, real) -> real): real {
    if r == [] then 0.0 else Fold(r[..|r| - 1], g) + g(r[|r| - 1].0, r[|r| - 1].1)
  }

  ghost predicate InRange(r: Row, n: nat) {
    forall t :: 0 <= t < |r| ==> r[t].0 < n
  }

  ghost predicate Ascending(r: Row) {
    forall s, t :: 0 <= s < t < |r| ==> r[s].0 < r[t].0
  }

  ghost predicate NoZeros(r: Row) {
    forall t :: 0 <= t < |r| ==> r[t].1 != 0.0
  }

  ghost predicate Stores(r: Row, j: nat, v: real) {
    (j, v) in r
  }

  lemma {:induction false} CoefAbsent(r: Row, j: int)
    requires forall t :: 0 <= t < |r| ==> r[t].0 != j
    ensures Coef(r, j) == 0.0
  {
    if r != [] { CoefAbsent(r[..|r| - 1], j); }
  }

  /** In an ascending row the coefficient of a stored column is the stored weight. */
  lemma {:induction false} CoefStored(r: Row, t: nat)
    requires t < |r| && Ascending(r)
    ensures Coef(r, r[t].0) == r[t].1
  {
    if t == |r| - 1 {
      CoefAbsent(r[..|r| - 1], r[t].0);
    } else {
      CoefStored(r[..|r| - 1], t);
    }
  }

  lemma CoefOfPush(r: Row, c: nat, v: real, j: int)
    ensures Coef(r + [(c, v)], j) == Coef(r, j) + (if c == j then v else 0.0)
  {
    assert (r + [(c, v)])[..|r|] == r;
  }

  lemma {:induction false} CoefJoin(a: Row, b: Row, j: int)
    ensures Coef(a + b, j) == Coef(a, j) + Coef(b, j)
  {
    if b == [] {
      assert a + b == a;
    } else {
      CoefJoin(a, b[..|b| - 1], j);
      assert a + b == (a + b[..|b| - 1]) + [b[|b| - 1]];
      CoefOfPush(a + b[..|b| - 1], b[|b| - 1].0, b[|b| - 1].1, j);
    }
  }

  lemma FoldOfPush(r: Row, c: nat, v: real, g: (int, real) -> real)
    ensures Fold(r + [(c, v)], g) == Fold(r, g) + g(c, v)
  {
    assert (r + [(c, v)])[..|r|] == r;
  }

  lemma FoldStep(r: Row, t: nat, g: (int, real) -> real)
    requires t < |r|
    ensures Fold(r[..t + 1], g) == Fold(r[..t], g) + g(r[t].0, r[t].1)
  {
    assert r[..t + 1] == r[..t] + [(r[t].0, r[t].1)];
    FoldOfPush(r[..t], r[t].0, r[t].1, g);
  }

  lemma {:induction false} FoldCong(r: Row, g: (int, real) -> real, h: (int, real) -> real)
    requires forall t :: 0 <= t < |r| ==> g(r[t].0, r[t].1) == h(r[t].0, r[t].1)
    ensures Fold(r, g) == Fold(r, h)
  {
    if r != [] { FoldCong(r[..|r| - 1], g, h); }
  }

  /** Walking the stored pairs computes the dense inner product. */
  lemma {:induction false} FoldIsDot(r: Row, n: nat, x: int -> real)
    requires InRange(r, n)
    ensures Fold(r, (j, v) => v * x(j)) == Dot(n, Coefs(r), x)
  {
    hide Dot;
    hide Coef;
    if r == [] {
      forall j ensures Coefs(r)(j) == 0.0 { CoefAbsent(r, j); }
      DotZero(n, Coefs(r), x);
    } else {
      var p, c, v := r[..|r| - 1], r[|r| - 1].0, r[|r| - 1].1;
      FoldIsDot(p, n, x);
      var unit := j => if j == c then v else 0.0;
      assert r == p + [(c, v)];
      forall j ensures Coefs(r)(j) == Coefs(p)(j) + unit(j) { CoefOfPush(p, c, v, j); }
      DotUnit(n, c, unit, x);
      DotComm(n, Coefs(p), x);
      DotComm(n, unit, x);
      DotComm(n, Coefs(r), x);
      DotAdd(n, x, Coefs(p), unit, Coefs(r));
    }
  }

  ghost function Coefs(r: Row): int -> real { j => Coef(r, j) }

  /** In an ascending row a fold is a sum over columns of the coefficient's image,
      for any g that sends weight zero to zero. */
  lemma {:induction false} FoldIsSum(r: Row, n: nat, g: (int, real) -> real)
    requires InRange(r, n) && Ascending(r)
    requires forall j :: g(j, 0.0) == 0.0
    ensures Fold(r, g) == Sum(n, j => g(j, Coef(r, j)))
  {
    if r == [] {
      forall j | 0 <= j < n ensures g(j, Coef(r, j)) == 0.0 { assert g(j, 0.0) == 0.0; }
      SumZero(n, j => g(j, Coef(r, j)));
    } else {
      var p, c, v := r[..|r| - 1], r[|r| - 1].0, r[|r| - 1].1;
      FoldIsSum(p, n, g);
      CoefAbsent(p, c);
      var before, after := j => g(j, Coef(p, j)), j => g(j, Coef(r, j));
      forall j | 0 <= j < n && j != c ensures before(j) == after(j) { assert Coef(p, j) == Coef(r, j); }
      assert before(c) == 0.0 by { assert g(c, 0.0) == 0.0; }
      assert Coef(r, c) == v;
      SumUpdate(n, c, before, after);
    }
  }

  lemma PrefixStores(r: Row, j: nat, v: real)
    requires r != [] && Ascending(r)
    ensures Stores(r[..|r| - 1], j, v) <==> Stores(r, j, v) && j != r[|r| - 1].0
  {
    var p := r[..|r| - 1];
    if Stores(p, j, v) {
      var t :| 0 <= t < |p| && p[t] == (j, v);
      assert r[t] == (j, v);
    }
    if Stores(r, j, v) && j != r[|r| - 1].0 {
      var t :| 0 <= t < |r| && r[t] == (j, v);
      assert p[t] == (j, v);
    }
  }

  /** The last column of `r` is no later than that of a row storing the same pairs. */
  lemma LastStored(r: Row, s: Row)
    requires r != [] && s != [] && Ascending(s) && Stores(s, r[|r| - 1].0, r[|r| - 1].1)
    ensures r[|r| - 1].0 <= s[|s| - 1].0
    ensures r[|r| - 1].0 == s[|s| - 1].0 ==> r[|r| - 1] == s[|s| - 1]
  {
    var a := r[|r| - 1];
    var t :| 0 <= t < |s| && s[t] == (a.0, a.1);
  }

  /** Two ascending rows storing the same pairs are the same row. */
  lemma {:induction false} AscendingRowsUnique(r: Row, s: Row)
    requires Ascending(r) && Ascending(s)
    requires forall j, v :: Stores(r, j, v) <==> Stores(s, j, v)
    ensures r == s
  {
    if r == [] {
      if s != [] { assert Stores(s, s[0].0, s[0].1); }
    } else if s == [] {
      assert Stores(r, r[0].0, r[0].1);
    } else {
      var a, b := r[|r| - 1], s[|s| - 1];
      assert Stores(r, a.0, a.1) && Stores(s, b.0, b.1);
      LastStored(r, s);
      LastStored(s, r);
      var p, q := r[..|r| - 1], s[..|s| - 1];
      forall j: nat, v ensures Stores(p, j, v) <==> Stores(q, j, v) {
        PrefixStores(r, j, v);
        PrefixStores(s, j, v);
      }
      AscendingRowsUnique(p, q);
      assert r == p + [a] && s == q + [b];
    }
  }

  /** Without stored zeros an ascending row is determined by its coefficients. */
  lemma CanonicalRowsUnique(r: Row, s: Row)
    requires Ascending(r) && Ascending(s) && NoZeros(r) && NoZeros(s)
    requires forall j: nat :: Coef(r, j) == Coef(s, j)
    ensures r == s
  {
    forall j: nat, v ensures Stores(r, j, v) <==> Stores(s, j, v) {
      CanonicalStores(r, j, v);
      CanonicalStores(s, j, v);
    }
    AscendingRowsUnique(r, s);
  }

  lemma CanonicalStores(r: Row, j: nat, v: real)
    requires Ascending(r) && NoZeros(r)
    ensures Stores(r, j, v) <==> (v != 0.0 && Coef(r, j) == v)
  {
    if t :| 0 <= t < |r| && r[t].0 == j {
      CoefStored(r, t);
      assert r[t] == (j, Coef(r, j));
      if u :| 0 <= u < |r| && r[u] == (j, v) { CoefStored(r, u); }
    } else {
      CoefAbsent(r, j);
    }
  }

  datatype CsrBlock = CsrBlock(indptr: seq<nat>, indices: seq<nat>, data: seq<real>, nrows: nat, ncols: nat) {

    /** The shape conditions the deserializer checks; row pointers are monotone. */
    predicate Valid() {
      && |indptr| == nrows + 1
      && |data| == |indices|
      && indptr[0] == 0
      && indptr[nrows] == |indices|
      && (forall i, j :: 0 <= i <= j <= nrows ==> indptr[i] <= indptr[j])
      && (forall p :: 0 <= p < |indices| ==> indices[p] < ncols)
    }

    function Nnz(): nat { |data| }

    /** What row `i` stores, in stored order: each column with its value. */
    function Row(i: nat): (r: Row)
      requires Valid() && i < nrows
      ensures |r| == indptr[i + 1] - indptr[i] && InRange(r, ncols)
    {
      Zip(indices[indptr[i]..indptr[i + 1]], data[indptr[i]..indptr[i + 1]])
    }

    /** The matrix this block denotes, zero outside the stored rows. */
    ghost function Entry(i: int, j: int): real {
      if Valid() && 0 <= i < nrows then Coef(Row(i), j) else 0.0
    }

    /** Columns strictly ascend within every row. */
    ghost predicate Sorted() {
      Valid() && forall i :: 0 <= i < nrows ==> Ascending(Row(i))
    }

    ghost predicate Nonzero() {
      Valid() && forall i :: 0 <= i < nrows ==> NoZeros(Row(i))
    }

    ghost predicate Nonnegative() {
      Valid() && forall p :: 0 <= p < |data| ==> data[p] >= 0.0
    }
  }

  /** The matrix a block denotes. */
  ghost function MatrixOf(a: CsrBlock): (int, int) -> real { (i, j) => a.Entry(i, j) }

  /** `a` with one more row at the bottom, as the push loops leave it. */
  function Append(a: CsrBlock, r: Row): CsrBlock {
    CsrBlock(a.indptr + [|a.indices| + |r|], a.indices + Cols(r), a.data + Vals(r), a.nrows + 1, a.ncols)
  }

  function Empty(ncols: nat): CsrBlock { CsrBlock([0], [], [], 0, ncols) }

  lemma AppendRows(a: CsrBlock, r: Row)
    requires a.Valid() && InRange(r, a.ncols)
    ensures Append(a, r).Valid()
    ensures forall i :: 0 <= i < a.nrows ==> Append(a, r).Row(i) == a.Row(i)
    ensures Append(a, r).Row(a.nrows) == r
  {
    var b := Append(a, r);
    forall i | 0 <= i < a.nrows ensures b.Row(i) == a.Row(i) {
      assert b.indices[b.indptr[i]..b.indptr[i + 1]] == a.indices[a.indptr[i]..a.indptr[i + 1]];
      assert b.data[b.indptr[i]..b.indptr[i + 1]] == a.data[a.indptr[i]..a.indptr[i + 1]];
    }
    assert b.indices[b.indptr[a.nrows]..] == Cols(r);
    assert b.data[b.indptr[a.nrows]..] == Vals(r);
  }

  lemma EntryOutside(a: CsrBlock, i: int, j: int)
    requires a.Valid() && !(0 <= j < a.ncols)
    ensures a.Entry(i, j) == 0.0
  {
    if 0 <= i < a.nrows { CoefAbsent(a.Row(i), j); }
  }

  /** Rows determine the block: equal rows force equal arrays. */
  lemma {:induction false} RowsDetermineBlock(a: CsrBlock, b: CsrBlock)
    requires a.Valid() && b.Valid() && a.nrows == b.nrows && a.ncols == b.ncols
    requires forall i :: 0 <= i < a.nrows ==> a.Row(i) == b.Row(i)
    ensures a == b
  {
    hide CsrBlock.Row;
    RowPointersAgree(a, b, a.nrows);
    assert a.indptr == a.indptr[..a.nrows + 1] == b.indptr[..a.nrows + 1] == b.indptr;
    forall p | 0 <= p < |a.indices| ensures a.indices[p] == b.indices[p] && a.data[p] == b.data[p] {
      var i := HoldingRow(a, p);
      SamePosition(a, b, i, p);
    }
  }

  lemma SamePosition(a: CsrBlock, b: CsrBlock, i: nat, p: nat)
    requires a.Valid() && b.Valid() && i < a.nrows == b.nrows && a.indptr == b.indptr && a.Row(i) == b.Row(i)
    requires a.indptr[i] <= p < a.indptr[i + 1]
    ensures p < |a.indices| == |b.indices| && a.indices[p] == b.indices[p] && a.data[p] == b.data[p]
  {
    var t := p - a.indptr[i];
    assert a.Row(i)[t] == (a.indices[p], a.data[p]) && b.Row(i)[t] == (b.indices[p], b.data[p]);
  }

  lemma {:induction false} RowPointersAgree(a: CsrBlock, b: CsrBlock, n: nat)
    requires a.Valid() && b.Valid() && n <= a.nrows == b.nrows
    requires forall i :: 0 <= i < a.nrows ==> a.Row(i) == b.Row(i)
    ensures a.indptr[..n + 1] == b.indptr[..n + 1]
  {
    if n > 0 {
      RowPointersAgree(a, b, n - 1);
      assert |a.Row(n - 1)| == |b.Row(n - 1)|;
      assert a.indptr[n - 1] == a.indptr[..n][n - 1];
      assert b.indptr[n - 1] == b.indptr[..n][n - 1];
    }
  }

  /** The row that stores position `p`. */
  ghost function HoldingRow(a: CsrBlock, p: nat): (i: nat)
    requires a.Valid() && p < |a.indices|
    ensures i < a.nrows && a.indptr[i] <= p < a.indptr[i + 1]
  {
    HoldingRowBelow(a, p, a.nrows)
  }

  ghost function HoldingRowBelow(a: CsrBlock, p: nat, n: nat): (i: nat)
    requires a.Valid() && n <= a.nrows && p < a.indptr[n]
    ensures i < n && a.indptr[i] <= p < a.indptr[i + 1]
  {
    if a.indptr[n - 1] <= p then n - 1 else HoldingRowBelow(a, p, n - 1)
  }

  lemma HoldingRowUnique(a: CsrBlock, p: nat, i: nat)
    requires a.Valid() && p < |a.indices| && i < a.nrows && a.indptr[i] <= p < a.indptr[i + 1]
    ensures HoldingRow(a, p) == i
  {
  }

  /** An ascending block is determined by what it stores. */
  lemma SortedBlocksUnique(a: CsrBlock, b: CsrBlock)
    requires a.Sorted() && b.Sorted() && a.nrows == b.nrows && a.ncols == b.ncols
    requires forall i, j, v :: 0 <= i < a.nrows ==> (Stores(a.Row(i), j, v) <==> Stores(b.Row(i), j, v))
    ensures a == b
  {
    forall i | 0 <= i < a.nrows ensures a.Row(i) == b.Row(i) {
      AscendingRowsUnique(a.Row(i), b.Row(i));
    }
    RowsDetermineBlock(a, b);
  }

  /** Ascending blocks without stored zeros are a canonical form of their matrix. */
  lemma CanonicalBlocksUnique(a: CsrBlock, b: CsrBlock)
    requires a.Sorted() && b.Sorted() && a.Nonzero() && b.Nonzero()
    requires a.nrows == b.nrows && a.ncols == b.ncols
    requires forall i, j :: 0 <= i < a.nrows && 0 <= j < a.ncols ==> a.Entry(i, j) == b.Entry(i, j)
    ensures a == b
  {
    forall i | 0 <= i < a.nrows ensures a.Row(i) == b.Row(i) {
      forall j: nat ensures Coef(a.Row(i), j) == Coef(b.Row(i), j) {
        if j < a.ncols {
          assert a.Entry(i, j) == b.Entry(i, j);
        } else {
          CoefAbsent(a.Row(i), j);
          CoefAbsent(b.Row(i), j);
        }
      }
      CanonicalRowsUnique(a.Row(i), b.Row(i));
    }
    RowsDetermineBlock(a, b);
  }
}
