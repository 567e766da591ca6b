/** `CsrBlock::spmv_assign_add` (crates/within/src/csr_block.rs:138-172). */
module Spmv {
  import opened Sums
  import opened Csr

  /** One row's accumulation, starting from `base`. */
  method RowDot(r: Row, x: seq<real>, base: real) returns (acc: real)
    requires InRange(r, |x|)
    ensures forall n: nat :: InRange(r, n) ==> acc == base + Dot(n, Coefs(r), At(x))
  {
    acc := base;
    ghost var g := (j, v: real) => v * At(x)(j);
    for t := 0 to |r|
      invariant acc == base + Fold(r[..t], g)
    {
      FoldStep(r, t, g);
      assert At(x)(r[t].0) == x[r[t].0];
      acc := acc + r[t].1 * x[r[t].0];
    }
    assert r[..|r|] == r;
    forall n: nat | InRange(r, n) ensures acc == base + Dot(n, Coefs(r), At(x)) {
      FoldIsDot(r, n, At(x));
      FoldCong(r, g, (j, v) => v * At(x)(j));
    }
  }

  lemma RowIsCoefs(a: CsrBlock, i: nat, x: int -> real)
    requires a.Valid() && i < a.nrows
    ensures MulVec(a.ncols, MatrixOf(a), x)(i) == Dot(a.ncols, Coefs(a.Row(i)), x)
  {
    DotCong(a.ncols, RowOf(MatrixOf(a), i), x, Coefs(a.Row(i)), x);
  }

  /** `y[off..] = base + A x` over the rows of `A`; nothing else of `y` changes. */
  method SpmvAssignAdd(a: CsrBlock, x: seq<real>, base: seq<real>, y: array<real>, off: nat)
    requires a.Valid() && |x| >= a.ncols && |base| >= a.nrows && off + a.nrows <= y.Length
    modifies y
    ensures forall i :: 0 <= i < a.nrows ==> y[off + i] == base[i] + MulVec(a.ncols, MatrixOf(a), At(x))(i)
    ensures forall p :: 0 <= p < y.Length && !(off <= p < off + a.nrows) ==> y[p] == old(y[p])
  {
    for i := 0 to a.nrows
      invariant forall p :: off <= p < off + i ==> y[p] == base[p - off] + MulVec(a.ncols, MatrixOf(a), At(x))(p - off)
      invariant forall p :: 0 <= p < y.Length && !(off <= p < off + i) ==> y[p] == old(y[p])
    {
      var v := RowDot(a.Row(i), x, base[i]);
      RowIsCoefs(a, i, At(x));
      y[off + i] := v;
    }
  }
}
