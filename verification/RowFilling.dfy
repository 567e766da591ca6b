/** Rows under construction inside shared column and weight arrays. */
module RowFilling {
  import opened Csr

  /** `part` sits at `start` in the column and weight arrays. */
  ghost predicate Holds(cols: seq<nat>, vals: seq<real>, start: nat, part: Row) {
    && start + |part| <= |cols| == |vals|
    && forall t {:trigger part[t]} :: 0 <= t < |part| ==> cols[start + t] == part[t].0 && vals[start + t] == part[t].1
  }

  lemma WriteElsewhere(cols: seq<nat>, vals: seq<real>, start: nat, part: Row, q: nat, c: nat, v: real)
    requires Holds(cols, vals, start, part) && q < |cols| && !(start <= q < start + |part|)
    ensures Holds(cols[q := c], vals[q := v], start, part)
  {
  }

  lemma WriteNext(cols: seq<nat>, vals: seq<real>, start: nat, part: Row, c: nat, v: real)
    requires Holds(cols, vals, start, part) && start + |part| < |cols|
    ensures Holds(cols[start + |part| := c], vals[start + |part| := v], start, part + [(c, v)])
  {
  }

  /** Three adjacent parts read back as one row. */
  lemma ReadRow(cols: seq<nat>, vals: seq<real>, start: nat, low: Row, mid: (nat, real), up: Row)
    requires Holds(cols, vals, start, low) && Holds(cols, vals, start + |low|, [mid]) && Holds(cols, vals, start + |low| + 1, up)
    ensures Holds(cols, vals, start, low + [mid] + up)
  {
    var r := low + [mid] + up;
    forall t {:trigger r[t]} | 0 <= t < |r| ensures cols[start + t] == r[t].0 && vals[start + t] == r[t].1 {
      if t < |low| {
        assert r[t] == low[t];
      } else if t == |low| {
        assert r[t] == [mid][0];
      } else {
        assert r[t] == up[t - |low| - 1];
      }
    }
  }

  lemma HoldsWithin(cols: seq<nat>, vals: seq<real>, start: nat, r: Row, n: nat, q: nat)
    requires Holds(cols, vals, start, r) && InRange(r, n) && start <= q < start + |r|
    ensures cols[q] < n
  {
    assert r[q - start].0 < n;
  }

  lemma HoldsRow(a: CsrBlock, i: nat, r: Row)
    requires a.Valid() && i < a.nrows && Holds(a.indices, a.data, a.indptr[i], r) && a.indptr[i + 1] == a.indptr[i] + |r|
    ensures a.Row(i) == r
  {
    var s := a.Row(i);
    forall t | 0 <= t < |r| ensures s[t] == r[t] {
      assert r[t] == (a.indices[a.indptr[i] + t], a.data[a.indptr[i] + t]);
    }
  }
}
