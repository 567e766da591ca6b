/** The Laplacian of an edge list, filled with two cursors per row
    (crates/within/src/block_elim/schur.rs:149-195). */
module EdgeLaplacian {
  import opened Sums
  import opened Csr
  import opened RowFilling
  import opened EdgeSort
  import opened Sorting

  /** What the edges put below the diagonal of row `i`, in order. */
  function Lower(edges: seq<Edge>, i: nat): (r: Row) {
    if edges == [] then []
    else
      var (p, e) := (Lower(edges[..|edges| - 1], i), edges[|edges| - 1]);
      if e.hi == i then p + [(e.lo, -e.w)] else p
  }

  /** What they put above it. */
  function Upper(edges: seq<Edge>, i: nat): (r: Row) {
    if edges == [] then []
    else
      var (p, e) := (Upper(edges[..|edges| - 1], i), edges[|edges| - 1]);
      if e.lo == i then p + [(e.hi, -e.w)] else p
  }

  /** Total weight at vertex `i`. */
  function Degree(edges: seq<Edge>, i: nat): real {
    if edges == [] then 0.0
    else
      var e := edges[|edges| - 1];
      Degree(edges[..|edges| - 1], i) + (if e.lo == i then e.w else 0.0) + (if e.hi == i then e.w else 0.0)
  }

  function LaplacianRow(edges: seq<Edge>, i: nat): Row {
    Lower(edges, i) + [(i, Degree(edges, i))] + Upper(edges, i)
  }

  // ---- Rows --------------------------------------------------------------------------------

  /** Column `c` comes from an edge of row `i`. */
  ghost predicate FromLower(edges: seq<Edge>, i: nat, c: nat) {
    exists k :: 0 <= k < |edges| && edges[k].hi == i && edges[k].lo == c
  }

  ghost predicate FromUpper(edges: seq<Edge>, i: nat, c: nat) {
    exists k :: 0 <= k < |edges| && edges[k].lo == i && edges[k].hi == c
  }

  /** The last edge of an ascending list lies past every column its row has so far. */
  lemma LastIsNew(edges: seq<Edge>, c: nat)
    requires edges != [] && PairsAscend(edges)
    ensures FromLower(edges[..|edges| - 1], edges[|edges| - 1].hi, c) ==> c < edges[|edges| - 1].lo
    ensures FromUpper(edges[..|edges| - 1], edges[|edges| - 1].lo, c) ==> c < edges[|edges| - 1].hi
  {
    var m := |edges| - 1;
    if FromLower(edges[..m], edges[m].hi, c) {
      var k :| 0 <= k < m && edges[..m][k].hi == edges[m].hi && edges[..m][k].lo == c;
      assert PairLess(edges[k], edges[m]);
    }
    if FromUpper(edges[..m], edges[m].lo, c) {
      var k :| 0 <= k < m && edges[..m][k].lo == edges[m].lo && edges[..m][k].hi == c;
      assert PairLess(edges[k], edges[m]);
    }
  }

  lemma StillFrom(edges: seq<Edge>, i: nat, c: nat)
    requires edges != []
    ensures FromLower(edges[..|edges| - 1], i, c) ==> FromLower(edges, i, c)
    ensures FromUpper(edges[..|edges| - 1], i, c) ==> FromUpper(edges, i, c)
  {
    var m := |edges| - 1;
    if FromLower(edges[..m], i, c) {
      var k :| 0 <= k < m && edges[..m][k].hi == i && edges[..m][k].lo == c;
      assert edges[k].hi == i;
    }
    if FromUpper(edges[..m], i, c) {
      var k :| 0 <= k < m && edges[..m][k].lo == i && edges[..m][k].hi == c;
      assert edges[k].lo == i;
    }
  }

  lemma LastFrom(edges: seq<Edge>)
    requires edges != []
    ensures FromLower(edges, edges[|edges| - 1].hi, edges[|edges| - 1].lo)
    ensures FromUpper(edges, edges[|edges| - 1].lo, edges[|edges| - 1].hi)
  {
    var m := |edges| - 1;
    assert edges[m].hi == edges[m].hi && edges[m].lo == edges[m].lo;
  }

  lemma {:induction false} LowerColumns(edges: seq<Edge>, i: nat, n: nat)
    requires EdgesWithin(edges, n) && PairsAscend(edges)
    ensures Ascending(Lower(edges, i)) && InRange(Lower(edges, i), i)
    ensures forall t :: 0 <= t < |Lower(edges, i)| ==> FromLower(edges, i, Lower(edges, i)[t].0)
  {
    hide FromLower;
    hide FromUpper;
    if edges != [] {
      var m := |edges| - 1;
      var p, e := Lower(edges[..m], i), edges[m];
      LowerColumns(edges[..m], i, n);
      assert e.lo < e.hi < n;
      LastFrom(edges);
      forall t | 0 <= t < |p| ensures FromLower(edges, i, p[t].0) && (e.hi == i ==> p[t].0 < e.lo) {
        StillFrom(edges, i, p[t].0);
        LastIsNew(edges, p[t].0);
      }
    }
  }

  lemma {:induction false} UpperColumns(edges: seq<Edge>, i: nat, n: nat)
    requires EdgesWithin(edges, n) && PairsAscend(edges)
    ensures Ascending(Upper(edges, i)) && forall t :: 0 <= t < |Upper(edges, i)| ==> i < Upper(edges, i)[t].0 < n
    ensures forall t :: 0 <= t < |Upper(edges, i)| ==> FromUpper(edges, i, Upper(edges, i)[t].0)
  {
    hide FromLower;
    hide FromUpper;
    if edges != [] {
      var m := |edges| - 1;
      var p, e := Upper(edges[..m], i), edges[m];
      UpperColumns(edges[..m], i, n);
      assert e.lo < e.hi < n;
      LastFrom(edges);
      forall t | 0 <= t < |p| ensures FromUpper(edges, i, p[t].0) && (e.lo == i ==> p[t].0 < e.hi) {
        StillFrom(edges, i, p[t].0);
        LastIsNew(edges, p[t].0);
      }
    }
  }

  lemma RowAscends(edges: seq<Edge>, i: nat, n: nat)
    requires EdgesWithin(edges, n) && PairsAscend(edges) && i < n
    ensures Ascending(LaplacianRow(edges, i)) && InRange(LaplacianRow(edges, i), n)
  {
    LowerColumns(edges, i, n);
    UpperColumns(edges, i, n);
  }

  lemma {:induction false} LowerCoef(edges: seq<Edge>, i: nat, j: nat)
    ensures Coef(Lower(edges, i), j) == -PairWeight(edges, j, i)
  {
    if edges != [] {
      var m := |edges| - 1;
      LowerCoef(edges[..m], i, j);
      CoefOfPush(Lower(edges[..m], i), edges[m].lo, -edges[m].w, j);
    }
  }

  lemma {:induction false} UpperCoef(edges: seq<Edge>, i: nat, j: nat)
    ensures Coef(Upper(edges, i), j) == -PairWeight(edges, i, j)
  {
    if edges != [] {
      var m := |edges| - 1;
      UpperCoef(edges[..m], i, j);
      CoefOfPush(Upper(edges[..m], i), edges[m].hi, -edges[m].w, j);
    }
  }

  /** Weight between two vertices, whichever end is lower. */
  ghost function Between(edges: seq<Edge>, i: nat, j: nat): real {
    PairWeight(edges, i, j) + PairWeight(edges, j, i)
  }

  /** An entry is minus the total pair weight off the diagonal, the degree on it. */
  lemma RowCoef(edges: seq<Edge>, i: nat, j: nat, n: nat)
    requires EdgesWithin(edges, n)
    ensures Coef(LaplacianRow(edges, i), j) == if i == j then Degree(edges, i) else -Between(edges, i, j)
  {
    hide Coef;
    var d := [(i, Degree(edges, i))];
    CoefJoin(Lower(edges, i) + d, Upper(edges, i), j);
    CoefJoin(Lower(edges, i), d, j);
    LowerCoef(edges, i, j);
    UpperCoef(edges, i, j);
    SingleCoef(i, Degree(edges, i), j);
    if i == j { NoLoops(edges, i, n); }
  }

  lemma SingleCoef(i: nat, v: real, j: nat)
    ensures Coef([(i, v)], j) == if i == j then v else 0.0
  {
    assert [(i, v)] == [] + [(i, v)];
    CoefOfPush([], i, v, j);
  }

  lemma {:induction false} NoLoops(edges: seq<Edge>, i: nat, n: nat)
    requires EdgesWithin(edges, n)
    ensures PairWeight(edges, i, i) == 0.0
  {
    if edges != [] {
      NoLoops(edges[..|edges| - 1], i, n);
      assert edges[|edges| - 1].lo < edges[|edges| - 1].hi;
    }
  }

  /** All weight between `i` and the others is its degree. */
  lemma {:induction false} DegreeIsSum(edges: seq<Edge>, i: nat, n: nat)
    requires EdgesWithin(edges, n) && i < n
    ensures Sum(n, j => if j >= 0 then Between(edges, i, j) else 0.0) == Degree(edges, i)
  {
    var f := j => if j >= 0 then Between(edges, i, j) else 0.0;
    if edges == [] {
      SumZero(n, f);
    } else {
      var m := |edges| - 1;
      var g := j => if j >= 0 then Between(edges[..m], i, j) else 0.0;
      var e := edges[m];
      DegreeIsSum(edges[..m], i, n);
      assert e.lo < e.hi < n;
      if e.lo == i {
        assert forall j :: 0 <= j < n && j != e.hi ==> f(j) == g(j);
        SumUpdate(n, e.hi, g, f);
      } else if e.hi == i {
        assert forall j :: 0 <= j < n && j != e.lo ==> f(j) == g(j);
        SumUpdate(n, e.lo, g, f);
      } else {
        SumCong(n, f, g);
      }
    }
  }

  /** Every row of the Laplacian sums to zero. */
  lemma RowSumsToZero(edges: seq<Edge>, i: nat, n: nat)
    requires EdgesWithin(edges, n) && i < n
    ensures Sum(n, j => Coef(LaplacianRow(edges, i), j)) == 0.0
  {
    hide Sum;
    var f, g := (j: int) => Coef(LaplacianRow(edges, i), j), (j: int) => if j >= 0 then Between(edges, i, j) else 0.0;
    var h: int -> real := j => if j == i then Degree(edges, i) else 0.0;
    DegreeIsSum(edges, i, n);
    NoLoops(edges, i, n);
    forall j | 0 <= j < n ensures f(j) == h(j) - g(j) { RowCoef(edges, i, j, n); }
    SumSub(n, h, g, f);
    SumDelta(n, i, h);
  }

  // ---- The fill ----------------------------------------------------------------------------

  /** Row `i` runs from `offsets[i]`: its lower part, the diagonal, its upper part. */
  ghost predicate RowLayout(offsets: seq<nat>, edges: seq<Edge>, n: nat) {
    && |offsets| == n + 1 && offsets[0] == 0
    && forall i {:trigger Lower(edges, i)} :: 0 <= i < n ==> offsets[i + 1] == offsets[i] + |Lower(edges, i)| + 1 + |Upper(edges, i)|
  }

  lemma {:induction false} LayoutMono(offsets: seq<nat>, edges: seq<Edge>, n: nat, i: nat, j: nat)
    requires RowLayout(offsets, edges, n) && i <= j <= n
    ensures offsets[i] <= offsets[j]
    decreases j
  {
    if i < j {
      LayoutMono(offsets, edges, n, i, j - 1);
      RowEnds(offsets, edges, n, j - 1);
    }
  }

  lemma RowEnds(offsets: seq<nat>, edges: seq<Edge>, n: nat, i: nat)
    requires RowLayout(offsets, edges, n) && i < n
    ensures offsets[i + 1] == offsets[i] + |Lower(edges, i)| + 1 + |Upper(edges, i)|
  {
  }

  /** A place inside one row lies outside every other, and inside the arrays. */
  lemma RowsApart(offsets: seq<nat>, edges: seq<Edge>, n: nat, a: nat, i: nat, q: nat)
    requires RowLayout(offsets, edges, n) && a < n && i < n && offsets[a] <= q < offsets[a + 1]
    ensures q < offsets[n] && (i != a ==> !(offsets[i] <= q < offsets[i + 1]))
  {
    LayoutMono(offsets, edges, n, a + 1, n);
    if i < a { LayoutMono(offsets, edges, n, i + 1, a); }
    if a < i { LayoutMono(offsets, edges, n, a + 1, i); }
  }

  ghost function MidAt(offsets: seq<nat>, edges: seq<Edge>, i: nat): nat
    requires i < |offsets|
  {
    offsets[i] + |Lower(edges, i)|
  }

  /** Row `i` once `pl` edges have been written below the diagonals and `pu` above. */
  ghost predicate RowFilled(cols: seq<nat>, vals: seq<real>, offsets: seq<nat>, edges: seq<Edge>, pl: nat, pu: nat, i: nat)
    requires pl <= |edges| && pu <= |edges| && i < |offsets|
  {
    && Holds(cols, vals, offsets[i], Lower(edges[..pl], i))
    && Holds(cols, vals, MidAt(offsets, edges, i), [(i, Degree(edges, i))])
    && Holds(cols, vals, MidAt(offsets, edges, i) + 1, Upper(edges[..pu], i))
  }

  ghost predicate Filling(cols: seq<nat>, vals: seq<real>, offsets: seq<nat>, edges: seq<Edge>, n: nat, pl: nat, pu: nat) {
    && RowLayout(offsets, edges, n) && pl <= |edges| && pu <= |edges| && |cols| == |vals| == offsets[n]
    && forall i :: 0 <= i < n ==> RowFilled(cols, vals, offsets, edges, pl, pu, i)
  }

  ghost predicate Cursors(lower: seq<nat>, upper: seq<nat>, offsets: seq<nat>, edges: seq<Edge>, n: nat, p: nat) {
    && p <= |edges| && |offsets| == n + 1 && |lower| == |upper| == n
    && (forall i :: 0 <= i < n ==> lower[i] == offsets[i] + |Lower(edges[..p], i)|)
    && (forall i :: 0 <= i < n ==> upper[i] == MidAt(offsets, edges, i) + 1 + |Upper(edges[..p], i)|)
  }

  lemma StepParts(edges: seq<Edge>, p: nat, i: nat)
    requires p < |edges|
    ensures Lower(edges[..p + 1], i) == if edges[p].hi == i then Lower(edges[..p], i) + [(edges[p].lo, -edges[p].w)] else Lower(edges[..p], i)
    ensures Upper(edges[..p + 1], i) == if edges[p].lo == i then Upper(edges[..p], i) + [(edges[p].hi, -edges[p].w)] else Upper(edges[..p], i)
    ensures Degree(edges[..p + 1], i) == Degree(edges[..p], i) + (if edges[p].lo == i then edges[p].w else 0.0) + (if edges[p].hi == i then edges[p].w else 0.0)
  {
    assert edges[..p + 1][..p] == edges[..p];
  }

  lemma {:induction false} PartsGrow(edges: seq<Edge>, p: nat, i: nat)
    requires p <= |edges|
    ensures |Lower(edges[..p], i)| <= |Lower(edges, i)| && |Upper(edges[..p], i)| <= |Upper(edges, i)|
    decreases |edges|
  {
    if p < |edges| {
      var m := |edges| - 1;
      assert edges[..m][..p] == edges[..p];
      PartsGrow(edges[..m], p, i);
    } else {
      assert edges[..p] == edges;
    }
  }

  /** There is room for edge `p` in both of its rows. */
  lemma RoomFor(edges: seq<Edge>, p: nat)
    requires p < |edges|
    ensures |Lower(edges[..p], edges[p].hi)| < |Lower(edges, edges[p].hi)|
    ensures |Upper(edges[..p], edges[p].lo)| < |Upper(edges, edges[p].lo)|
  {
    StepParts(edges, p, edges[p].hi);
    StepParts(edges, p, edges[p].lo);
    PartsGrow(edges, p + 1, edges[p].hi);
    PartsGrow(edges, p + 1, edges[p].lo);
  }

  lemma WriteOtherRow(cols: seq<nat>, vals: seq<real>, offsets: seq<nat>, edges: seq<Edge>, n: nat, pl: nat, pu: nat, a: nat, i: nat, q: nat, c: nat, v: real)
    requires Filling(cols, vals, offsets, edges, n, pl, pu) && a < n && i < n && i != a && offsets[a] <= q < offsets[a + 1]
    ensures q < |cols| && RowFilled(cols[q := c], vals[q := v], offsets, edges, pl, pu, i)
  {
    hide Holds;
    RowsApart(offsets, edges, n, a, i, q);
    RowEnds(offsets, edges, n, i);
    PartsGrow(edges, pl, i);
    PartsGrow(edges, pu, i);
    assert RowFilled(cols, vals, offsets, edges, pl, pu, i);
    WriteElsewhere(cols, vals, offsets[i], Lower(edges[..pl], i), q, c, v);
    WriteElsewhere(cols, vals, MidAt(offsets, edges, i), [(i, Degree(edges, i))], q, c, v);
    WriteElsewhere(cols, vals, MidAt(offsets, edges, i) + 1, Upper(edges[..pu], i), q, c, v);
  }

  /** A row that edge `p` does not touch is as filled after one more edge as before. */
  lemma Untouched(cols: seq<nat>, vals: seq<real>, offsets: seq<nat>, edges: seq<Edge>, pl: nat, pu: nat, i: nat)
    requires pl < |edges| && pu < |edges| && i < |offsets|
    ensures edges[pu].lo != i && RowFilled(cols, vals, offsets, edges, pl, pu, i) ==> RowFilled(cols, vals, offsets, edges, pl, pu + 1, i)
  {
    hide Holds;
    hide Lower;
    hide Upper;
    hide Degree;
    StepParts(edges, pu, i);
  }

  /** One more cell at the end of the lower part. */
  lemma PlaceBelow(cols: seq<nat>, vals: seq<real>, start: nat, low: Row, mid: nat, diag: Row, up: Row, c: nat, v: real)
    requires Holds(cols, vals, start, low) && Holds(cols, vals, mid, diag) && Holds(cols, vals, mid + 1, up) && start + |low| < mid < |cols|
    ensures Holds(cols[start + |low| := c], vals[start + |low| := v], start, low + [(c, v)])
    ensures Holds(cols[start + |low| := c], vals[start + |low| := v], mid, diag) && Holds(cols[start + |low| := c], vals[start + |low| := v], mid + 1, up)
  {
    hide Holds;
    HoldsSized(cols, vals, start, low);
    WriteNext(cols, vals, start, low, c, v);
    WriteElsewhere(cols, vals, mid, diag, start + |low|, c, v);
    WriteElsewhere(cols, vals, mid + 1, up, start + |low|, c, v);
  }

  /** One more cell at the end of the upper part. */
  lemma PlaceAbove(cols: seq<nat>, vals: seq<real>, start: nat, low: Row, mid: nat, diag: Row, up: Row, c: nat, v: real)
    requires Holds(cols, vals, start, low) && Holds(cols, vals, mid, diag) && Holds(cols, vals, mid + 1, up)
    requires start + |low| <= mid && |diag| == 1 && mid + 1 + |up| < |cols|
    ensures var q := mid + 1 + |up|;
      Holds(cols[q := c], vals[q := v], start, low) && Holds(cols[q := c], vals[q := v], mid, diag) && Holds(cols[q := c], vals[q := v], mid + 1, up + [(c, v)])
  {
    hide Holds;
    HoldsSized(cols, vals, start, low);
    WriteNext(cols, vals, mid + 1, up, c, v);
    WriteElsewhere(cols, vals, start, low, mid + 1 + |up|, c, v);
    WriteElsewhere(cols, vals, mid, diag, mid + 1 + |up|, c, v);
  }

  lemma HoldsSized(cols: seq<nat>, vals: seq<real>, start: nat, part: Row)
    requires Holds(cols, vals, start, part)
    ensures |cols| == |vals|
  {
  }

  lemma OwnUpper(cols: seq<nat>, vals: seq<real>, offsets: seq<nat>, edges: seq<Edge>, p: nat, q: nat)
    requires p < |edges| && edges[p].lo < |offsets| && q < |cols| == |vals|
    requires q == MidAt(offsets, edges, edges[p].lo) + 1 + |Upper(edges[..p], edges[p].lo)|
    requires edges[p].lo != edges[p].hi && RowFilled(cols, vals, offsets, edges, p, p, edges[p].lo)
    ensures RowFilled(cols[q := edges[p].hi], vals[q := -edges[p].w], offsets, edges, p, p + 1, edges[p].lo)
  {
    hide Holds;
    hide Lower;
    hide Upper;
    hide Degree;
    var i := edges[p].lo;
    StepParts(edges, p, i);
    PartsGrow(edges, p, i);
    PlaceAbove(cols, vals, offsets[i], Lower(edges[..p], i), MidAt(offsets, edges, i), [(i, Degree(edges, i))], Upper(edges[..p], i), edges[p].hi, -edges[p].w);
  }

  lemma OwnLower(cols: seq<nat>, vals: seq<real>, offsets: seq<nat>, edges: seq<Edge>, p: nat, q: nat)
    requires p < |edges| && edges[p].hi < |offsets| && q < |cols| == |vals|
    requires q == offsets[edges[p].hi] + |Lower(edges[..p], edges[p].hi)| < MidAt(offsets, edges, edges[p].hi) < |cols|
    requires RowFilled(cols, vals, offsets, edges, p, p + 1, edges[p].hi)
    ensures RowFilled(cols[q := edges[p].lo], vals[q := -edges[p].w], offsets, edges, p + 1, p + 1, edges[p].hi)
  {
    hide Holds;
    hide Lower;
    hide Upper;
    hide Degree;
    var i := edges[p].hi;
    StepParts(edges, p, i);
    PlaceBelow(cols, vals, offsets[i], Lower(edges[..p], i), MidAt(offsets, edges, i), [(i, Degree(edges, i))], Upper(edges[..p + 1], i), edges[p].lo, -edges[p].w);
  }

  /** Upper triangle: row `lo`, column `hi`. */
  lemma WriteUpper(cols: seq<nat>, vals: seq<real>, offsets: seq<nat>, edges: seq<Edge>, n: nat, p: nat, q: nat)
    requires Filling(cols, vals, offsets, edges, n, p, p) && p < |edges| && EdgesWithin(edges, n)
    requires edges[p].lo < n && q == MidAt(offsets, edges, edges[p].lo) + 1 + |Upper(edges[..p], edges[p].lo)|
    ensures q < |cols| && Filling(cols[q := edges[p].hi], vals[q := -edges[p].w], offsets, edges, n, p, p + 1)
  {
    hide RowFilled;
    hide Lower;
    hide Upper;
    var a, c, v := edges[p].lo, edges[p].hi, -edges[p].w;
    RoomFor(edges, p);
    RowEnds(offsets, edges, n, a);
    RowsApart(offsets, edges, n, a, a, q);
    var cols', vals', next := cols[q := c], vals[q := v], p + 1;
    forall i | 0 <= i < n ensures RowFilled(cols', vals', offsets, edges, p, next, i) {
      if i != a {
        WriteOtherRow(cols, vals, offsets, edges, n, p, p, a, i, q, c, v);
        Untouched(cols', vals', offsets, edges, p, p, i);
      } else {
        OwnUpper(cols, vals, offsets, edges, p, q);
      }
    }
  }

  /** Lower triangle: row `hi`, column `lo`. */
  lemma WriteLower(cols: seq<nat>, vals: seq<real>, offsets: seq<nat>, edges: seq<Edge>, n: nat, p: nat, q: nat)
    requires p < |edges| && Filling(cols, vals, offsets, edges, n, p, p + 1) && EdgesWithin(edges, n)
    requires edges[p].hi < n && q == offsets[edges[p].hi] + |Lower(edges[..p], edges[p].hi)|
    ensures q < |cols| && Filling(cols[q := edges[p].lo], vals[q := -edges[p].w], offsets, edges, n, p + 1, p + 1)
  {
    hide RowFilled;
    hide Lower;
    hide Upper;
    var b, c, v := edges[p].hi, edges[p].lo, -edges[p].w;
    RoomFor(edges, p);
    RowEnds(offsets, edges, n, b);
    RowsApart(offsets, edges, n, b, b, q);
    RowsApart(offsets, edges, n, b, b, MidAt(offsets, edges, b));
    var cols', vals', next := cols[q := c], vals[q := v], p + 1;
    forall i | 0 <= i < n ensures RowFilled(cols', vals', offsets, edges, next, next, i) {
      if i != b {
        WriteOtherRow(cols, vals, offsets, edges, n, p, next, b, i, q, c, v);
        UntouchedBelow(cols', vals', offsets, edges, p, i);
      } else {
        OwnLower(cols, vals, offsets, edges, p, q);
      }
    }
  }

  lemma UntouchedBelow(cols: seq<nat>, vals: seq<real>, offsets: seq<nat>, edges: seq<Edge>, p: nat, i: nat)
    requires p < |edges| && i < |offsets| && edges[p].hi != i && RowFilled(cols, vals, offsets, edges, p, p + 1, i)
    ensures RowFilled(cols, vals, offsets, edges, p + 1, p + 1, i)
  {
    hide Holds;
    hide Lower;
    hide Upper;
    hide Degree;
    StepParts(edges, p, i);
  }

  lemma RowHeld(cols: seq<nat>, vals: seq<real>, offsets: seq<nat>, edges: seq<Edge>, n: nat, i: nat)
    requires Filling(cols, vals, offsets, edges, n, |edges|, |edges|) && i < n
    ensures Holds(cols, vals, offsets[i], LaplacianRow(edges, i)) && offsets[i + 1] == offsets[i] + |LaplacianRow(edges, i)|
  {
    hide Holds;
    hide Lower;
    hide Upper;
    hide Degree;
    assert edges[..|edges|] == edges;
    assert RowFilled(cols, vals, offsets, edges, |edges|, |edges|, i);
    RowEnds(offsets, edges, n, i);
    ReadRow(cols, vals, offsets[i], Lower(edges, i), (i, Degree(edges, i)), Upper(edges, i));
  }

  /** The row that holds a place. */
  lemma {:induction false} PlaceInRow(offsets: seq<nat>, edges: seq<Edge>, n: nat, q: nat) returns (i: nat)
    requires RowLayout(offsets, edges, n) && q < offsets[n]
    ensures i < n && offsets[i] <= q < offsets[i + 1]
  {
    i := n - 1;
    while q < offsets[i]
      invariant 0 <= i < n && q < offsets[i + 1]
      decreases i
    {
      i := i - 1;
    }
  }

  /** A filled layout is a valid block with exactly the Laplacian's rows. */
  lemma FilledRows(a: CsrBlock, edges: seq<Edge>, n: nat)
    requires EdgesWithin(edges, n) && PairsAscend(edges) && a.nrows == a.ncols == n
    requires Filling(a.indices, a.data, a.indptr, edges, n, |edges|, |edges|)
    ensures a.Sorted() && forall i :: 0 <= i < n ==> a.Row(i) == LaplacianRow(edges, i)
  {
    hide Holds;
    hide LaplacianRow;
    hide RowFilled;
    forall i, j | 0 <= i <= j <= n ensures a.indptr[i] <= a.indptr[j] { LayoutMono(a.indptr, edges, n, i, j); }
    forall q | 0 <= q < |a.indices| ensures a.indices[q] < n {
      var i := PlaceInRow(a.indptr, edges, n, q);
      RowHeld(a.indices, a.data, a.indptr, edges, n, i);
      RowAscends(edges, i, n);
      HoldsWithin(a.indices, a.data, a.indptr[i], LaplacianRow(edges, i), n, q);
    }
    assert a.Valid();
    forall i | 0 <= i < n ensures a.Row(i) == LaplacianRow(edges, i) && Ascending(a.Row(i)) {
      RowHeld(a.indices, a.data, a.indptr, edges, n, i);
      HoldsRow(a, i, LaplacianRow(edges, i));
      RowAscends(edges, i, n);
    }
  }

  /** The degree and count pass. */
  method CountEdges(edges: seq<Edge>, n: nat) returns (lower: seq<nat>, upper: seq<nat>, diag: seq<real>)
    requires EdgesWithin(edges, n)
    ensures |lower| == |upper| == |diag| == n
    ensures forall i :: 0 <= i < n ==> lower[i] == |Lower(edges, i)| && upper[i] == |Upper(edges, i)| && diag[i] == Degree(edges, i)
  {
    hide Lower;
    hide Upper;
    hide Degree;
    lower, upper, diag := seq(n, _ => 0), seq(n, _ => 0), seq(n, _ => 0.0);
    forall i | 0 <= i < n ensures |Lower(edges[..0], i)| == |Upper(edges[..0], i)| == 0 && Degree(edges[..0], i) == 0.0 { NoEdges(edges, i); }
    for p := 0 to |edges|
      invariant |lower| == |upper| == |diag| == n
      invariant forall i :: 0 <= i < n ==> lower[i] == |Lower(edges[..p], i)| && upper[i] == |Upper(edges[..p], i)| && diag[i] == Degree(edges[..p], i)
    {
      var e := edges[p];
      assert e.lo < e.hi < n;
      diag := diag[e.lo := diag[e.lo] + e.w];
      upper := upper[e.lo := upper[e.lo] + 1];
      lower := lower[e.hi := lower[e.hi] + 1];
      diag := diag[e.hi := diag[e.hi] + e.w];
      ghost var next := p + 1;
      forall i | 0 <= i < n ensures lower[i] == |Lower(edges[..next], i)| && upper[i] == |Upper(edges[..next], i)| && diag[i] == Degree(edges[..next], i) {
        StepParts(edges, p, i);
      }
    }
    assert edges[..|edges|] == edges;
  }

  lemma NoEdges(edges: seq<Edge>, i: nat)
    ensures Lower(edges[..0], i) == [] && Upper(edges[..0], i) == [] && Degree(edges[..0], i) == 0.0
  {
  }

  /** Row pointers from the counts. */
  method LayOut(edges: seq<Edge>, n: nat, lower: seq<nat>, upper: seq<nat>) returns (offsets: seq<nat>)
    requires |lower| == |upper| == n && forall i :: 0 <= i < n ==> lower[i] == |Lower(edges, i)| && upper[i] == |Upper(edges, i)|
    ensures RowLayout(offsets, edges, n)
  {
    hide Lower;
    hide Upper;
    offsets := seq(n + 1, _ => 0);
    for i := 0 to n
      invariant |offsets| == n + 1 && offsets[0] == 0
      invariant forall k {:trigger Lower(edges, k)} :: 0 <= k < i ==> offsets[k + 1] == offsets[k] + |Lower(edges, k)| + 1 + |Upper(edges, k)|
    {
      offsets := offsets[i + 1 := offsets[i] + lower[i] + 1 + upper[i]];
    }
  }

  /** The diagonals, before any edge. */
  method PlaceDiagonals(edges: seq<Edge>, n: nat, offsets: seq<nat>, lower: seq<nat>, diag: seq<real>) returns (cols: seq<nat>, vals: seq<real>)
    requires RowLayout(offsets, edges, n) && |lower| == |diag| == n
    requires forall i :: 0 <= i < n ==> lower[i] == |Lower(edges, i)| && diag[i] == Degree(edges, i)
    ensures Filling(cols, vals, offsets, edges, n, 0, 0)
  {
    hide Lower;
    hide Upper;
    hide Degree;
    cols, vals := seq(offsets[n], _ => 0), seq(offsets[n], _ => 0.0);
    for i := 0 to n
      invariant |cols| == |vals| == offsets[n]
      invariant forall k {:trigger diag[k]} :: 0 <= k < i ==> Holds(cols, vals, MidAt(offsets, edges, k), [(k, diag[k])])
    {
      var pos := offsets[i] + lower[i];
      RowEnds(offsets, edges, n, i);
      RowsApart(offsets, edges, n, i, i, pos);
      ghost var c, v := cols, vals;
      cols, vals := cols[pos := i], vals[pos := diag[i]];
      forall k {:trigger diag[k]} | 0 <= k < i ensures Holds(cols, vals, MidAt(offsets, edges, k), [(k, diag[k])]) {
        RowEnds(offsets, edges, n, k);
        RowsApart(offsets, edges, n, i, k, pos);
        WriteElsewhere(c, v, MidAt(offsets, edges, k), [(k, diag[k])], pos, i, diag[i]);
      }
    }
    forall i | 0 <= i < n ensures RowFilled(cols, vals, offsets, edges, 0, 0, i) {
      NoEdges(edges, i);
      RowEnds(offsets, edges, n, i);
      RowsApart(offsets, edges, n, i, i, offsets[i]);
      assert Holds(cols, vals, MidAt(offsets, edges, i), [(i, diag[i])]);
      LayoutMono(offsets, edges, n, i + 1, n);
    }
  }

  lemma CursorStep(lower: seq<nat>, upper: seq<nat>, offsets: seq<nat>, edges: seq<Edge>, n: nat, p: nat)
    requires Cursors(lower, upper, offsets, edges, n, p) && p < |edges| && edges[p].lo < n && edges[p].hi < n
    ensures Cursors(lower[edges[p].hi := lower[edges[p].hi] + 1], upper[edges[p].lo := upper[edges[p].lo] + 1], offsets, edges, n, p + 1)
  {
    hide Lower;
    hide Upper;
    var l, u, next := lower[edges[p].hi := lower[edges[p].hi] + 1], upper[edges[p].lo := upper[edges[p].lo] + 1], p + 1;
    forall i | 0 <= i < n
      ensures l[i] == offsets[i] + |Lower(edges[..next], i)| && u[i] == MidAt(offsets, edges, i) + 1 + |Upper(edges[..next], i)|
    {
      StepParts(edges, p, i);
    }
  }

  /** `build_laplacian_csr` */
  method BuildLaplacianCsr(edges: seq<Edge>, n: nat) returns (lap: CsrBlock)
    requires EdgesWithin(edges, n) && PairsAscend(edges)
    ensures lap.Sorted() && lap.nrows == lap.ncols == n
    ensures forall i :: 0 <= i < n ==> lap.Row(i) == LaplacianRow(edges, i)
  {
    hide Lower;
    hide Upper;
    hide Degree;
    hide LaplacianRow;
    hide RowFilled;
    hide PairsAscend;
    hide RowLayout;
    var lowerCount, upperCount, diag := CountEdges(edges, n);
    var offsets := LayOut(edges, n, lowerCount, upperCount);
    Sized(offsets, edges, n);
    var lowerCursor: seq<nat> := offsets[..n];
    var upperCursor: seq<nat> := seq(n, i requires 0 <= i < n => offsets[i] + lowerCount[i] + 1);
    forall i | 0 <= i < n ensures |Lower(edges[..0], i)| == |Upper(edges[..0], i)| == 0 { NoEdges(edges, i); }
    var indices: seq<nat>, data: seq<real> := PlaceDiagonals(edges, n, offsets, lowerCount, diag);
    for p := 0 to |edges|
      invariant Cursors(lowerCursor, upperCursor, offsets, edges, n, p)
      invariant Filling(indices, data, offsets, edges, n, p, p)
    {
      var e := edges[p];
      assert e.lo < e.hi < n;
      var pos := upperCursor[e.lo];
      WriteUpper(indices, data, offsets, edges, n, p, pos);
      indices, data := indices[pos := e.hi], data[pos := -e.w];
      CursorStep(lowerCursor, upperCursor, offsets, edges, n, p);
      upperCursor := upperCursor[e.lo := upperCursor[e.lo] + 1];
      pos := lowerCursor[e.hi];
      WriteLower(indices, data, offsets, edges, n, p, pos);
      indices, data := indices[pos := e.lo], data[pos := -e.w];
      lowerCursor := lowerCursor[e.hi := lowerCursor[e.hi] + 1];
    }
    lap := CsrBlock(offsets, indices, data, n, n);
    FilledRows(lap, edges, n);
  }

  lemma Sized(offsets: seq<nat>, edges: seq<Edge>, n: nat)
    requires RowLayout(offsets, edges, n)
    ensures |offsets| == n + 1
  {
  }

  /** What the built block denotes: symmetric, minus the pair weight off the diagonal, and
      with every row summing to zero. */
  lemma LaplacianMeaning(lap: CsrBlock, edges: seq<Edge>, n: nat, i: nat, j: nat)
    requires EdgesWithin(edges, n) && lap.Valid() && lap.nrows == lap.ncols == n && i < n && j < n
    requires forall k :: 0 <= k < n ==> lap.Row(k) == LaplacianRow(edges, k)
    ensures lap.Entry(i, j) == lap.Entry(j, i)
    ensures i != j ==> lap.Entry(i, j) == -Between(edges, i, j)
    ensures Sum(n, k => lap.Entry(i, k)) == 0.0
  {
    hide LaplacianRow;
    hide Sum;
    RowCoef(edges, i, j, n);
    RowCoef(edges, j, i, n);
    RowSumsToZero(edges, i, n);
    SumCong(n, k => lap.Entry(i, k), k => Coef(LaplacianRow(edges, i), k));
  }

  /** From emitted edges to the reduced matrix: sorted, merged and laid out, the entries are
      minus the total weight emitted between two vertices, in whatever order it arrived. */
  lemma LaplacianOfEmitted(edges: seq<Edge>, lap: CsrBlock, n: nat, i: nat, j: nat)
    requires EdgesWithin(edges, n) && lap.Valid() && lap.nrows == lap.ncols == n && i < n && j < n && i != j
    requires forall k :: 0 <= k < n ==> lap.Row(k) == LaplacianRow(Merged(Sort(edges, EdgeLeq())), k)
    ensures lap.Entry(i, j) == lap.Entry(j, i) == -Between(edges, i, j)
  {
    hide LaplacianRow;
    hide Sort;
    hide EdgeLeq;
    hide Merged;
    var sorted := Sort(edges, EdgeLeq());
    SortWithin(edges, n);
    MergedWithin(sorted, n);
    LaplacianMeaning(lap, Merged(sorted), n, i, j);
    MergedEdges(edges, i, j);
    MergedEdges(edges, j, i);
  }

  lemma SortWithin(edges: seq<Edge>, n: nat)
    requires EdgesWithin(edges, n)
    ensures EdgesWithin(Sort(edges, EdgeLeq()), n)
  {
    hide Sort;
    var s := Sort(edges, EdgeLeq());
    forall i | 0 <= i < |s| ensures s[i].lo < s[i].hi < n {
      assert s[i] in multiset(s);
      assert s[i] in edges;
    }
  }
}
