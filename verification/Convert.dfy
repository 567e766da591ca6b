/** Conversion of a component's signed Gram block to SDDM form
    (crates/within/src/domain/factor_pairs/sddm.rs:158-352). */
module Convert {
  import opened Wrappers
  import opened Sums
  import opened Csr
  import opened CrossTabs
  import opened Transposition
  import opened Elimination
  import opened Sddm
  import opened FoldingSigns
  import opened DominanceScaling
  import opened BlockElimSolver
  import opened AssembledSystems
  import opened SolveLocal

  datatype OnFailure = Warn | Error

  /** `tolerance` bounds relative deficits; `roundoff` is the floating-classification budget
      as a function of the node count and the total diagonal. */
  datatype ScalingConfig = ScalingConfig(tolerance: real, maxSweeps: nat, onFailure: OnFailure, roundoff: (nat, real) -> real)

  datatype LocalComponent = LocalComponent(matrix: SddmMatrix, form: MatrixForm, coordinates: CoordinateMap)

  // ---- Row sums ----------------------------------------------------------------------------

  ghost function Total(r: Row, magnitude: bool): real {
    if r == [] then 0.0 else Total(r[..|r| - 1], magnitude) + Weigh(r[|r| - 1].1, magnitude)
  }

  lemma {:induction false} TotalShift(r: Row, off: nat, magnitude: bool)
    ensures Total(Shift(r, off), magnitude) == Total(r, magnitude)
  {
    if r != [] {
      TotalShift(r[..|r| - 1], off, magnitude);
      assert Shift(r, off)[..|r| - 1] == Shift(r[..|r| - 1], off);
    }
  }

  lemma {:induction false} TotalIsFold(r: Row, magnitude: bool)
    ensures Total(r, magnitude) == Fold(r, (j, v) => Weigh(v, magnitude))
  {
    if r != [] { TotalIsFold(r[..|r| - 1], magnitude); }
  }

  lemma TotalIsSum(r: Row, n: nat, magnitude: bool)
    requires Ascending(r) && InRange(r, n)
    ensures Total(r, magnitude) == Sum(n, j => Weigh(Coef(r, j), magnitude))
  {
    var g := (j: int, v: real) => Weigh(v, magnitude);
    TotalIsFold(r, magnitude);
    FoldIsSum(r, n, g);
    SumCong(n, j => g(j, Coef(r, j)), j => Weigh(Coef(r, j), magnitude));
  }

  lemma RowNodeSum(x: CrossTab, i: nat, magnitude: bool)
    requires x.Valid() && i < x.NRows()
    ensures Total(x.Neighbors(i), magnitude) == Sum(x.NCols(), RowOf(Weighed(x.c, magnitude), i))
  {
    TotalShift(x.c.Row(i), x.NRows(), magnitude);
    TotalIsSum(x.c.Row(i), x.NCols(), magnitude);
    SumCong(x.NCols(), j => Weigh(Coef(x.c.Row(i), j), magnitude), RowOf(Weighed(x.c, magnitude), i));
  }

  lemma ColumnNodeSum(x: CrossTab, j: nat, magnitude: bool)
    requires x.Valid() && j < x.NCols()
    ensures Total(x.Neighbors(x.NRows() + j), magnitude) == Sum(x.NRows(), ColOf(Weighed(x.c, magnitude), j))
  {
    var r := x.ct.Row(j);
    TotalIsSum(r, x.NRows(), magnitude);
    forall k | 0 <= k < x.NRows() ensures Weigh(Coef(r, k), magnitude) == ColOf(Weighed(x.c, magnitude), j)(k) {
      TransposeEntry(x.c, x.ct, k, j);
      assert x.ct.Entry(j, k) == Coef(r, k);
    }
    SumCong(x.NRows(), k => Weigh(Coef(r, k), magnitude), ColOf(Weighed(x.c, magnitude), j));
  }

  /** `s` lists the off-diagonal row sums of all local nodes. */
  ghost predicate AreRowSums(x: CrossTab, magnitude: bool, s: seq<real>) {
    && |s| == x.NLocal()
    && (forall i :: 0 <= i < x.NRows() ==> At(s)(i) == Sum(x.NCols(), RowOf(Weighed(x.c, magnitude), i)))
    && (forall j :: 0 <= j < x.NCols() ==> Tail(x.NRows(), At(s))(j) == Sum(x.NRows(), ColOf(Weighed(x.c, magnitude), j)))
  }

  method RowTotal(r: Row, magnitude: bool) returns (sum: real)
    ensures sum == Total(r, magnitude)
  {
    sum := 0.0;
    for t := 0 to |r|
      invariant sum == Total(r[..t], magnitude)
    {
      assert r[..t + 1][..t] == r[..t];
      sum := sum + Weigh(r[t].1, magnitude);
    }
    assert r[..|r|] == r;
  }

  /** `adjacency_sums`, or `magnitude_sums` when `magnitude` holds. */
  method RowSums(x: CrossTab, magnitude: bool) returns (s: seq<real>)
    requires x.Valid()
    ensures AreRowSums(x, magnitude, s)
  {
    hide CrossTab.Neighbors;
    hide InRange;
    s := [];
    for i := 0 to x.NLocal()
      invariant |s| == i && forall k :: 0 <= k < i ==> s[k] == Total(x.Neighbors(k), magnitude)
    {
      var sum := RowTotal(x.Neighbors(i), magnitude);
      s := s + [sum];
    }
    TotalsAreRowSums(x, magnitude, s);
  }

  lemma TotalsAreRowSums(x: CrossTab, magnitude: bool, s: seq<real>)
    requires x.Valid() && |s| == x.NLocal()
    requires forall k :: 0 <= k < |s| ==> s[k] == Total(x.Neighbors(k), magnitude)
    ensures AreRowSums(x, magnitude, s)
  {
    forall i | 0 <= i < x.NRows() ensures At(s)(i) == Sum(x.NCols(), RowOf(Weighed(x.c, magnitude), i)) {
      RowNodeSum(x, i, magnitude);
    }
    forall j | 0 <= j < x.NCols()
      ensures Tail(x.NRows(), At(s))(j) == Sum(x.NRows(), ColOf(Weighed(x.c, magnitude), j))
    {
      ColumnNodeSum(x, j, magnitude);
    }
  }

  // ---- finalize ----------------------------------------------------------------------------

  /** One diagonal after clamping: never below its row sum. */
  function Clamped(d: real, rowSum: real): real { Max(d, rowSum) }

  lemma ClampedBalance(x: CrossTab, d: seq<real>, g: seq<real>, s: seq<real>)
    requires AreRowSums(x, true, s) && |d| == |g| == |s|
    requires forall i :: 0 <= i < |s| ==> d[i] == s[i] + g[i]
    ensures Balanced(x.NRows(), x.NCols(), Weighed(x.c, true), At(d), At(g))
  {
    var e := x.NRows();
    forall j | 0 <= j < x.NCols()
      ensures Tail(e, At(d))(j) == Sum(e, ColOf(Weighed(x.c, true), j)) + Tail(e, At(g))(j)
    {
      assert Tail(e, At(s))(j) == Sum(e, ColOf(Weighed(x.c, true), j));
      assert d[e + j] == s[e + j] + g[e + j];
    }
    forall i | 0 <= i < e ensures At(d)(i) == Sum(x.NCols(), RowOf(Weighed(x.c, true), i)) + At(g)(i) {
      assert At(s)(i) == Sum(x.NCols(), RowOf(Weighed(x.c, true), i));
    }
  }

  /** Diagonals raised to their row sums, and what they then have to spare. */
  function RaisedTo(d: Vec, s: Vec): Vec { i => Clamped(d(i), s(i)) }

  function Surpluses(d: Vec, s: Vec): Vec { i => Max(Clamped(d(i), s(i)) - s(i), 0.0) }

  /** The total surplus is within the roundoff budget: the component counts as ungrounded. */
  ghost predicate Floats(n: nat, d: Vec, s: Vec, config: ScalingConfig) {
    Sum(n, Surpluses(d, s)) <= config.roundoff(n, Sum(n, RaisedTo(d, s)))
  }

  /** A matrix finalized from scaled diagonals `d` and row sums `s`: it floats exactly when the
      surplus is within budget, and then every diagonal is its row sum. */
  ghost predicate Finalized(n: nat, d: Vec, s: Vec, config: ScalingConfig, m: SddmMatrix) {
    && |m.diagonal| == |m.groundEdges| == n
    && (m.grounding.Floating? <==> Floats(n, d, s, config))
    && forall i :: 0 <= i < n ==> FinalizedAt(d, s, m, i)
  }

  ghost predicate FinalizedAt(d: Vec, s: Vec, m: SddmMatrix, i: int)
    requires 0 <= i < |m.diagonal| == |m.groundEdges|
  {
    if m.grounding.Floating? then m.diagonal[i] == s(i) && m.groundEdges[i] == 0.0
    else m.diagonal[i] == Clamped(d(i), s(i)) && m.groundEdges[i] == Surpluses(d, s)(i)
  }

  /** The first `n` diagonals are positive and fall short of their row sums by at most `v`. */
  ghost predicate DeficitsWithin(n: nat, d: Vec, s: Vec, v: real) {
    forall k :: 0 <= k < n ==> d(k) > 0.0 && Within(s(k), d(k), v)
  }

  /** Some diagonal falls short of its row sum by exactly `v`. */
  ghost predicate DeficitAttained(n: nat, d: Vec, s: Vec, v: real) {
    exists k :: 0 <= k < n && Attains(s(k), d(k), v)
  }

  /** Some diagonal is not positive. */
  ghost predicate Nonpositive(n: nat, d: Vec) { exists k :: 0 <= k < n && d(k) <= 0.0 }

  /** Some positive diagonal falls short of its row sum by more than `v`. */
  ghost predicate Deficient(n: nat, d: Vec, s: Vec, v: real) {
    exists k :: 0 <= k < n && d(k) > 0.0 && !Within(s(k), d(k), v)
  }

  /** What clamping reports: nothing beyond the tolerance, or the worst deficit there is. */
  ghost predicate Clamping(n: nat, d: Vec, s: Vec, tolerance: real, clamped: real) {
    && clamped >= 0.0 && DeficitsWithin(n, d, s, Max(tolerance, clamped))
    && (clamped > 0.0 ==> clamped > tolerance && DeficitAttained(n, d, s, clamped))
  }

  lemma NothingClamped(d: Vec, s: Vec, tolerance: real)
    ensures Clamping(0, d, s, tolerance, 0.0)
  {
  }

  lemma ClampNext(i: nat, d: Vec, s: Vec, tolerance: real, clamped: real, deficit: real)
    requires Clamping(i, d, s, tolerance, clamped) && d(i) > 0.0
    requires Attains(s(i), d(i), deficit) && forall v :: deficit <= v <==> Within(s(i), d(i), v)
    ensures Clamping(i + 1, d, s, tolerance, if deficit > tolerance then Max(clamped, deficit) else clamped)
  {
    hide Within;
    hide Attains;
    var next := if deficit > tolerance then Max(clamped, deficit) else clamped;
    var n, was, now := i + 1, Max(tolerance, clamped), Max(tolerance, next);
    assert deficit <= now;
    forall k | 0 <= k < n ensures d(k) > 0.0 && Within(s(k), d(k), now) {
      if k < i { WithinMono(s(k), d(k), was, now); } else { assert Within(s(i), d(i), now); }
    }
    if next > 0.0 {
      assert next > tolerance && DeficitAttained(n, d, s, next) by {
        if next == clamped {
          var k :| 0 <= k < i && Attains(s(k), d(k), clamped);
          assert 0 <= k < n && Attains(s(k), d(k), next);
        } else {
          assert 0 <= i < n && Attains(s(i), d(i), next);
        }
      }
    }
  }

  /** One node: its diagonal raised, its surplus kept, the running totals advanced. */
  ghost predicate Raising(i: nat, d: Vec, s: Vec, diagonal: seq<real>, ground: seq<real>, totalDiagonal: real, totalSurplus: real) {
    && |diagonal| == |ground| == i
    && totalDiagonal == Sum(i, RaisedTo(d, s)) && totalSurplus == Sum(i, Surpluses(d, s))
    && forall k :: 0 <= k < i ==> diagonal[k] == Clamped(d(k), s(k)) && ground[k] == Surpluses(d, s)(k)
  }

  lemma RaiseNext(i: nat, d: Vec, s: Vec, diagonal: seq<real>, ground: seq<real>, totalDiagonal: real, totalSurplus: real, x: real, g: real)
    requires Raising(i, d, s, diagonal, ground, totalDiagonal, totalSurplus) && x == Clamped(d(i), s(i)) && g == Surpluses(d, s)(i)
    ensures Raising(i + 1, d, s, diagonal + [x], ground + [g], totalDiagonal + x, totalSurplus + g)
  {
  }

  /** `finalize`: it fails exactly on a diagonal that is not positive, or in error mode on a
      deficit beyond the tolerance. */
  method Finalize(x: CrossTab, scaledDiagonal: seq<real>, rowSums: seq<real>, config: ScalingConfig)
    returns (r: Result<SddmMatrix, NotScalable>, clampedDeficit: real)
    requires x.Valid() && |scaledDiagonal| == x.NLocal() && AreRowSums(x, true, rowSums)
    ensures r.Err? <==>
            Nonpositive(x.NLocal(), At(scaledDiagonal))
            || (config.onFailure.Error? && Deficient(x.NLocal(), At(scaledDiagonal), At(rowSums), config.tolerance))
    ensures r.Ok? ==> r.value.crossTab == x && r.value.Valid()
    ensures r.Ok? ==> Finalized(x.NLocal(), At(scaledDiagonal), At(rowSums), config, r.value)
    ensures r.Ok? ==> Clamping(x.NLocal(), At(scaledDiagonal), At(rowSums), config.tolerance, clampedDeficit)
  {
    hide Within;
    hide Attains;
    hide Clamping;
    hide Sum;
    hide CrossTab.Valid;
    hide AreRowSums;
    SumsSized(x, true, rowSums);
    var n := x.NLocal();
    ghost var dv, sv := At(scaledDiagonal), At(rowSums);
    var diagonal, ground: seq<real> := [], [];
    var totalDiagonal, totalSurplus := 0.0, 0.0;
    clampedDeficit := 0.0;
    NothingClamped(dv, sv, config.tolerance);
    NothingRaised(dv, sv);
    for i := 0 to n
      invariant Raising(i, dv, sv, diagonal, ground, totalDiagonal, totalSurplus)
      invariant Clamping(i, dv, sv, config.tolerance, clampedDeficit)
      invariant forall k :: 0 <= k < i ==> dv(k) > 0.0
      invariant config.onFailure.Error? ==> forall k :: 0 <= k < i ==> Within(sv(k), dv(k), config.tolerance)
    {
      assert scaledDiagonal[i] == dv(i) && rowSums[i] == sv(i);
      if scaledDiagonal[i] <= 0.0 {
        return Err(NotScalable), 0.0;
      }
      var deficit := Excess(rowSums[i], scaledDiagonal[i]);
      ClampNext(i, dv, sv, config.tolerance, clampedDeficit, deficit);
      if deficit > config.tolerance {
        assert !Within(sv(i), dv(i), config.tolerance);
        if config.onFailure.Error? {
          return Err(NotScalable), 0.0;
        }
        clampedDeficit := Max(clampedDeficit, deficit);
      }
      var d := Max(scaledDiagonal[i], rowSums[i]);
      var surplus := Max(d - rowSums[i], 0.0);
      RaiseNext(i, dv, sv, diagonal, ground, totalDiagonal, totalSurplus, d, surplus);
      diagonal, ground := diagonal + [d], ground + [surplus];
      totalDiagonal, totalSurplus := totalDiagonal + d, totalSurplus + surplus;
    }
    var floats := totalSurplus <= config.roundoff(n, totalDiagonal);
    var m: SddmMatrix;
    if floats {
      var zeros := seq(n, _ => 0.0);
      m := SddmMatrix(x, rowSums, zeros, Floating);
      ClampedBalance(x, rowSums, zeros, rowSums);
    } else {
      m := SddmMatrix(x, diagonal, ground, Grounded);
      ClampedBalance(x, diagonal, ground, rowSums);
    }
    ShapedMatrix(x, m);
    r := Ok(m);
  }

  lemma NothingRaised(d: Vec, s: Vec)
    ensures Raising(0, d, s, [], [], 0.0, 0.0)
  {
  }

  lemma SumsSized(x: CrossTab, magnitude: bool, s: seq<real>)
    requires AreRowSums(x, magnitude, s)
    ensures |s| == x.NLocal()
  {
  }

  lemma ShapedMatrix(x: CrossTab, m: SddmMatrix)
    requires x.Valid() && m.crossTab == x && |m.diagonal| == |m.groundEdges| == x.NLocal()
    requires Balanced(x.NRows(), x.NCols(), Weighed(x.c, true), At(m.diagonal), At(m.groundEdges))
    requires forall i :: 0 <= i < |m.groundEdges| ==> m.groundEdges[i] >= 0.0
    requires m.grounding.Floating? ==> forall i :: 0 <= i < |m.groundEdges| ==> m.groundEdges[i] == 0.0
    ensures m.Valid()
  {
  }

  // ---- assemble ----------------------------------------------------------------------------

  /** The folded weight `-f_i f_j v`. */
  function FoldedWeight(a: real, b: real, v: real): real { -a * b * v }

  /** `out` is `c` with every weight folded by the factors of its row and column. */
  ghost predicate IsFolded(c: CsrBlock, f: seq<real>, out: CsrBlock) {
    && c.Valid() && |f| == c.nrows + c.ncols
    && out.Valid() && out.nrows == c.nrows && out.ncols == c.ncols
    && (forall i :: 0 <= i < c.nrows ==> FoldedRow(c.Row(i), f[i], f[c.nrows..], out.Row(i)))
  }

  ghost predicate FoldedRow(r: Row, a: real, f: seq<real>, out: Row) {
    && InRange(r, |f|) && |out| == |r|
    && forall t :: 0 <= t < |r| ==> out[t] == (r[t].0, FoldedWeight(a, f[r[t].0], r[t].1))
  }

  lemma {:induction false} FoldedCoef(r: Row, a: real, f: seq<real>, out: Row, j: nat)
    requires FoldedRow(r, a, f, out) && j < |f|
    ensures Coef(out, j) == FoldedWeight(a, f[j], Coef(r, j))
  {
    if r == [] {
      assert FoldedWeight(a, f[j], 0.0) == 0.0;
    } else {
      FoldedCoef(r[..|r| - 1], a, f, out[..|r| - 1], j);
      FoldedSum(a, f[j], Coef(r[..|r| - 1], j), r[|r| - 1].1);
    }
  }

  lemma FoldedSum(a: real, b: real, x: real, y: real)
    ensures FoldedWeight(a, b, x + y) == FoldedWeight(a, b, x) + FoldedWeight(a, b, y)
  {
  }

  lemma FoldedAscends(r: Row, a: real, f: seq<real>, out: Row)
    requires FoldedRow(r, a, f, out) && Ascending(r)
    ensures Ascending(out)
  {
  }

  lemma FoldedEntry(c: CsrBlock, f: seq<real>, out: CsrBlock, i: nat, j: nat)
    requires IsFolded(c, f, out) && i < c.nrows && j < c.ncols
    ensures out.Entry(i, j) == FoldedWeight(f[i], f[c.nrows + j], c.Entry(i, j))
  {
    FoldedCoef(c.Row(i), f[i], f[c.nrows..], out.Row(i), j);
  }

  /** The first `n` weights are folded, the others untouched. */
  ghost predicate FoldedUpTo(c: CsrBlock, f: seq<real>, data: seq<real>, n: nat)
    requires c.Valid() && |f| == c.nrows + c.ncols
  {
    && |data| == |c.data| && n <= |data|
    && (forall p :: 0 <= p < n ==> FoldedAt(c, f, data, p))
    && (forall p :: n <= p < |data| ==> data[p] == c.data[p])
  }

  ghost predicate FoldedAt(c: CsrBlock, f: seq<real>, data: seq<real>, p: nat)
    requires c.Valid() && |f| == c.nrows + c.ncols && p < |data| == |c.data|
  {
    data[p] == FoldedWeight(f[HoldingRow(c, p)], f[c.nrows + c.indices[p]], c.data[p])
  }

  lemma FoldedBlock(c: CsrBlock, f: seq<real>, data: seq<real>)
    requires c.Valid() && |f| == c.nrows + c.ncols && FoldedUpTo(c, f, data, |c.data|)
    ensures IsFolded(c, f, c.(data := data))
  {
    var out := c.(data := data);
    forall i | 0 <= i < c.nrows ensures FoldedRow(c.Row(i), f[i], f[c.nrows..], out.Row(i)) {
      forall t | 0 <= t < |c.Row(i)|
        ensures out.Row(i)[t] == (c.Row(i)[t].0, FoldedWeight(f[i], f[c.nrows..][c.Row(i)[t].0], c.Row(i)[t].1))
      {
        var p := c.indptr[i] + t;
        HoldingRowUnique(c, p, i);
        assert FoldedAt(c, f, data, p);
      }
    }
  }

  lemma FoldNext(c: CsrBlock, f: seq<real>, data: seq<real>, p: nat, i: nat)
    requires c.Valid() && |f| == c.nrows + c.ncols && p < |c.data| && i == HoldingRow(c, p) && FoldedUpTo(c, f, data, p)
    ensures |data| == |c.data| && c.indices[p] < c.ncols && data[p] == c.data[p]
    ensures FoldedUpTo(c, f, data[p := FoldedWeight(f[i], f[c.nrows + c.indices[p]], c.data[p])], p + 1)
  {
    hide FoldedWeight;
    var next := data[p := FoldedWeight(f[i], f[c.nrows + c.indices[p]], c.data[p])];
    forall q | 0 <= q < p + 1 ensures FoldedAt(c, f, next, q) {
      if q < p { assert FoldedAt(c, f, data, q); }
    }
  }

  ghost predicate FoldsNegative(c: CsrBlock, f: seq<real>, p: nat)
    requires c.Valid() && |f| == c.nrows + c.ncols && p < |c.data|
  {
    FoldedWeight(f[HoldingRow(c, p)], f[c.nrows + c.indices[p]], c.data[p]) < 0.0
  }

  /** The scaling loop; with `enforceZ` a weight that folds negative is an error. */
  method FoldWeights(c: CsrBlock, f: seq<real>, enforceZ: bool) returns (r: Result<CsrBlock, NotScalable>)
    requires c.Valid() && |f| == c.nrows + c.ncols
    ensures r.Ok? ==> IsFolded(c, f, r.value) && r.value.indices == c.indices && r.value.indptr == c.indptr
    ensures r.Ok? && enforceZ ==> r.value.Nonnegative()
    ensures r.Err? <==> enforceZ && exists p :: 0 <= p < |c.data| && FoldsNegative(c, f, p)
  {
    var data := c.data;
    for i := 0 to c.nrows
      invariant FoldedUpTo(c, f, data, c.indptr[i])
      invariant enforceZ ==> forall p :: 0 <= p < c.indptr[i] ==> data[p] >= 0.0
    {
      var start, end := c.indptr[i], c.indptr[i + 1];
      for idx := start to end
        invariant FoldedUpTo(c, f, data, idx)
        invariant enforceZ ==> forall p :: 0 <= p < idx ==> data[p] >= 0.0
      {
        HoldingRowUnique(c, idx, i);
        var folded := FoldedWeight(f[i], f[c.nrows + c.indices[idx]], data[idx]);
        if enforceZ && folded < 0.0 {
          assert FoldsNegative(c, f, idx);
          return Err(NotScalable);
        }
        FoldNext(c, f, data, idx, i);
        data := data[idx := folded];
      }
    }
    FoldedBlock(c, f, data);
    r := Ok(c.(data := data));
    forall p | 0 <= p < |c.data| && enforceZ ensures !FoldsNegative(c, f, p) {
      assert FoldedAt(c, f, data, p);
    }
  }

  /** A diagonal under its factor. */
  function SquareTimes(d: real, f: real): real { d * f * f }

  /** The component's diagonal under the factors. */
  function ScaledDiagonal(d: seq<real>, f: seq<real>): Vec { i => SquareTimes(At(d)(i), At(f)(i)) }

  /** Off-diagonal magnitude met by each node once the block is folded by `f`. */
  ghost function OffMass(x: CrossTab, f: seq<real>): Vec {
    i =>
      if i < x.NRows() then Sum(x.NCols(), FoldedRowMass(x, f, i)) else Sum(x.NRows(), FoldedColMass(x, f, i - x.NRows()))
  }

  ghost function FoldedRowMass(x: CrossTab, f: seq<real>, i: int): Vec {
    j => Abs(FoldedWeight(At(f)(i), At(f)(x.NRows() + j), x.c.Entry(i, j)))
  }

  ghost function FoldedColMass(x: CrossTab, f: seq<real>, j: int): Vec {
    k => Abs(FoldedWeight(At(f)(k), At(f)(x.NRows() + j), x.c.Entry(k, j)))
  }

  /** `comp` is the SDDM form of the block `x` with diagonal `d` under the factors `f`. */
  ghost predicate ConvertedBy(x: CrossTab, d: seq<real>, f: seq<real>, config: ScalingConfig, comp: LocalComponent) {
    var m := comp.matrix;
    && m.Valid() && |d| == |f| == x.NLocal() && IsFolded(x.c, f, m.crossTab.c)
    && (comp.coordinates.Scaled? ==> |comp.coordinates.factors| == |f|)
    && (forall i :: 0 <= i < |f| ==> comp.coordinates.Scale(x.NRows(), i) == f[i])
    && (comp.form.Laplacian? ==> m.Unsigned())
    && Finalized(x.NLocal(), ScaledDiagonal(d, f), OffMass(x, f), config, m)
  }

  lemma FoldedRowSum(x: CrossTab, f: seq<real>, y: CrossTab, i: nat)
    requires IsFolded(x.c, f, y.c) && i < x.NRows()
    ensures Sum(x.NCols(), RowOf(Weighed(y.c, true), i)) == Sum(x.NCols(), FoldedRowMass(x, f, i))
  {
    hide Sum;
    hide IsFolded;
    hide FoldedWeight;
    hide CsrBlock.Entry;
    FoldedShape(x.c, f, y.c);
    var e, w := x.NRows(), RowOf(Weighed(y.c, true), i);
    forall j | 0 <= j < x.NCols() ensures w(j) == FoldedRowMass(x, f, i)(j) {
      FoldedEntry(x.c, f, y.c, i, j);
      assert At(f)(i) == f[i] && At(f)(e + j) == f[e + j];
    }
    SumCong(x.NCols(), w, FoldedRowMass(x, f, i));
  }

  lemma FoldedColSum(x: CrossTab, f: seq<real>, y: CrossTab, j: nat)
    requires IsFolded(x.c, f, y.c) && j < x.NCols()
    ensures Sum(x.NRows(), ColOf(Weighed(y.c, true), j)) == Sum(x.NRows(), FoldedColMass(x, f, j))
  {
    hide Sum;
    hide IsFolded;
    hide FoldedWeight;
    hide CsrBlock.Entry;
    FoldedShape(x.c, f, y.c);
    var e, w := x.NRows(), ColOf(Weighed(y.c, true), j);
    forall k | 0 <= k < e ensures w(k) == FoldedColMass(x, f, j)(k) {
      FoldedEntry(x.c, f, y.c, k, j);
      assert At(f)(k) == f[k] && At(f)(e + j) == f[e + j];
    }
    SumCong(e, w, FoldedColMass(x, f, j));
  }

  /** The folded block's row sums are the off-diagonal masses. */
  lemma RowSumsAreOffMass(x: CrossTab, f: seq<real>, y: CrossTab, s: seq<real>, i: nat)
    requires IsFolded(x.c, f, y.c) && AreRowSums(y, true, s) && i < x.NLocal()
    ensures |s| == x.NLocal() && At(s)(i) == OffMass(x, f)(i)
  {
    hide Sum;
    hide IsFolded;
    hide FoldedRowMass;
    hide FoldedColMass;
    hide CsrBlock.Entry;
    FoldedShape(x.c, f, y.c);
    var e := x.NRows();
    if i < e {
      FoldedRowSum(x, f, y, i);
      assert At(s)(i) == Sum(y.NCols(), RowOf(Weighed(y.c, true), i));
    } else {
      FoldedColSum(x, f, y, i - e);
      assert Tail(e, At(s))(i - e) == Sum(y.NRows(), ColOf(Weighed(y.c, true), i - e));
    }
  }

  lemma FoldedShape(c: CsrBlock, f: seq<real>, out: CsrBlock)
    requires IsFolded(c, f, out)
    ensures out.nrows == c.nrows && out.ncols == c.ncols && |f| == c.nrows + c.ncols
  {
  }

  /** Every factor is the sign of its block: no map needs to be stored. */
  predicate IsCanonical(f: seq<real>, nRows: nat) {
    forall i :: 0 <= i < |f| ==> f[i] == if i < nRows then 1.0 else -1.0
  }

  lemma FinalizedCong(n: nat, d: Vec, s: Vec, d': Vec, s': Vec, config: ScalingConfig, m: SddmMatrix)
    requires Finalized(n, d, s, config, m) && forall i :: 0 <= i < n ==> d(i) == d'(i) && s(i) == s'(i)
    ensures Finalized(n, d', s', config, m)
  {
    SumCong(n, Surpluses(d, s), Surpluses(d', s'));
    SumCong(n, RaisedTo(d, s), RaisedTo(d', s'));
    forall i | 0 <= i < n ensures FinalizedAt(d', s', m, i) { assert FinalizedAt(d, s, m, i); }
  }

  lemma ClampingCong(n: nat, d: Vec, s: Vec, d': Vec, s': Vec, tolerance: real, clamped: real)
    requires Clamping(n, d, s, tolerance, clamped) && forall i :: 0 <= i < n ==> d(i) == d'(i) && s(i) == s'(i)
    ensures Clamping(n, d', s', tolerance, clamped)
  {
    hide Within;
    hide Attains;
    if clamped > 0.0 {
      var k :| 0 <= k < n && Attains(s(k), d(k), clamped);
      assert Attains(s'(k), d'(k), clamped);
    }
  }

  lemma FoldedIsSorted(c: CsrBlock, f: seq<real>, out: CsrBlock)
    requires c.Sorted() && IsFolded(c, f, out)
    ensures out.Sorted()
  {
    forall i | 0 <= i < out.nrows ensures Ascending(out.Row(i)) {
      FoldedAscends(c.Row(i), f[i], f[c.nrows..], out.Row(i));
    }
  }

  /** Why assembly fails: a weight that folds negative where none may, a scaled diagonal that
      is not positive, or in error mode a deficit beyond the tolerance. */
  ghost predicate AssemblyFails(x: CrossTab, d: seq<real>, f: seq<real>, form: MatrixForm, config: ScalingConfig)
    requires x.Valid() && |f| == x.NLocal()
  {
    || (form.Laplacian? && exists p :: 0 <= p < |x.c.data| && FoldsNegative(x.c, f, p))
    || Nonpositive(x.NLocal(), ScaledDiagonal(d, f))
    || (config.onFailure.Error? && Deficient(x.NLocal(), ScaledDiagonal(d, f), OffMass(x, f), config.tolerance))
  }

  lemma FailureCong(n: nat, d: Vec, s: Vec, d': Vec, s': Vec, v: real)
    requires forall i :: 0 <= i < n ==> d(i) == d'(i) && s(i) == s'(i)
    ensures Nonpositive(n, d) <==> Nonpositive(n, d')
    ensures Deficient(n, d, s, v) <==> Deficient(n, d', s', v)
  {
    hide Within;
    if Nonpositive(n, d) {
      var k :| 0 <= k < n && d(k) <= 0.0;
      assert d'(k) <= 0.0;
    }
    if Nonpositive(n, d') {
      var k :| 0 <= k < n && d'(k) <= 0.0;
      assert d(k) <= 0.0;
    }
    if Deficient(n, d, s, v) {
      var k :| 0 <= k < n && d(k) > 0.0 && !Within(s(k), d(k), v);
      assert d'(k) > 0.0 && !Within(s'(k), d'(k), v);
    }
    if Deficient(n, d', s', v) {
      var k :| 0 <= k < n && d'(k) > 0.0 && !Within(s'(k), d'(k), v);
      assert d(k) > 0.0 && !Within(s(k), d(k), v);
    }
  }

  /** `assemble` */
  method Assemble(x: CrossTab, diagonal: seq<real>, factors: seq<real>, form: MatrixForm, config: ScalingConfig)
    returns (r: Result<LocalComponent, NotScalable>, clampedDeficit: real)
    requires x.Valid() && |diagonal| == |factors| == x.NLocal()
    ensures r.Err? <==> AssemblyFails(x, diagonal, factors, form, config)
    ensures r.Ok? ==> ConvertedBy(x, diagonal, factors, config, r.value) && r.value.form == form
    ensures r.Ok? ==> Clamping(x.NLocal(), ScaledDiagonal(diagonal, factors), OffMass(x, factors), config.tolerance, clampedDeficit)
  {
    hide Sum;
    hide AreRowSums;
    hide Clamping;
    hide Finalized;
    hide Nonpositive;
    hide Deficient;
    hide FoldsNegative;
    hide IsTranspose;
    hide SquareTimes;
    hide OffMass;
    clampedDeficit := 0.0;
    var folded := FoldWeights(x.c, factors, form.Laplacian?);
    if folded.Err? {
      return Err(NotScalable), 0.0;
    }
    FoldedIsSorted(x.c, factors, folded.value);
    FoldedShape(x.c, factors, folded.value);
    var ct := Transpose(folded.value);
    var y := CrossTab(folded.value, ct);
    var scaled := seq(|diagonal|, i requires 0 <= i < |diagonal| => SquareTimes(diagonal[i], factors[i]));
    var coordinates := if IsCanonical(factors, x.NRows()) then Canonical else Scaled(factors);
    var rowSums := RowSums(y, true);
    var m;
    m, clampedDeficit := Finalize(y, scaled, rowSums, config);
    ghost var n, d, s, d', s' := x.NLocal(), At(scaled), At(rowSums), ScaledDiagonal(diagonal, factors), OffMass(x, factors);
    forall i | 0 <= i < n ensures d(i) == d'(i) && s(i) == s'(i) {
      RowSumsAreOffMass(x, factors, y, rowSums, i);
      assert At(scaled)(i) == scaled[i] == SquareTimes(diagonal[i], factors[i]);
      assert At(diagonal)(i) == diagonal[i] && At(factors)(i) == factors[i];
    }
    FailureCong(n, d, s, d', s', config.tolerance);
    if m.Err? {
      return Err(NotScalable), 0.0;
    }
    FinalizedCong(n, d, s, d', s', config, m.value);
    ClampingCong(n, d, s, d', s', config.tolerance, clampedDeficit);
    r := Ok(LocalComponent(m.value, form, coordinates));
  }

  function Negated(c: Mat): Mat { (i, j) => -c(i, j) }

  /** `c'` is `c` folded by `f`. */
  ghost predicate FoldedMat(e: nat, n: nat, c: Mat, f: Vec, c': Mat) {
    forall k, j :: 0 <= k < e && 0 <= j < n ==> FoldedMatAt(e, c, f, c', k, j)
  }

  ghost predicate FoldedMatAt(e: nat, c: Mat, f: Vec, c': Mat, k: int, j: int) {
    c'(k, j) == FoldedWeight(f(k), f(e + j), c(k, j))
  }

  lemma FoldProduct(a: real, v: real, b: real)
    ensures -FoldedWeight(a, b, v) == a * v * b == b * v * a
    ensures a * -(-v) * b == a * v * b && a * 0.0 * b == 0.0
  {
  }

  /** Off the diagonal the fold is an exact congruence. */
  lemma OffDiagonalCongruent(e: nat, n: nat, c: Mat, f: Vec, c': Mat, d: Vec, d': Vec, i: int, j: int)
    requires FoldedMat(e, n, c, f, c') && 0 <= i < e + n && 0 <= j < e + n && i != j
    ensures CongruentAt(Assembled(e, Negated(c), d), f, Assembled(e, c', d'), i, j)
  {
    if i < e && j >= e {
      assert FoldedMatAt(e, c, f, c', i, j - e);
      FoldProduct(f(i), c(i, j - e), f(j));
    } else if i >= e && j < e {
      assert FoldedMatAt(e, c, f, c', j, i - e);
      FoldProduct(f(j), c(j, i - e), f(i));
    } else {
      FoldProduct(f(i), 0.0, f(j));
    }
  }

  /** The folded system is the congruence of the original exactly when the diagonals are. */
  lemma FoldedSystemCongruent(e: nat, n: nat, c: Mat, f: Vec, c': Mat, d: Vec, d': Vec)
    requires FoldedMat(e, n, c, f, c') && forall i :: 0 <= i < e + n ==> f(i) != 0.0
    ensures Congruent(e + n, Assembled(e, Negated(c), d), f, Assembled(e, c', d')) <==>
            forall i :: 0 <= i < e + n ==> SquareScaled(d', f, d, i)
  {
    var a, b := Assembled(e, Negated(c), d), Assembled(e, c', d');
    forall i, j | 0 <= i < e + n && 0 <= j < e + n && i != j ensures CongruentAt(a, f, b, i, j) {
      OffDiagonalCongruent(e, n, c, f, c', d, d', i, j);
    }
    forall i | 0 <= i < e + n ensures CongruentAt(a, f, b, i, i) <==> SquareScaled(d', f, d, i) {
    }
  }

  ghost predicate SquareScaled(d': Vec, f: Vec, d: Vec, i: int) { d'(i) == f(i) * d(i) * f(i) }

  /** The component's Gram matrix `[D, C; C^T, D]`. */
  ghost function Gram(x: CrossTab, d: seq<real>): Mat {
    Assembled(x.NRows(), Negated(MatrixOf(x.c)), At(d))
  }

  lemma ConvertedFolds(x: CrossTab, d: seq<real>, f: seq<real>, config: ScalingConfig, comp: LocalComponent)
    requires ConvertedBy(x, d, f, config, comp)
    ensures FoldedMat(x.NRows(), x.NCols(), MatrixOf(x.c), Scales(comp.coordinates, x.NRows()), comp.matrix.Block())
  {
    hide Finalized;
    hide SddmMatrix.Valid;
    var e, g := x.NRows(), Scales(comp.coordinates, x.NRows());
    forall k, j | 0 <= k < e && 0 <= j < x.NCols()
      ensures FoldedMatAt(e, MatrixOf(x.c), g, comp.matrix.Block(), k, j)
    {
      FoldedEntry(x.c, f, comp.matrix.crossTab.c, k, j);
      assert g(k) == f[k] && g(e + j) == f[e + j];
    }
  }

  /** Nothing is lost in finalizing: no diagonal is below its row sum, and a surplus is either
      above the roundoff budget or absent. */
  ghost predicate Lossless(n: nat, d: Vec, s: Vec, config: ScalingConfig) {
    && (forall i :: 0 <= i < n ==> s(i) <= d(i))
    && (Floats(n, d, s, config) ==> forall i :: 0 <= i < n ==> Surpluses(d, s)(i) == 0.0)
  }

  lemma LosslessCong(n: nat, d: Vec, s: Vec, d': Vec, s': Vec, config: ScalingConfig)
    requires forall i :: 0 <= i < n ==> d(i) == d'(i) && s(i) == s'(i)
    ensures Lossless(n, d, s, config) <==> Lossless(n, d', s', config)
  {
    hide Sum;
    SumCong(n, Surpluses(d, s), Surpluses(d', s'));
    SumCong(n, RaisedTo(d, s), RaisedTo(d', s'));
    forall i | 0 <= i < n ensures Surpluses(d, s)(i) == Surpluses(d', s')(i) {}
  }

  lemma LosslessAt(d: real, s: real)
    ensures Clamped(d, s) == d <==> s <= d
    ensures s == d <==> s <= d && Max(Clamped(d, s) - s, 0.0) == 0.0
  {
  }

  /** The SDDM form is the congruence of the Gram matrix exactly when nothing was lost: no
      deficit was clamped and no surplus was rounded away. */
  lemma ConvertedRepresents(x: CrossTab, d: seq<real>, f: seq<real>, config: ScalingConfig, comp: LocalComponent)
    requires ConvertedBy(x, d, f, config, comp) && forall i :: 0 <= i < |f| ==> f[i] != 0.0
    ensures Congruent(x.NLocal(), Gram(x, d), Scales(comp.coordinates, x.NRows()), Full(comp.matrix)) <==>
            Lossless(x.NLocal(), ScaledDiagonal(d, f), OffMass(x, f), config)
  {
    hide Assembled;
    hide Balanced;
    hide CoordinateMap.Scale;
    hide CsrBlock.Valid;
    hide Sum;
    hide Floats;
    hide OffMass;
    hide IsFolded;
    hide Congruent;
    hide SddmMatrix.Valid;
    ConvertedFolds(x, d, f, config, comp);
    var n, g, dv, sv := x.NLocal(), Scales(comp.coordinates, x.NRows()), ScaledDiagonal(d, f), OffMass(x, f);
    forall i | 0 <= i < n ensures g(i) != 0.0 { assert g(i) == f[i]; }
    FoldedBlockShape(x, d, f, config, comp);
    FoldedSystemCongruent(x.NRows(), x.NCols(), MatrixOf(x.c), g, comp.matrix.Block(), At(d), At(comp.matrix.diagonal));
    var m := comp.matrix;
    forall i | 0 <= i < n ensures SquareScaled(At(m.diagonal), g, At(d), i) <==> m.diagonal[i] == dv(i) {
      assert g(i) == f[i];
      SquareOrder(d[i], f[i]);
    }
    forall i | 0 <= i < n
      ensures m.diagonal[i] == dv(i) <==> sv(i) <= dv(i) && (m.grounding.Floating? ==> Surpluses(dv, sv)(i) == 0.0)
    {
      assert FinalizedAt(dv, sv, m, i);
      LosslessAt(dv(i), sv(i));
    }
  }

  lemma SquareOrder(d: real, f: real)
    ensures f * d * f == SquareTimes(d, f)
  {
  }

  lemma FoldedBlockShape(x: CrossTab, d: seq<real>, f: seq<real>, config: ScalingConfig, comp: LocalComponent)
    requires ConvertedBy(x, d, f, config, comp)
    ensures comp.matrix.NEliminated() == x.NRows() && comp.matrix.NKept() == x.NCols()
  {
  }
}
