/** The local subdomain solve: fold, eliminate, gauge, solve, back-substitute, unfold, all
    inside two overlapping scratch buffers (crates/within/src/block_elim/solver.rs:22-95, 279-471). */
module BlockElimSolver {
  import opened Wrappers
  import opened Sums
  import opened Csr
  import opened CrossTabs
  import opened Elimination
  import opened Sddm
  import opened Spmv
  import opened ReducedSystem
  import opened ReducedFactors
  import opened ReducedSolve

  /** The diagonal change of variables a component was folded by; without stored factors it is
      the sign of the block. */
  datatype CoordinateMap = Canonical | Scaled(factors: seq<real>) {
    /** The diagonal entry of the map at `i`. */
    function Scale(nEliminated: nat, i: int): real {
      match this
      case Canonical => if i < nEliminated then 1.0 else -1.0
      case Scaled(factors) => if 0 <= i < |factors| then factors[i] else 1.0
    }
  }

  function FoldedVec(coords: CoordinateMap, nEliminated: nat, v: seq<real>): (r: seq<real>)
    ensures |r| == |v|
  {
    seq(|v|, i requires 0 <= i < |v| => coords.Scale(nEliminated, i) * v[i])
  }

  /** `fold`; its own inverse up to scale, so `unfold` is the same map. */
  method FoldInPlace(coords: CoordinateMap, values: array<real>, n: nat, nEliminated: nat)
    requires nEliminated <= n <= values.Length && (coords.Scaled? ==> |coords.factors| == n)
    modifies values
    ensures values[..n] == FoldedVec(coords, nEliminated, old(values[..n])) && values[n..] == old(values[n..])
  {
    match coords
    case Canonical =>
      for i := nEliminated to n
        invariant forall k :: 0 <= k < values.Length ==>
                    values[k] == if nEliminated <= k < i then -old(values[k]) else old(values[k])
      {
        values[i] := -values[i];
      }
    case Scaled(factors) =>
      ghost var was := values[..];
      ghost var folded := FoldedVec(coords, nEliminated, values[..n]);
      for i := 0 to n
        invariant forall k :: 0 <= k < values.Length ==> values[k] == if k < i then folded[k] else was[k]
      {
        assert folded[i] == factors[i] * was[i];
        values[i] := factors[i] * values[i];
      }
  }

  /** `scale_by_diag_in_place` */
  method ScaleByDiag(a: array<real>, diag: seq<real>)
    requires |diag| <= a.Length
    modifies a
    ensures forall k :: 0 <= k < |diag| ==> a[k] == diag[k] * old(a[k])
    ensures a[|diag|..] == old(a[|diag|..])
  {
    for i := 0 to |diag|
      invariant forall k :: 0 <= k < a.Length ==> a[k] == if k < i then diag[k] * old(a[k]) else old(a[k])
    {
      a[i] := diag[i] * a[i];
    }
  }

  /** `subtract_mean` on `a[off..off + n]`. */
  method SubtractMean(a: array<real>, off: nat, n: nat)
    requires off + n <= a.Length
    modifies a
    ensures a[..off] == old(a[..off]) && a[off + n..] == old(a[off + n..])
    ensures a[off..off + n] == MeanFree(old(a[off..off + n]))
  {
    if n == 0 {
      return;
    }
    var mean := Mean(a[off..off + n]);
    for i := 0 to n
      invariant forall k :: 0 <= k < a.Length ==>
                  a[k] == if off <= k < off + i then old(a[k]) - mean else old(a[k])
    {
      a[off + i] := a[off + i] - mean;
    }
    ghost var was := old(a[off..off + n]);
    forall k | 0 <= k < n ensures a[off..off + n][k] == MeanFree(was)[k] {
      assert was[k] == old(a[off + k]);
    }
  }

  /** `backsub_block_from_scaled_rhs` */
  method BackSubstitute(sol: array<real>, scaled: seq<real>, c: CsrBlock, inv: seq<real>, source: seq<real>)
    requires c.Valid() && c.nrows <= sol.Length && |scaled| == |inv| == c.nrows && |source| == c.ncols
    modifies sol
    ensures forall k :: 0 <= k < c.nrows ==>
              sol[k] == scaled[k] + inv[k] * MulVec(c.ncols, MatrixOf(c), At(source))(k)
    ensures sol[c.nrows..] == old(sol[c.nrows..])
  {
    hide MulVec;
    hide Dot;
    for i := 0 to c.nrows
      invariant forall k :: 0 <= k < i ==> sol[k] == scaled[k] + inv[k] * MulVec(c.ncols, MatrixOf(c), At(source))(k)
      invariant sol[c.nrows..] == old(sol[c.nrows..])
    {
      var sum := RowDot(c.Row(i), source, 0.0);
      RowIsCoefs(c, i, At(source));
      sol[i] := scaled[i] + inv[i] * sum;
    }
  }

  datatype BlockElimSolver = BlockElimSolver(crossTab: CrossTab, invDiagElim: seq<real>, reducedFactor: ReducedFactor, coordinates: CoordinateMap) {
    function NEliminated(): nat { crossTab.NRows() }

    function NKept(): nat { crossTab.NCols() }

    function NInternal(): nat { crossTab.NLocal() }

    function NReduced(): nat { reducedFactor.SolveDimension() }

    function ScratchSize(): nat { NInternal() + NReduced() + reducedFactor.ScratchLen() }

    /** Sizes agree, as the constructor asserts. */
    ghost predicate Sized() {
      && crossTab.Valid() && |invDiagElim| == NEliminated()
      && NKept() <= NReduced() && WellSized(reducedFactor)
      && (reducedFactor.ExplicitGroundIndex(NKept()).Some? ==> NKept() < NReduced())
      && (coordinates.Scaled? ==> |coordinates.factors| == NInternal())
    }
  }

  /** Scaling and the fused gather: the carried right-hand side behind `n`, zeros up to `hi`. */
  method CarryInto(x: CrossTab, inv: seq<real>, rhs: array<real>, n: nat, hi: nat) returns (ghost rr: seq<real>)
    requires x.Valid() && |inv| == x.NRows() && n == x.NLocal() && n + x.NCols() <= hi <= rhs.Length
    modifies rhs
    ensures forall k :: 0 <= k < |inv| ==> rhs[k] == inv[k] * old(rhs[k])
    ensures |rr| == x.NCols() && rr == rhs[n..n + x.NCols()] && Carried(x, inv, old(rhs[..n]), rr)
    ensures forall p :: n + x.NCols() <= p < hi ==> rhs[p] == 0.0
  {
    hide Carried;
    hide CrossTab.Valid;
    ghost var b := rhs[..n];
    ScaleAndClear(rhs, inv, n, n + x.NCols(), hi);
    var main, kept := rhs[..|inv|], rhs[|inv|..n];
    assert kept == b[|inv|..];
    rr := GatherKept(x, inv, b, main, kept, rhs, n);
  }

  /** The kept right-hand side, zero-padded and gauged, lands in `rhs[n..n + nReduced]`. */
  method PrepareReduced(s: BlockElimSolver, rhs: array<real>) returns (ghost rr: seq<real>)
    requires s.Sized() && rhs.Length >= s.ScratchSize()
    modifies rhs
    ensures forall k :: 0 <= k < s.NEliminated() ==> rhs[k] == s.invDiagElim[k] * old(rhs[k])
    ensures |rr| == s.NKept() && Carried(s.crossTab, s.invDiagElim, old(rhs[..s.NInternal()]), rr)
    ensures rhs[s.NInternal()..s.NInternal() + s.NReduced()] == GaugedRhs(s.reducedFactor, s.NKept(), rr)
  {
    hide Carried;
    hide GaugedRhs;
    hide CrossTab.Valid;
    var k, n, d := s.NKept(), s.NInternal(), s.NReduced();
    rr := CarryInto(s.crossTab, s.invDiagElim, rhs, n, n + d);
    PaddedRegion(rhs[..], n, k, d, rr);
    ghost var was := rhs[..n];
    ApplyGauge(s.reducedFactor, rhs, n, k, rr);
    assert forall l :: 0 <= l < s.NEliminated() ==> rhs[l] == rhs[..n][l] == was[l];
  }

  lemma PaddedRegion(a: seq<real>, n: nat, k: nat, d: nat, rr: seq<real>)
    requires k <= d && n + d <= |a| && rr == a[n..n + k]
    requires forall p :: n + k <= p < n + d ==> a[p] == 0.0
    ensures a[n..n + d] == Padded(rr, d)
  {
  }

  /** Scaling of the eliminated entries, and zeroing of the auxiliary slots. */
  method ScaleAndClear(rhs: array<real>, inv: seq<real>, n: nat, lo: nat, hi: nat)
    requires |inv| <= n <= lo <= hi <= rhs.Length
    modifies rhs
    ensures forall k :: 0 <= k < |inv| ==> rhs[k] == inv[k] * old(rhs[k])
    ensures rhs[|inv|..n] == old(rhs[|inv|..n])
    ensures forall p :: lo <= p < hi ==> rhs[p] == 0.0
  {
    ScaleByDiag(rhs, inv);
    assert rhs[|inv|..n] == rhs[|inv|..][..n - |inv|];
    ghost var scaled := rhs[..];
    ZeroRange(rhs, lo, hi);
    assert rhs[..n] == scaled[..n];
  }

  /** `rr` is the right-hand side `b` carried over to the kept block. */
  ghost predicate Carried(x: CrossTab, inv: seq<real>, b: seq<real>, rr: seq<real>) {
    forall i :: 0 <= i < |rr| ==> rr[i] == ReducedRhs(x.NRows(), MatrixOf(x.c), At(inv), At(b))(i)
  }

  method GatherKept(x: CrossTab, inv: seq<real>, ghost b: seq<real>, scaled: seq<real>, kept: seq<real>, rhs: array<real>, n: nat)
    returns (ghost rr: seq<real>)
    requires x.Valid() && |inv| == x.NRows() == |scaled| && |b| == x.NLocal() && x.NCols() == |kept|
    requires n + |kept| <= rhs.Length && kept == b[x.NRows()..]
    requires forall k :: 0 <= k < x.NRows() ==> scaled[k] == inv[k] * b[k]
    modifies rhs
    ensures rr == rhs[n..n + |kept|] && Carried(x, inv, b, rr)
    ensures forall p :: 0 <= p < rhs.Length && !(n <= p < n + |kept|) ==> rhs[p] == old(rhs[p])
  {
    SpmvAssignAdd(x.ct, scaled, kept, rhs, n);
    rr := rhs[n..n + |kept|];
    forall i | 0 <= i < |kept| ensures rr[i] == ReducedRhs(x.NRows(), MatrixOf(x.c), At(inv), At(b))(i) {
      assert rhs[n + i] == kept[i] + MulVec(x.NRows(), MatrixOf(x.ct), At(scaled))(i);
      CarriedEntry(x, inv, b, scaled, kept, i);
    }
  }

  /** One entry of the fused gather. */
  lemma CarriedEntry(x: CrossTab, inv: seq<real>, b: seq<real>, scaled: seq<real>, kept: seq<real>, i: nat)
    requires x.Valid() && |inv| == x.NRows() == |scaled| && |b| == x.NLocal() && i < x.NCols() == |kept|
    requires forall k :: 0 <= k < x.NRows() ==> scaled[k] == inv[k] * b[k]
    requires kept[i] == b[x.NRows() + i]
    ensures kept[i] + MulVec(x.NRows(), MatrixOf(x.ct), At(scaled))(i)
            == ReducedRhs(x.NRows(), MatrixOf(x.c), At(inv), At(b))(i)
  {
    assert Tail(x.NRows(), At(b))(i) == b[x.NRows() + i];
    TransposedProduct(x, At(inv), At(b), At(scaled), i);
  }

  /** The gauge match of the reduced right-hand side. */
  method ApplyGauge(rf: ReducedFactor, rhs: array<real>, n: nat, k: nat, ghost rr: seq<real>)
    requires |rr| == k <= rf.SolveDimension() && n + rf.SolveDimension() <= rhs.Length
    requires rf.ExplicitGroundIndex(k).Some? ==> k < rf.SolveDimension()
    requires rhs[n..n + rf.SolveDimension()] == Padded(rr, rf.SolveDimension())
    modifies rhs
    ensures rhs[..n] == old(rhs[..n])
    ensures rhs[n..n + rf.SolveDimension()] == GaugedRhs(rf, k, rr)
  {
    match rf.Gauge()
    case Some(Floating) => SubtractMean(rhs, n, rf.SolveDimension());
    case Some(Grounded) => ApplyGround(rf, rhs, n, k, rr);
    case None =>
  }

  method ApplyGround(rf: ReducedFactor, rhs: array<real>, n: nat, k: nat, ghost rr: seq<real>)
    requires rf.Gauge() == Some(Grounded) && |rr| == k <= rf.SolveDimension() && n + rf.SolveDimension() <= rhs.Length
    requires rf.ExplicitGroundIndex(k).Some? ==> k < rf.SolveDimension()
    requires rhs[n..n + rf.SolveDimension()] == Padded(rr, rf.SolveDimension())
    modifies rhs
    ensures rhs[..n] == old(rhs[..n])
    ensures rhs[n..n + rf.SolveDimension()] == GaugedRhs(rf, k, rr)
  {
    match rf.ExplicitGroundIndex(k) {
      case Some(ground) =>
        assert ground == k && rhs[n..n + k] == rhs[n..n + rf.SolveDimension()][..k] == rr;
        SetGround(rhs, n, rf.SolveDimension(), ground, rr);
      case None =>
    }
  }

  /** `rhs[n + ground] = -sum(rhs[n..n + ground])`, within the reduced region. */
  method SetGround(rhs: array<real>, n: nat, d: nat, ground: nat, ghost rr: seq<real>)
    requires ground < d && n + d <= rhs.Length && rhs[n..n + ground] == rr
    modifies rhs
    ensures rhs[..n] == old(rhs[..n])
    ensures rhs[n..n + d] == old(rhs[n..n + d])[ground := -Sum(ground, At(rr))]
  {
    ghost var was := rhs[..];
    var balance := -Sum(ground, At(rhs[n..n + ground]));
    rhs[n + ground] := balance;
    assert rhs[..] == was[n + ground := balance];
  }

  /** The ground potential subtracted from `sol[e..e + k]`, after the reduced solve left `z` there. */
  method SubtractGround(rf: ReducedFactor, sol: array<real>, e: nat, k: nat, ghost z: seq<real>)
    requires k <= |z| && (rf.ExplicitGroundIndex(k).Some? ==> k < |z|)
    requires e + |z| <= sol.Length && sol[e..e + |z|] == z
    modifies sol
    ensures sol[e..e + k] == Gauged(rf, k, z)
  {
    match rf.ExplicitGroundIndex(k)
    case None => assert sol[e..e + k] == z[..k];
    case Some(g) =>
      ghost var was := sol[..];
      assert forall q :: e <= q < e + |z| ==> was[q] == sol[e..e + |z|][q - e];
      var ground := sol[e + g];
      for i := 0 to k
        invariant forall q :: e <= q < e + k ==> sol[q] == if q < e + i then was[q] - ground else was[q]
      {
        sol[e + i] := sol[e + i] - ground;
      }
  }

  /** What the elimination leaves in `sol`: the kept solution and the recovered block. */
  ghost predicate Recovered(s: BlockElimSolver, b: seq<real>, rr: seq<real>, sol: seq<real>) {
    && |b| == |sol| == s.NInternal() && |rr| == s.NKept() <= s.NReduced()
    && (s.reducedFactor.ExplicitGroundIndex(s.NKept()).Some? ==> s.NKept() < s.NReduced())
    && Carried(s.crossTab, s.invDiagElim, b, rr)
    && KeptSolution(s.reducedFactor, s.NKept(), rr) == Some(sol[s.NEliminated()..])
    && BackSubstituted(s.NEliminated(), s.NKept(), MatrixOf(s.crossTab.c), At(s.invDiagElim), At(sol), At(b))
  }

  /** The reduced solve in `sol[e..]` and its gauge. */
  method SolveKept(rf: ReducedFactor, rhs: array<real>, sol: array<real>, e: nat, k: nat, ghost rr: seq<real>)
    returns (r: Result<(), LocalSolveError>)
    requires |rr| == k <= rf.SolveDimension() && WellSized(rf)
    requires rf.ExplicitGroundIndex(k).Some? ==> k < rf.SolveDimension()
    requires rhs != sol && rhs.Length >= e + k + rf.SolveDimension() + rf.ScratchLen() && sol.Length >= e + rf.SolveDimension()
    requires rhs[e + k..e + k + rf.SolveDimension()] == GaugedRhs(rf, k, rr)
    modifies rhs, sol
    ensures rhs[..e] == old(rhs[..e])
    ensures r.Ok? <==> KeptSolution(rf, k, rr).Some?
    ensures r.Ok? ==> KeptSolution(rf, k, rr) == Some(sol[e..e + k])
  {
    var n, d := e + k, rf.SolveDimension();
    CopyInto(sol, e, rhs[n..n + d]);
    assert sol[e..e + d] == GaugedRhs(rf, k, rr);
    r := SolveInPlace(rf, sol, e, rhs, n + d);
    assert rhs[..e] == rhs[..n + d][..e];
    if r.Ok? {
      SubtractGround(rf, sol, e, k, SolveResult(rf, GaugedRhs(rf, k, rr)).value);
    }
  }

  /** One recovered entry, in the vocabulary of the elimination. */
  lemma RecoveredEntry(e: nat, n: nat, c: Mat, inv: seq<real>, b: seq<real>, sol: seq<real>, source: seq<real>, scaled: real, k: nat)
    requires k < e == |inv| && |b| == |sol| == e + n && source == sol[e..]
    requires scaled == inv[k] * b[k] && sol[k] == scaled + inv[k] * MulVec(n, c, At(source))(k)
    ensures RecoveredAt(e, n, c, At(inv), At(sol), At(b), k)
  {
    DotCong(n, RowOf(c, k), At(source), RowOf(c, k), Tail(e, At(sol)));
  }

  /** The back-substitution, stated as the elimination's recovery rule. */
  method Recover(c: CsrBlock, inv: seq<real>, scaled: seq<real>, ghost b: seq<real>, sol: array<real>)
    requires c.Valid() && |inv| == |scaled| == c.nrows && |b| == c.nrows + c.ncols <= sol.Length
    requires forall k :: 0 <= k < c.nrows ==> scaled[k] == inv[k] * b[k]
    modifies sol
    ensures sol[c.nrows..] == old(sol[c.nrows..])
    ensures BackSubstituted(c.nrows, c.ncols, MatrixOf(c), At(inv), At(sol[..|b|]), At(b))
  {
    var source := sol[c.nrows..c.nrows + c.ncols];
    BackSubstitute(sol, scaled, c, inv, source);
    ghost var x := sol[..|b|];
    assert x[c.nrows..] == sol[c.nrows..][..c.ncols] == source;
    forall k | 0 <= k < c.nrows
      ensures RecoveredAt(c.nrows, c.ncols, MatrixOf(c), At(inv), At(x), At(b), k)
    {
      RecoveredEntry(c.nrows, c.ncols, MatrixOf(c), inv, b, x, source, scaled[k], k);
    }
  }

  /** `eliminate_and_recover`: it fails exactly when the reduced solve does. */
  method EliminateAndRecover(s: BlockElimSolver, rhs: array<real>, sol: array<real>)
    returns (r: Result<(), LocalSolveError>, ghost rr: seq<real>)
    requires s.Sized() && rhs != sol && rhs.Length >= s.ScratchSize() && sol.Length >= s.ScratchSize()
    modifies rhs, sol
    ensures |rr| == s.NKept() && Carried(s.crossTab, s.invDiagElim, old(rhs[..s.NInternal()]), rr)
    ensures r.Ok? <==> KeptSolution(s.reducedFactor, s.NKept(), rr).Some?
    ensures r.Ok? ==> Recovered(s, old(rhs[..s.NInternal()]), rr, sol[..s.NInternal()])
  {
    hide ReducedRhs;
    hide GaugedRhs;
    hide KeptSolution;
    hide Sum;
    hide Carried;
    hide CrossTab.Valid;
    var e, k, n := s.NEliminated(), s.NKept(), s.NInternal();
    ghost var b := rhs[..n];
    rr := PrepareReduced(s, rhs);
    ghost var scaled := rhs[..e];
    r := SolveKept(s.reducedFactor, rhs, sol, e, k, rr);
    if r.Ok? {
      assert rhs[..e] == scaled;
      RecoverAll(s, scaled, rhs[..e], b, rr, sol);
    }
  }

  /** The recovery of the eliminated block around a kept solution. */
  method RecoverAll(s: BlockElimSolver, ghost was: seq<real>, scaled: seq<real>, ghost b: seq<real>, ghost rr: seq<real>, sol: array<real>)
    requires s.Sized() && |b| == s.NInternal() <= sol.Length && |rr| == s.NKept() && scaled == was && |was| == s.NEliminated()
    requires forall k :: 0 <= k < |was| ==> was[k] == s.invDiagElim[k] * b[k]
    requires Carried(s.crossTab, s.invDiagElim, b, rr)
    requires KeptSolution(s.reducedFactor, s.NKept(), rr) == Some(sol[s.NEliminated()..s.NInternal()])
    modifies sol
    ensures Recovered(s, b, rr, sol[..s.NInternal()])
  {
    hide KeptSolution;
    hide Carried;
    hide BackSubstituted;
    hide CrossTab.Valid;
    var e, n := s.NEliminated(), s.NInternal();
    SizedBlock(s);
    ghost var source, tail := sol[e..n], sol[e..];
    assert tail[..n - e] == source;
    Recover(s.crossTab.c, s.invDiagElim, scaled, b, sol);
    assert sol[e..] == tail;
    assert sol[..n][e..] == sol[e..][..n - e] == source;
  }

  lemma SizedBlock(s: BlockElimSolver)
    requires s.Sized()
    ensures s.crossTab.c.Valid() && s.crossTab.c.nrows == s.NEliminated() == |s.invDiagElim| && s.crossTab.c.ncols == s.NKept()
  {
  }
}
