/** The factor of the reduced system, direct or behind a Gremban cover
    (crates/within/src/block_elim/factor.rs:12-111). The factorization itself is external:
    a factor of a matrix returns a solution of every system that has one. */
module ReducedFactors {
  import opened Wrappers
  import opened Sums
  import opened Elimination
  import opened Gremban
  import opened Sddm

  /** `n` counts the backend's own auxiliary vertices past the `originalN` of the matrix. */
  datatype Factor = Factor(n: nat, originalN: nat, solve: seq<real> -> Option<seq<real>>)

  ghost predicate Solvable(n: nat, m: Mat, b: Vec) {
    exists x: Vec :: Solves(n, m, x, b)
  }

  ghost predicate ZeroPast(n: nat, b: seq<real>) {
    forall i :: n <= i < |b| ==> b[i] == 0.0
  }

  /** What the external factorization of `m` promises on one right-hand side. */
  ghost predicate SolvesWhenSolvable(f: Factor, dim: nat, m: Mat, b: seq<real>) {
    f.solve(b).Some? ==>
      && |f.solve(b).value| == f.n
      && (Solvable(dim, m, At(b)) && ZeroPast(dim, b) ==> Solves(dim, m, At(f.solve(b).value), At(b)))
  }

  ghost predicate FactorOf(f: Factor, dim: nat, m: Mat) {
    && f.originalN == dim <= f.n
    && forall b :: |b| == f.n ==> SolvesWhenSolvable(f, dim, m, b)
  }

  datatype LocalSolveError = BackendFailed

  datatype ReducedFactor = Direct(factor: Factor, grounding: Grounding) | Cover(inner: Factor, m: nat) {

    /** How the local solver fixes the constant of a reduced solve; a cover needs no fixing. */
    function Gauge(): Option<Grounding> {
      match this
      case Direct(_, g) => Some(g)
      case Cover(_, _) => None
    }

    function InputDimension(): nat {
      match this
      case Direct(f, _) => f.originalN
      case Cover(_, m) => m
    }

    function SolveDimension(): nat {
      match this
      case Direct(f, _) => f.n
      case Cover(_, m) => m
    }

    function ScratchLen(): nat {
      match this
      case Direct(_, _) => 0
      case Cover(inner, _) => inner.n
    }

    /** The explicit ground vertex appended past the kept block, if any. */
    function ExplicitGroundIndex(nKept: nat): Option<nat> {
      if Gauge() == Some(Grounded) && InputDimension() == nKept + 1 then Some(nKept) else None
    }

    predicate SpansKeptBlock(nKept: nat) {
      InputDimension() == nKept || ExplicitGroundIndex(nKept).Some?
    }
  }

  /** `[x, -x, 0, ...]` in a buffer of length `n`. */
  function Embed(x: seq<real>, n: nat): (b: seq<real>)
    requires 2 * |x| <= n
    ensures |b| == n
  {
    x + seq(|x|, i requires 0 <= i < |x| => -x[i]) + seq(n - 2 * |x|, _ => 0.0)
  }

  /** What `solve_in_place` leaves in `x`. */
  function SolveResult(rf: ReducedFactor, b: seq<real>): Option<seq<real>> {
    match rf
    case Direct(f, _) => f.solve(b)
    case Cover(inner, m) =>
      if |b| != m || 2 * m > inner.n then None
      else match inner.solve(Embed(b, inner.n))
        case None => None
        case Some(w) =>
          if |w| != inner.n then None else Some(seq(m, i requires 0 <= i < m => 0.5 * (w[i] - w[m + i])))
  }

  /** The backend keeps the buffer's length, and a cover's factor holds both sheets. */
  ghost predicate WellSized(rf: ReducedFactor) {
    match rf
    case Direct(f, _) => forall b :: |b| == f.n && f.solve(b).Some? ==> |f.solve(b).value| == f.n
    case Cover(inner, m) =>
      2 * m <= inner.n && forall b :: |b| == inner.n && inner.solve(b).Some? ==> |inner.solve(b).value| == inner.n
  }

  /** `solve_in_place` on `x = xs[xo..xo + SolveDimension]`, embedding in `scratch[so..]`. */
  method SolveInPlace(rf: ReducedFactor, xs: array<real>, xo: nat, scratch: array<real>, so: nat)
    returns (r: Result<(), LocalSolveError>)
    requires WellSized(rf) && xs != scratch
    requires xo + rf.SolveDimension() <= xs.Length && so + rf.ScratchLen() <= scratch.Length
    modifies xs, scratch
    ensures xs[..xo] == old(xs[..xo]) && xs[xo + rf.SolveDimension()..] == old(xs[xo + rf.SolveDimension()..])
    ensures scratch[..so] == old(scratch[..so])
    ensures r.Ok? <==> SolveResult(rf, old(xs[xo..xo + rf.SolveDimension()])).Some?
    ensures r.Ok? ==> xs[xo..xo + rf.SolveDimension()] == SolveResult(rf, old(xs[xo..xo + rf.SolveDimension()])).value
  {
    var dim := rf.SolveDimension();
    var x := xs[xo..xo + dim];
    match rf
    case Direct(f, _) =>
      match f.solve(x) {
        case None => r := Err(BackendFailed);
        case Some(z) =>
          CopyInto(xs, xo, z);
          r := Ok(());
      }
    case Cover(inner, m) =>
      EmbedInto(scratch, so, x, inner.n);
      match inner.solve(scratch[so..so + inner.n]) {
        case None => r := Err(BackendFailed);
        case Some(w) =>
          CopyInto(scratch, so, w);
          CopyInto(xs, xo, seq(m, i requires 0 <= i < m => 0.5 * (w[i] - w[m + i])));
          r := Ok(());
      }
  }

  /** Writes `-x` at `off`. */
  method NegateInto(a: array<real>, off: nat, x: seq<real>)
    requires off + |x| <= a.Length
    modifies a
    ensures forall k :: 0 <= k < a.Length ==> a[k] == if off <= k < off + |x| then -x[k - off] else old(a[k])
  {
    for i := 0 to |x|
      invariant forall k :: 0 <= k < a.Length ==> a[k] == if off <= k < off + i then -x[k - off] else old(a[k])
    {
      a[off + i] := -x[i];
    }
  }

  method ZeroRange(a: array<real>, lo: nat, hi: nat)
    requires lo <= hi <= a.Length
    modifies a
    ensures forall k :: 0 <= k < a.Length ==> a[k] == if lo <= k < hi then 0.0 else old(a[k])
  {
    for i := lo to hi
      invariant forall k :: 0 <= k < a.Length ==> a[k] == if lo <= k < i then 0.0 else old(a[k])
    {
      a[i] := 0.0;
    }
  }

  /** The antisymmetric embed; slots past the two sheets carry no right-hand side. */
  method EmbedInto(scratch: array<real>, so: nat, x: seq<real>, n: nat)
    requires so + n <= scratch.Length && 2 * |x| <= n
    modifies scratch
    ensures scratch[..so] == old(scratch[..so]) && scratch[so..so + n] == Embed(x, n)
  {
    var m := |x|;
    WriteAt(scratch, so, x);
    NegateInto(scratch, so + m, x);
    ZeroRange(scratch, so + 2 * m, so + n);
    EmbeddedAt(scratch[..], so, x, n);
  }

  lemma EmbeddedAt(a: seq<real>, so: nat, x: seq<real>, n: nat)
    requires so + n <= |a| && 2 * |x| <= n
    requires forall k :: so <= k < so + |x| ==> a[k] == x[k - so]
    requires forall k :: so + |x| <= k < so + 2 * |x| ==> a[k] == -x[k - (so + |x|)]
    requires forall k :: so + 2 * |x| <= k < so + n ==> a[k] == 0.0
    ensures a[so..so + n] == Embed(x, n)
  {
    var m := |x|;
    assert a[so..so + m] == x;
    assert a[so + m..so + 2 * m] == seq(m, i requires 0 <= i < m => -x[i]);
    assert a[so + 2 * m..so + n] == seq(n - 2 * m, _ => 0.0);
    ThreeParts(a, so, so + m, so + 2 * m, so + n);
  }

  lemma ThreeParts(a: seq<real>, i: nat, j: nat, k: nat, l: nat)
    requires i <= j <= k <= l <= |a|
    ensures a[i..l] == a[i..j] + a[j..k] + a[k..l]
  {
  }

  method WriteAt(a: array<real>, off: nat, s: seq<real>)
    requires off + |s| <= a.Length
    modifies a
    ensures forall k :: 0 <= k < a.Length ==> a[k] == if off <= k < off + |s| then s[k - off] else old(a[k])
  {
    for i := 0 to |s|
      invariant forall k :: 0 <= k < a.Length ==> a[k] == if off <= k < off + i then s[k - off] else old(a[k])
    {
      a[off + i] := s[i];
    }
  }

  /** `copy_from_slice` */
  method CopyInto(a: array<real>, off: nat, s: seq<real>)
    requires off + |s| <= a.Length
    modifies a
    ensures a[..] == old(a[..off]) + s + old(a[off + |s|..])
  {
    ghost var was := a[..];
    WriteAt(a, off, s);
    assert a[..] == was[..off] + s + was[off + |s|..];
  }
}
