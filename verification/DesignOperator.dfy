/** The design matrix `D` of a fixed-effects model and the operator built on it: gather for
    `W^(1/2) D x`, scatter for its adjoint
    (crates/within/src/domain.rs:77-152, crates/within/src/operator/design.rs:21-124,
    crates/within/src/operator/design/gather.rs, crates/within/src/operator/design/scatter.rs:14-94). */
module DesignOperator {
  import opened Wrappers
  import opened Sums
  import opened Elimination
  import opened Subdomains
  import opened Scatter
  import Atomic = AtomicBackend

  /** A column loads 1, or the covariate with this index. */
  datatype Loading = Constant | Covariate(k: nat)

  /** Coefficient `c` of `level` lives at `offset + c · nLevels + level`. */
  datatype TermMeta = TermMeta(nLevels: nat, offset: nat, sorted: bool, columns: seq<Loading>) {
    function NDofs(): nat { |columns| * nLevels }
  }

  datatype Design = Design(levels: seq<seq<nat>>, covariates: seq<seq<real>>, terms: seq<TermMeta>, nObs: nat, nDofs: nat) {
    ghost predicate Valid() {
      && |levels| == |terms|
      && (forall q :: 0 <= q < |terms| ==> TermValid(q))
      && (forall k :: 0 <= k < |covariates| ==> |covariates[k]| == nObs)
    }

    ghost predicate TermValid(q: nat)
      requires |levels| == |terms| && q < |terms|
    {
      && |levels[q]| == nObs && terms[q].offset + terms[q].NDofs() <= nDofs
      && (forall i :: 0 <= i < nObs ==> levels[q][i] < terms[q].nLevels)
      && (forall c :: 0 <= c < |terms[q].columns| && terms[q].columns[c].Covariate? ==> terms[q].columns[c].k < |covariates|)
    }

    /** How column `c` of term `q` loads on observation `i`. */
    function Load(q: nat, c: nat, i: nat): real
      requires q < |terms| && c < |terms[q].columns|
    {
      match terms[q].columns[c]
      case Constant => 1.0
      case Covariate(k) => if k < |covariates| && i < |covariates[k]| then covariates[k][i] else 0.0
    }

    /** The coefficient observation `i` meets there. */
    function Slot(q: nat, c: nat, i: nat): nat
      requires q < |terms| && q < |levels| && i < |levels[q]|
    {
      terms[q].offset + Place(c, terms[q].nLevels, levels[q][i])
    }

    /** The part of row `i` that column `c` of term `q` puts at `dof`. */
    ghost function Hit(q: int, c: int, i: int, dof: int): real {
      if 0 <= q < |terms| && q < |levels| && 0 <= c < |terms[q].columns| && 0 <= i < |levels[q]| && Slot(q, c, i) == dof
      then Load(q, c, i) else 0.0
    }

    ghost function TermEntry(q: int, i: int): Vec {
      dof => if 0 <= q < |terms| then Sum(|terms[q].columns|, c => Hit(q, c, i, dof)) else 0.0
    }

    /** The design matrix. */
    ghost function Entry(i: int): Vec { dof => Sum(|terms|, q => TermEntry(q, i)(dof)) }
  }

  /** `W^(1/2) D`, or `D` when there are no weights. */
  ghost function Matrix(d: Design, scale: Option<seq<real>>): Mat { (i, dof) => ScaleAt(scale, i) * d.Entry(i)(dof) }

  function ScaleAt(scale: Option<seq<real>>, i: int): real {
    if scale.Some? then At(scale.value)(i) else 1.0
  }

  // ---- Rows of the design ------------------------------------------------------------------

  /** One term's part of `(D x)_i`. */
  ghost function TermValue(d: Design, q: int, i: int, x: Vec): real {
    if 0 <= q < |d.terms| then Sum(|d.terms[q].columns|, c => ColumnValue(d, q, c, i, x)) else 0.0
  }

  ghost function ColumnValue(d: Design, q: int, c: int, i: int, x: Vec): real {
    if 0 <= q < |d.terms| && q < |d.levels| && 0 <= c < |d.terms[q].columns| && 0 <= i < |d.levels[q]|
    then d.Load(q, c, i) * x(d.Slot(q, c, i)) else 0.0
  }

  lemma SlotBound(d: Design, q: nat, c: nat, i: nat)
    requires d.Valid() && q < |d.terms| && c < |d.terms[q].columns| && i < |d.levels[q]|
    ensures d.Slot(q, c, i) < d.nDofs
  {
    assert d.TermValid(q);
    PlaceBound(c, |d.terms[q].columns|, d.terms[q].nLevels, d.levels[q][i]);
  }

  lemma ColumnDot(d: Design, q: nat, c: nat, i: nat, x: Vec)
    requires d.Valid() && q < |d.terms| && c < |d.terms[q].columns| && i < d.nObs
    ensures Dot(d.nDofs, dof => d.Hit(q, c, i, dof), x) == ColumnValue(d, q, c, i, x)
  {
    hide Sum;
    hide Place;
    assert d.TermValid(q);
    SlotBound(d, q, c, i);
    DotUnit(d.nDofs, d.Slot(q, c, i), dof => d.Hit(q, c, i, dof), x);
  }

  lemma TermDot(d: Design, q: nat, i: nat, x: Vec)
    requires d.Valid() && q < |d.terms| && i < d.nObs
    ensures Dot(d.nDofs, d.TermEntry(q, i), x) == TermValue(d, q, i, x)
  {
    hide Sum;
    hide Dot;
    hide Design.Hit;
    hide ColumnValue;
    var n, m := d.nDofs, |d.terms[q].columns|;
    var f := (c: int, dof: int) => d.Hit(q, c, i, dof);
    DotOfSum(n, m, f, x);
    forall dof | 0 <= dof < n ensures d.TermEntry(q, i)(dof) == Sum(m, c => f(c, dof)) { SumCong(m, c => d.Hit(q, c, i, dof), c => f(c, dof)); }
    DotCong(n, d.TermEntry(q, i), x, dof => Sum(m, c => f(c, dof)), x);
    forall c | 0 <= c < m ensures Dot(n, dof => f(c, dof), x) == ColumnValue(d, q, c, i, x) {
      ColumnDot(d, q, c, i, x);
      DotCong(n, dof => f(c, dof), x, dof => d.Hit(q, c, i, dof), x);
    }
    SumCong(m, c => Dot(n, dof => f(c, dof), x), c => ColumnValue(d, q, c, i, x));
  }

  /** A row of the design meets one coefficient per column. */
  lemma RowDot(d: Design, i: nat, x: Vec)
    requires d.Valid() && i < d.nObs
    ensures Dot(d.nDofs, d.Entry(i), x) == Sum(|d.terms|, q => TermValue(d, q, i, x))
  {
    hide Sum;
    hide Dot;
    hide TermValue;
    var n, m := d.nDofs, |d.terms|;
    var f := (q: int, dof: int) => d.TermEntry(q, i)(dof);
    DotOfSum(n, m, f, x);
    forall dof | 0 <= dof < n ensures d.Entry(i)(dof) == Sum(m, q => f(q, dof)) { SumCong(m, q => d.TermEntry(q, i)(dof), q => f(q, dof)); }
    DotCong(n, d.Entry(i), x, dof => Sum(m, q => f(q, dof)), x);
    forall q | 0 <= q < m ensures Dot(n, dof => f(q, dof), x) == TermValue(d, q, i, x) {
      TermDot(d, q, i, x);
      DotCong(n, dof => f(q, dof), x, d.TermEntry(q, i), x);
    }
    SumCong(m, q => Dot(n, dof => f(q, dof), x), q => TermValue(d, q, i, x));
  }

  /** `(W^(1/2) D x)_i` */
  lemma MatrixRow(d: Design, scale: Option<seq<real>>, i: nat, x: Vec)
    requires d.Valid() && i < d.nObs
    ensures MulVec(d.nDofs, Matrix(d, scale), x)(i) == ScaleAt(scale, i) * Sum(|d.terms|, q => TermValue(d, q, i, x))
  {
    hide Sum;
    hide Dot;
    hide TermValue;
    hide Design.Entry;
    RowDot(d, i, x);
    DotScaleLeft(d.nDofs, ScaleAt(scale, i), d.Entry(i), RowOf(Matrix(d, scale), i), x);
  }

  // ---- Gather ------------------------------------------------------------------------------

  /** The column shapes with an unrolled kernel. */
  predicate FixedArity(columns: seq<Loading>) {
    || (|columns| == 1)
    || (|columns| == 2 && columns[1].Covariate?)
    || (|columns| == 3 && columns[0].Constant? && columns[1].Covariate? && columns[2].Covariate?)
  }

  /** The unrolled kernel's weights for one row. */
  function RowWeights(d: Design, q: nat, i: nat): (w: seq<real>)
    requires q < |d.terms|
    ensures |w| == |d.terms[q].columns|
  {
    seq(|d.terms[q].columns|, c requires 0 <= c < |d.terms[q].columns| && q < |d.terms| => d.Load(q, c, i))
  }

  lemma ColumnTerm(d: Design, q: nat, c: nat, i: nat, src: seq<real>)
    requires d.Valid() && q < |d.terms| && c < |d.terms[q].columns| && i < d.nObs && |src| == d.nDofs
    ensures i < |d.levels[q]| && d.Slot(q, c, i) < |src|
    ensures ColumnValue(d, q, c, i, At(src)) == src[d.Slot(q, c, i)] * d.Load(q, c, i)
  {
    hide Place;
    assert d.TermValid(q);
    SlotBound(d, q, c, i);
  }

  /** `gather_term` at one row: the weighted coefficients, folded from zero. */
  method GatherUnrolled(d: Design, q: nat, src: seq<real>, i: nat) returns (acc: real)
    requires d.Valid() && q < |d.terms| && i < d.nObs && |src| == d.nDofs
    ensures acc == TermValue(d, q, i, At(src))
  {
    hide Place;
    hide ColumnValue;
    hide Sum;
    var t, weights := d.terms[q], RowWeights(d, q, i);
    acc := 0.0;
    SumZero(0, c => ColumnValue(d, q, c, i, At(src)));
    for c := 0 to |t.columns|
      invariant acc == Sum(c, c => ColumnValue(d, q, c, i, At(src)))
    {
      ColumnTerm(d, q, c, i, src);
      SumStep(c, c => ColumnValue(d, q, c, i, At(src)));
      acc := acc + src[d.Slot(q, c, i)] * weights[c];
    }
  }

  /** The fallback for other column counts. */
  method GatherGeneric(d: Design, q: nat, src: seq<real>, i: nat) returns (acc: real)
    requires d.Valid() && q < |d.terms| && i < d.nObs && |src| == d.nDofs
    ensures acc == TermValue(d, q, i, At(src))
  {
    hide Place;
    hide ColumnValue;
    hide Sum;
    var t := d.terms[q];
    assert d.TermValid(q);
    acc := 0.0;
    SumZero(0, c => ColumnValue(d, q, c, i, At(src)));
    for c := 0 to |t.columns|
      invariant acc == Sum(c, c => ColumnValue(d, q, c, i, At(src)))
    {
      ColumnTerm(d, q, c, i, src);
      SumStep(c, c => ColumnValue(d, q, c, i, At(src)));
      var coef := src[d.Slot(q, c, i)];
      match t.columns[c] {
        case Constant => acc := acc + coef;
        case Covariate(k) => acc := acc + coef * d.covariates[k][i];
      }
    }
  }

  /** What the first `n` terms add up to at row `i`. */
  ghost function Gathered(d: Design, n: nat, i: int, x: Vec): real { Sum(n, q => TermValue(d, q, i, x)) }

  lemma GatherStep(d: Design, q: nat, i: int, x: Vec)
    ensures Gathered(d, 0, i, x) == 0.0 && Gathered(d, q + 1, i, x) == Gathered(d, q, i, x) + TermValue(d, q, i, x)
  {
    SumStep(q, q => TermValue(d, q, i, x));
  }

  /** The kernel on one chunk: every term adds into the chunk's rows, then the rows are scaled. */
  method GatherChunk(d: Design, src: seq<real>, scale: Option<seq<real>>, dst: array<real>, start: nat, end: nat)
    requires d.Valid() && |src| == d.nDofs && start <= end <= d.nObs == dst.Length && (scale.Some? ==> |scale.value| == d.nObs)
    requires forall i :: start <= i < end ==> dst[i] == 0.0
    modifies dst
    ensures forall i :: start <= i < end ==> dst[i] == ScaleAt(scale, i) * Gathered(d, |d.terms|, i, At(src))
    ensures forall i :: 0 <= i < dst.Length && !(start <= i < end) ==> dst[i] == old(dst[i])
  {
    hide Gathered;
    hide TermValue;
    forall i | start <= i < end ensures Gathered(d, 0, i, At(src)) == 0.0 { GatherStep(d, 0, i, At(src)); }
    for q := 0 to |d.terms|
      invariant forall i :: start <= i < end ==> dst[i] == Gathered(d, q, i, At(src))
      invariant forall i :: 0 <= i < dst.Length && !(start <= i < end) ==> dst[i] == old(dst[i])
    {
      for i := start to end
        invariant forall l :: start <= l < i ==> dst[l] == Gathered(d, q + 1, l, At(src))
        invariant forall l :: i <= l < end ==> dst[l] == Gathered(d, q, l, At(src))
        invariant forall l :: 0 <= l < dst.Length && !(start <= l < end) ==> dst[l] == old(dst[l])
      {
        var acc;
        if FixedArity(d.terms[q].columns) {
          acc := GatherUnrolled(d, q, src, i);
        } else {
          acc := GatherGeneric(d, q, src, i);
        }
        GatherStep(d, q, i, At(src));
        dst[i] := dst[i] + acc;
      }
    }
    if scale.Some? {
      for i := start to end
        invariant forall l :: start <= l < i ==> dst[l] == ScaleAt(scale, l) * Gathered(d, |d.terms|, l, At(src))
        invariant forall l :: i <= l < end ==> dst[l] == Gathered(d, |d.terms|, l, At(src))
        invariant forall l :: 0 <= l < dst.Length && !(start <= l < end) ==> dst[l] == old(dst[l])
      {
        dst[i] := dst[i] * scale.value[i];
      }
    }
  }

  /** `gather_apply`: chunks own disjoint rows, so any chunk size gives `W^(1/2) D x`. */
  method GatherApply(d: Design, src: seq<real>, dst: array<real>, scale: Option<seq<real>>, chunk: nat)
    requires d.Valid() && |src| == d.nDofs && dst.Length == d.nObs && (scale.Some? ==> |scale.value| == d.nObs) && chunk > 0
    modifies dst
    ensures forall i :: 0 <= i < d.nObs ==> dst[i] == MulVec(d.nDofs, Matrix(d, scale), At(src))(i)
  {
    hide Sum;
    hide MulVec;
    hide TermValue;
    hide Matrix;
    forall i | 0 <= i < dst.Length { dst[i] := 0.0; }
    var start := 0;
    while start < d.nObs
      invariant start <= d.nObs
      invariant forall i :: 0 <= i < start ==> dst[i] == ScaleAt(scale, i) * Gathered(d, |d.terms|, i, At(src))
      invariant forall i :: start <= i < d.nObs ==> dst[i] == 0.0
    {
      var end := if start + chunk < d.nObs then start + chunk else d.nObs;
      GatherChunk(d, src, scale, dst, start, end);
      start := end;
    }
    forall i | 0 <= i < d.nObs ensures dst[i] == MulVec(d.nDofs, Matrix(d, scale), At(src))(i) { MatrixRow(d, scale, i, At(src)); }
  }

  // ---- Scatter -----------------------------------------------------------------------------

  /** Choices the thread pool makes: how ranges split, and how atomic additions interleave. */
  datatype Runtime = Runtime(parallel: bool, threshold: nat, chunk: nat, split: nat -> Split, atomic: (Atomic.Plan, seq<real>) -> seq<Atomic.Step>) {
    ghost predicate Sound() {
      && chunk > 0 && (forall n: nat :: SplitFits(split(n), 0, n))
      && forall plan, block :: Planned(plan, |block|) ==> Finishes(plan, block, atomic(plan, block))
    }
  }

  datatype Strategy = Sequential | Fold | Atomic | SortedCoalesced

  /** `ScatterStrategy::pick` */
  function Pick(rt: Runtime, block: nat, sorted: bool): Strategy {
    if !rt.parallel then Sequential
    else if block < rt.threshold then Fold
    else if sorted then SortedCoalesced
    else Strategy.Atomic
  }

  lemma ChunksPlanned(t: TermRows, plan: Atomic.Plan, block: seq<real>)
    requires t.Fits(block) && ChunkPlan(t, plan, |t.levels|)
    ensures Planned(plan, |block|)
  {
  }

  /** `scatter_term`: every strategy adds the same rows. */
  method ScatterTerm(t: TermRows, block: seq<real>, sorted: bool, scratch: array<real>, rt: Runtime) returns (r: seq<real>)
    requires t.Fits(block) && |block| <= scratch.Length && rt.Sound()
    modifies scratch
    ensures AddedRows(t, block, r, 0, |t.levels|)
  {
    hide AddedRows;
    hide Finishes;
    hide Planned;
    hide ChunkPlan;
    hide SplitFits;
    match Pick(rt, |block|, sorted) {
      case Sequential => r := ScatterSequential(t, block);
      case Fold => r := ScatterFold(t, block, rt.split(|t.levels|));
      case Atomic =>
        RowPlanTotal(t, 0);
        r := ScatterAtomic(t, block, scratch, rt.atomic(RowPlan(t), block));
      case SortedCoalesced =>
        forall plan | ChunkPlan(t, plan, |t.levels|) ensures Finishes(plan, block, rt.atomic(plan, block)) { ChunksPlanned(t, plan, block); }
        r := ScatterSortedCoalesced(t, block, scratch, rt.chunk, plan => rt.atomic(plan, block));
    }
  }

  /** What column `c` of term `q` scatters to `dof`, summed over observations. */
  ghost function ColumnScatter(d: Design, q: int, c: int, dof: int, base: Vec): real { Sum(d.nObs, i => base(i) * d.Hit(q, c, i, dof)) }

  ghost function TermScatter(d: Design, q: int, dof: int, base: Vec): real {
    if 0 <= q < |d.terms| then Sum(|d.terms[q].columns|, c => ColumnScatter(d, q, c, dof, base)) else 0.0
  }

  /** The fused kernel's rows: all columns at once. */
  function FusedRows(d: Design, q: nat, base: seq<real>): (t: TermRows)
    requires d.Valid() && q < |d.terms| && |base| == d.nObs
    ensures t.Valid() && t.columns == |d.terms[q].columns| && t.nLevels == d.terms[q].nLevels && t.levels == d.levels[q]
  {
    assert d.TermValid(q);
    TermRows(|d.terms[q].columns|, d.terms[q].nLevels, d.levels[q],
             seq(d.nObs, i requires 0 <= i < d.nObs == |base| && q < |d.terms| => LoadedRow(d, q, i, base[i])))
  }

  function LoadedRow(d: Design, q: nat, i: nat, b: real): (v: seq<real>)
    requires q < |d.terms|
    ensures |v| == |d.terms[q].columns|
  {
    seq(|d.terms[q].columns|, c requires 0 <= c < |d.terms[q].columns| && q < |d.terms| => d.Load(q, c, i) * b)
  }

  function LoadedCell(d: Design, q: nat, c: nat, i: nat, b: real): (v: seq<real>)
    requires q < |d.terms| && c < |d.terms[q].columns|
    ensures |v| == 1
  {
    [d.Load(q, c, i) * b]
  }

  /** One column on its own. */
  function ColumnRows(d: Design, q: nat, c: nat, base: seq<real>): (t: TermRows)
    requires d.Valid() && q < |d.terms| && c < |d.terms[q].columns| && |base| == d.nObs
    ensures t.Valid() && t.columns == 1 && t.nLevels == d.terms[q].nLevels && t.levels == d.levels[q]
  {
    assert d.TermValid(q);
    TermRows(1, d.terms[q].nLevels, d.levels[q],
             seq(d.nObs, i requires 0 <= i < d.nObs == |base| && q < |d.terms| && c < |d.terms[q].columns| => LoadedCell(d, q, c, i, base[i])))
  }

  /** One loaded value and where it lands. */
  lemma LoadedHit(d: Design, q: nat, c: nat, i: nat, e: nat, b: real)
    requires d.Valid() && q < |d.terms| && c < |d.terms[q].columns| && i < |d.levels[q]|
    ensures b * d.Hit(q, c, i, d.terms[q].offset + e) == if Place(c, d.terms[q].nLevels, d.levels[q][i]) == e then d.Load(q, c, i) * b else 0.0
  {
    hide Place;
  }

  lemma FusedRow(d: Design, q: nat, base: seq<real>, i: nat)
    requires d.Valid() && q < |d.terms| && |base| == d.nObs && i < d.nObs
    ensures i < |d.levels[q]| && FusedRows(d, q, base).values[i] == LoadedRow(d, q, i, base[i])
  {
    assert d.TermValid(q);
  }

  /** What each column of term `q` puts at `dof` for observation `i` carrying `b`. */
  ghost function HitLoads(d: Design, q: nat, i: nat, dof: int, b: real): Vec { c => b * d.Hit(q, c, i, dof) }

  lemma HitNext(d: Design, q: nat, c: nat, i: nat, e: nat, b: real, at: nat, value: real)
    requires d.Valid() && q < |d.terms| && c < |d.terms[q].columns| && i < |d.levels[q]|
    requires at == Place(c, d.terms[q].nLevels, d.levels[q][i]) && value == d.Load(q, c, i) * b
    ensures (if at == e then value else 0.0) == HitLoads(d, q, i, d.terms[q].offset + e, b)(c)
  {
    LoadedHit(d, q, c, i, e, b);
  }

  lemma {:induction false} FusedHits(d: Design, q: nat, base: seq<real>, i: nat, n: nat, e: nat)
    requires d.Valid() && q < |d.terms| && |base| == d.nObs && i < d.nObs && n <= |d.terms[q].columns|
    ensures var t := FusedRows(d, q, base);
      i < |t.levels| && AddedAt(RowAdds(t, i, n), e) == Sum(n, HitLoads(d, q, i, d.terms[q].offset + e, base[i]))
  {
    hide HitLoads;
    hide Place;
    hide AddedAt;
    hide Sum;
    hide FusedRows;
    hide Design.Hit;
    FusedRow(d, q, base, i);
    var t, f := FusedRows(d, q, base), HitLoads(d, q, i, d.terms[q].offset + e, base[i]);
    if n == 0 {
      NothingAdded(e);
      SumZero(0, f);
    } else {
      FusedHits(d, q, base, i, n - 1, e);
      AddedAtPush(RowAdds(t, i, n - 1), (Place(n - 1, t.nLevels, t.levels[i]), t.values[i][n - 1]), e);
      SumStep(n - 1, f);
      HitNext(d, q, n - 1, i, e, base[i], Place(n - 1, t.nLevels, t.levels[i]), t.values[i][n - 1]);
    }
  }

  lemma ColumnRow(d: Design, q: nat, c: nat, base: seq<real>, i: nat)
    requires d.Valid() && q < |d.terms| && c < |d.terms[q].columns| && |base| == d.nObs && i < d.nObs
    ensures i < |d.levels[q]| && ColumnRows(d, q, c, base).values[i] == LoadedCell(d, q, c, i, base[i])
  {
    assert d.TermValid(q);
  }

  lemma OneAdd(t: TermRows, i: nat, e: int)
    requires t.Valid() && i < |t.levels| && t.columns == 1
    ensures RowAt(t, i, e) == if t.levels[i] == e then t.values[i][0] else 0.0
  {
    var q, v := Place(0, t.nLevels, t.levels[i]), t.values[i][0];
    assert q == t.levels[i];
    assert RowAdds(t, i, 0) == [];
    NothingAdded(e);
    AddedAtPush([], (q, v), e);
  }

  lemma ColumnHit(d: Design, q: nat, c: nat, base: seq<real>, i: nat, e: nat)
    requires d.Valid() && q < |d.terms| && c < |d.terms[q].columns| && |base| == d.nObs && i < d.nObs
    ensures RowAt(ColumnRows(d, q, c, base), i, e) == base[i] * d.Hit(q, c, i, d.terms[q].offset + Place(c, d.terms[q].nLevels, e))
  {
    hide RowAt;
    hide ColumnRows;
    hide Design.Hit;
    ColumnRow(d, q, c, base, i);
    OneAdd(ColumnRows(d, q, c, base), i, e);
    LoadedHit(d, q, c, i, Place(c, d.terms[q].nLevels, e), base[i]);
  }

  /** The fused kernel adds the term's part of the adjoint. */
  lemma FusedScatter(d: Design, q: nat, base: seq<real>, e: nat)
    requires d.Valid() && q < |d.terms| && |base| == d.nObs
    ensures RangeAt(FusedRows(d, q, base), 0, d.nObs, e) == TermScatter(d, q, d.terms[q].offset + e, At(base))
  {
    hide Sum;
    hide AddedAt;
    hide RangeAt;
    hide RowAdds;
    hide FusedRows;
    hide Design.Hit;
    assert d.TermValid(q);
    var t, dof, m := FusedRows(d, q, base), d.terms[q].offset + e, |d.terms[q].columns|;
    var f := (c: int, i: int) => At(base)(i) * d.Hit(q, c, i, dof);
    RangeIsSum(t, d.nObs, e);
    SumSwap(m, d.nObs, f);
    forall i | 0 <= i < d.nObs ensures RowAt(t, i, e) == Sum(m, c => f(c, i)) {
      FusedHits(d, q, base, i, m, e);
      FusedRow(d, q, base, i);
      assert At(base)(i) == base[i];
      SumCong(m, HitLoads(d, q, i, dof, base[i]), c => f(c, i));
    }
    SumCong(d.nObs, i => RowAt(t, i, e), i => Sum(m, c => f(c, i)));
    forall c | 0 <= c < m ensures Sum(d.nObs, i => f(c, i)) == ColumnScatter(d, q, c, dof, At(base)) {
      SumCong(d.nObs, i => f(c, i), i => At(base)(i) * d.Hit(q, c, i, dof));
    }
    SumCong(m, c => Sum(d.nObs, i => f(c, i)), c => ColumnScatter(d, q, c, dof, At(base)));
  }

  lemma SingleScatter(d: Design, q: nat, c: nat, base: seq<real>, e: nat)
    requires d.Valid() && q < |d.terms| && c < |d.terms[q].columns| && |base| == d.nObs
    ensures RangeAt(ColumnRows(d, q, c, base), 0, d.nObs, e) == ColumnScatter(d, q, c, d.terms[q].offset + Place(c, d.terms[q].nLevels, e), At(base))
  {
    hide Sum;
    hide RowAt;
    hide Design.Hit;
    hide Place;
    assert d.TermValid(q);
    var t, dof := ColumnRows(d, q, c, base), d.terms[q].offset + Place(c, d.terms[q].nLevels, e);
    RangeIsSum(t, d.nObs, e);
    forall i | 0 <= i < d.nObs ensures RowAt(t, i, e) == At(base)(i) * d.Hit(q, c, i, dof) { ColumnHit(d, q, c, base, i, e); }
    SumCong(d.nObs, i => RowAt(t, i, e), i => At(base)(i) * d.Hit(q, c, i, dof));
  }

  /** Nothing lands outside a column's own stretch. */
  lemma ColumnMisses(d: Design, q: nat, c: nat, dof: int, base: Vec)
    requires d.Valid() && q < |d.terms| && c < |d.terms[q].columns|
    requires var from := d.terms[q].offset + Place(c, d.terms[q].nLevels, 0); dof < from || dof >= from + d.terms[q].nLevels
    ensures ColumnScatter(d, q, c, dof, base) == 0.0
  {
    assert d.TermValid(q);
    forall i | 0 <= i < d.nObs ensures base(i) * d.Hit(q, c, i, dof) == 0.0 { assert d.Hit(q, c, i, dof) == 0.0; }
    SumZero(d.nObs, i => base(i) * d.Hit(q, c, i, dof));
  }

  lemma StretchInBlock(c: nat, columns: nat, nLevels: nat)
    requires c < columns
    ensures Place(c, nLevels, 0) + nLevels <= columns * nLevels
  {
    assert (c + 1) * nLevels == c * nLevels + nLevels;
    assert (c + 1) * nLevels <= columns * nLevels;
  }

  lemma TermMisses(d: Design, q: nat, dof: int, base: Vec)
    requires d.Valid() && q < |d.terms| && (dof < d.terms[q].offset || dof >= d.terms[q].offset + d.terms[q].NDofs())
    ensures TermScatter(d, q, dof, base) == 0.0
  {
    hide ColumnScatter;
    hide Place;
    var m := |d.terms[q].columns|;
    forall c | 0 <= c < m ensures ColumnScatter(d, q, c, dof, base) == 0.0 {
      StretchInBlock(c, m, d.terms[q].nLevels);
      ColumnMisses(d, q, c, dof, base);
    }
    SumZero(m, c => ColumnScatter(d, q, c, dof, base));
  }

  /** The column shapes whose columns are scattered together. */
  predicate Fused(columns: seq<Loading>) { FixedArity(columns) && (|columns| == 1 ==> columns[0].Constant?) }

  /** Replacing the stretch of `dst` that a kernel worked on. */
  method WriteBlock(dst: array<real>, start: nat, block: seq<real>)
    requires start + |block| <= dst.Length
    modifies dst
    ensures forall e :: 0 <= e < dst.Length ==> dst[e] == if start <= e < start + |block| then block[e - start] else old(dst[e])
  {
    for e := 0 to |block|
      invariant forall l :: 0 <= l < dst.Length ==> dst[l] == if start <= l < start + e then block[l - start] else old(dst[l])
    {
      dst[start + e] := block[e];
    }
  }

  /** All columns of one term at once. */
  method ScatterFused(d: Design, q: nat, base: seq<real>, dst: array<real>, scratch: array<real>, rt: Runtime)
    requires d.Valid() && q < |d.terms| && |base| == d.nObs && dst.Length == d.nDofs && dst != scratch
    requires d.terms[q].NDofs() <= scratch.Length && rt.Sound()
    modifies dst, scratch
    ensures forall dof :: 0 <= dof < d.nDofs ==> dst[dof] == old(dst[dof]) + TermScatter(d, q, dof, At(base))
  {
    hide TermScatter;
    hide RangeAt;
    hide FusedRows;
    assert d.TermValid(q);
    var t, from := d.terms[q], d.terms[q].offset;
    var rows := FusedRows(d, q, base);
    var block := ScatterTerm(rows, dst[from..from + t.NDofs()], t.sorted, scratch, rt);
    WriteBlock(dst, from, block);
    forall dof | 0 <= dof < d.nDofs ensures dst[dof] == old(dst[dof]) + TermScatter(d, q, dof, At(base)) {
      if from <= dof < from + t.NDofs() { FusedScatter(d, q, base, dof - from); } else { TermMisses(d, q, dof, At(base)); }
    }
  }

  /** One column at a time. */
  method ScatterColumn(d: Design, q: nat, c: nat, base: seq<real>, dst: array<real>, scratch: array<real>, rt: Runtime)
    requires d.Valid() && q < |d.terms| && c < |d.terms[q].columns| && |base| == d.nObs && dst.Length == d.nDofs && dst != scratch
    requires d.terms[q].NDofs() <= scratch.Length && rt.Sound()
    modifies dst, scratch
    ensures forall dof :: 0 <= dof < d.nDofs ==> dst[dof] == old(dst[dof]) + ColumnScatter(d, q, c, dof, At(base))
  {
    hide ColumnScatter;
    hide RangeAt;
    hide ColumnRows;
    assert d.TermValid(q);
    var t := d.terms[q];
    StretchInBlock(c, |t.columns|, t.nLevels);
    var from := t.offset + Place(c, t.nLevels, 0);
    var rows := ColumnRows(d, q, c, base);
    var block := ScatterTerm(rows, dst[from..from + t.nLevels], t.sorted, scratch, rt);
    WriteBlock(dst, from, block);
    forall dof | 0 <= dof < d.nDofs ensures dst[dof] == old(dst[dof]) + ColumnScatter(d, q, c, dof, At(base)) {
      if from <= dof < from + t.nLevels { SingleScatter(d, q, c, base, dof - from); } else { ColumnMisses(d, q, c, dof, At(base)); }
    }
  }

  ghost function Scattered(d: Design, n: nat, dof: int, base: Vec): real { Sum(n, q => TermScatter(d, q, dof, base)) }

  lemma ScatterStep(d: Design, q: nat, dof: int, base: Vec)
    ensures Scattered(d, 0, dof, base) == 0.0 && Scattered(d, q + 1, dof, base) == Scattered(d, q, dof, base) + TermScatter(d, q, dof, base)
  {
    SumStep(q, q => TermScatter(d, q, dof, base));
  }

  ghost function FirstColumns(d: Design, q: int, n: nat, dof: int, base: Vec): real { Sum(n, c => ColumnScatter(d, q, c, dof, base)) }

  lemma ColumnStep(d: Design, q: nat, c: nat, dof: int, base: Vec)
    requires q < |d.terms|
    ensures FirstColumns(d, q, 0, dof, base) == 0.0 && FirstColumns(d, q, c + 1, dof, base) == FirstColumns(d, q, c, dof, base) + ColumnScatter(d, q, c, dof, base)
    ensures TermScatter(d, q, dof, base) == FirstColumns(d, q, |d.terms[q].columns|, dof, base)
  {
    hide ColumnScatter;
    SumStep(c, c => ColumnScatter(d, q, c, dof, base));
  }

  /** All columns of one term, one after another. */
  method ScatterEach(d: Design, q: nat, base: seq<real>, dst: array<real>, scratch: array<real>, rt: Runtime)
    requires d.Valid() && q < |d.terms| && |base| == d.nObs && dst.Length == d.nDofs && dst != scratch
    requires d.terms[q].NDofs() <= scratch.Length && rt.Sound()
    modifies dst, scratch
    ensures forall dof :: 0 <= dof < d.nDofs ==> dst[dof] == old(dst[dof]) + TermScatter(d, q, dof, At(base))
  {
    hide TermScatter;
    hide ColumnScatter;
    hide FirstColumns;
    hide Runtime.Sound;
    forall dof ensures FirstColumns(d, q, 0, dof, At(base)) == 0.0 { ColumnStep(d, q, 0, dof, At(base)); }
    for c := 0 to |d.terms[q].columns|
      invariant forall dof :: 0 <= dof < d.nDofs ==> dst[dof] == old(dst[dof]) + FirstColumns(d, q, c, dof, At(base))
    {
      ScatterColumn(d, q, c, base, dst, scratch, rt);
      ghost var next := c + 1;
      forall dof | 0 <= dof < d.nDofs ensures dst[dof] == old(dst[dof]) + FirstColumns(d, q, next, dof, At(base)) { ColumnStep(d, q, c, dof, At(base)); }
    }
    forall dof | 0 <= dof < d.nDofs ensures dst[dof] == old(dst[dof]) + TermScatter(d, q, dof, At(base)) { ColumnStep(d, q, 0, dof, At(base)); }
  }

  /** The adjoint, regrouped by term, column and observation. */
  lemma AdjointEntry(d: Design, scale: Option<seq<real>>, x: seq<real>, base: seq<real>, dof: nat)
    requires d.Valid() && |x| == |base| == d.nObs && forall i :: 0 <= i < |base| ==> base[i] == ScaleAt(scale, i) * x[i]
    ensures Scattered(d, |d.terms|, dof, At(base)) == VecMul(d.nObs, At(x), Matrix(d, scale))(dof)
  {
    hide Sum;
    hide TermScatter;
    hide Design.TermEntry;
    var n, m, b := d.nObs, |d.terms|, At(base);
    var f := (q: int, i: int) => b(i) * d.TermEntry(q, i)(dof);
    SumSwap(m, n, f);
    forall q | 0 <= q < m ensures TermScatter(d, q, dof, b) == Sum(n, i => f(q, i)) {
      TermByObservation(d, q, dof, b);
      SumCong(n, i => f(q, i), i => b(i) * d.TermEntry(q, i)(dof));
    }
    SumCong(m, q => TermScatter(d, q, dof, b), q => Sum(n, i => f(q, i)));
    var g := ColOf(Matrix(d, scale), dof);
    forall i | 0 <= i < n ensures Sum(m, q => f(q, i)) == At(x)(i) * g(i) {
      WeightedEntry(d, scale, x, base, dof, i);
      SumCong(m, q => f(q, i), q => b(i) * d.TermEntry(q, i)(dof));
    }
    SumCong(n, i => Sum(m, q => f(q, i)), i => At(x)(i) * g(i));
  }

  lemma TermByObservation(d: Design, q: nat, dof: int, b: Vec)
    requires q < |d.terms|
    ensures TermScatter(d, q, dof, b) == Sum(d.nObs, i => b(i) * d.TermEntry(q, i)(dof))
  {
    hide Sum;
    hide Design.Hit;
    var n, m := d.nObs, |d.terms[q].columns|;
    var f := (c: int, i: int) => b(i) * d.Hit(q, c, i, dof);
    SumSwap(m, n, f);
    forall c | 0 <= c < m ensures ColumnScatter(d, q, c, dof, b) == Sum(n, i => f(c, i)) { SumCong(n, i => f(c, i), i => b(i) * d.Hit(q, c, i, dof)); }
    SumCong(m, c => ColumnScatter(d, q, c, dof, b), c => Sum(n, i => f(c, i)));
    forall i | 0 <= i < n ensures Sum(m, c => f(c, i)) == b(i) * d.TermEntry(q, i)(dof) {
      SumScale(m, b(i), c => d.Hit(q, c, i, dof), c => f(c, i));
    }
    SumCong(n, i => Sum(m, c => f(c, i)), i => b(i) * d.TermEntry(q, i)(dof));
  }

  lemma WeightedEntry(d: Design, scale: Option<seq<real>>, x: seq<real>, base: seq<real>, dof: int, i: nat)
    requires |x| == |base| == d.nObs && i < d.nObs && base[i] == ScaleAt(scale, i) * x[i]
    ensures Sum(|d.terms|, q => At(base)(i) * d.TermEntry(q, i)(dof)) == At(x)(i) * Matrix(d, scale)(i, dof)
  {
    hide Sum;
    hide Design.TermEntry;
    var e := d.Entry(i)(dof);
    assert At(base)(i) == base[i] && At(x)(i) == x[i];
    SumScale(|d.terms|, base[i], q => d.TermEntry(q, i)(dof), q => At(base)(i) * d.TermEntry(q, i)(dof));
    ThreeFactors(ScaleAt(scale, i), x[i], e);
  }

  lemma ThreeFactors(s: real, x: real, e: real)
    ensures (s * x) * e == x * (s * e)
  {
  }

  /** `apply_adjoint`: for every strategy, split, chunk size and interleaving, and whatever the
      scratch held before, `dst` ends as the adjoint. */
  method ScatterApply(d: Design, x: seq<real>, dst: array<real>, scale: Option<seq<real>>, scratch: array<real>, rt: Runtime)
    requires d.Valid() && |x| == d.nObs && dst.Length == d.nDofs && dst != scratch && rt.Sound()
    requires scale.Some? ==> |scale.value| == d.nObs
    requires forall q :: 0 <= q < |d.terms| ==> d.terms[q].NDofs() <= scratch.Length
    modifies dst, scratch
    ensures forall dof :: 0 <= dof < d.nDofs ==> dst[dof] == VecMul(d.nObs, At(x), Matrix(d, scale))(dof)
  {
    hide TermScatter;
    hide Scattered;
    hide VecMul;
    hide Matrix;
    hide Runtime.Sound;
    forall dof | 0 <= dof < dst.Length { dst[dof] := 0.0; }
    var base := seq(d.nObs, i requires 0 <= i < d.nObs == |x| => ScaleAt(scale, i) * x[i]);
    forall dof ensures Scattered(d, 0, dof, At(base)) == 0.0 { ScatterStep(d, 0, dof, At(base)); }
    for q := 0 to |d.terms|
      invariant forall dof :: 0 <= dof < d.nDofs ==> dst[dof] == Scattered(d, q, dof, At(base))
    {
      if Fused(d.terms[q].columns) {
        ScatterFused(d, q, base, dst, scratch, rt);
      } else {
        ScatterEach(d, q, base, dst, scratch, rt);
      }
      ghost var next := q + 1;
      forall dof | 0 <= dof < d.nDofs ensures dst[dof] == Scattered(d, next, dof, At(base)) { ScatterStep(d, q, dof, At(base)); }
    }
    forall dof | 0 <= dof < d.nDofs ensures dst[dof] == VecMul(d.nObs, At(x), Matrix(d, scale))(dof) { AdjointEntry(d, scale, x, base, dof); }
  }

  /** Gather and scatter are adjoint: `<r, D x> = <D^T r, x>`. */
  lemma Adjoint(d: Design, scale: Option<seq<real>>, x: seq<real>, r: seq<real>, dx: seq<real>, dtr: seq<real>)
    requires |dx| == d.nObs && |dtr| == d.nDofs
    requires forall i :: 0 <= i < d.nObs ==> dx[i] == MulVec(d.nDofs, Matrix(d, scale), At(x))(i)
    requires forall dof :: 0 <= dof < d.nDofs ==> dtr[dof] == VecMul(d.nObs, At(r), Matrix(d, scale))(dof)
    ensures Dot(d.nObs, At(r), At(dx)) == Dot(d.nDofs, At(dtr), At(x))
  {
    hide Dot;
    hide Matrix;
    var m := Matrix(d, scale);
    DotSwap(d.nObs, d.nDofs, At(r), m, At(x));
    DotCong(d.nObs, At(r), At(dx), At(r), MulVec(d.nDofs, m, At(x)));
    DotCong(d.nDofs, At(dtr), At(x), VecMul(d.nObs, At(r), m), At(x));
  }
}
