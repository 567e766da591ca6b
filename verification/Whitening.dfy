/** Whitening one slope-bearing term: its loadings become orthonormal within every level
    (crates/within/src/solver/reparam.rs:80-168). */
module Whitening {
  import opened Wrappers
  import opened Sums
  import opened Vectors
  import opened LevelMoment
  import opened GramSchmidt

  /** `u = W (z - center)`; an empty `w` marks a fully dropped level. */
  datatype LevelTransform = LevelTransform(w: seq<seq<real>>, center: seq<real>)

  /** The observations of a term: their level, slopes and weight (one when unweighted). */
  function Observations(levels: seq<nat>, zs: seq<seq<real>>, weights: Option<seq<real>>): (obs: seq<Observation>)
    requires forall j :: 0 <= j < |zs| ==> |zs[j]| == |levels|
    requires weights.Some? ==> |weights.value| == |levels|
    ensures |obs| == |levels|
  {
    seq(|levels|, i requires 0 <= i < |levels| =>
      Observation(levels[i], RowAt(zs, i), if weights.Some? then weights.value[i] else 1.0))
  }

  function RowAt(zs: seq<seq<real>>, i: nat): (z: seq<real>)
    requires forall j :: 0 <= j < |zs| ==> i < |zs[j]|
    ensures |z| == |zs|
  {
    seq(|zs|, j requires 0 <= j < |zs| => zs[j][i])
  }

  /** Whitened loading `k` of an observation with slopes `z`: zero past the level's rank. */
  function Loading(t: LevelTransform, z: seq<real>, k: nat): real
    requires |t.center| == |z| && RowsOf(t.w, |z|)
  {
    if k < |t.w| then InnerOf(t.w[k], Comb(1.0, z, -1.0, t.center)) else 0.0
  }

  predicate RowsOf(w: seq<seq<real>>, v: nat) { forall t :: 0 <= t < |w| ==> |w[t]| == v }

  function InnerOf(x: seq<real>, y: seq<real>): real
    requires |x| == |y|
  {
    Inner(x, y)
  }

  // ---- The weighted Gram of linear images --------------------------------------------------

  /** Z^T diag(m) Z */
  ghost function WeightedGram(n: nat, m: int -> real, z: (int, int) -> real): (int, int) -> real {
    (j, k) => Dot(n, m, Times(ColOf(z, j), ColOf(z, k)))
  }

  lemma MoveWeight(n: nat, m: int -> real, f: int -> real, g: int -> real)
    ensures Dot(n, m, Times(f, g)) == Dot(n, Times(m, f), g) == Dot(n, Times(m, g), f)
  {
    forall i | 0 <= i < n ensures m(i) * Times(f, g)(i) == Times(m, f)(i) * g(i) == Times(m, g)(i) * f(i) {
      ThreeFactors(m(i), f(i), g(i));
    }
    SumCong(n, i => m(i) * Times(f, g)(i), i => Times(m, f)(i) * g(i));
    SumCong(n, i => m(i) * Times(f, g)(i), i => Times(m, g)(i) * f(i));
  }

  lemma ThreeFactors(m: real, f: real, g: real)
    ensures m * Mul(f, g) == Mul(m, f) * g == Mul(m, g) * f
  {
  }

  /** m-weighted product of one column with an image: a row of the weighted Gram. */
  lemma ColumnAgainstImage(n: nat, v: nat, m: int -> real, z: (int, int) -> real, a: int -> real, k: int)
    ensures VecMul(n, Times(m, MulVec(v, z, a)), z)(k) == VecMul(v, a, WeightedGram(n, m, z))(k)
  {
    hide Dot;
    hide Sum;
    var x, c, g := MulVec(v, z, a), ColOf(z, k), WeightedGram(n, m, z);
    MoveWeight(n, m, x, c);
    DotSwap(n, v, Times(m, c), z, a);
    forall j | 0 <= j < v ensures VecMul(n, Times(m, c), z)(j) == ColOf(g, k)(j) {
      MoveWeight(n, m, ColOf(z, j), c);
    }
    DotCong(v, VecMul(n, Times(m, c), z), a, ColOf(g, k), a);
    DotComm(v, ColOf(g, k), a);
  }

  lemma ImagesGram(n: nat, v: nat, m: int -> real, z: (int, int) -> real, a: int -> real, b: int -> real)
    ensures Dot(n, m, Times(MulVec(v, z, a), MulVec(v, z, b))) == Dot(v, a, MulVec(v, WeightedGram(n, m, z), b))
  {
    hide Dot;
    hide Sum;
    var x, y, g := MulVec(v, z, a), MulVec(v, z, b), WeightedGram(n, m, z);
    MoveWeight(n, m, x, y);
    DotSwap(n, v, Times(m, x), z, b);
    forall k | 0 <= k < v ensures VecMul(n, Times(m, x), z)(k) == VecMul(v, a, g)(k) {
      ColumnAgainstImage(n, v, m, z, a, k);
    }
    DotCong(v, VecMul(n, Times(m, x), z), b, VecMul(v, a, g), b);
    DotSwap(v, v, a, g, b);
  }

  // ---- One level ---------------------------------------------------------------------------

  /** Deviations of every observation from a level's center. */
  ghost function Deviations(obs: seq<Observation>, center: seq<real>): (int, int) -> real {
    (i, j) => if 0 <= j < |center| then Slope(obs, j)(i) - center[j] else 0.0
  }

  /** The level's transform applied to every observation. */
  ghost function LevelLoading(obs: seq<Observation>, t: LevelTransform, k: nat): int -> real {
    if k < |t.w| then MulVec(|t.center|, Deviations(obs, t.center), At(t.w[k])) else _ => 0.0
  }

  lemma GramIsWeighted(g: seq<seq<real>>, obs: seq<Observation>, level: nat, center: seq<real>, v: nat)
    requires IsGram(g, obs, level, center, v)
    ensures forall j, k :: 0 <= j < v && 0 <= k < v ==>
              Entries(g)(j, k) == WeightedGram(|obs|, Mass(obs, level), Deviations(obs, center))(j, k)
  {
    hide Dot;
    var m, z := Mass(obs, level), Deviations(obs, center);
    forall j, k | 0 <= j < v && 0 <= k < v ensures Entries(g)(j, k) == WeightedGram(|obs|, m, z)(j, k) {
      assert GramAt(g, obs, level, center, j, k);
      var f, h := Shifted(Slope(obs, j), center[j]), Shifted(Slope(obs, k), center[k]);
      DotCong(|obs|, m, Times(f, h), m, Times(ColOf(z, j), ColOf(z, k)));
    }
  }

  /** Within its level the whitened loadings have Gram diag(1, ..., 1, 0, ..., 0). */
  lemma LevelWhitened(g: seq<seq<real>>, obs: seq<Observation>, level: nat, t: LevelTransform, v: nat, k: nat, l: nat)
    requires IsGram(g, obs, level, t.center, v) && Orthonormal(g, v, t.w)
    ensures Dot(|obs|, Mass(obs, level), Times(LevelLoading(obs, t, k), LevelLoading(obs, t, l)))
            == if k == l && k < |t.w| then 1.0 else 0.0
  {
    hide Sum;
    hide Pairing;
    var m, z := Mass(obs, level), Deviations(obs, t.center);
    if k < |t.w| && l < |t.w| {
      ImagesGram(|obs|, v, m, z, At(t.w[k]), At(t.w[l]));
      GramIsWeighted(g, obs, level, t.center, v);
      SameEntries(v, Entries(g), WeightedGram(|obs|, m, z), At(t.w[k]), At(t.w[l]));
      assert OrthonormalAt(g, v, t.w, k, l);
      PairingIsDot(g, v, t.w[k], t.w[l]);
    } else {
      ZeroTimesLoading(obs, t, k, l);
      DotZero(|obs|, m, Times(LevelLoading(obs, t, k), LevelLoading(obs, t, l)));
    }
  }

  lemma ZeroTimesLoading(obs: seq<Observation>, t: LevelTransform, k: nat, l: nat)
    requires k >= |t.w| || l >= |t.w|
    ensures forall i :: Times(LevelLoading(obs, t, k), LevelLoading(obs, t, l))(i) == 0.0
  {
    forall i ensures Times(LevelLoading(obs, t, k), LevelLoading(obs, t, l))(i) == 0.0 {
      ZeroTimes(LevelLoading(obs, t, k)(i), LevelLoading(obs, t, l)(i));
    }
  }

  lemma SameEntries(v: nat, e: (int, int) -> real, g: (int, int) -> real, a: int -> real, b: int -> real)
    requires forall j, k :: 0 <= j < v && 0 <= k < v ==> e(j, k) == g(j, k)
    ensures Dot(v, a, MulVec(v, e, b)) == Dot(v, a, MulVec(v, g, b))
  {
    hide Dot;
    forall j | 0 <= j < v ensures MulVec(v, e, b)(j) == MulVec(v, g, b)(j) {
      DotCong(v, RowOf(e, j), b, RowOf(g, j), b);
    }
    DotCong(v, a, MulVec(v, e, b), a, MulVec(v, g, b));
  }

  /** About the weighted means the loadings have weighted mean zero. */
  lemma LevelCentered(obs: seq<Observation>, level: nat, t: LevelTransform, v: nat, k: nat)
    requires |t.center| == v && Rows(t.w, v)
    requires forall j :: 0 <= j < v ==> MeanOf(TotalMass(obs, level), t.center[j], FirstMoment(obs, level, j))
    ensures Dot(|obs|, Mass(obs, level), LevelLoading(obs, t, k)) == 0.0
  {
    hide Sum;
    hide Dot;
    var n, m, z := |obs|, Mass(obs, level), Deviations(obs, t.center);
    if k < |t.w| {
      DotSwap(n, v, m, z, At(t.w[k]));
      forall j | 0 <= j < v ensures VecMul(n, m, z)(j) == 0.0 { MeanDeviation(obs, level, t.center, j); }
      DotZero(v, VecMul(n, m, z), At(t.w[k]));
    } else {
      DotZero(n, m, LevelLoading(obs, t, k));
    }
  }

  lemma MeanDeviation(obs: seq<Observation>, level: nat, mu: seq<real>, j: nat)
    requires j < |mu| && MeanOf(TotalMass(obs, level), mu[j], FirstMoment(obs, level, j))
    ensures VecMul(|obs|, Mass(obs, level), Deviations(obs, mu))(j) == 0.0
  {
    hide Sum;
    var m, z := Mass(obs, level), Deviations(obs, mu);
    DotShift(|obs|, m, Slope(obs, j), mu[j], ColOf(z, j));
  }

  lemma DiagonalNonneg(g: seq<seq<real>>, obs: seq<Observation>, level: nat, center: seq<real>, v: nat)
    requires IsGram(g, obs, level, center, v)
    ensures Nonnegative(g, v) && Symmetric(g, v)
  {
    forall j | 0 <= j < v ensures g[j][j] >= 0.0 {
      assert GramAt(g, obs, level, center, j, j);
      CenteredNonneg(obs, level, center, j);
    }
    forall j, k | 0 <= j < v && 0 <= k < v ensures g[j][k] == g[k][j] {
      assert GramAt(g, obs, level, center, j, k) && GramAt(g, obs, level, center, k, j);
      CenteredSymmetric(obs, level, center, j, k);
    }
  }

  lemma CenteredNonneg(obs: seq<Observation>, level: nat, center: seq<real>, j: nat)
    requires j < |center|
    ensures Centered(obs, level, center, j, j) >= 0.0
  {
    var m, f := Mass(obs, level), Shifted(Slope(obs, j), center[j]);
    forall i | 0 <= i < |obs| ensures m(i) * Times(f, f)(i) >= 0.0 { WeightedSquare(m(i), f(i), Times(f, f)(i)); }
    SumNonneg(|obs|, i => m(i) * Times(f, f)(i));
  }

  lemma WeightedSquare(m: real, f: real, q: real)
    requires m >= 0.0 && q == Mul(f, f)
    ensures m * q >= 0.0
  {
    SquareNonneg(f, q);
    NonnegTimes(m, q);
  }

  lemma NonnegTimes(x: real, y: real)
    requires x >= 0.0 && y >= 0.0
    ensures x * y >= 0.0
  {
  }

  // ---- The term ----------------------------------------------------------------------------

  /** What the whitening of a term leaves behind: where its columns are and each level's transform. */
  datatype TermReparam = TermReparam(offset: nat, nLevels: nat, interceptColumn: Option<nat>, slopeColumns: seq<nat>,
                                     transforms: seq<LevelTransform>)

  /** A level's transform comes from its Gram: orthonormal rows, each from the pivot that stands
      out most, only columns within tolerance dropped, and weighted means (or zeros) for centers. */
  ghost predicate TransformFrom(obs: seq<Observation>, level: nat, v: nat, intercept: bool, tol: real, t: LevelTransform,
                                g: seq<seq<real>>, kept: seq<bool>)
  {
    && IsGram(g, obs, level, t.center, v) && Orthonormal(g, v, t.w)
    && Supported(t.w, v, kept) && |t.w| + Free(kept) == v && DroppedWithin(g, v, tol, t.w, kept)
    && Exhausted(g, v, tol, t.w, kept) && (exists pivots :: Pivoted(g, v, tol, t.w, kept, pivots))
    && (if intercept then forall j :: 0 <= j < v ==> MeanOf(TotalMass(obs, level), t.center[j], FirstMoment(obs, level, j))
        else t.center == seq(v, _ => 0.0))
  }

  lemma SameGram(g: seq<seq<real>>, g': seq<seq<real>>, obs: seq<Observation>, level: nat, center: seq<real>, center': seq<real>, v: nat)
    requires IsGram(g, obs, level, center, v) && IsGram(g', obs, level, center', v)
    requires center == center' || TotalMass(obs, level) == 0.0
    ensures g == g'
  {
    hide Centered;
    hide TotalMass;
    forall j | 0 <= j < v ensures g[j] == g'[j] {
      forall k | 0 <= k < v ensures g[j][k] == g'[j][k] {
        assert GramAt(g, obs, level, center, j, k) && GramAt(g', obs, level, center', j, k);
        if TotalMass(obs, level) == 0.0 {
          MasslessCentered(obs, level, center, j, k);
          MasslessCentered(obs, level, center', j, k);
        }
      }
    }
  }

  /** Nothing without weight spreads about any center. */
  lemma MasslessCentered(obs: seq<Observation>, level: nat, center: seq<real>, j: nat, k: nat)
    requires TotalMass(obs, level) == 0.0 && j < |center| && k < |center|
    ensures Centered(obs, level, center, j, k) == 0.0
  {
    hide Sum;
    var n, m := |obs|, Mass(obs, level);
    forall i | 0 <= i < n ensures m(i) == 0.0 {
      forall l | 0 <= l < n ensures m(l) >= 0.0 {}
      SumBoundsTerm(n, i, m);
    }
    DotZero(n, m, Times(Shifted(Slope(obs, j), center[j]), Shifted(Slope(obs, k), center[k])));
  }

  lemma SameMeans(obs: seq<Observation>, level: nat, v: nat, c: seq<real>, c': seq<real>)
    requires |c| == |c'| == v && TotalMass(obs, level) != 0.0
    requires forall j :: 0 <= j < v ==> MeanOf(TotalMass(obs, level), c[j], FirstMoment(obs, level, j))
    requires forall j :: 0 <= j < v ==> MeanOf(TotalMass(obs, level), c'[j], FirstMoment(obs, level, j))
    ensures c == c'
  {
    hide TotalMass;
    hide FirstMoment;
    forall j | 0 <= j < v ensures c[j] == c'[j] { OneMean(TotalMass(obs, level), c[j], c'[j], FirstMoment(obs, level, j)); }
  }

  lemma OneMean(w: real, x: real, y: real, first: real)
    requires w != 0.0 && MeanOf(w, x, first) && MeanOf(w, y, first)
    ensures x == y
  {
    assert w * (x - y) == 0.0;
  }

  /** The data and the tolerance determine a level's rows and which of its slopes are identified. */
  lemma LevelDetermined(obs: seq<Observation>, level: nat, v: nat, intercept: bool, tol: real, t: LevelTransform, kept: seq<bool>,
                        t': LevelTransform, kept': seq<bool>)
    requires KeptAt(obs, t, kept, level, v, intercept, tol) && KeptAt(obs, t', kept', level, v, intercept, tol)
    ensures t.w == t'.w && kept == kept'
    ensures !intercept || TotalMass(obs, level) != 0.0 ==> t == t'
  {
    hide IsGram;
    hide Orthonormal;
    hide Supported;
    hide DroppedWithin;
    hide Pivoted;
    hide Exhausted;
    hide MeanOf;
    hide TotalMass;
    hide FirstMoment;
    var g :| TransformFrom(obs, level, v, intercept, tol, t, g, kept);
    var g' :| TransformFrom(obs, level, v, intercept, tol, t', g', kept');
    GramSquare(g, obs, level, t.center, v);
    GramSquare(g', obs, level, t'.center, v);
    if intercept && TotalMass(obs, level) != 0.0 { SameMeans(obs, level, v, t.center, t'.center); }
    SameGram(g, g', obs, level, t.center, t'.center, v);
    var pivots :| Pivoted(g, v, tol, t.w, kept, pivots);
    var pivots' :| Pivoted(g', v, tol, t'.w, kept', pivots');
    PivotedUnique(g, v, tol, t.w, kept, pivots, t'.w, kept', pivots');
  }

  lemma GramSquare(g: seq<seq<real>>, obs: seq<Observation>, level: nat, center: seq<real>, v: nat)
    requires IsGram(g, obs, level, center, v)
    ensures Square(g, v) && |center| == v
  {
  }

  method BuildLevel(m: Moments, ghost obs: seq<Observation>, ghost level: nat, v: nat, intercept: bool, tol: real, sqrt: real -> real)
    returns (t: LevelTransform, kept: seq<bool>)
    requires Describes(m, obs, level, v) && tol >= 0.0 && IsSqrt(sqrt)
    ensures KeptAt(obs, t, kept, level, v, intercept, tol) && |kept| == v
  {
    hide Orthonormal;
    hide Supported;
    hide DroppedWithin;
    hide Pivoted;
    hide Exhausted;
    DescribedSizes(m, obs, level, v);
    var g := Gram(m, intercept, obs, level, v);
    DiagonalNonneg(g, obs, level, Center(m, intercept), v);
    var w;
    ghost var pivots;
    w, kept, pivots := PivotedGramSchmidt(g, v, tol, sqrt);
    t := LevelTransform(w, Center(m, intercept));
    SupportedSize(w, v, kept);
    assert TransformFrom(obs, level, v, intercept, tol, t, g, kept);
  }

  lemma SupportedSize(w: seq<seq<real>>, v: nat, kept: seq<bool>)
    requires Supported(w, v, kept)
    ensures |kept| == v && Rows(w, v)
  {
  }

  lemma TransformSizes(obs: seq<Observation>, level: nat, v: nat, intercept: bool, tol: real, t: LevelTransform, kept: seq<bool>)
    requires KeptAt(obs, t, kept, level, v, intercept, tol)
    ensures |t.center| == v && Rows(t.w, v) && RowsOf(t.w, v) && |t.w| <= v
  {
  }

  /** Directions the data cannot identify: the intercept of an empty level, dropped slopes. */
  datatype Unidentified = Unidentified(column: nat, level: nat)

  /** The dropped slopes among the first `n`, in column order. */
  function Dropped(kept: seq<bool>, slopeColumns: seq<nat>, level: nat, n: nat): seq<Unidentified>
    requires n <= |kept| == |slopeColumns|
  {
    if n == 0 then []
    else Dropped(kept, slopeColumns, level, n - 1) + if kept[n - 1] then [] else [Unidentified(slopeColumns[n - 1], level)]
  }

  method DroppedSlopes(kept: seq<bool>, slopeColumns: seq<nat>, level: nat) returns (r: seq<Unidentified>)
    requires |kept| == |slopeColumns|
    ensures r == Dropped(kept, slopeColumns, level, |kept|)
  {
    r := [];
    for j := 0 to |kept|
      invariant r == Dropped(kept, slopeColumns, level, j)
    {
      if !kept[j] {
        r := r + [Unidentified(slopeColumns[j], level)];
      }
    }
  }

  /** The whole list: level by level, the intercept of an empty level before its slopes. */
  ghost function UnidentifiedList(obs: seq<Observation>, kepts: seq<seq<bool>>, slopeColumns: seq<nat>, intercept: bool): seq<Unidentified>
    requires forall l :: 0 <= l < |kepts| ==> |kepts[l]| == |slopeColumns|
  {
    if kepts == [] then []
    else
      var l := |kepts| - 1;
      UnidentifiedList(obs, kepts[..l], slopeColumns, intercept)
      + (if intercept && TotalMass(obs, l) == 0.0 then [Unidentified(0, l)] else [])
      + Dropped(kepts[l], slopeColumns, l, |slopeColumns|)
  }

  /** The slope of this column was dropped, among the first `n`. */
  ghost predicate Lost(kept: seq<bool>, slopeColumns: seq<nat>, n: nat, column: nat)
    requires n <= |kept| == |slopeColumns|
  {
    exists j :: 0 <= j < n && !kept[j] && column == slopeColumns[j]
  }

  lemma {:induction false} DroppedExactly(kept: seq<bool>, slopeColumns: seq<nat>, level: nat, n: nat, u: Unidentified)
    requires n <= |kept| == |slopeColumns|
    ensures u in Dropped(kept, slopeColumns, level, n) <==> u.level == level && Lost(kept, slopeColumns, n, u.column)
  {
    if n > 0 { DroppedExactly(kept, slopeColumns, level, n - 1, u); }
  }

  /** A direction is listed exactly when its level is empty of weight, for the intercept, or
      its slope was dropped there. */
  lemma {:induction false} UnidentifiedExactly(obs: seq<Observation>, kepts: seq<seq<bool>>, slopeColumns: seq<nat>, intercept: bool, u: Unidentified)
    requires forall l :: 0 <= l < |kepts| ==> |kepts[l]| == |slopeColumns|
    ensures u in UnidentifiedList(obs, kepts, slopeColumns, intercept) <==>
            u.level < |kepts| &&
            ((intercept && TotalMass(obs, u.level) == 0.0 && u.column == 0)
             || Lost(kepts[u.level], slopeColumns, |slopeColumns|, u.column))
  {
    hide TotalMass;
    hide Lost;
    hide Dropped;
    if kepts != [] {
      var l := |kepts| - 1;
      UnidentifiedExactly(obs, kepts[..l], slopeColumns, intercept, u);
      DroppedExactly(kepts[l], slopeColumns, l, |slopeColumns|, u);
      if u.level < l { assert kepts[..l][u.level] == kepts[u.level]; }
    }
  }

  /** An effect lists its constant column first, if it has one; the others name a covariate. */
  ghost predicate EffectColumns(columns: seq<Option<nat>>) { forall c :: 0 < c < |columns| ==> columns[c].Some? }

  /** Which columns are slopes, on which covariates, and where the intercept is. */
  method SplitColumns(columns: seq<Option<nat>>) returns (interceptColumn: Option<nat>, slopeColumns: seq<nat>, zCols: seq<nat>)
    requires EffectColumns(columns)
    ensures interceptColumn == if |columns| > 0 && columns[0].None? then Some(0) else None
    ensures Addressed(interceptColumn, slopeColumns) && |zCols| == |slopeColumns|
    ensures forall c: nat :: c in slopeColumns <==> c < |columns| && columns[c].Some?
    ensures forall j :: 0 <= j < |slopeColumns| ==> slopeColumns[j] < |columns| && columns[slopeColumns[j]] == Some(zCols[j])
  {
    interceptColumn, slopeColumns, zCols := None, [], [];
    for column := 0 to |columns|
      invariant interceptColumn == if column > 0 && columns[0].None? then Some(0) else None
      invariant |zCols| == |slopeColumns|
      invariant forall j :: 0 <= j < |slopeColumns| ==> slopeColumns[j] < column && columns[slopeColumns[j]] == Some(zCols[j])
      invariant forall i, j :: 0 <= i < j < |slopeColumns| ==> slopeColumns[i] != slopeColumns[j]
      invariant forall c: nat :: c in slopeColumns <==> c < column && columns[c].Some?
    {
      match columns[column]
      case Some(k) =>
        slopeColumns := slopeColumns + [column];
        zCols := zCols + [k];
      case None =>
        interceptColumn := Some(column);
    }
  }

  /** Addresses tell directions apart: slope columns are distinct, and column 0 is the
      intercept's where there is one. */
  ghost predicate Addressed(interceptColumn: Option<nat>, slopeColumns: seq<nat>) {
    && (forall i, j :: 0 <= i < j < |slopeColumns| ==> slopeColumns[i] != slopeColumns[j])
    && (interceptColumn.Some? ==> interceptColumn == Some(0) && 0 !in slopeColumns)
  }

  /** Read by address: the intercept is listed exactly at levels without weight, a slope exactly
      where it was dropped. */
  lemma UnidentifiedByAddress(obs: seq<Observation>, kepts: seq<seq<bool>>, slopeColumns: seq<nat>, interceptColumn: Option<nat>, level: nat)
    requires Addressed(interceptColumn, slopeColumns) && level < |kepts|
    requires forall l :: 0 <= l < |kepts| ==> |kepts[l]| == |slopeColumns|
    ensures interceptColumn.Some? ==>
              (Unidentified(interceptColumn.value, level) in UnidentifiedList(obs, kepts, slopeColumns, interceptColumn.Some?) <==>
               TotalMass(obs, level) == 0.0)
    ensures forall j :: 0 <= j < |slopeColumns| ==>
              (Unidentified(slopeColumns[j], level) in UnidentifiedList(obs, kepts, slopeColumns, interceptColumn.Some?) <==> !kepts[level][j])
  {
    hide TotalMass;
    hide UnidentifiedList;
    var list := UnidentifiedList(obs, kepts, slopeColumns, interceptColumn.Some?);
    if interceptColumn.Some? { UnidentifiedExactly(obs, kepts, slopeColumns, true, Unidentified(0, level)); }
    forall j | 0 <= j < |slopeColumns| ensures Unidentified(slopeColumns[j], level) in list <==> !kepts[level][j] {
      UnidentifiedExactly(obs, kepts, slopeColumns, interceptColumn.Some?, Unidentified(slopeColumns[j], level));
    }
  }

  /** One entry of the whitened columns. */
  ghost predicate ColumnsUpTo(u: seq<seq<real>>, levels: seq<nat>, zs: seq<seq<real>>, ts: seq<LevelTransform>, i: nat)
    requires Shaped(levels, zs, ts)
  {
    && |u| == |zs| && (forall k :: 0 <= k < |u| ==> |u[k]| == |levels|) && i <= |levels|
    && forall k, p :: 0 <= k < |u| && 0 <= p < |levels| ==> ColumnAt(u, levels, zs, ts, i, k, p)
  }

  ghost predicate Shaped(levels: seq<nat>, zs: seq<seq<real>>, ts: seq<LevelTransform>) {
    && (forall j :: 0 <= j < |zs| ==> |zs[j]| == |levels|)
    && (forall p :: 0 <= p < |levels| ==> levels[p] < |ts|)
    && (forall l :: 0 <= l < |ts| ==> |ts[l].center| == |zs| && RowsOf(ts[l].w, |zs|) && |ts[l].w| <= |zs|)
  }

  ghost predicate ColumnAt(u: seq<seq<real>>, levels: seq<nat>, zs: seq<seq<real>>, ts: seq<LevelTransform>, i: nat, k: nat, p: nat)
    requires Shaped(levels, zs, ts) && k < |u| && p < |u[k]| && p < |levels|
  {
    u[k][p] == if p < i then Loading(ts[levels[p]], RowAt(zs, p), k) else 0.0
  }

  /** The whitened value of one observation for every column. */
  method LoadingsOf(t: LevelTransform, z: seq<real>) returns (r: seq<real>)
    requires |t.center| == |z| && RowsOf(t.w, |z|) && |t.w| <= |z|
    ensures |r| == |z| && forall k :: 0 <= k < |z| ==> r[k] == Loading(t, z, k)
  {
    hide Inner;
    var zRow := [];
    ghost var d := Comb(1.0, z, -1.0, t.center);
    for j := 0 to |z|
      invariant zRow == d[..j]
    {
      zRow := zRow + [z[j] - t.center[j]];
    }
    assert zRow == d;
    r := [];
    for k := 0 to |t.w|
      invariant |r| == k && forall l :: 0 <= l < k ==> r[l] == Loading(t, z, l)
    {
      var x := DotProduct(t.w[k], zRow);
      r := r + [x];
    }
    r := r + seq(|z| - |t.w|, _ => 0.0);
  }

  /** The whitened columns, observation by observation. */
  method WhitenColumns(levels: seq<nat>, zs: seq<seq<real>>, ts: seq<LevelTransform>) returns (u: seq<seq<real>>)
    requires Shaped(levels, zs, ts)
    ensures ColumnsUpTo(u, levels, zs, ts, |levels|)
  {
    var v, n := |zs|, |levels|;
    u := seq(v, _ => seq(n, _ => 0.0));
    for i := 0 to n
      invariant ColumnsUpTo(u, levels, zs, ts, i)
    {
      var row := LoadingsOf(ts[levels[i]], RowAt(zs, i));
      ghost var before := u;
      u := seq(v, k requires 0 <= k < v => u[k][i := row[k]]);
      ColumnStep(before, u, levels, zs, ts, i, row);
    }
  }

  lemma ColumnStep(u: seq<seq<real>>, u': seq<seq<real>>, levels: seq<nat>, zs: seq<seq<real>>, ts: seq<LevelTransform>, i: nat, row: seq<real>)
    requires Shaped(levels, zs, ts) && i < |levels| && ColumnsUpTo(u, levels, zs, ts, i) && |row| == |zs|
    requires forall k :: 0 <= k < |zs| ==> row[k] == Loading(ts[levels[i]], RowAt(zs, i), k)
    requires |u'| == |u| && forall k :: 0 <= k < |u| ==> u'[k] == u[k][i := row[k]]
    ensures ColumnsUpTo(u', levels, zs, ts, i + 1)
  {
    hide Loading;
    var next := i + 1;
    forall k, p | 0 <= k < |u'| && 0 <= p < |levels| ensures ColumnAt(u', levels, zs, ts, next, k, p) {
      assert ColumnAt(u, levels, zs, ts, i, k, p);
    }
  }

  lemma DeviationEntry(obs: seq<Observation>, center: seq<real>, z: seq<real>, i: nat, j: nat)
    requires i < |obs| && obs[i].z == z && |z| == |center| && j < |z|
    ensures At(Comb(1.0, z, -1.0, center))(j) == Deviations(obs, center)(i, j)
  {
    var d := Comb(1.0, z, -1.0, center);
    assert d[j] == 1.0 * z[j] + (-1.0) * center[j];
    assert Slope(obs, j)(i) == z[j];
  }

  /** Column `k` on the observations of one level is that level's loading. */
  lemma ColumnIsLoading(levels: seq<nat>, zs: seq<seq<real>>, weights: Option<seq<real>>, ts: seq<LevelTransform>,
                        u: seq<seq<real>>, level: nat, k: nat, i: nat)
    requires Shaped(levels, zs, ts) && ColumnsUpTo(u, levels, zs, ts, |levels|) && k < |zs| && i < |levels| && level < |ts|
    requires weights.Some? ==> |weights.value| == |levels|
    requires levels[i] == level
    ensures At(u[k])(i) == LevelLoading(Observations(levels, zs, weights), ts[level], k)(i)
  {
    hide Sum;
    var obs, t, z := Observations(levels, zs, weights), ts[level], RowAt(zs, i);
    assert ColumnAt(u, levels, zs, ts, |levels|, k, i);
    if k < |t.w| {
      var d := Comb(1.0, z, -1.0, t.center);
      DotComm(|zs|, At(t.w[k]), At(d));
      forall j | 0 <= j < |zs| ensures At(d)(j) == RowOf(Deviations(obs, t.center), i)(j) {
        DeviationEntry(obs, t.center, z, i, j);
      }
      DotCong(|zs|, At(d), At(t.w[k]), RowOf(Deviations(obs, t.center), i), At(t.w[k]));
    }
  }

  lemma MassCong(n: nat, m: int -> real, f: int -> real, g: int -> real)
    requires forall i :: 0 <= i < n ==> m(i) == 0.0 || f(i) == g(i)
    ensures Dot(n, m, f) == Dot(n, m, g)
  {
    SumCong(n, i => m(i) * f(i), i => m(i) * g(i));
  }

  /** The within-level weighted Gram of the columns is diag(1, ..., 1, 0, ..., 0), and under an
      intercept their within-level weighted means are zero. */
  ghost predicate WhitenedAt(obs: seq<Observation>, u: seq<seq<real>>, level: nat, rank: nat, intercept: bool) {
    && (forall k, l :: 0 <= k < |u| && 0 <= l < |u| ==> GramEntryAt(obs, u, level, rank, k, l))
    && (intercept ==> forall k :: 0 <= k < |u| ==> MeanZeroAt(obs, u, level, k))
  }

  ghost predicate GramEntryAt(obs: seq<Observation>, u: seq<seq<real>>, level: nat, rank: nat, k: nat, l: nat)
    requires k < |u| && l < |u|
  {
    Dot(|obs|, Mass(obs, level), Times(At(u[k]), At(u[l]))) == if k == l && k < rank then 1.0 else 0.0
  }

  ghost predicate MeanZeroAt(obs: seq<Observation>, u: seq<seq<real>>, level: nat, k: nat)
    requires k < |u|
  {
    Dot(|obs|, Mass(obs, level), At(u[k])) == 0.0
  }

  lemma ColumnsWhitened(levels: seq<nat>, zs: seq<seq<real>>, weights: Option<seq<real>>, ts: seq<LevelTransform>,
                        u: seq<seq<real>>, level: nat, intercept: bool, tol: real, kept: seq<bool>)
    requires Shaped(levels, zs, ts) && ColumnsUpTo(u, levels, zs, ts, |levels|) && level < |ts|
    requires weights.Some? ==> |weights.value| == |levels|
    requires KeptAt(Observations(levels, zs, weights), ts[level], kept, level, |zs|, intercept, tol)
    ensures WhitenedAt(Observations(levels, zs, weights), u, level, |ts[level].w|, intercept)
  {
    hide Dot;
    hide LevelLoading;
    hide ColumnAt;
    hide IsGram;
    hide Orthonormal;
    hide Supported;
    hide DroppedWithin;
    var obs, t, v := Observations(levels, zs, weights), ts[level], |zs|;
    var m := Mass(obs, level);
    var g :| TransformFrom(obs, level, v, intercept, tol, t, g, kept);
    forall k, l | 0 <= k < |u| && 0 <= l < |u| ensures GramEntryAt(obs, u, level, |t.w|, k, l) {
      forall i | 0 <= i < |obs| ensures m(i) == 0.0 || Times(At(u[k]), At(u[l]))(i) == Times(LevelLoading(obs, t, k), LevelLoading(obs, t, l))(i) {
        if m(i) != 0.0 {
          ColumnIsLoading(levels, zs, weights, ts, u, level, k, i);
          ColumnIsLoading(levels, zs, weights, ts, u, level, l, i);
        }
      }
      MassCong(|obs|, m, Times(At(u[k]), At(u[l])), Times(LevelLoading(obs, t, k), LevelLoading(obs, t, l)));
      LevelWhitened(g, obs, level, t, v, k, l);
    }
    if intercept {
      forall k | 0 <= k < |u| ensures MeanZeroAt(obs, u, level, k) {
        forall i | 0 <= i < |obs| ensures m(i) == 0.0 || At(u[k])(i) == LevelLoading(obs, t, k)(i) {
          if m(i) != 0.0 { ColumnIsLoading(levels, zs, weights, ts, u, level, k, i); }
        }
        MassCong(|obs|, m, At(u[k]), LevelLoading(obs, t, k));
        OrthonormalRows(g, v, t.w, obs, level, t.center);
        LevelCentered(obs, level, t, v, k);
      }
    }
  }

  lemma OrthonormalRows(g: seq<seq<real>>, v: nat, w: seq<seq<real>>, obs: seq<Observation>, level: nat, center: seq<real>)
    requires IsGram(g, obs, level, center, v) && Orthonormal(g, v, w)
    ensures Rows(w, v) && |center| == v
  {
  }

  /** The moments of every level after one pass over the observations. */
  method ObserveAll(levels: seq<nat>, zs: seq<seq<real>>, weights: Option<seq<real>>, nLevels: nat) returns (moments: LevelMoments)
    requires forall j :: 0 <= j < |zs| ==> |zs[j]| == |levels|
    requires forall i :: 0 <= i < |levels| ==> levels[i] < nLevels
    requires weights.Some? ==> |weights.value| == |levels|
    ensures fresh(moments) && moments.Valid() && moments.nSlopes == |zs| && |moments.wSum| == nLevels
    ensures moments.seen == Observations(levels, zs, weights)
  {
    moments := new LevelMoments(nLevels, |zs|);
    ghost var obs := Observations(levels, zs, weights);
    for i := 0 to |levels|
      invariant moments.Valid() && moments.nSlopes == |zs| && |moments.wSum| == nLevels && moments.seen == obs[..i]
    {
      moments.Observe(levels[i], RowAt(zs, i), if weights.Some? then weights.value[i] else 1.0);
      assert obs[..i + 1] == obs[..i] + [obs[i]];
    }
    assert obs[..|levels|] == obs;
  }

  ghost predicate AllKept(obs: seq<Observation>, ts: seq<LevelTransform>, kepts: seq<seq<bool>>, v: nat, intercept: bool, tol: real) {
    && |kepts| == |ts| && (forall l :: 0 <= l < |ts| ==> |kepts[l]| == v)
    && forall l :: 0 <= l < |ts| ==> KeptAt(obs, ts[l], kepts[l], l, v, intercept, tol)
  }

  ghost predicate KeptAt(obs: seq<Observation>, t: LevelTransform, kept: seq<bool>, level: nat, v: nat, intercept: bool, tol: real) {
    exists g :: TransformFrom(obs, level, v, intercept, tol, t, g, kept)
  }

  lemma KeptSizes(obs: seq<Observation>, ts: seq<LevelTransform>, kepts: seq<seq<bool>>, v: nat, intercept: bool, tol: real)
    requires AllKept(obs, ts, kepts, v, intercept, tol)
    ensures |kepts| == |ts| && forall l :: 0 <= l < |kepts| ==> |kepts[l]| == v
  {
  }

  /** `TermReparam::build` on the columns `SplitColumns` gives: every level of the returned columns
      is whitened, and the listed addresses are exactly the directions left unidentified. */
  method BuildTerm(levels: seq<nat>, zs: seq<seq<real>>, weights: Option<seq<real>>, nLevels: nat, offset: nat,
                   interceptColumn: Option<nat>, slopeColumns: seq<nat>, tol: real, sqrt: real -> real)
    returns (term: TermReparam, u: seq<seq<real>>, unidentified: seq<Unidentified>, ghost kepts: seq<seq<bool>>)
    requires Addressed(interceptColumn, slopeColumns) && |slopeColumns| == |zs| && tol >= 0.0 && IsSqrt(sqrt)
    requires forall j :: 0 <= j < |zs| ==> |zs[j]| == |levels|
    requires forall i :: 0 <= i < |levels| ==> levels[i] < nLevels
    requires weights.Some? ==> |weights.value| == |levels|
    ensures term == TermReparam(offset, nLevels, interceptColumn, slopeColumns, term.transforms) && |term.transforms| == nLevels
    ensures Shaped(levels, zs, term.transforms) && ColumnsUpTo(u, levels, zs, term.transforms, |levels|)
    ensures forall l :: 0 <= l < nLevels ==>
              WhitenedAt(Observations(levels, zs, weights), u, l, |term.transforms[l].w|, interceptColumn.Some?)
    ensures |kepts| == nLevels && AllKept(Observations(levels, zs, weights), term.transforms, kepts, |zs|, interceptColumn.Some?, tol)
    ensures unidentified == UnidentifiedList(Observations(levels, zs, weights), kepts, slopeColumns, interceptColumn.Some?)
    ensures forall l :: 0 <= l < nLevels && interceptColumn.Some? ==>
              (Unidentified(interceptColumn.value, l) in unidentified <==> TotalMass(Observations(levels, zs, weights), l) == 0.0)
    ensures forall l, j :: 0 <= l < nLevels && 0 <= j < |slopeColumns| ==>
              (Unidentified(slopeColumns[j], l) in unidentified <==> !kepts[l][j])
  {
    hide TotalMass;
    hide WhitenedAt;
    hide AllKept;
    hide ColumnsUpTo;
    hide UnidentifiedList;
    ghost var obs := Observations(levels, zs, weights);
    var moments := ObserveAll(levels, zs, weights, nLevels);
    var ts;
    ts, unidentified, kepts := BuildLevels(moments, obs, nLevels, |zs|, slopeColumns, interceptColumn.Some?, tol, sqrt);
    TransformsShaped(levels, zs, obs, ts, kepts, interceptColumn.Some?, tol);
    u := WhitenColumns(levels, zs, ts);
    AllColumnsWhitened(levels, zs, weights, ts, kepts, u, interceptColumn.Some?, tol);
    KeptSizes(obs, ts, kepts, |zs|, interceptColumn.Some?, tol);
    forall l: nat | l < nLevels
      ensures interceptColumn.Some? ==> (Unidentified(interceptColumn.value, l) in unidentified <==> TotalMass(obs, l) == 0.0)
      ensures forall j :: 0 <= j < |slopeColumns| ==> (Unidentified(slopeColumns[j], l) in unidentified <==> !kepts[l][j])
    {
      UnidentifiedByAddress(obs, kepts, slopeColumns, interceptColumn, l);
    }
    term := TermReparam(offset, nLevels, interceptColumn, slopeColumns, ts);
  }

  lemma AllColumnsWhitened(levels: seq<nat>, zs: seq<seq<real>>, weights: Option<seq<real>>, ts: seq<LevelTransform>,
                           kepts: seq<seq<bool>>, u: seq<seq<real>>, intercept: bool, tol: real)
    requires Shaped(levels, zs, ts) && ColumnsUpTo(u, levels, zs, ts, |levels|)
    requires weights.Some? ==> |weights.value| == |levels|
    requires AllKept(Observations(levels, zs, weights), ts, kepts, |zs|, intercept, tol)
    ensures forall l :: 0 <= l < |ts| ==> WhitenedAt(Observations(levels, zs, weights), u, l, |ts[l].w|, intercept)
  {
    hide WhitenedAt;
    hide ColumnsUpTo;
    hide KeptAt;
    var obs := Observations(levels, zs, weights);
    forall l | 0 <= l < |ts| ensures WhitenedAt(obs, u, l, |ts[l].w|, intercept) {
      assert KeptAt(obs, ts[l], kepts[l], l, |zs|, intercept, tol);
      ColumnsWhitened(levels, zs, weights, ts, u, l, intercept, tol, kepts[l]);
    }
  }

  /** The transform of every level, and the directions it leaves unidentified. */
  method BuildLevels(moments: LevelMoments, ghost obs: seq<Observation>, nLevels: nat, v: nat, slopeColumns: seq<nat>,
                     intercept: bool, tol: real, sqrt: real -> real)
    returns (ts: seq<LevelTransform>, unidentified: seq<Unidentified>, ghost kepts: seq<seq<bool>>)
    requires moments.Valid() && moments.nSlopes == v == |slopeColumns| && |moments.wSum| == nLevels && moments.seen == obs
    requires tol >= 0.0 && IsSqrt(sqrt)
    ensures |ts| == |kepts| == nLevels && AllKept(obs, ts, kepts, v, intercept, tol)
    ensures unidentified == UnidentifiedList(obs, kepts, slopeColumns, intercept)
  {
    hide LevelMoments.Valid;
    hide Dropped;
    hide FirstMoment;
    hide KeptAt;
    hide AllDescribe;
    hide TotalMass;
    ts, unidentified, kepts := [], [], [];
    for level := 0 to nLevels
      invariant |ts| == |kepts| == level && AllKept(obs, ts, kepts, v, intercept, tol)
      invariant unidentified == UnidentifiedList(obs, kepts, slopeColumns, intercept)
    {
      MomentsDescribe(moments, level);
      var m := Moments(moments.wSum[level], moments.mean[level], moments.comoment[level]);
      var t, kept := BuildLevel(m, obs, level, v, intercept, tol, sqrt);
      if intercept && moments.wSum[level] == 0.0 {
        unidentified := unidentified + [Unidentified(0, level)];
      }
      var dropped := DroppedSlopes(kept, slopeColumns, level);
      unidentified := unidentified + dropped;
      assert (kepts + [kept])[..level] == kepts;
      ts, kepts := ts + [t], kepts + [kept];
    }
  }

  lemma MomentsDescribe(moments: LevelMoments, level: nat)
    requires moments.Valid() && level < |moments.wSum|
    ensures |moments.wSum| == |moments.mean| == |moments.comoment|
    ensures Describes(Moments(moments.wSum[level], moments.mean[level], moments.comoment[level]), moments.seen, level, moments.nSlopes)
  {
    hide Describes;
    assert DescribesAt(moments.wSum, moments.mean, moments.comoment, moments.seen, level, moments.nSlopes);
  }

  lemma TransformsShaped(levels: seq<nat>, zs: seq<seq<real>>, obs: seq<Observation>, ts: seq<LevelTransform>, kepts: seq<seq<bool>>,
                         intercept: bool, tol: real)
    requires forall j :: 0 <= j < |zs| ==> |zs[j]| == |levels|
    requires forall i :: 0 <= i < |levels| ==> levels[i] < |ts|
    requires AllKept(obs, ts, kepts, |zs|, intercept, tol)
    ensures Shaped(levels, zs, ts)
  {
    hide KeptAt;
    forall l | 0 <= l < |ts| ensures |ts[l].center| == |zs| && RowsOf(ts[l].w, |zs|) && |ts[l].w| <= |zs| {
      TransformSizes(obs, l, |zs|, intercept, tol, ts[l], kepts[l]);
    }
  }
}
