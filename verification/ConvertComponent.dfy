/** The two conversion paths of a component
    (crates/within/src/domain/factor_pairs/sddm.rs:158-247, 84-106). */
module ConvertComponent {
  import opened Wrappers
  import opened Sums
  import opened Csr
  import opened CrossTabs
  import opened Transposition
  import opened Elimination
  import opened Sddm
  import opened FoldingSigns
  import opened DominanceScaling
  import opened BlockElimSolver
  import opened AssembledSystems
  import opened SolveLocal
  import opened Convert

  datatype UncertifiedScaling = UncertifiedScaling(sweeps: nat, violation: real)

  /** Sign times scale. */
  function SignedScales(signs: seq<real>, scales: seq<real>): (f: seq<real>)
    requires |signs| == |scales|
    ensures |f| == |signs|
  {
    seq(|signs|, i requires 0 <= i < |signs| => signs[i] * scales[i])
  }

  /** Scales with the kept block negated, for a component that keeps its signs. */
  function UnsignedScales(scales: seq<real>, nRows: nat): (f: seq<real>)
    ensures |f| == |scales|
  {
    seq(|scales|, i requires 0 <= i < |scales| => if i < nRows then scales[i] else -scales[i])
  }

  /** `g` lists stored weight `p` at its row node. */
  ghost predicate ListedAt(c: CsrBlock, g: seq<Row>, p: nat)
    requires c.Valid() && p < |c.data|
  {
    var i := HoldingRow(c, p);
    var t := p - c.indptr[i];
    i < |g| && t < |g[i]| && g[i][t] == (c.nrows + c.indices[p], c.data[p])
  }

  lemma ShiftedEntry(c: CsrBlock, p: nat)
    requires c.Valid() && p < |c.data|
    ensures var i := HoldingRow(c, p);
      Shift(c.Row(i), c.nrows)[p - c.indptr[i]] == (c.nrows + c.indices[p], c.data[p])
  {
  }

  lemma GraphEntry(x: CrossTab, g: seq<Row>, p: nat)
    requires x.Valid() && g == x.Graph() && p < |x.c.data|
    ensures ListedAt(x.c, g, p)
  {
    ShiftedEntry(x.c, p);
    assert g[HoldingRow(x.c, p)] == x.Neighbors(HoldingRow(x.c, p));
  }

  lemma FoldedSign(s: real, t: real, a: real, b: real, v: real)
    requires IsSign(s) && t == Opposite(s, v) && a > 0.0 && b > 0.0
    ensures FoldedWeight(s * a, t * b, v) >= 0.0
  {
    assert a * b > 0.0;
    if v < 0.0 {
      assert FoldedWeight(s * a, t * b, v) == (s * t) * (a * b) * (-v);
      assert s * t == 1.0;
      assert (a * b) * (-v) > 0.0;
    } else {
      assert FoldedWeight(s * a, t * b, v) == -(s * t) * (a * b) * v;
      assert s * t == -1.0;
      assert (a * b) * v >= 0.0;
    }
  }

  lemma SignatureAt(g: seq<Row>, s: seq<real>, i: nat, t: nat)
    requires Undirected(g) && Signature(g, s) && i < |g| && t < |g[i]|
    ensures IsSign(s[i]) && s[g[i][t].0] == Opposite(s[i], g[i][t].1)
  {
    assert Settled(g, s, i);
  }

  lemma EdgeSign(c: CsrBlock, g: seq<Row>, signs: seq<real>, p: nat)
    requires c.Valid() && p < |c.data| && ListedAt(c, g, p) && |g| == c.nrows + c.ncols
    requires Undirected(g) && Signature(g, signs)
    ensures IsSign(signs[HoldingRow(c, p)])
    ensures signs[c.nrows + c.indices[p]] == Opposite(signs[HoldingRow(c, p)], c.data[p])
  {
    SignatureAt(g, signs, HoldingRow(c, p), p - c.indptr[HoldingRow(c, p)]);
  }

  lemma SignedFold(c: CsrBlock, signs: seq<real>, scales: seq<real>, p: nat)
    requires c.Valid() && |signs| == |scales| == c.nrows + c.ncols && Positive(scales) && p < |c.data|
    requires IsSign(signs[HoldingRow(c, p)]) && signs[c.nrows + c.indices[p]] == Opposite(signs[HoldingRow(c, p)], c.data[p])
    ensures !FoldsNegative(c, SignedScales(signs, scales), p)
  {
    var i, j := HoldingRow(c, p), c.nrows + c.indices[p];
    FoldedSign(signs[i], signs[j], scales[i], scales[j], c.data[p]);
  }

  lemma BalancedFold(c: CsrBlock, g: seq<Row>, signs: seq<real>, scales: seq<real>, p: nat)
    requires c.Valid() && p < |c.data| && ListedAt(c, g, p) && |g| == |scales| == c.nrows + c.ncols
    requires Undirected(g) && Signature(g, signs) && Positive(scales)
    ensures !FoldsNegative(c, SignedScales(signs, scales), p)
  {
    EdgeSign(c, g, signs, p);
    SignedFold(c, signs, scales, p);
  }

  /** Under a signature and positive scales no weight folds negative: a balanced component
      never trips the Z-matrix rejection. */
  lemma BalancedFoldsNonnegative(x: CrossTab, signs: seq<real>, scales: seq<real>, p: nat)
    requires x.Valid() && Undirected(x.Graph()) && Signature(x.Graph(), signs)
    requires |scales| == x.NLocal() && Positive(scales) && p < |x.c.data|
    ensures !FoldsNegative(x.c, SignedScales(signs, scales), p)
  {
    var g := x.Graph();
    GraphEntry(x, g, p);
    BalancedFold(x.c, g, signs, scales, p);
  }

  /** Every factor is its scale up to sign. */
  ghost predicate FactorsOf(f: seq<real>, scales: seq<real>) {
    |f| == |scales| && Positive(scales) && forall i :: 0 <= i < |f| ==> f[i] == scales[i] || f[i] == -scales[i]
  }

  lemma SquarePositive(d: real, f: real)
    requires d > 0.0 && f != 0.0
    ensures SquareTimes(d, f) > 0.0
  {
    if f > 0.0 {
      PositiveProduct(d, f);
      PositiveProduct(d * f, f);
    } else {
      PositiveProduct(d, -f);
      PositiveProduct(d * (-f), -f);
      SignsCancel(d, f);
    }
  }

  lemma SignsCancel(d: real, f: real)
    ensures d * (-f) * (-f) == SquareTimes(d, f)
  {
    assert d * (-f) == -(d * f);
  }

  lemma SignedFactors(signs: seq<real>, scales: seq<real>)
    requires |signs| == |scales| && Positive(scales) && forall i :: 0 <= i < |signs| ==> IsSign(signs[i])
    ensures FactorsOf(SignedScales(signs, scales), scales)
  {
    var f := SignedScales(signs, scales);
    forall i | 0 <= i < |f| ensures f[i] == scales[i] || f[i] == -scales[i] {
      assert f[i] == signs[i] * scales[i];
    }
  }

  // ---- Scaled rows -------------------------------------------------------------------------

  /** Weights of a row under the scales, by column. */
  ghost function ScaledCoef(r: Row, s: seq<real>, si: real): Vec { j => NormalizedWeight(Coef(r, j), si, At(s)(j)) }

  ghost function ScaledValue(s: seq<real>, si: real): (int, real) -> real { (j, v) => NormalizedWeight(v, si, At(s)(j)) }

  lemma {:induction false} MagnitudeIsFold(r: Row, s: seq<real>, si: real)
    requires InRange(r, |s|)
    ensures ScaledMagnitude(r, s, si) == Fold(r, ScaledValue(s, si))
  {
    if r != [] {
      MagnitudeIsFold(r[..|r| - 1], s, si);
      var (j, v) := r[|r| - 1];
      assert At(s)(j) == s[j];
      assert ScaledValue(s, si)(j, v) == NormalizedWeight(v, si, s[j]);
    }
  }

  lemma MagnitudeIsSum(r: Row, s: seq<real>, si: real)
    requires Ascending(r) && InRange(r, |s|)
    ensures ScaledMagnitude(r, s, si) == Sum(|s|, ScaledCoef(r, s, si))
  {
    var g := ScaledValue(s, si);
    MagnitudeIsFold(r, s, si);
    forall j ensures g(j, 0.0) == 0.0 { NoWeight(si, At(s)(j)); }
    FoldIsSum(r, |s|, g);
    SumCong(|s|, j => g(j, Coef(r, j)), ScaledCoef(r, s, si));
  }

  lemma NoWeight(a: real, b: real)
    ensures NormalizedWeight(0.0, a, b) == 0.0
  {
  }

  lemma FoldedMagnitude(a: real, b: real, s: real, t: real, v: real)
    requires (a == s || a == -s) && (b == t || b == -t) && s > 0.0 && t > 0.0
    ensures Abs(FoldedWeight(a, b, v)) == NormalizedWeight(v, s, t) == NormalizedWeight(v, t, s)
  {
    ProductMagnitude(a, b, v);
    assert Abs(a) == s && Abs(b) == t;
  }

  lemma ProductMagnitude(a: real, b: real, v: real)
    ensures Abs(FoldedWeight(a, b, v)) == Abs(v) * Abs(a) * Abs(b) == Abs(v) * Abs(b) * Abs(a)
  {
    var p := a * b;
    assert FoldedWeight(a, b, v) == -(p * v) by { assert (-a) * b == -p; }
    AbsTimes(a, b);
    AbsTimes(p, v);
  }

  lemma AbsTimes(a: real, b: real)
    ensures Abs(a * b) == Abs(a) * Abs(b)
  {
    if a < 0.0 {
      if b < 0.0 { assert (-a) * (-b) == a * b; PositiveProduct(-a, -b); }
      else { assert (-a) * b == -(a * b); if b > 0.0 { PositiveProduct(-a, b); } }
    } else if a > 0.0 {
      if b < 0.0 { assert a * (-b) == -(a * b); PositiveProduct(a, -b); }
      else if b > 0.0 { PositiveProduct(a, b); }
    }
  }

  /** A row node's scaled magnitude is its off-diagonal mass after folding. */
  lemma RowMagnitudeIsOffMass(x: CrossTab, f: seq<real>, s: seq<real>, i: nat)
    requires x.Valid() && FactorsOf(f, s) && |f| == x.NLocal() && i < x.NRows()
    ensures ScaledMagnitude(Shift(x.c.Row(i), x.NRows()), s, s[i]) == OffMass(x, f)(i)
  {
    hide Sum;
    hide NormalizedWeight;
    hide FoldedWeight;
    hide Coef;
    hide IsTranspose;
    hide ScaledMagnitude;
    var e, n, r := x.NRows(), x.NCols(), Shift(x.c.Row(i), x.NRows());
    MagnitudeIsSum(r, s, s[i]);
    var w := ScaledCoef(r, s, s[i]);
    SumSplit(e, n, w, Tail(e, w));
    forall j | 0 <= j < e ensures w(j) == 0.0 {
      CoefAbsent(r, j);
      NoWeight(s[i], At(s)(j));
    }
    SumZero(e, w);
    forall j | 0 <= j < n ensures Tail(e, w)(j) == FoldedRowMass(x, f, i)(j) {
      ShiftedCoef(x.c.Row(i), e, j);
      assert x.c.Entry(i, j) == Coef(x.c.Row(i), j) && At(s)(e + j) == s[e + j];
      assert At(f)(i) == f[i] && At(f)(e + j) == f[e + j];
      FoldedMagnitude(f[i], f[e + j], s[i], s[e + j], x.c.Entry(i, j));
    }
    SumCong(n, Tail(e, w), FoldedRowMass(x, f, i));
  }

  lemma {:induction false} ShiftedCoef(r: Row, off: nat, j: int)
    ensures Coef(Shift(r, off), off + j) == Coef(r, j)
  {
    if r != [] {
      ShiftedCoef(r[..|r| - 1], off, j);
      assert Shift(r, off)[..|r| - 1] == Shift(r[..|r| - 1], off);
    }
  }

  lemma ColumnMagnitudeIsOffMass(x: CrossTab, f: seq<real>, s: seq<real>, j: nat)
    requires x.Valid() && FactorsOf(f, s) && |f| == x.NLocal() && j < x.NCols()
    ensures ScaledMagnitude(x.ct.Row(j), s, s[x.NRows() + j]) == OffMass(x, f)(x.NRows() + j)
  {
    hide Sum;
    hide NormalizedWeight;
    hide FoldedWeight;
    hide Coef;
    hide ScaledMagnitude;
    var e, n, r, t := x.NRows(), x.NCols(), x.ct.Row(j), s[x.NRows() + j];
    MagnitudeIsSum(r, s, t);
    var w := ScaledCoef(r, s, t);
    SumSplit(e, n, w, Tail(e, w));
    forall k | 0 <= k < n ensures Tail(e, w)(k) == 0.0 {
      CoefAbsent(r, e + k);
      NoWeight(t, At(s)(e + k));
    }
    SumZero(n, Tail(e, w));
    forall k | 0 <= k < e ensures w(k) == FoldedColMass(x, f, j)(k) {
      TransposeEntry(x.c, x.ct, k, j);
      assert x.ct.Entry(j, k) == Coef(r, k) && At(s)(k) == s[k];
      assert At(f)(k) == f[k] && At(f)(e + j) == f[e + j];
      FoldedMagnitude(f[k], f[e + j], s[k], t, x.c.Entry(k, j));
    }
    SumCong(e, w, FoldedColMass(x, f, j));
  }

  lemma MagnitudeIsOffMass(x: CrossTab, f: seq<real>, s: seq<real>, i: nat)
    requires x.Valid() && FactorsOf(f, s) && |f| == x.NLocal() && i < x.NLocal()
    ensures ScaledMagnitude(x.Graph()[i], s, s[i]) == OffMass(x, f)(i)
  {
    hide OffMass;
    hide ScaledMagnitude;
    hide IsTranspose;
    Shaped(x);
    assert x.Graph()[i] == x.Neighbors(i);
    if i < x.NRows() { RowMagnitudeIsOffMass(x, f, s, i); } else { ColumnMagnitudeIsOffMass(x, f, s, i - x.NRows()); }
  }

  lemma AttainedScaled(x: real, v: real, d: real, s: real, f: real)
    requires (f == s || f == -s) && RowAttained(x, v, d, s)
    ensures Attains(x, SquareTimes(d, f), v)
  {
    var q := d * (s * s);
    assert q == SquareTimes(d, s);
    if f == -s { SignsCancel(d, s); }
    assert SquareTimes(d, f) == q;
  }

  /** The scaling's worst row is the worst deficit of the folded component. */
  lemma AttainedDeficit(x: CrossTab, d: seq<real>, f: seq<real>, s: seq<real>, v: real)
    requires x.Valid() && FactorsOf(f, s) && |d| == |f| == x.NLocal() && Attained(x.Graph(), d, s, v)
    ensures DeficitAttained(x.NLocal(), ScaledDiagonal(d, f), OffMass(x, f), v)
  {
    hide OffMass;
    hide ScaledMagnitude;
    hide IsTranspose;
    hide Attains;
    hide RowAttained;
    hide SquareTimes;
    Shaped(x);
    var i :| 0 <= i < |x.Graph()| && AttainedAt(x.Graph(), d, s, v, i);
    MagnitudeIsOffMass(x, f, s, i);
    AttainedScaled(ScaledMagnitude(x.Graph()[i], s, s[i]), v, d[i], s[i], f[i]);
    assert At(d)(i) == d[i] && At(f)(i) == f[i];
    assert Attains(OffMass(x, f)(i), ScaledDiagonal(d, f)(i), v);
  }

  lemma AttainedIsDeficient(n: nat, d: Vec, s: Vec, tolerance: real, v: real)
    requires (forall i :: 0 <= i < n ==> d(i) > 0.0) && DeficitAttained(n, d, s, v) && v > tolerance
    ensures Deficient(n, d, s, tolerance)
  {
    var k :| 0 <= k < n && Attains(s(k), d(k), v);
    MulOrder(1.0 + tolerance, 1.0 + v, d(k));
    MulOrder(1.0 + v, 1.0 + tolerance, d(k));
    assert d(k) > 0.0 && !Within(s(k), d(k), tolerance);
  }

  // ---- The general conversion --------------------------------------------------------------

  /** The signs of the factors: those of a signature where there is one, else the plain
      bipartite flip, left to the cover. */
  ghost predicate SignsOf(x: CrossTab, f: seq<real>, scales: seq<real>, form: MatrixForm)
    requires x.Valid() && Undirected(x.Graph()) && |scales| == x.NLocal()
  {
    if form.Laplacian? then exists signs :: Signature(x.Graph(), signs) && f == SignedScales(signs, scales)
    else f == UnsignedScales(scales, x.NRows()) && forall signs :: !Signature(x.Graph(), signs)
  }

  lemma GraphFits(x: CrossTab)
    requires x.Valid()
    ensures InGraph(x.Graph()) && |x.Graph()| == x.NLocal()
  {
    hide IsTranspose;
    Shaped(x);
  }

  /** The scaling the relaxation reaches for a component. */
  ghost function ReachedScaling(x: CrossTab, d: seq<real>, config: ScalingConfig, sqrt: real -> real): (s: Scaling)
    requires x.Valid() && |d| == x.NLocal()
    ensures |s.scales| == x.NLocal()
  {
    GraphFits(x);
    ScalingOf(x.Graph(), d, config.tolerance, config.maxSweeps, sqrt)
  }

  ghost function ReachedScales(x: CrossTab, d: seq<real>, config: ScalingConfig, sqrt: real -> real): (s: seq<real>)
    requires x.Valid() && |d| == x.NLocal()
    ensures |s| == x.NLocal()
  {
    ReachedScaling(x, d, config, sqrt).scales
  }

  /** Why a component is refused: a diagonal that is not positive, or in error mode a deficit
      beyond the tolerance under the scaling the relaxation reaches. */
  ghost predicate NotConvertible(x: CrossTab, d: seq<real>, config: ScalingConfig, sqrt: real -> real)
    requires x.Valid() && |d| == x.NLocal()
  {
    || Nonpositive(x.NLocal(), At(d))
    || (config.onFailure.Error?
        && Deficient(x.NLocal(), ScaledDiagonal(d, ReachedScales(x, d, config, sqrt)), OffMass(x, ReachedScales(x, d, config, sqrt)), config.tolerance))
  }

  /** Only the magnitude of the factors enters the scaled rows. */
  lemma SameScaled(x: CrossTab, d: seq<real>, f: seq<real>, s: seq<real>)
    requires x.Valid() && FactorsOf(f, s) && |d| == |f| == x.NLocal()
    ensures forall i :: 0 <= i < x.NLocal() ==> ScaledDiagonal(d, f)(i) == ScaledDiagonal(d, s)(i) && OffMass(x, f)(i) == OffMass(x, s)(i)
  {
    hide OffMass;
    hide ScaledMagnitude;
    hide IsTranspose;
    Shaped(x);
    forall i | 0 <= i < x.NLocal() ensures ScaledDiagonal(d, f)(i) == ScaledDiagonal(d, s)(i) && OffMass(x, f)(i) == OffMass(x, s)(i) {
      MagnitudeIsOffMass(x, f, s, i);
      MagnitudeIsOffMass(x, s, s, i);
      SquareOfSign(At(d)(i), f[i], s[i]);
    }
  }

  lemma SquareOfSign(d: real, f: real, s: real)
    requires f == s || f == -s
    ensures SquareTimes(d, f) == SquareTimes(d, s)
  {
    if f == -s { SignsCancel(d, s); }
  }

  /** What a report means: without one every deficit is within tolerance, and a reported
      violation is the worst deficit of the scaled rows after that many sweeps. */
  ghost predicate Reports(n: nat, d: Vec, s: Vec, tolerance: real, sweeps: nat, report: Option<UncertifiedScaling>) {
    match report
    case None => DeficitsWithin(n, d, s, tolerance)
    case Some(u) =>
      && u.sweeps == sweeps && u.violation > tolerance
      && DeficitsWithin(n, d, s, u.violation) && DeficitAttained(n, d, s, u.violation)
  }

  lemma ReportsCong(n: nat, d: Vec, s: Vec, d': Vec, s': Vec, tolerance: real, sweeps: nat, report: Option<UncertifiedScaling>)
    requires Reports(n, d, s, tolerance, sweeps, report) && forall i :: 0 <= i < n ==> d(i) == d'(i) && s(i) == s'(i)
    ensures Reports(n, d', s', tolerance, sweeps, report)
  {
    hide Within;
    hide Attains;
    if report.Some? {
      var k :| 0 <= k < n && Attains(s(k), d(k), report.value.violation);
      assert Attains(s'(k), d'(k), report.value.violation);
    }
  }

  /** What the general conversion promises of a component: factors, their signs, the SDDM form
      and what the report certifies, all for the scaling the relaxation reaches. */
  ghost predicate Converted(x: CrossTab, d: seq<real>, config: ScalingConfig, sqrt: real -> real, comp: LocalComponent, report: Option<UncertifiedScaling>) {
    exists f :: ConvertedWith(x, d, f, config, sqrt, comp, report)
  }

  ghost predicate ConvertedWith(x: CrossTab, d: seq<real>, f: seq<real>, config: ScalingConfig, sqrt: real -> real, comp: LocalComponent, report: Option<UncertifiedScaling>) {
    && x.Valid() && |d| == x.NLocal() && Undirected(x.Graph())
    && var s := ReachedScales(x, d, config, sqrt);
    && FactorsOf(f, s) && ConvertedBy(x, d, f, config, comp) && SignsOf(x, f, s, comp.form)
    && Reports(x.NLocal(), ScaledDiagonal(d, s), OffMass(x, s), config.tolerance, ReachedScaling(x, d, config, sqrt).sweeps, report)
  }

  lemma IsConverted(x: CrossTab, d: seq<real>, f: seq<real>, config: ScalingConfig, sqrt: real -> real, comp: LocalComponent, report: Option<UncertifiedScaling>)
    requires ConvertedWith(x, d, f, config, sqrt, comp, report)
    ensures Converted(x, d, config, sqrt, comp, report)
  {
  }

  lemma ReportedClamping(n: nat, d: Vec, s: Vec, tolerance: real, clamped: real, violation: real, sweeps: nat)
    requires tolerance >= 0.0 && Clamping(n, d, s, tolerance, clamped)
    requires violation > tolerance ==> DeficitAttained(n, d, s, violation)
    ensures Reports(n, d, s, tolerance, sweeps,
                    if Max(violation, clamped) > tolerance then Some(UncertifiedScaling(sweeps, Max(violation, clamped))) else None)
  {
    hide Within;
    hide Attains;
    var worst := Max(violation, clamped);
    if worst > tolerance {
      forall k | 0 <= k < n ensures d(k) > 0.0 && Within(s(k), d(k), worst) { WithinMono(s(k), d(k), Max(tolerance, clamped), worst); }
    }
  }

  /** `convert_general`: a component folds to a Z-matrix exactly when it has a signature.
      Conversion fails exactly on a diagonal that is not positive, or in error mode when the
      scaling the relaxation reaches leaves a deficit beyond the tolerance. */
  method ConvertGeneral(x: CrossTab, diagonal: seq<real>, config: ScalingConfig, sqrt: real -> real)
    returns (r: Result<LocalComponent, NotScalable>, uncertified: Option<UncertifiedScaling>)
    requires x.Valid() && |diagonal| == x.NLocal() && config.tolerance >= 0.0 && IsSqrt(sqrt)
    ensures r.Err? <==> NotConvertible(x, diagonal, config, sqrt)
    ensures r.Ok? ==> Converted(x, diagonal, config, sqrt, r.value, uncertified)
    ensures r.Err? ==> uncertified.None?
  {
    hide Signature;
    hide Deficient;
    hide DeficitAttained;
    hide Clamping;
    hide Reports;
    hide ConvertedBy;
    hide IsTranspose;
    hide FoldsNegative;
    hide ScalingOf;
    hide OffMass;
    Shaped(x);
    GraphFits(x);
    uncertified := None;
    var signs := FindSigns(x);
    var scaling := ScaleToDominance(x.Graph(), diagonal, config.tolerance, config.maxSweeps, sqrt);
    NonpositiveAt(diagonal);
    if scaling.Err? {
      return Err(NotScalable), None;
    }
    var Scaling(ss, sweeps, violation) := scaling.value;
    var f, form;
    if signs.Some? {
      f, form := SignedScales(signs.value, ss), MatrixForm.Laplacian;
      SignatureSigns(x.Graph(), signs.value);
      SignedFactors(signs.value, ss);
      forall p | 0 <= p < |x.c.data| ensures !FoldsNegative(x.c, f, p) {
        BalancedFoldsNonnegative(x, signs.value, ss, p);
      }
    } else {
      f, form := UnsignedScales(ss, x.NRows()), MatrixForm.SignedPendingCover;
    }
    ghost var n, d, s := x.NLocal(), ScaledDiagonal(diagonal, f), OffMass(x, f);
    SameScaled(x, diagonal, f, ss);
    FailureCong(n, d, s, ScaledDiagonal(diagonal, ss), OffMass(x, ss), config.tolerance);
    forall i | 0 <= i < n ensures d(i) > 0.0 { SquarePositive(diagonal[i], f[i]); }
    if violation > config.tolerance { AttainedDeficit(x, diagonal, f, ss, violation); }
    if violation > config.tolerance && config.onFailure.Error? {
      AttainedIsDeficient(n, d, s, config.tolerance, violation);
      return Err(NotScalable), None;
    }
    var clampedDeficit;
    r, clampedDeficit := Assemble(x, diagonal, f, form, config);
    if r.Ok? {
      var worst := Max(violation, clampedDeficit);
      if worst > config.tolerance {
        uncertified := Some(UncertifiedScaling(sweeps, worst));
      }
      ReportedClamping(n, d, s, config.tolerance, clampedDeficit, violation, sweeps);
      ReportsCong(n, d, s, ScaledDiagonal(diagonal, ss), OffMass(x, ss), config.tolerance, sweeps, uncertified);
      IsConverted(x, diagonal, f, config, sqrt, r.value, uncertified);
    }
  }

  lemma NonpositiveAt(d: seq<real>)
    ensures Nonpositive(|d|, At(d)) <==> exists i :: 0 <= i < |d| && d[i] <= 0.0
  {
    if Nonpositive(|d|, At(d)) {
      var k :| 0 <= k < |d| && At(d)(k) <= 0.0;
      assert d[k] <= 0.0;
    }
    if i :| 0 <= i < |d| && d[i] <= 0.0 { assert At(d)(i) <= 0.0; }
  }

  lemma SignatureSigns(g: seq<Row>, s: seq<real>)
    requires Undirected(g) && Signature(g, s)
    ensures |s| == |g| && forall i :: 0 <= i < |s| ==> IsSign(s[i])
  {
  }

  function Distance(a: seq<real>, b: seq<real>): real
    requires |a| == |b|
  {
    Sum(|a|, Gaps(a, b))
  }

  function Gaps(a: seq<real>, b: seq<real>): Vec { i => Abs(At(a)(i) - At(b)(i)) }

  /** `convert_known_laplacian`: the claim is rejected exactly when the diagonal is further from
      the row sums than the budget, and otherwise adopted with row sums as diagonal; a claim
      that holds exactly is adopted unchanged. */
  method ConvertKnownLaplacian(x: CrossTab, diagonal: seq<real>, roundoff: (nat, real) -> real)
    returns (r: Result<LocalComponent, NotScalable>)
    requires x.Valid() && x.c.Nonnegative() && |diagonal| == x.NLocal()
    ensures r.Ok? ==> r.value.matrix.Valid() && r.value.matrix.Unsigned() && r.value.matrix.grounding.Floating?
    ensures r.Ok? ==> r.value.matrix.crossTab == x && r.value.form.Laplacian? && r.value.coordinates.Canonical?
    ensures r.Ok? ==> AreRowSums(x, false, r.value.matrix.diagonal)
    ensures forall s :: AreRowSums(x, false, s) ==>
              (r.Err? <==> Distance(diagonal, s) > roundoff(x.NLocal(), Sum(x.NLocal(), At(diagonal))))
    ensures AreRowSums(x, false, diagonal) && roundoff(x.NLocal(), Sum(x.NLocal(), At(diagonal))) >= 0.0 ==>
              r.Ok? && r.value.matrix.diagonal == diagonal
  {
    var n := x.NLocal();
    var rowSums := RowSums(x, false);
    var mismatch := Distance(diagonal, rowSums);
    SameRowSums(x, diagonal, rowSums);
    forall s | AreRowSums(x, false, s) ensures s == rowSums { SameRowSums(x, s, rowSums); }
    if mismatch > roundoff(n, Sum(n, At(diagonal))) {
      return Err(NotScalable);
    }
    var zeros := seq(n, _ => 0.0);
    NonnegativeRowSums(x, rowSums);
    ClampedBalance(x, rowSums, zeros, rowSums);
    r := Ok(LocalComponent(SddmMatrix(x, rowSums, zeros, Floating), Laplacian, Canonical));
  }

  lemma SameRowSums(x: CrossTab, a: seq<real>, b: seq<real>)
    requires |a| == x.NLocal() && AreRowSums(x, false, b)
    ensures AreRowSums(x, false, a) ==> a == b && Distance(a, b) == 0.0
  {
    if AreRowSums(x, false, a) {
      forall i | 0 <= i < |a| ensures a[i] == b[i] {
        if i < x.NRows() {
          assert At(a)(i) == Sum(x.NCols(), RowOf(Weighed(x.c, false), i)) == At(b)(i);
        } else {
          assert Tail(x.NRows(), At(a))(i - x.NRows()) == Tail(x.NRows(), At(b))(i - x.NRows());
        }
      }
      forall i | 0 <= i < |a| ensures Gaps(a, b)(i) == 0.0 {
        assert At(a)(i) == At(b)(i) && Gaps(a, b)(i) == Abs(At(a)(i) - At(b)(i));
      }
      SumZero(|a|, Gaps(a, b));
    }
  }

  /** Without signs, plain and magnitude row sums agree. */
  lemma NonnegativeRowSums(x: CrossTab, s: seq<real>)
    requires x.c.Nonnegative() && AreRowSums(x, false, s)
    ensures AreRowSums(x, true, s)
  {
    var e, n, p, w := x.NRows(), x.NCols(), Weighed(x.c, false), Weighed(x.c, true);
    forall i | 0 <= i < e ensures At(s)(i) == Sum(n, RowOf(w, i)) {
      forall j | 0 <= j < n ensures RowOf(p, i)(j) == RowOf(w, i)(j) { NonnegativeEntry(x.c, i, j); }
      SumCong(n, RowOf(p, i), RowOf(w, i));
      assert At(s)(i) == Sum(n, RowOf(p, i));
    }
    forall j | 0 <= j < n ensures Tail(e, At(s))(j) == Sum(e, ColOf(w, j)) {
      forall i | 0 <= i < e ensures ColOf(p, j)(i) == ColOf(w, j)(i) { NonnegativeEntry(x.c, i, j); }
      SumCong(e, ColOf(p, j), ColOf(w, j));
      assert Tail(e, At(s))(j) == Sum(e, ColOf(p, j));
    }
  }
}
