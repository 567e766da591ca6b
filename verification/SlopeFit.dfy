/** What the back-transform keeps of what the solver returns: the solver leaves the dropped
    directions at zero, so the fit and the zeros survive
    (crates/within/src/solver/reparam.rs:35-53, 140-199). */
module SlopeFits {
  import opened Wrappers
  import opened Sums
  import opened Vectors
  import opened LevelMoment
  import opened GramSchmidt
  import opened Whitening
  import opened BackTransforms
  import opened Bidiagonal
  import opened Attainables
  import opened DesignOperator
  import opened PairGrams
  import opened SchwarzDesigns
  import opened ZeroColumns

  // ---- The term in the design --------------------------------------------------------------

  /** The design with the term's covariates replaced by its whitened columns. */
  ghost predicate Installed(d: Design, q: nat, term: TermReparam, levels: seq<nat>, u: seq<seq<real>>) {
    && d.Valid() && Laid(d) && q < |d.terms| && d.levels[q] == levels
    && d.terms[q].nLevels == term.nLevels && d.terms[q].offset == term.offset && |u| == |term.slopeColumns|
    && forall k :: 0 <= k < |u| ==> InstalledAt(d, q, term, u, k)
  }

  ghost predicate InstalledAt(d: Design, q: nat, term: TermReparam, u: seq<seq<real>>, k: nat)
    requires q < |d.terms| && k < |u| == |term.slopeColumns|
  {
    var c := term.slopeColumns[k];
    c < |d.terms[q].columns| && match d.terms[q].columns[c]
      case Constant => false
      case Covariate(j) => j < |d.covariates| && d.covariates[j] == u[k]
  }

  /** Past its rank a level's whitened columns vanish: an empty column of the design. */
  lemma DroppedIsEmpty(d: Design, scale: Option<seq<real>>, q: nat, term: TermReparam, levels: seq<nat>, zs: seq<seq<real>>,
                       u: seq<seq<real>>, k: nat, l: nat)
    requires Installed(d, q, term, levels, u) && Shaped(levels, zs, term.transforms) && ColumnsUpTo(u, levels, zs, term.transforms, |levels|)
    requires k < |term.slopeColumns| && l < term.nLevels == |term.transforms| && |term.transforms[l].w| <= k
    ensures Place(term, term.slopeColumns[k], l) < d.nDofs && EmptyColumn(d, scale, Place(term, term.slopeColumns[k], l))
  {
    hide Design.Entry;
    hide Laid;
    assert InstalledAt(d, q, term, u, k);
    var ch := Channel(q, term.slopeColumns[k]);
    DofInBlock(d, ch, l);
    var j := Base(d, ch) + l;
    assert d.TermValid(q);
    forall i | 0 <= i < d.nObs ensures Matrix(d, scale)(i, j) == 0.0 {
      ColumnEntry(d, ch, l, i);
      assert ColumnAt(u, levels, zs, term.transforms, |levels|, k, i);
      ZeroTimesScale(ScaleAt(scale, i));
    }
  }

  lemma ZeroTimesScale(a: real)
    ensures a * 0.0 == 0.0
  {
  }

  /** The slots past a level's rank are zero in what the solver returns. */
  lemma SolverLeavesZero(d: Design, scale: Option<seq<real>>, sys: System, x: seq<real>, q: nat, term: TermReparam, levels: seq<nat>,
                         zs: seq<seq<real>>, u: seq<seq<real>>, k: nat, l: nat)
    requires LeavesEmpty(d, scale, sys) && sys.n == d.nDofs && Attainable(sys, x)
    requires Installed(d, q, term, levels, u) && Shaped(levels, zs, term.transforms) && ColumnsUpTo(u, levels, zs, term.transforms, |levels|)
    requires k < |term.slopeColumns| && l < term.nLevels == |term.transforms| && |term.transforms[l].w| <= k
    ensures Place(term, term.slopeColumns[k], l) < |x| && x[Place(term, term.slopeColumns[k], l)] == 0.0
  {
    hide LeavesEmpty;
    hide Attainable;
    hide Installed;
    hide ColumnsUpTo;
    hide EmptyColumn;
    hide Place;
    DroppedIsEmpty(d, scale, q, term, levels, zs, u, k, l);
    EmptyStaysZero(d, scale, sys, x, Place(term, term.slopeColumns[k], l));
  }

  // ---- The fit -----------------------------------------------------------------------------

  /** At every observation the fit of what the solver returns survives the back-transform. */
  lemma SolverKeepsFit(d: Design, scale: Option<seq<real>>, sys: System, x0: seq<real>, x1: seq<real>, q: nat, term: TermReparam,
                       levels: seq<nat>, zs: seq<seq<real>>, u: seq<seq<real>>, level: nat, z: seq<real>)
    requires LeavesEmpty(d, scale, sys) && sys.n == d.nDofs && Attainable(sys, x0)
    requires Installed(d, q, term, levels, u) && Shaped(levels, zs, term.transforms) && ColumnsUpTo(u, levels, zs, term.transforms, |levels|)
    requires DoneUpTo(term, x0, x1, term.nLevels) && level < term.nLevels && |z| == |term.slopeColumns|
    ensures UserFit(term, x1, level, z) == WhitenedFit(term, x0, level, z)
  {
    hide LeavesEmpty;
    hide Attainable;
    hide Installed;
    hide ColumnsUpTo;
    hide Shaped;
    hide Place;
    hide Inner;
    hide UserFit;
    hide WhitenedFit;
    FitPreservedIff(term, x0, x1, level, z);
    TransformPresent(term, |x0|, level);
    if term.transforms[level].w == [] {
      var s := SlopesAt(term, x0, level);
      forall k | 0 <= k < |s| ensures s[k] == 0.0 { SolverLeavesZero(d, scale, sys, x0, q, term, levels, zs, u, k, level); }
      assert s == Zeros(|s|);
      InnerZeros(|s|, z);
      InnerComm(z, s);
    }
  }

  // ---- The zeros ---------------------------------------------------------------------------

  /** No row reaches a dropped slope, so nothing is gathered for it. */
  lemma {:induction false} NothingGathered(w: seq<seq<real>>, xs: seq<real>, v: nat, kept: seq<bool>, j: nat)
    requires Supported(w, v, kept) && RowsOf(w, v) && |w| <= |xs| && j < v && !kept[j]
    ensures Combined(w, xs, v)[j] == 0.0
  {
    if w != [] {
      var n := |w| - 1;
      forall t | 0 <= t < n ensures w[..n][t] == w[t] {}
      NothingGathered(w[..n], xs, v, kept, j);
      assert w[n][j] == 0.0;
      assert Combined(w, xs, v)[j] == 1.0 * Combined(w[..n], xs, v)[j] + xs[n] * w[n][j];
    }
  }

  lemma LevelSupported(obs: seq<Observation>, t: LevelTransform, kept: seq<bool>, level: nat, v: nat, intercept: bool, tol: real)
    requires KeptAt(obs, t, kept, level, v, intercept, tol)
    ensures Supported(t.w, v, kept) && |kept| == v && RowsOf(t.w, v) && |t.w| <= v
  {
    hide IsGram;
    hide Orthonormal;
    hide Pivoted;
    hide Exhausted;
    hide DroppedWithin;
    hide MeanOf;
    TransformSizes(obs, level, v, intercept, tol, t, kept);
  }

  /** A slope reported as unidentified comes back exactly zero. */
  lemma DroppedComesBackZero(d: Design, scale: Option<seq<real>>, sys: System, x0: seq<real>, x1: seq<real>, q: nat, term: TermReparam,
                             levels: seq<nat>, zs: seq<seq<real>>, u: seq<seq<real>>, obs: seq<Observation>, kept: seq<bool>,
                             intercept: bool, tol: real, level: nat, j: nat)
    requires LeavesEmpty(d, scale, sys) && sys.n == d.nDofs && Attainable(sys, x0)
    requires Installed(d, q, term, levels, u) && Shaped(levels, zs, term.transforms) && ColumnsUpTo(u, levels, zs, term.transforms, |levels|)
    requires DoneUpTo(term, x0, x1, term.nLevels) && level < term.nLevels && |zs| == |term.slopeColumns| && |term.transforms| == term.nLevels
    requires KeptAt(obs, term.transforms[level], kept, level, |zs|, intercept, tol) && j < |kept| && j < |zs| && !kept[j]
    ensures Place(term, term.slopeColumns[j], level) < |x1| && x1[Place(term, term.slopeColumns[j], level)] == 0.0
  {
    hide LeavesEmpty;
    hide Attainable;
    hide Installed;
    hide ColumnsUpTo;
    hide Shaped;
    hide Place;
    hide Inner;
    hide KeptAt;
    hide Supported;
    var tr, v := term.transforms[level], |zs|;
    FitsAt(term, |x0|, level);
    LevelSupported(obs, tr, kept, level, v, intercept, tol);
    assert LevelDone(term, x0, x1, level);
    var s, s' := SlopesAt(term, x0, level), SlopesAt(term, x1, level);
    assert s'[j] == x1[Place(term, term.slopeColumns[j], level)];
    if tr.w == [] {
      SolverLeavesZero(d, scale, sys, x0, q, term, levels, zs, u, j, level);
      assert s[j] == x0[Place(term, term.slopeColumns[j], level)];
    } else {
      NothingGathered(tr.w, s, v, kept, j);
    }
  }

  // ---- Why the zeros matter ----------------------------------------------------------------

  /** One observation under an intercept and a constant slope. */
  function OneObservation(): seq<Observation> { [Observation(0, [1.0], 1.0)] }

  /** What that term becomes. */
  const DROPPED := TermReparam(0, 1, Some(0), [1], [LevelTransform([], [1.0])])

  lemma OneMass(f: int -> real)
    ensures TotalMass(OneObservation(), 0) == 1.0 && Dot(1, Mass(OneObservation(), 0), f) == f(0)
  {
    var m := Mass(OneObservation(), 0);
    assert m(0) == 1.0;
    assert Sum(0, m) == 0.0 && Sum(1, m) == Sum(0, m) + m(0);
    DotStep(1, m, f);
    assert Dot(0, m, f) == 0.0;
  }

  lemma ConstantCenter(c: seq<real>)
    requires |c| == 1 && MeanOf(TotalMass(OneObservation(), 0), c[0], FirstMoment(OneObservation(), 0, 0))
    ensures c == [1.0]
  {
    hide Sum;
    hide Dot;
    hide TotalMass;
    OneMass(Slope(OneObservation(), 0));
    assert Slope(OneObservation(), 0)(0) == 1.0;
  }

  lemma ConstantGram(g: seq<seq<real>>)
    requires IsGram(g, OneObservation(), 0, [1.0], 1)
    ensures g == [[0.0]]
  {
    hide Sum;
    hide Dot;
    var obs := OneObservation();
    assert GramAt(g, obs, 0, [1.0], 0, 0);
    var f := Shifted(Slope(obs, 0), 1.0);
    assert f(0) == 0.0;
    OneMass(Times(f, f));
    ZeroTimes(f(0), f(0));
    assert Times(f, f)(0) == 0.0;
    assert g[0] == [0.0];
  }

  lemma NothingStandsOut(g: seq<seq<real>>, tol: real, w: seq<seq<real>>, kept: seq<bool>, pivots: seq<nat>)
    requires g == [[0.0]] && Square(g, 1) && Pivoted(g, 1, tol, w, kept, pivots)
    ensures w == [] && kept == [false]
  {
    ZeroTimes(tol, 0.0);
    assert |w| > 0 ==> GramSchmidt.StepAt(g, 1, tol, w, pivots, 0);
  }

  /** Whatever the tolerance, building that term gives `DROPPED`. */
  lemma ConstantIsDropped(t: LevelTransform, kept: seq<bool>, tol: real)
    requires KeptAt(OneObservation(), t, kept, 0, 1, true, tol)
    ensures t == DROPPED.transforms[0] && kept == [false]
  {
    hide IsGram;
    hide Orthonormal;
    hide Supported;
    hide DroppedWithin;
    hide Exhausted;
    hide Pivoted;
    hide MeanOf;
    var g :| TransformFrom(OneObservation(), 0, 1, true, tol, t, g, kept);
    GramSquare(g, OneObservation(), 0, t.center, 1);
    ConstantCenter(t.center);
    ConstantGram(g);
    var pivots :| Pivoted(g, 1, tol, t.w, kept, pivots);
    NothingStandsOut(g, tol, t.w, kept, pivots);
  }

  lemma DroppedPlace(c: nat, l: nat)
    requires IsColumn(DROPPED, c) && l < DROPPED.nLevels
    ensures Place(DROPPED, c, l) == c < 2
  {
  }

  lemma DroppedValid()
    ensures ValidTerm(DROPPED, 2)
  {
    hide Place;
    forall c, l | IsColumn(DROPPED, c) && 0 <= l < DROPPED.nLevels ensures Place(DROPPED, c, l) < 2 { DroppedPlace(c, l); }
  }

  lemma DroppedDone(x: seq<real>)
    requires |x| == 2 && ValidTerm(DROPPED, 2)
    ensures DoneUpTo(DROPPED, x, x, 1)
  {
    hide Place;
    hide Combined;
    FitsAt(DROPPED, 2, 0);
    assert LevelDone(DROPPED, x, x, 0);
  }

  lemma DroppedFits(x: seq<real>, z: seq<real>)
    requires |x| == 2 && |z| == 1 && ValidTerm(DROPPED, 2)
    ensures WhitenedFit(DROPPED, x, 0, z) == x[0] && UserFit(DROPPED, x, 0, z) == z[0] * x[1] + x[0]
  {
    hide Place;
    hide Inner;
    FitsAt(DROPPED, 2, 0);
    DroppedPlace(0, 0);
    DroppedPlace(1, 0);
    var u, y := LoadingsAt(DROPPED, 0, z), SlopesAt(DROPPED, x, 0);
    assert u[0] == 0.0 && y[0] == x[1];
    OneEntry(u, y);
    OneEntry(z, y);
  }

  lemma OneEntry(x: seq<real>, y: seq<real>)
    requires |x| == |y| == 1
    ensures Inner(x, y) == x[0] * y[0]
  {
    DotStep(1, At(x), At(y));
    assert Dot(0, At(x), At(y)) == 0.0;
  }

  /** With a coefficient in the dropped slot the fit is lost: zero in whitened coordinates, one
      after the back-transform. */
  lemma FitLost()
    ensures ValidTerm(DROPPED, 2) && DoneUpTo(DROPPED, [0.0, 1.0], [0.0, 1.0], 1)
    ensures WhitenedFit(DROPPED, [0.0, 1.0], 0, [1.0]) == 0.0 && UserFit(DROPPED, [0.0, 1.0], 0, [1.0]) == 1.0
  {
    hide Place;
    hide Inner;
    hide ValidTerm;
    DroppedValid();
    DroppedDone([0.0, 1.0]);
    DroppedFits([0.0, 1.0], [1.0]);
  }
}
