/** The two interleaved Givens chains and the solution recurrence of LSMR
    (crates/schwarz-precond/src/lsmr/recurrence.rs). */
module Recurrence {
  import opened Sums
  import opened Vectors
  import opened Bidiagonal
  import opened GolubKahan

  datatype Givens = Givens(c: real, s: real, r: real)

  /** `Givens::new` */
  function MakeGivens(sqrt: real -> real, a: real, b: real): (g: Givens) {
    var r := sqrt(a * a + b * b);
    if r > 0.0 then Givens(a / r, b / r, r) else Givens(1.0, 0.0, r)
  }

  /** What a rotation is good for: it sends (a, b) to (r, 0). */
  ghost predicate Rotates(g: Givens, a: real, b: real) {
    && g.r >= 0.0 && a == Mul(g.c, g.r) && b == Mul(g.s, g.r) && Mul(g.c, g.c) + Mul(g.s, g.s) == 1.0
    && (g.r == 0.0 <==> a == 0.0 && b == 0.0)
    && (g.r == 0.0 ==> g.c == 1.0 && g.s == 0.0)
  }

  lemma SquareSum(a: real, b: real, q: real)
    requires q == a * a + b * b
    ensures q >= 0.0 && (q == 0.0 <==> a == 0.0 && b == 0.0)
  {
    SquareNonneg(a, a * a);
    SquareNonneg(b, b * b);
    if a != 0.0 { SquareOfNonzero(a, a * a); }
    if b != 0.0 { SquareOfNonzero(b, b * b); }
  }

  lemma UnitRatio(a: real, b: real, r: real, c: real, s: real)
    requires r > 0.0 && r * r == a * a + b * b && c == a / r && s == b / r
    ensures a == Mul(c, r) && b == Mul(s, r) && Mul(c, c) + Mul(s, s) == 1.0
  {
    assert c * r == a && s * r == b;
    var q := c * c + s * s;
    MulEq(r, c * r, a);
    MulEq(c, c * r, a);
    RatioScalars(c, s, r, a, b);
  }

  lemma RatioScalars(c: real, s: real, r: real, a: real, b: real)
    requires r > 0.0 && a == c * r && b == s * r && r * r == a * a + b * b
    ensures c * c + s * s == 1.0
  {
    var q, z := c * c + s * s, r * r;
    assert z * q == z * 1.0;
    SquareOfNonzero(r, z);
    CancelFactor(z, q, 1.0);
  }

  lemma MulEq(k: real, x: real, y: real)
    requires x == y
    ensures k * x == k * y
  {
  }

  lemma GivensRotates(sqrt: real -> real, a: real, b: real)
    requires IsSqrt(sqrt)
    ensures Rotates(MakeGivens(sqrt, a, b), a, b)
  {
    hide Mul;
    var q := a * a + b * b;
    SquareSum(a, b, q);
    SqrtZero(sqrt, q);
    var g := MakeGivens(sqrt, a, b);
    if g.r > 0.0 {
      SquareOfNonzero(g.r, q);
      UnitRatio(a, b, g.r, g.c, g.s);
    } else {
      NoRotation();
    }
  }

  lemma NoRotation()
    ensures Mul(1.0, 0.0) == 0.0 && Mul(0.0, 0.0) == 0.0 && Mul(1.0, 1.0) + Mul(0.0, 0.0) == 1.0
  {
  }

  datatype Scalars = Scalars(alphaBar: real, phiBar: real, cBar: real, sBar: real, zetaBar: real)

  datatype RotationStep = RotationStep(rho: real, rhoBar: real, thetaNew: real, thetaBar: real, zeta: real)

  function InitialRotation(): RotationStep { RotationStep(1.0, 1.0, 0.0, 0.0, 0.0) }

  function InitialScalars(s: BidiagStep): Scalars { Scalars(s.alpha, s.beta, 1.0, 0.0, Mul(s.alpha, s.beta)) }

  /** One step: `hat` rotates the LSQR-side chain, `bar` the LSMR-side one. */
  ghost predicate AdvancedBy(st: Scalars, s: BidiagStep, hat: Givens, bar: Givens, st': Scalars, r: RotationStep) {
    && Rotates(hat, st.alphaBar, s.beta) && Rotates(bar, Mul(st.cBar, hat.r), Mul(hat.s, s.alpha))
    && st' == Scalars(Mul(-hat.c, s.alpha), Mul(hat.s, st.phiBar), bar.c, bar.s, Mul(-bar.s, st.zetaBar))
    && r == RotationStep(hat.r, bar.r, Mul(hat.s, s.alpha), Mul(st.sBar, hat.r), Mul(bar.c, st.zetaBar))
  }

  datatype Stage = Stage(st: Scalars, r: RotationStep)

  /** The step as a function of the scalars it starts from. */
  function Advanced(sqrt: real -> real, st: Scalars, s: BidiagStep): Stage {
    var hat := MakeGivens(sqrt, st.alphaBar, s.beta);
    var bar := MakeGivens(sqrt, Mul(st.cBar, hat.r), Mul(hat.s, s.alpha));
    Stage(Scalars(Mul(-hat.c, s.alpha), Mul(hat.s, st.phiBar), bar.c, bar.s, Mul(-bar.s, st.zetaBar)),
          RotationStep(hat.r, bar.r, Mul(hat.s, s.alpha), Mul(st.sBar, hat.r), Mul(bar.c, st.zetaBar)))
  }

  class LsmrRecurrenceState {
    var alphaBar: real
    var phiBar: real
    var cBar: real
    var sBar: real
    var zetaBar: real
    const zeta0: real

    function State(): Scalars
      reads this
    {
      Scalars(alphaBar, phiBar, cBar, sBar, zetaBar)
    }

    constructor (s1: BidiagStep, minPositive: real)
      ensures State() == InitialScalars(s1) && zeta0 == Max(Abs(Mul(s1.alpha, s1.beta)), minPositive)
    {
      zetaBar := s1.alpha * s1.beta;
      alphaBar, phiBar, cBar, sBar := s1.alpha, s1.beta, 1.0, 0.0;
      zeta0 := Max(Abs(s1.alpha * s1.beta), minPositive);
    }

    method Step(s: BidiagStep, sqrt: real -> real) returns (r: RotationStep, ghost pHat: Givens, ghost pBar: Givens)
      requires IsSqrt(sqrt)
      modifies this
      ensures AdvancedBy(old(State()), s, pHat, pBar, State(), r)
      ensures Stage(State(), r) == Advanced(sqrt, old(State()), s)
    {
      hide MakeGivens;
      hide Rotates;
      var hat := MakeGivens(sqrt, alphaBar, s.beta);
      GivensRotates(sqrt, alphaBar, s.beta);
      var thetaNew := hat.s * s.alpha;
      var alphaBarNew := -hat.c * s.alpha;
      var phiBarNew := hat.s * phiBar;
      var thetaBar := sBar * hat.r;
      var diagonal := cBar * hat.r;
      var bar := MakeGivens(sqrt, diagonal, thetaNew);
      GivensRotates(sqrt, diagonal, thetaNew);
      ghost var st := State();
      assert diagonal == Mul(st.cBar, hat.r) && thetaNew == Mul(hat.s, s.alpha);
      var zeta := bar.c * zetaBar;
      var zetaBarNew := -bar.s * zetaBar;
      alphaBar := alphaBarNew;
      phiBar := phiBarNew;
      cBar := bar.c;
      sBar := bar.s;
      zetaBar := zetaBarNew;
      r := RotationStep(hat.r, bar.r, thetaNew, thetaBar, zeta);
      assert State() == Scalars(Mul(-hat.c, s.alpha), Mul(hat.s, st.phiBar), bar.c, bar.s, Mul(-bar.s, st.zetaBar));
      pHat, pBar := hat, bar;
    }

    function ResidualEstimate(): real
      reads this
    {
      Abs(phiBar)
    }

    function NormalEqResidualEstimate(): real
      reads this
    {
      Abs(zetaBar)
    }

    function RelativeNormalEqResidual(): real
      requires zeta0 > 0.0
      reads this
    {
      NormalEqResidualEstimate() / zeta0
    }
  }

  // ---- What the scalars keep ---------------------------------------------------------------

  /** The second chain's rotation is one; both chains stay nondegenerate while alpha does. */
  ghost predicate Sound(st: Scalars, prev: RotationStep) {
    && Mul(st.cBar, st.cBar) + Mul(st.sBar, st.sBar) == 1.0
    && st.cBar != 0.0 && prev.rho > 0.0 && prev.rhoBar > 0.0
  }

  /** A rotation is determined by what it rotates. */
  lemma RotatesUnique(g: Givens, g': Givens, a: real, b: real)
    requires Rotates(g, a, b) && Rotates(g', a, b)
    ensures g == g'
  {
    RadiusSquared(g.c, g.s, g.r, a, b);
    RadiusSquared(g'.c, g'.s, g'.r, a, b);
    EqualSquares(g.r, g'.r, a * a + b * b);
    if g.r != 0.0 {
      CancelFactor(g.r, g.c, g'.c);
      CancelFactor(g.r, g.s, g'.s);
    }
  }

  /** Whatever satisfies the step's relation is what the step computes. */
  lemma AdvancedUnique(sqrt: real -> real, st: Scalars, s: BidiagStep, hat: Givens, bar: Givens, st': Scalars, r: RotationStep)
    requires IsSqrt(sqrt) && AdvancedBy(st, s, hat, bar, st', r)
    ensures Stage(st', r) == Advanced(sqrt, st, s)
  {
    hide Mul;
    hide Rotates;
    hide MakeGivens;
    GivensRotates(sqrt, st.alphaBar, s.beta);
    RotatesUnique(hat, MakeGivens(sqrt, st.alphaBar, s.beta), st.alphaBar, s.beta);
    GivensRotates(sqrt, Mul(st.cBar, hat.r), Mul(hat.s, s.alpha));
    RotatesUnique(bar, MakeGivens(sqrt, Mul(st.cBar, hat.r), Mul(hat.s, s.alpha)), Mul(st.cBar, hat.r), Mul(hat.s, s.alpha));
  }

  lemma RadiusSquared(c: real, s: real, r: real, a: real, b: real)
    requires a == Mul(c, r) && b == Mul(s, r) && Mul(c, c) + Mul(s, s) == 1.0
    ensures r * r == a * a + b * b
  {
    MulEq(r * r, c * c + s * s, 1.0);
  }

  lemma ProductNonzero(x: real, y: real)
    requires x != 0.0 && y != 0.0
    ensures Mul(x, y) != 0.0
  {
    if x > 0.0 && y > 0.0 { SignedProduct(x, y, x * y); }
    if x > 0.0 && y < 0.0 { SignedProduct(x, -y, x * -y); }
    if x < 0.0 && y > 0.0 { SignedProduct(-x, y, -x * y); }
    if x < 0.0 && y < 0.0 { SignedProduct(-x, -y, -x * -y); }
  }

  /** With a nonzero incoming diagonal every denominator of the step is positive. */
  lemma SoundStep(st: Scalars, prev: RotationStep, s: BidiagStep, hat: Givens, bar: Givens, st': Scalars, r: RotationStep)
    requires AdvancedBy(st, s, hat, bar, st', r) && Sound(st, prev) && st.alphaBar != 0.0
    ensures Sound(st', r) && (s.alpha != 0.0 ==> st'.alphaBar != 0.0)
  {
    hide Mul;
    FactorNonzero(hat.c, hat.r);
    ProductNonzero(st.cBar, hat.r);
    FactorNonzero(bar.c, bar.r);
    if s.alpha != 0.0 { ProductNonzero(-hat.c, s.alpha); }
  }

  lemma FactorNonzero(x: real, y: real)
    requires Mul(x, y) != 0.0
    ensures x != 0.0
  {
  }

  lemma UnitAtMostOne(c: real, s: real)
    requires Mul(c, c) + Mul(s, s) == 1.0
    ensures -1.0 <= s <= 1.0
  {
    var a, q := Abs(s), s * s;
    SquareNonneg(c, c * c);
    assert a * a == q;
    if a > 1.0 { SquareMono(1.0, a, 1.0, q); }
  }

  lemma NonnegProduct(x: real, y: real)
    requires x >= 0.0 && y >= 0.0
    ensures x * y >= 0.0
  {
  }

  lemma Contracts(s: real, x: real)
    requires -1.0 <= s <= 1.0
    ensures Abs(Mul(s, x)) <= Abs(x)
  {
    var a := Abs(x);
    NonnegProduct(1.0 - s, a);
    NonnegProduct(1.0 + s, a);
    assert (1.0 - s) * a == a - s * a && (1.0 + s) * a == a + s * a;
    assert s * x == s * a || s * x == -(s * a);
  }

  /** Neither estimate ever grows. */
  lemma EstimatesNeverIncrease(st: Scalars, s: BidiagStep, hat: Givens, bar: Givens, st': Scalars, r: RotationStep)
    requires AdvancedBy(st, s, hat, bar, st', r)
    ensures Abs(st'.phiBar) <= Abs(st.phiBar) && Abs(st'.zetaBar) <= Abs(st.zetaBar)
  {
    hide Mul;
    UnitAtMostOne(hat.c, hat.s);
    UnitAtMostOne(bar.c, bar.s);
    Contracts(hat.s, st.phiBar);
    Contracts(-bar.s, st.zetaBar);
  }

  /** A step with alpha zero collapses the normal-equation estimate at once. */
  lemma AlphaZeroCollapses(st: Scalars, prev: RotationStep, s: BidiagStep, hat: Givens, bar: Givens, st': Scalars, r: RotationStep)
    requires AdvancedBy(st, s, hat, bar, st', r) && Sound(st, prev) && st.alphaBar != 0.0 && s.alpha == 0.0
    ensures st'.zetaBar == 0.0
  {
    hide Mul;
    ProductNonzero(st.cBar, hat.r);
    ZeroTimes(hat.s, s.alpha);
    ZeroTimes(-bar.s, st.zetaBar);
    ZeroFactor(bar.s, bar.r);
  }

  lemma ZeroFactor(x: real, y: real)
    requires Mul(x, y) == 0.0 && y != 0.0
    ensures x == 0.0
  {
  }
}
