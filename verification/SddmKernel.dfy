/** What an SDDM matrix sends to zero, and with it which right-hand sides a connected component
    can answer (crates/within/src/block_elim/solver.rs:350-466). */
module SddmKernel {
  import opened Sums
  import opened Csr
  import opened CrossTabs
  import opened Elimination
  import opened Gremban
  import opened Sddm
  import opened FoldingSigns
  import opened ReducedFactors
  import opened Fredholm
  import opened AssembledSystems

  // ---- Energy ------------------------------------------------------------------------------

  /** |v| (x - sign(v) y)^2, expanded. */
  function EdgeEnergy(v: real, x: real, y: real): real { Abs(v) * (x * x) + Abs(v) * (y * y) - 2.0 * (v * (x * y)) }

  lemma EdgeEnergySquare(v: real, x: real, y: real)
    ensures EdgeEnergy(v, x, y) >= 0.0
    ensures EdgeEnergy(v, x, y) == 0.0 <==> v == 0.0 || x == Flip(v, y)
  {
    var t := Flip(v, y);
    var q := (x - t) * (x - t);
    EdgeScalars(v, x, y, t, q);
    SquareNonneg(x - t, q);
    if x != t { SquareOfNonzero(x - t, q); }
    ProductSign(Abs(v), q, Abs(v) * q);
  }

  lemma EdgeScalars(v: real, x: real, y: real, t: real, q: real)
    requires t == Flip(v, y) && q == (x - t) * (x - t)
    ensures EdgeEnergy(v, x, y) == Abs(v) * q
  {
    assert q == x * x - 2.0 * (x * t) + t * t;
    if v < 0.0 {
      assert t * t == y * y && x * t == -(x * y);
      assert (-v) * q == (-v) * (x * x) + (-v) * (2.0 * (x * y)) + (-v) * (y * y);
    } else {
      assert v * q == v * (x * x) - v * (2.0 * (x * y)) + v * (y * y);
    }
  }

  lemma ProductSign(a: real, q: real, p: real)
    requires a >= 0.0 && q >= 0.0 && p == a * q
    ensures p >= 0.0 && (p == 0.0 <==> a == 0.0 || q == 0.0)
  {
    if a > 0.0 && q > 0.0 { SignedProduct(a, q, p); }
  }

  /** The energies of the edges in row `k`. */
  function RowEdge(c: Mat, y: Vec, t: Vec, k: int): Vec { j => EdgeEnergy(c(k, j), y(k), t(j)) }

  ghost function RowEnergy(n: nat, c: Mat, y: Vec, t: Vec, k: int): real { Sum(n, RowEdge(c, y, t, k)) }

  function Plus(f: Vec, g: Vec): Vec { i => f(i) + g(i) }

  function Scaled(k: real, f: Vec): Vec { i => k * f(i) }

  function Square(y: Vec): Vec { i => y(i) * y(i) }

  function MagnitudeOf(c: Mat): Mat { (i, j) => Abs(c(i, j)) }

  /** One row: its weight at the row's own value, the weighted squares, less twice the cross terms. */
  lemma RowEnergyExpands(n: nat, c: Mat, y: Vec, t: Vec, k: int)
    ensures RowEnergy(n, c, y, t, k) ==
            Sum(n, RowOf(MagnitudeOf(c), k)) * (y(k) * y(k)) + Dot(n, RowOf(MagnitudeOf(c), k), Square(t)) - 2.0 * (y(k) * Dot(n, RowOf(c, k), t))
  {
    hide Abs;
    hide Sum;
    hide EdgeEnergy;
    var w, q, yy, x := RowOf(MagnitudeOf(c), k), Square(t), y(k) * y(k), y(k);
    var own, far, cross := Scaled(yy, w), Times(w, q), Scaled(2.0 * x, Times(RowOf(c, k), t));
    SumScale(n, yy, w, own);
    SumScale(n, 2.0 * x, Times(RowOf(c, k), t), cross);
    SumAdd(n, own, far, Plus(own, far));
    forall j | 0 <= j < n ensures RowEdge(c, y, t, k)(j) == Plus(own, far)(j) - cross(j) { EdgeAt(c(k, j), x, t(j), yy, q(j)); }
    SumSub(n, Plus(own, far), cross, RowEdge(c, y, t, k));
    Regroup(x, Dot(n, RowOf(c, k), t), Sum(n, w), yy);
  }

  lemma EdgeAt(v: real, x: real, y: real, xx: real, yy: real)
    requires xx == x * x && yy == y * y
    ensures EdgeEnergy(v, x, y) == (xx * Abs(v) + Abs(v) * yy) - (2.0 * x) * (v * y)
  {
    CrossScalars(v, x, y);
  }

  lemma CrossScalars(v: real, x: real, y: real)
    ensures 2.0 * (v * (x * y)) == (2.0 * x) * (v * y) && Abs(v) * (x * x) == (x * x) * Abs(v)
  {
  }

  lemma Regroup(x: real, s: real, w: real, q: real)
    ensures (2.0 * x) * s == 2.0 * (x * s) && q * w == w * q
  {
  }

  /** Energy of all edges between the blocks. */
  ghost function EdgesEnergy(e: nat, n: nat, c: Mat, y: Vec, t: Vec): real { Sum(e, k => RowEnergy(n, c, y, t, k)) }

  lemma EdgesEnergyExpands(e: nat, n: nat, c: Mat, y: Vec, t: Vec)
    ensures EdgesEnergy(e, n, c, y, t) ==
            Sum(e, k => Sum(n, RowOf(MagnitudeOf(c), k)) * (y(k) * y(k)))
            + Sum(n, j => Sum(e, ColOf(MagnitudeOf(c), j)) * (t(j) * t(j))) - 2.0 * Dot(e, y, MulVec(n, c, t))
  {
    hide Sum;
    hide RowEnergy;
    var own: Vec := k => Sum(n, RowOf(MagnitudeOf(c), k)) * (y(k) * y(k));
    var far: Vec := k => Dot(n, RowOf(MagnitudeOf(c), k), Square(t));
    var cross: Vec := k => 2.0 * (y(k) * MulVec(n, c, t)(k));
    var both: Vec := k => own(k) + far(k);
    var all: Vec := k => RowEnergy(n, c, y, t, k);
    forall k | 0 <= k < e ensures all(k) == both(k) - cross(k) { RowEnergyExpands(n, c, y, t, k); }
    SumAdd(e, own, far, both);
    SumSub(e, both, cross, all);
    SumScale(e, 2.0, k => y(k) * MulVec(n, c, t)(k), cross);
    FarSum(e, n, MagnitudeOf(c), Square(t));
    SumCong(n, j => Sum(e, ColOf(MagnitudeOf(c), j)) * Square(t)(j), j => Sum(e, ColOf(MagnitudeOf(c), j)) * (t(j) * t(j)));
  }

  /** Weighted squares summed by rows are column weights times squares. */
  lemma FarSum(e: nat, n: nat, w: Mat, q: Vec)
    ensures Sum(e, k => Dot(n, RowOf(w, k), q)) == Sum(n, j => Sum(e, ColOf(w, j)) * q(j))
  {
    hide Sum;
    var rows, columns: Vec := MulVec(n, w, q), j => Sum(e, ColOf(w, j));
    SumCong(e, rows, k => Dot(n, RowOf(w, k), q));
    SumIsDotOne(e, rows);
    DotComm(e, rows, One());
    DotSwap(e, n, One(), w, q);
    forall j | 0 <= j < n ensures VecMul(e, One(), w)(j) == columns(j) {
      DotComm(e, One(), ColOf(w, j));
      SumIsDotOne(e, ColOf(w, j));
    }
    DotCong(n, VecMul(e, One(), w), q, columns, q);
    SumCong(n, j => columns(j) * q(j), j => Sum(e, ColOf(w, j)) * q(j));
  }

  /** Energy stored in the ground edges. */
  ghost function GroundEnergy(n: nat, g: Vec, y: Vec): real { Sum(n, i => g(i) * (y(i) * y(i))) }

  lemma DiagonalEnergy(n: nat, d: Vec, w: Vec, g: Vec, y: Vec)
    requires forall i :: 0 <= i < n ==> d(i) == w(i) + g(i)
    ensures Dot(n, Times(d, y), y) == Sum(n, i => w(i) * (y(i) * y(i))) + GroundEnergy(n, g, y)
  {
    hide Sum;
    var a, b, s: Vec := i => w(i) * (y(i) * y(i)), i => g(i) * (y(i) * y(i)), i => Times(d, y)(i) * y(i);
    forall i | 0 <= i < n ensures s(i) == a(i) + b(i) { SplitDiagonal(w(i), g(i), y(i)); }
    SumAdd(n, a, b, s);
  }

  lemma SplitDiagonal(w: real, g: real, y: real)
    ensures ((w + g) * y) * y == w * (y * y) + g * (y * y)
  {
  }

  /** The energy of the whole system: its edges and its ground edges. */
  lemma SystemEnergy(e: nat, n: nat, c: Mat, d: Vec, g: Vec, y: Vec)
    requires Balanced(e, n, MagnitudeOf(c), d, g)
    ensures Energy(e + n, Assembled(e, c, d), y) ==
            EdgesEnergy(e, n, c, y, Tail(e, y)) + (GroundEnergy(e, g, y) + GroundEnergy(n, Tail(e, g), Tail(e, y)))
  {
    hide Sum;
    hide Dot;
    hide EdgesEnergy;
    hide GroundEnergy;
    var a, t := Assembled(e, c, d), Tail(e, y);
    var b := MulVec(e + n, a, y);
    assert Solves(e + n, a, y, b);
    AssembledIsBipartite(e, n, c, d, y, b);
    DotSplit(e, n, y, b);
    BilinearForm(e, n, c, d, y, b, y);
    var u: Vec := k => Sum(n, RowOf(MagnitudeOf(c), k));
    var v: Vec := j => Sum(e, ColOf(MagnitudeOf(c), j));
    DiagonalEnergy(e, d, u, g, y);
    DiagonalEnergy(n, Tail(e, d), v, Tail(e, g), t);
    EdgesEnergyExpands(e, n, c, y, t);
    SumCong(e, k => u(k) * (y(k) * y(k)), k => Sum(n, RowOf(MagnitudeOf(c), k)) * (y(k) * y(k)));
    SumCong(n, j => v(j) * (t(j) * t(j)), j => Sum(e, ColOf(MagnitudeOf(c), j)) * (t(j) * t(j)));
  }

  // ---- The kernel --------------------------------------------------------------------------

  /** Every edge is tight and every grounded entry zero. */
  ghost predicate Null(e: nat, n: nat, c: Mat, g: Vec, y: Vec) {
    && (forall k, j :: 0 <= k < e && 0 <= j < n ==> TightAt(e, c, y, k, j))
    && (forall i :: 0 <= i < e + n ==> g(i) == 0.0 || y(i) == 0.0)
  }

  ghost predicate TightAt(e: nat, c: Mat, y: Vec, k: int, j: int) { c(k, j) == 0.0 || y(k) == Flip(c(k, j), y(e + j)) }

  lemma RowEnergyZero(n: nat, c: Mat, y: Vec, t: Vec, k: int)
    ensures RowEnergy(n, c, y, t, k) >= 0.0
    ensures RowEnergy(n, c, y, t, k) == 0.0 ==> forall j :: 0 <= j < n ==> c(k, j) == 0.0 || y(k) == Flip(c(k, j), t(j))
  {
    hide EdgeEnergy;
    var f: Vec := j => EdgeEnergy(c(k, j), y(k), t(j));
    forall j | 0 <= j < n ensures f(j) >= 0.0 { EdgeEnergySquare(c(k, j), y(k), t(j)); }
    SumNonneg(n, f);
    if RowEnergy(n, c, y, t, k) == 0.0 {
      forall j | 0 <= j < n ensures c(k, j) == 0.0 || y(k) == Flip(c(k, j), t(j)) {
        SumBoundsTerm(n, j, f);
        EdgeEnergySquare(c(k, j), y(k), t(j));
      }
    }
  }

  lemma GroundEnergyZero(n: nat, g: Vec, y: Vec)
    requires forall i :: 0 <= i < n ==> g(i) >= 0.0
    ensures GroundEnergy(n, g, y) >= 0.0
    ensures GroundEnergy(n, g, y) == 0.0 ==> forall i :: 0 <= i < n ==> g(i) == 0.0 || y(i) == 0.0
  {
    var f: Vec := i => g(i) * (y(i) * y(i));
    forall i | 0 <= i < n ensures f(i) >= 0.0 && (f(i) == 0.0 ==> g(i) == 0.0 || y(i) == 0.0) { GroundTerm(g(i), y(i), y(i) * y(i)); }
    SumNonneg(n, f);
    if GroundEnergy(n, g, y) == 0.0 {
      forall i | 0 <= i < n ensures g(i) == 0.0 || y(i) == 0.0 { SumBoundsTerm(n, i, f); }
    }
  }

  lemma GroundTerm(g: real, y: real, q: real)
    requires g >= 0.0 && q == y * y
    ensures g * q >= 0.0 && (g * q == 0.0 ==> g == 0.0 || y == 0.0)
  {
    SquareNonneg(y, q);
    if y != 0.0 { SquareOfNonzero(y, q); }
    ProductSign(g, q, g * q);
  }

  lemma EdgesEnergyZero(e: nat, n: nat, c: Mat, y: Vec)
    ensures EdgesEnergy(e, n, c, y, Tail(e, y)) >= 0.0
    ensures EdgesEnergy(e, n, c, y, Tail(e, y)) == 0.0 ==> forall k, j :: 0 <= k < e && 0 <= j < n ==> TightAt(e, c, y, k, j)
  {
    hide RowEnergy;
    var t := Tail(e, y);
    var f: Vec := k => RowEnergy(n, c, y, t, k);
    forall k | 0 <= k < e ensures f(k) >= 0.0 { RowEnergyZero(n, c, y, t, k); }
    SumNonneg(e, f);
    if EdgesEnergy(e, n, c, y, t) == 0.0 {
      forall k, j | 0 <= k < e && 0 <= j < n ensures TightAt(e, c, y, k, j) {
        SumBoundsTerm(e, k, f);
        RowEnergyZero(n, c, y, t, k);
        assert c(k, j) == 0.0 || y(k) == Flip(c(k, j), t(j));
      }
    }
  }

  lemma EnergyNonneg(e: nat, n: nat, c: Mat, d: Vec, g: Vec, y: Vec)
    requires Balanced(e, n, MagnitudeOf(c), d, g) && forall i :: 0 <= i < e + n ==> g(i) >= 0.0
    ensures Energy(e + n, Assembled(e, c, d), y) >= 0.0
    ensures Energy(e + n, Assembled(e, c, d), y) == 0.0 ==> Null(e, n, c, g, y)
  {
    hide Energy;
    hide EdgesEnergy;
    hide GroundEnergy;
    SystemEnergy(e, n, c, d, g, y);
    EdgesEnergyZero(e, n, c, y);
    GroundEnergyZero(e, g, y);
    GroundEnergyZero(n, Tail(e, g), Tail(e, y));
    if Energy(e + n, Assembled(e, c, d), y) == 0.0 {
      forall i | 0 <= i < e + n ensures g(i) == 0.0 || y(i) == 0.0 {
        if i >= e { assert Tail(e, g)(i - e) == 0.0 || Tail(e, y)(i - e) == 0.0; }
      }
    }
  }

  lemma TightProduct(v: real, x: real, y: real)
    requires v == 0.0 || x == Flip(v, y)
    ensures Abs(v) * x == v * y
  {
  }

  /** A tight edge seen from its other end. */
  lemma TightBack(v: real, x: real, y: real)
    requires v == 0.0 || x == Flip(v, y)
    ensures v == 0.0 || y == Flip(v, x)
  {
  }

  lemma NullRow(n: nat, c: Vec, w: Vec, x: real, t: Vec, d: real, g: real)
    requires (forall j :: 0 <= j < n ==> w(j) == Abs(c(j)) && (c(j) == 0.0 || x == Flip(c(j), t(j)))) && d == Sum(n, w) + g && (g == 0.0 || x == 0.0)
    ensures d * x - Dot(n, c, t) == 0.0
  {
    hide Sum;
    var a, b: Vec := j => x * w(j), j => c(j) * t(j);
    forall j | 0 <= j < n ensures a(j) == b(j) { TightProduct(c(j), x, t(j)); }
    SumScale(n, x, w, a);
    SumCong(n, a, b);
    GroundFree(Sum(n, w), g, x);
  }

  lemma GroundFree(w: real, g: real, x: real)
    requires g == 0.0 || x == 0.0
    ensures (w + g) * x == x * w
  {
  }

  /** The kernel is exactly the vectors on which every edge is tight. */
  lemma KernelIsNull(e: nat, n: nat, c: Mat, d: Vec, g: Vec, y: Vec)
    requires Balanced(e, n, MagnitudeOf(c), d, g) && forall i :: 0 <= i < e + n ==> g(i) >= 0.0
    ensures InKernel(e + n, Assembled(e, c, d), y) <==> Null(e, n, c, g, y)
  {
    hide TightAt;
    hide Dot;
    if InKernel(e + n, Assembled(e, c, d), y) {
      DotComm(e + n, y, MulVec(e + n, Assembled(e, c, d), y));
      DotZero(e + n, MulVec(e + n, Assembled(e, c, d), y), y);
      EnergyNonneg(e, n, c, d, g, y);
    }
    if Null(e, n, c, g, y) { NullInKernel(e, n, c, d, g, y); }
  }

  lemma NullEliminatedRow(e: nat, n: nat, c: Mat, d: Vec, g: Vec, y: Vec, i: nat)
    requires Balanced(e, n, MagnitudeOf(c), d, g) && Null(e, n, c, g, y) && i < e
    ensures MulVec(e + n, Assembled(e, c, d), y)(i) == 0.0
  {
    hide Dot;
    hide Sum;
    hide Assembled;
    var t, r := Tail(e, y), RowOf(c, i);
    AssembledRow(e, n, c, d, y, i);
    forall j | 0 <= j < n ensures r(j) == 0.0 || y(i) == Flip(r(j), t(j)) { assert TightAt(e, c, y, i, j); }
    NullRow(n, r, RowOf(MagnitudeOf(c), i), y(i), t, d(i), g(i));
  }

  lemma NullKeptRow(e: nat, n: nat, c: Mat, d: Vec, g: Vec, y: Vec, j: nat)
    requires Balanced(e, n, MagnitudeOf(c), d, g) && Null(e, n, c, g, y) && j < n
    ensures MulVec(e + n, Assembled(e, c, d), y)(e + j) == 0.0
  {
    hide Dot;
    hide Sum;
    hide Assembled;
    var t, r := Tail(e, y), ColOf(c, j);
    AssembledKeptRow(e, n, c, d, y, j);
    forall k | 0 <= k < e ensures r(k) == 0.0 || t(j) == Flip(r(k), y(k)) {
      assert TightAt(e, c, y, k, j);
      TightBack(c(k, j), y(k), t(j));
    }
    assert Tail(e, d)(j) == Sum(e, ColOf(MagnitudeOf(c), j)) + Tail(e, g)(j);
    NullRow(e, r, ColOf(MagnitudeOf(c), j), t(j), y, Tail(e, d)(j), Tail(e, g)(j));
  }

  lemma NullInKernel(e: nat, n: nat, c: Mat, d: Vec, g: Vec, y: Vec)
    requires Balanced(e, n, MagnitudeOf(c), d, g) && Null(e, n, c, g, y)
    ensures InKernel(e + n, Assembled(e, c, d), y)
  {
    hide Dot;
    hide Assembled;
    hide Balanced;
    hide Null;
    var m, a := e + n, Assembled(e, c, d);
    forall i | 0 <= i < m ensures MulVec(m, a, y)(i) == 0.0 {
      if i < e { NullEliminatedRow(e, n, c, d, g, y, i); } else { NullKeptRow(e, n, c, d, g, y, i - e); }
    }
  }

  lemma AssembledSymmetric(e: nat, n: nat, c: Mat, d: Vec)
    ensures Symmetric(e + n, Assembled(e, c, d))
  {
    var a, m := Assembled(e, c, d), e + n;
    forall i, j | 0 <= i < m && 0 <= j < m ensures a(i, j) == a(j, i) {
    }
  }

  /** A balanced system, signed or not, is solvable exactly when the right-hand side is
      orthogonal to every tight vector. */
  lemma BalancedSolvable(e: nat, n: nat, c: Mat, d: Vec, g: Vec, b: Vec)
    requires Balanced(e, n, MagnitudeOf(c), d, g) && forall i :: 0 <= i < e + n ==> g(i) >= 0.0
    ensures Solvable(e + n, Assembled(e, c, d), b) <==> forall y: Vec :: Null(e, n, c, g, y) ==> Dot(e + n, y, b) == 0.0
  {
    hide Dot;
    hide Energy;
    hide InKernel;
    hide Null;
    var m, a := e + n, Assembled(e, c, d);
    AssembledSymmetric(e, n, c, d);
    forall y: Vec ensures Energy(m, a, y) >= 0.0 { EnergyNonneg(e, n, c, d, g, y); }
    SolvableIffOrthogonal(m, a, b);
    forall y: Vec ensures InKernel(m, a, y) <==> Null(e, n, c, g, y) { KernelIsNull(e, n, c, d, g, y); }
  }
}
