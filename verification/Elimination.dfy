/** Block elimination of a bipartite system `[D_e, -C; -C^T, D_k]`, stated on matrices as
    functions: the Schur complement and its explicit grounding.
    Index `0 <= k < e` is eliminated, `e <= e + j < e + n` is kept. */
module Elimination {
  import opened Sums

  type Mat = (int, int) -> real
  type Vec = int -> real

  /** M x = b on the first `n` rows and columns. */
  ghost predicate Solves(n: nat, m: Mat, x: Vec, b: Vec) {
    forall i :: 0 <= i < n ==> MulVec(n, m, x)(i) == b(i)
  }

  ghost function EliminatedRow(e: nat, n: nat, c: Mat, d: Vec, y: Vec, k: int): real {
    d(k) * y(k) - Dot(n, RowOf(c, k), Tail(e, y))
  }

  ghost function KeptRow(e: nat, c: Mat, d: Vec, y: Vec, j: int): real {
    Tail(e, d)(j) * Tail(e, y)(j) - Dot(e, ColOf(c, j), y)
  }

  /** The bipartite system with off-diagonal block -C. */
  ghost predicate SolvesBipartite(e: nat, n: nat, c: Mat, d: Vec, y: Vec, b: Vec) {
    && (forall k :: 0 <= k < e ==> EliminatedRow(e, n, c, d, y, k) == b(k))
    && (forall j :: 0 <= j < n ==> KeptRow(e, c, d, y, j) == Tail(e, b)(j))
  }

  ghost predicate Inverts(e: nat, d: Vec, inv: Vec) {
    forall k :: 0 <= k < e ==> inv(k) * d(k) == 1.0
  }

  /** Column `i` of C scaled by the inverse eliminated diagonal. */
  function Weighted(c: Mat, inv: Vec, i: int): Vec { k => c(k, i) * inv(k) }

  function Fill(e: nat, c: Mat, inv: Vec, i: int): Vec { VecMul(e, Weighted(c, inv, i), c) }

  function Delta(i: int, x: real): Vec { j => if i == j then x else 0.0 }

  /** The Schur complement of the eliminated block. */
  function Schur(e: nat, c: Mat, d: Vec, inv: Vec): Mat {
    (i, j) => Delta(i, Tail(e, d)(i))(j) - Fill(e, c, inv, i)(j)
  }

  function ReducedRhs(e: nat, c: Mat, inv: Vec, b: Vec): Vec {
    j => Tail(e, b)(j) + Dot(e, Weighted(c, inv, j), b)
  }

  /** The back-substitution rule for the eliminated block. */
  ghost predicate BackSubstituted(e: nat, n: nat, c: Mat, inv: Vec, y: Vec, b: Vec) {
    forall k :: 0 <= k < e ==> RecoveredAt(e, n, c, inv, y, b, k)
  }

  ghost predicate RecoveredAt(e: nat, n: nat, c: Mat, inv: Vec, y: Vec, b: Vec, k: int) {
    y(k) == inv(k) * b(k) + inv(k) * MulVec(n, c, Tail(e, y))(k)
  }

  lemma DistributeTwo(c: real, i: real, b: real, s: real)
    ensures c * (i * b + i * s) == (c * i) * b + (c * i) * s
  {
  }

  /** u . (back-substituted block), for any u */
  lemma DotBackSubstituted(e: nat, u: Vec, w: Vec, inv: Vec, y: Vec, b: Vec, s: Vec)
    requires forall k :: 0 <= k < e ==> y(k) == inv(k) * b(k) + inv(k) * s(k) && w(k) == u(k) * inv(k)
    ensures Dot(e, u, y) == Dot(e, w, b) + Dot(e, w, s)
  {
    forall k | 0 <= k < e ensures u(k) * y(k) == w(k) * b(k) + w(k) * s(k) {
      DistributeTwo(u(k), inv(k), b(k), s(k));
    }
    SumAdd(e, k => w(k) * b(k), k => w(k) * s(k), k => u(k) * y(k));
  }

  lemma SchurRowDot(e: nat, n: nat, c: Mat, d: Vec, inv: Vec, x: Vec, i: int)
    requires 0 <= i < n
    ensures MulVec(n, Schur(e, c, d, inv), x)(i) == Tail(e, d)(i) * x(i) - Dot(n, Fill(e, c, inv, i), x)
  {
    DotSubLeft(n, Delta(i, Tail(e, d)(i)), Fill(e, c, inv, i), RowOf(Schur(e, c, d, inv), i), x);
    DotUnit(n, i, Delta(i, Tail(e, d)(i)), x);
  }

  lemma ColumnDot(e: nat, c: Mat, inv: Vec, y: Vec, b: Vec, s: Vec, i: int)
    requires forall k :: 0 <= k < e ==> y(k) == inv(k) * b(k) + inv(k) * s(k)
    ensures Dot(e, ColOf(c, i), y) == Dot(e, Weighted(c, inv, i), b) + Dot(e, Weighted(c, inv, i), s)
  {
    DotBackSubstituted(e, ColOf(c, i), Weighted(c, inv, i), inv, y, b, s);
  }

  lemma ColumnOfBackSubstituted(e: nat, n: nat, c: Mat, inv: Vec, y: Vec, b: Vec, i: int)
    requires BackSubstituted(e, n, c, inv, y, b)
    ensures Dot(e, ColOf(c, i), y) == Dot(e, Weighted(c, inv, i), b) + Dot(n, Fill(e, c, inv, i), Tail(e, y))
  {
    var s := MulVec(n, c, Tail(e, y));
    forall k | 0 <= k < e ensures y(k) == inv(k) * b(k) + inv(k) * s(k) {
      assert RecoveredAt(e, n, c, inv, y, b, k);
    }
    ColumnDot(e, c, inv, y, b, s, i);
    DotSwap(e, n, Weighted(c, inv, i), c, Tail(e, y));
  }

  /** Substituting the eliminated block into a kept row leaves the Schur row. */
  lemma KeptRowIsSchurRow(e: nat, n: nat, c: Mat, d: Vec, inv: Vec, y: Vec, b: Vec, i: int)
    requires BackSubstituted(e, n, c, inv, y, b) && 0 <= i < n
    ensures KeptRow(e, c, d, y, i) ==
            MulVec(n, Schur(e, c, d, inv), Tail(e, y))(i) - Dot(e, Weighted(c, inv, i), b)
  {
    ColumnOfBackSubstituted(e, n, c, inv, y, b, i);
    SchurRowDot(e, n, c, d, inv, Tail(e, y), i);
  }

  lemma CancelInverse(i: real, d: real, y: real, s: real, b: real)
    requires i * d == 1.0
    ensures d * y - s == b <==> y == i * b + i * s
  {
    if d * y - s == b {
      assert i * (d * y) == (i * d) * y;
      Distributes(i, b, s);
    }
    if y == i * b + i * s {
      Distributes(i, b, s);
      assert d * (i * (b + s)) == (i * d) * (b + s);
    }
  }

  /** Eliminated rows hold exactly when the block is back-substituted. */
  lemma EliminatedRowsAreBackSubstitution(e: nat, n: nat, c: Mat, d: Vec, inv: Vec, y: Vec, b: Vec)
    requires Inverts(e, d, inv)
    ensures (forall k :: 0 <= k < e ==> EliminatedRow(e, n, c, d, y, k) == b(k)) <==>
            BackSubstituted(e, n, c, inv, y, b)
  {
    forall k | 0 <= k < e
      ensures EliminatedRow(e, n, c, d, y, k) == b(k) <==> RecoveredAt(e, n, c, inv, y, b, k)
    {
      CancelInverse(inv(k), d(k), y(k), Dot(n, RowOf(c, k), Tail(e, y)), b(k));
    }
  }

  /** Elimination is exact in both directions: a vector solves the full system exactly when
      it is back-substituted and its kept part solves the reduced system. */
  lemma EliminationEquivalence(e: nat, n: nat, c: Mat, d: Vec, inv: Vec, y: Vec, b: Vec)
    requires Inverts(e, d, inv)
    ensures SolvesBipartite(e, n, c, d, y, b) <==>
            (BackSubstituted(e, n, c, inv, y, b) &&
             Solves(n, Schur(e, c, d, inv), Tail(e, y), ReducedRhs(e, c, inv, b)))
  {
    EliminatedRowsAreBackSubstitution(e, n, c, d, inv, y, b);
    if BackSubstituted(e, n, c, inv, y, b) {
      forall i | 0 <= i < n
        ensures KeptRow(e, c, d, y, i) == Tail(e, b)(i) <==>
                MulVec(n, Schur(e, c, d, inv), Tail(e, y))(i) == ReducedRhs(e, c, inv, b)(i)
      {
        KeptRowIsSchurRow(e, n, c, d, inv, y, b, i);
      }
    }
  }

  // ---- Diagonal = row sum + ground edge ------------------------------------------------

  function One(): Vec { _ => 1.0 }

  /** Every diagonal is its row's off-diagonal weight plus its ground edge. */
  ghost predicate Balanced(e: nat, n: nat, c: Mat, d: Vec, g: Vec) {
    && (forall k :: 0 <= k < e ==> d(k) == Sum(n, RowOf(c, k)) + g(k))
    && (forall j :: 0 <= j < n ==> Tail(e, d)(j) == Sum(e, ColOf(c, j)) + Tail(e, g)(j))
  }

  lemma BalancedSame(e: nat, n: nat, c: Mat, c': Mat, d: Vec, g: Vec)
    requires Balanced(e, n, c, d, g)
    requires forall k, j :: 0 <= k < e && 0 <= j < n ==> c(k, j) == c'(k, j)
    ensures Balanced(e, n, c', d, g)
  {
    forall k | 0 <= k < e ensures d(k) == Sum(n, RowOf(c', k)) + g(k) {
      SumCong(n, RowOf(c, k), RowOf(c', k));
      assert d(k) == Sum(n, RowOf(c, k)) + g(k);
    }
    forall j | 0 <= j < n ensures Tail(e, d)(j) == Sum(e, ColOf(c', j)) + Tail(e, g)(j) {
      SumCong(e, ColOf(c, j), ColOf(c', j));
      assert Tail(e, d)(j) == Sum(e, ColOf(c, j)) + Tail(e, g)(j);
    }
  }

  ghost predicate Ungrounded(n: nat, g: Vec) {
    forall i :: 0 <= i < n ==> g(i) == 0.0
  }

  /** Ground edges after elimination. */
  function Surplus(e: nat, c: Mat, inv: Vec, g: Vec): Vec { ReducedRhs(e, c, inv, g) }

  lemma SumIsDotOne(n: nat, f: Vec)
    ensures Sum(n, f) == Dot(n, f, One())
  {
    SumCong(n, f, i => f(i) * One()(i));
  }

  /** In the balanced system the all-ones vector is mapped to the ground edges. */
  lemma OnesGiveGround(e: nat, n: nat, c: Mat, d: Vec, g: Vec)
    requires Balanced(e, n, c, d, g)
    ensures SolvesBipartite(e, n, c, d, One(), g)
  {
    forall k | 0 <= k < e ensures EliminatedRow(e, n, c, d, One(), k) == g(k) {
      SumIsDotOne(n, RowOf(c, k));
      DotCong(n, RowOf(c, k), One(), RowOf(c, k), Tail(e, One()));
    }
    forall j | 0 <= j < n ensures KeptRow(e, c, d, One(), j) == Tail(e, g)(j) {
      SumIsDotOne(e, ColOf(c, j));
    }
  }

  /** Row sums of the Schur complement are the reduced ground edges. */
  lemma SchurRowSum(e: nat, n: nat, c: Mat, d: Vec, inv: Vec, g: Vec, i: int)
    requires Inverts(e, d, inv) && Balanced(e, n, c, d, g) && 0 <= i < n
    ensures Sum(n, RowOf(Schur(e, c, d, inv), i)) == Surplus(e, c, inv, g)(i)
  {
    OnesGiveGround(e, n, c, d, g);
    EliminationEquivalence(e, n, c, d, inv, One(), g);
    var s := Schur(e, c, d, inv);
    assert MulVec(n, s, Tail(e, One()))(i) == Surplus(e, c, inv, g)(i);
    SumIsDotOne(n, RowOf(s, i));
    DotCong(n, RowOf(s, i), One(), RowOf(s, i), Tail(e, One()));
  }

  lemma SchurSymmetric(e: nat, c: Mat, d: Vec, inv: Vec, i: int, j: int)
    ensures Schur(e, c, d, inv)(i, j) == Schur(e, c, d, inv)(j, i)
  {
    var f, g := Weighted(c, inv, i), Weighted(c, inv, j);
    forall k | 0 <= k < e ensures f(k) * c(k, j) == g(k) * c(k, i) { SwapFactors(c(k, i), inv(k), c(k, j)); }
    SumCong(e, k => f(k) * ColOf(c, j)(k), k => g(k) * ColOf(c, i)(k));
    assert Fill(e, c, inv, i)(j) == Fill(e, c, inv, j)(i);
  }

  lemma SwapFactors(a: real, v: real, b: real)
    ensures (a * v) * b == (b * v) * a
  {
  }

  /** Symmetry of the bipartite form: x^T B y == y^T B x, for solutions of two right-hand sides. */
  lemma BipartiteSymmetric(e: nat, n: nat, c: Mat, d: Vec, y: Vec, b: Vec, x: Vec, g: Vec)
    requires SolvesBipartite(e, n, c, d, y, b) && SolvesBipartite(e, n, c, d, x, g)
    ensures Dot(e, x, b) + Dot(n, Tail(e, x), Tail(e, b)) == Dot(e, y, g) + Dot(n, Tail(e, y), Tail(e, g))
  {
    BilinearForm(e, n, c, d, y, b, x);
    BilinearForm(e, n, c, d, x, g, y);
    DiagonalSymmetric(e, d, x, y);
    DiagonalSymmetric(n, Tail(e, d), Tail(e, x), Tail(e, y));
  }

  lemma DiagonalSymmetric(n: nat, d: Vec, x: Vec, y: Vec)
    ensures Dot(n, Times(d, x), y) == Dot(n, Times(d, y), x)
  {
    forall i | 0 <= i < n ensures (d(i) * x(i)) * y(i) == (d(i) * y(i)) * x(i) { SwapFactors(x(i), d(i), y(i)); }
    SumCong(n, i => Times(d, x)(i) * y(i), i => Times(d, y)(i) * x(i));
  }

  function Times(f: Vec, g: Vec): Vec { i => f(i) * g(i) }

  /** x^T b for b = B y, written out. */
  lemma BilinearForm(e: nat, n: nat, c: Mat, d: Vec, y: Vec, b: Vec, x: Vec)
    requires SolvesBipartite(e, n, c, d, y, b)
    ensures Dot(e, x, b) + Dot(n, Tail(e, x), Tail(e, b)) ==
            Dot(e, Times(d, y), x) + Dot(n, Times(Tail(e, d), Tail(e, y)), Tail(e, x))
            - Dot(e, x, MulVec(n, c, Tail(e, y))) - Dot(e, y, MulVec(n, c, Tail(e, x)))
  {
    hide Sum;
    DotSub(e, x, Times(d, y), MulVec(n, c, Tail(e, y)), b) by {
      forall k | 0 <= k < e ensures b(k) == Times(d, y)(k) - MulVec(n, c, Tail(e, y))(k) {
        assert EliminatedRow(e, n, c, d, y, k) == b(k);
      }
    }
    DotComm(e, x, Times(d, y));
    DotSub(n, Tail(e, x), Times(Tail(e, d), Tail(e, y)), VecMul(e, y, c), Tail(e, b)) by {
      forall j | 0 <= j < n ensures Tail(e, b)(j) == Times(Tail(e, d), Tail(e, y))(j) - VecMul(e, y, c)(j) {
        assert KeptRow(e, c, d, y, j) == Tail(e, b)(j);
        DotComm(e, ColOf(c, j), y);
      }
    }
    DotComm(n, Tail(e, x), Times(Tail(e, d), Tail(e, y)));
    DotComm(n, Tail(e, x), VecMul(e, y, c));
    DotSwap(e, n, y, c, Tail(e, x));
  }

  /** What the kept right-hand sides gain is the eliminated one, loaded column by column. */
  lemma CarriedTotal(e: nat, n: nat, c: Mat, inv: Vec, b: Vec)
    ensures Sum(n, ReducedRhs(e, c, inv, b)) == Sum(n, Tail(e, b)) + Sum(n, VecMul(e, Times(inv, b), c))
  {
    hide Sum;
    hide Dot;
    var u := Times(inv, b);
    forall j | 0 <= j < n ensures Dot(e, Weighted(c, inv, j), b) == VecMul(e, u, c)(j) { WeightedDot(e, c, inv, b, j); }
    SumAdd(n, Tail(e, b), VecMul(e, u, c), ReducedRhs(e, c, inv, b));
  }

  /** With no ground edge, elimination moves the right-hand side without losing mass. */
  lemma MassConserved(e: nat, n: nat, c: Mat, d: Vec, inv: Vec, g: Vec, b: Vec)
    requires Inverts(e, d, inv) && Balanced(e, n, c, d, g) && Ungrounded(e + n, g)
    ensures Sum(n, ReducedRhs(e, c, inv, b)) == Sum(e + n, b)
  {
    hide Sum;
    hide Dot;
    hide Balanced;
    hide Ungrounded;
    var u := Times(inv, b);
    CarriedTotal(e, n, c, inv, b);
    SumIsDotOne(n, VecMul(e, u, c));
    DotSwap(e, n, u, c, One());
    RowMass(e, n, c, d, inv, g, b);
    SumSplit(e, n, b, Tail(e, b));
  }

  lemma WeightedDot(e: nat, c: Mat, inv: Vec, b: Vec, j: int)
    ensures Dot(e, Weighted(c, inv, j), b) == Dot(e, Times(inv, b), ColOf(c, j))
  {
    var w, u := Weighted(c, inv, j), Times(inv, b);
    forall k | 0 <= k < e ensures w(k) * b(k) == u(k) * c(k, j) { Rotate(c(k, j), inv(k), b(k)); }
    SumCong(e, k => w(k) * b(k), k => u(k) * ColOf(c, j)(k));
  }

  /** Each eliminated row hands on exactly its own right-hand side. */
  lemma RowMass(e: nat, n: nat, c: Mat, d: Vec, inv: Vec, g: Vec, b: Vec)
    requires Inverts(e, d, inv) && Balanced(e, n, c, d, g) && Ungrounded(e + n, g)
    ensures Dot(e, Times(inv, b), MulVec(n, c, One())) == Sum(e, b)
  {
    hide Sum;
    var u, r := Times(inv, b), MulVec(n, c, One());
    forall k | 0 <= k < e ensures u(k) * r(k) == b(k) {
      SumIsDotOne(n, RowOf(c, k));
      assert d(k) == Sum(n, RowOf(c, k)) + g(k);
      Rotate(inv(k), d(k), b(k));
    }
    SumCong(e, k => u(k) * r(k), b);
  }

  lemma Rotate(x: real, y: real, z: real)
    ensures (x * y) * z == (y * z) * x == (x * z) * y
  {
  }

  /** With no ground edge a solvable right-hand side sums to zero. */
  lemma SolvableSumsToZero(e: nat, n: nat, c: Mat, d: Vec, g: Vec, y: Vec, b: Vec)
    requires Balanced(e, n, c, d, g) && Ungrounded(e + n, g) && SolvesBipartite(e, n, c, d, y, b)
    ensures Sum(e + n, b) == 0.0
  {
    hide Balanced;
    hide Dot;
    OnesGiveGround(e, n, c, d, g);
    BipartiteSymmetric(e, n, c, d, y, b, One(), g);
    SumSplit(e, n, b, Tail(e, b));
    SumIsDotOne(e, b);
    DotComm(e, b, One());
    SumIsDotOne(n, Tail(e, b));
    DotComm(n, Tail(e, b), One());
    DotCong(n, Tail(e, One()), Tail(e, b), One(), Tail(e, b));
    DotZero(e, y, g);
    DotZero(n, Tail(e, y), Tail(e, g));
  }

  /** With no ground edge, solutions may be shifted by a constant. */
  lemma ShiftKeepsSolution(e: nat, n: nat, c: Mat, d: Vec, g: Vec, y: Vec, z: Vec, a: real, b: Vec)
    requires Balanced(e, n, c, d, g) && Ungrounded(e + n, g) && SolvesBipartite(e, n, c, d, y, b)
    requires forall i :: 0 <= i < e + n ==> z(i) == y(i) - a
    ensures SolvesBipartite(e, n, c, d, z, b)
  {
    hide Dot;
    hide Sum;
    forall k | 0 <= k < e ensures EliminatedRow(e, n, c, d, z, k) == b(k) {
      assert EliminatedRow(e, n, c, d, y, k) == b(k);
      DotShift(n, RowOf(c, k), Tail(e, y), a, Tail(e, z));
      assert d(k) == Sum(n, RowOf(c, k)) + g(k);
      Distributes(d(k), y(k), a);
    }
    forall j | 0 <= j < n ensures KeptRow(e, c, d, z, j) == Tail(e, b)(j) {
      assert KeptRow(e, c, d, y, j) == Tail(e, b)(j);
      DotShift(e, ColOf(c, j), y, a, z);
      assert Tail(e, d)(j) == Sum(e, ColOf(c, j)) + Tail(e, g)(j);
      Distributes(Tail(e, d)(j), Tail(e, y)(j), a);
    }
  }
}
