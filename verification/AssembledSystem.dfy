/** The bipartite system written as one matrix over all local nodes
    (crates/within/src/domain/factor_pairs/sddm.rs:108-135). */
module AssembledSystems {
  import opened Sums
  import opened Elimination
  import opened Sddm

  /** `[D_e, -C; -C^T, D_k]` written out over all nodes. */
  function Assembled(e: nat, c: Mat, d: Vec): Mat {
    (i, j) =>
      if i == j then d(i)
      else if i < e && j >= e then -c(i, j - e)
      else if i >= e && j < e then -c(j, i - e)
      else 0.0
  }

  /** A row `[d at i | -c]`. */
  lemma EliminatedRowDot(e: nat, n: nat, row: Vec, c: Vec, y: Vec, i: nat)
    requires i < e && forall k :: 0 <= k < e && k != i ==> row(k) == 0.0
    requires forall j {:trigger c(j)} :: 0 <= j < n ==> Tail(e, row)(j) == -1.0 * c(j)
    ensures Dot(e + n, row, y) == row(i) * y(i) - Dot(n, c, Tail(e, y))
  {
    DotSplit(e, n, row, y);
    DotUnit(e, i, row, y);
    NegatedDot(n, c, Tail(e, row), Tail(e, y));
  }

  lemma NegatedDot(n: nat, c: Vec, r: Vec, x: Vec)
    requires forall j {:trigger r(j)} :: 0 <= j < n ==> r(j) == -1.0 * c(j)
    ensures Dot(n, r, x) == -Dot(n, c, x)
  {
    DotScaleLeft(n, -1.0, c, r, x);
  }

  /** A row `[-c | d at e + j]`. */
  lemma KeptRowDot(e: nat, n: nat, row: Vec, c: Vec, y: Vec, j: nat)
    requires j < n && forall k :: 0 <= k < n && k != j ==> Tail(e, row)(k) == 0.0
    requires forall k {:trigger c(k)} :: 0 <= k < e ==> row(k) == -1.0 * c(k)
    ensures Dot(e + n, row, y) == Tail(e, row)(j) * Tail(e, y)(j) - Dot(e, c, y)
  {
    DotSplit(e, n, row, y);
    DotUnit(n, j, Tail(e, row), Tail(e, y));
    NegatedDot(e, c, row, y);
  }

  lemma AssembledRow(e: nat, n: nat, c: Mat, d: Vec, y: Vec, i: nat)
    requires i < e
    ensures MulVec(e + n, Assembled(e, c, d), y)(i) == EliminatedRow(e, n, c, d, y, i)
  {
    hide Dot;
    var row := RowOf(Assembled(e, c, d), i);
    forall j {:trigger RowOf(c, i)(j)} | 0 <= j < n ensures Tail(e, row)(j) == -1.0 * RowOf(c, i)(j) {}
    EliminatedRowDot(e, n, row, RowOf(c, i), y, i);
  }

  lemma AssembledKeptRow(e: nat, n: nat, c: Mat, d: Vec, y: Vec, j: nat)
    requires j < n
    ensures MulVec(e + n, Assembled(e, c, d), y)(e + j) == KeptRow(e, c, d, y, j)
  {
    hide Dot;
    var row := RowOf(Assembled(e, c, d), e + j);
    forall k {:trigger ColOf(c, j)(k)} | 0 <= k < e ensures row(k) == -1.0 * ColOf(c, j)(k) {}
    KeptRowDot(e, n, row, ColOf(c, j), y, j);
  }

  /** The bipartite equations are the rows of the assembled matrix. */
  lemma AssembledIsBipartite(e: nat, n: nat, c: Mat, d: Vec, y: Vec, b: Vec)
    ensures Solves(e + n, Assembled(e, c, d), y, b) <==> SolvesBipartite(e, n, c, d, y, b)
  {
    if SolvesBipartite(e, n, c, d, y, b) { BipartiteGivesAssembled(e, n, c, d, y, b); }
    if Solves(e + n, Assembled(e, c, d), y, b) { AssembledGivesBipartite(e, n, c, d, y, b); }
  }

  lemma BipartiteGivesAssembled(e: nat, n: nat, c: Mat, d: Vec, y: Vec, b: Vec)
    requires SolvesBipartite(e, n, c, d, y, b)
    ensures Solves(e + n, Assembled(e, c, d), y, b)
  {
    hide Dot;
    hide Assembled;
    var m, a := e + n, Assembled(e, c, d);
    forall i | 0 <= i < m ensures MulVec(m, a, y)(i) == b(i) {
      if i < e {
        AssembledRow(e, n, c, d, y, i);
        assert EliminatedRow(e, n, c, d, y, i) == b(i);
      } else {
        AssembledKeptRow(e, n, c, d, y, i - e);
        assert KeptRow(e, c, d, y, i - e) == Tail(e, b)(i - e);
      }
    }
  }

  lemma AssembledGivesBipartite(e: nat, n: nat, c: Mat, d: Vec, y: Vec, b: Vec)
    requires Solves(e + n, Assembled(e, c, d), y, b)
    ensures SolvesBipartite(e, n, c, d, y, b)
  {
    hide Dot;
    hide Assembled;
    var t := MulVec(e + n, Assembled(e, c, d), y);
    forall i | 0 <= i < e ensures EliminatedRow(e, n, c, d, y, i) == b(i) {
      AssembledRow(e, n, c, d, y, i);
      assert t(i) == b(i);
    }
    forall j | 0 <= j < n ensures KeptRow(e, c, d, y, j) == Tail(e, b)(j) {
      AssembledKeptRow(e, n, c, d, y, j);
      assert t(e + j) == b(e + j);
    }
  }

  // ---- SDDM matrices -----------------------------------------------------------------------

  ghost function Full(m: SddmMatrix): Mat { Assembled(m.NEliminated(), m.Block(), At(m.diagonal)) }

  ghost predicate SolvesSddm(m: SddmMatrix, y: Vec, b: Vec) {
    SolvesBipartite(m.NEliminated(), m.NKept(), m.Block(), At(m.diagonal), y, b)
  }

  ghost predicate SddmSolvable(m: SddmMatrix, b: Vec) {
    exists y: Vec :: SolvesSddm(m, y, b)
  }
}
