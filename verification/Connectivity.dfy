/** Which right-hand sides a connected component can answer: all of them when it is grounded
    or admits no consistent signs, otherwise those orthogonal to its one sign vector
    (crates/within/src/block_elim/solver.rs:350-466, crates/within/src/block_elim/factor.rs:12-111). */
module Connectivity {
  import opened Sums
  import opened Csr
  import opened CrossTabs
  import opened Elimination
  import opened Gremban
  import opened Sddm
  import opened FoldingSigns
  import opened ReducedFactors
  import opened AssembledSystems
  import opened SddmKernel

  // ---- Connected blocks --------------------------------------------------------------------

  ghost predicate AgreesAt(e: nat, c: Mat, p: int -> bool, k: int, j: int) { c(k, j) == 0.0 || p(k) == p(e + j) }

  /** `p` takes one value along every edge. */
  ghost predicate Respects(e: nat, n: nat, c: Mat, p: int -> bool) {
    forall k, j :: 0 <= k < e && 0 <= j < n ==> AgreesAt(e, c, p, k, j)
  }

  ghost predicate Uniform(n: nat, p: int -> bool) { forall i :: 0 <= i < n ==> p(i) == p(0) }

  /** No cut of the nodes is free of edges. */
  ghost predicate Connected(e: nat, n: nat, c: Mat) {
    forall p: int -> bool :: Respects(e, n, c, p) ==> Uniform(e + n, p)
  }

  ghost predicate SameEdges(e: nat, n: nat, c: Mat, c': Mat) {
    forall k, j :: 0 <= k < e && 0 <= j < n ==> SameEdge(c, c', k, j)
  }

  ghost predicate SameEdge(c: Mat, c': Mat, k: int, j: int) { c(k, j) == 0.0 <==> c'(k, j) == 0.0 }

  /** Connectivity only looks at which entries are zero. */
  lemma ConnectedCong(e: nat, n: nat, c: Mat, c': Mat)
    requires Connected(e, n, c) && SameEdges(e, n, c, c')
    ensures Connected(e, n, c')
  {
    forall p: int -> bool | Respects(e, n, c', p) ensures Uniform(e + n, p) {
      forall k, j | 0 <= k < e && 0 <= j < n ensures AgreesAt(e, c, p, k, j) {
        assert SameEdge(c, c', k, j) && AgreesAt(e, c', p, k, j);
      }
      assert Respects(e, n, c, p);
    }
  }

  function Rotated(e: nat, n: nat, p: int -> bool): int -> bool { i => if i < e then p(n + i) else p(i - e) }

  ghost predicate Mirrors(e: nat, n: nat, c: Mat, c': Mat) {
    forall k, j :: 0 <= k < e && 0 <= j < n ==> MirrorsAt(c, c', k, j)
  }

  ghost predicate MirrorsAt(c: Mat, c': Mat, k: int, j: int) { c'(j, k) == c(k, j) }

  /** Exchanging the two sides keeps a block connected. */
  lemma ConnectedMirror(e: nat, n: nat, c: Mat, c': Mat)
    requires Connected(e, n, c) && Mirrors(e, n, c, c')
    ensures Connected(n, e, c')
  {
    forall p: int -> bool | Respects(n, e, c', p) ensures Uniform(n + e, p) {
      var q := Rotated(e, n, p);
      forall k, j | 0 <= k < e && 0 <= j < n ensures AgreesAt(e, c, q, k, j) {
        assert MirrorsAt(c, c', k, j) && AgreesAt(n, c', p, j, k);
      }
      assert Respects(e, n, c, q);
      UnrotateUniform(e, n, p);
    }
  }

  lemma UnrotateUniform(e: nat, n: nat, p: int -> bool)
    requires Uniform(e + n, Rotated(e, n, p))
    ensures Uniform(n + e, p)
  {
    var q := Rotated(e, n, p);
    forall i | 0 <= i < n + e ensures p(i) == p(0) {
      var u, v := if i < n then e + i else i - n, if 0 < n then e else 0;
      assert q(u) == q(0) && q(v) == q(0);
      assert q(u) == p(i) && q(v) == p(0);
    }
  }

  // ---- Tight vectors -----------------------------------------------------------------------

  ghost predicate Tight(e: nat, n: nat, c: Mat, y: Vec) {
    forall k, j :: 0 <= k < e && 0 <= j < n ==> TightAt(e, c, y, k, j)
  }

  /** A sign per node under which every entry of the block is positive. */
  ghost predicate SignBalance(e: nat, n: nat, c: Mat, s: Vec) {
    (forall i :: 0 <= i < e + n ==> IsSign(s(i))) && Tight(e, n, c, s)
  }

  ghost predicate SomeGround(n: nat, g: Vec) { exists i :: 0 <= i < n && g(i) > 0.0 }

  /** What a connected component with ground edges `g` can answer. */
  ghost predicate Answers(e: nat, n: nat, c: Mat, g: Vec, b: Vec) {
    SomeGround(e + n, g) || forall s: Vec :: SignBalance(e, n, c, s) ==> Dot(e + n, s, b) == 0.0
  }

  lemma FlipMagnitude(v: real, x: real, y: real)
    requires x == Flip(v, y)
    ensures Abs(x) == Abs(y) && (y != 0.0 ==> Signum(x) == Flip(v, Signum(y)))
  {
  }

  /** On a connected block a tight vector has one magnitude throughout. */
  lemma TightMagnitude(e: nat, n: nat, c: Mat, y: Vec, i: nat)
    requires Connected(e, n, c) && Tight(e, n, c, y) && i < e + n
    ensures Abs(y(i)) == Abs(y(0))
  {
    var p := j => Abs(y(j)) == Abs(y(0));
    forall k, j | 0 <= k < e && 0 <= j < n ensures AgreesAt(e, c, p, k, j) {
      assert TightAt(e, c, y, k, j);
      if c(k, j) != 0.0 { FlipMagnitude(c(k, j), y(k), y(e + j)); }
    }
    assert Respects(e, n, c, p);
    assert p(i) == p(0);
  }

  function Signs(y: Vec): Vec { i => Signum(y(i)) }

  /** ... so it is a multiple of a sign vector. */
  lemma TightIsSigned(e: nat, n: nat, c: Mat, y: Vec)
    requires Connected(e, n, c) && Tight(e, n, c, y) && y(0) != 0.0
    ensures SignBalance(e, n, c, Signs(y))
    ensures forall i :: 0 <= i < e + n ==> y(i) == Abs(y(0)) * Signs(y)(i)
  {
    var s := Signs(y);
    forall i | 0 <= i < e + n ensures y(i) == Abs(y(0)) * s(i) && IsSign(s(i)) && y(i) != 0.0 {
      TightMagnitude(e, n, c, y, i);
      SignTimesMagnitude(y(i));
    }
    forall k, j | 0 <= k < e && 0 <= j < n ensures TightAt(e, c, s, k, j) {
      assert TightAt(e, c, y, k, j);
      if c(k, j) != 0.0 { FlipMagnitude(c(k, j), y(k), y(e + j)); }
    }
  }

  lemma SignTimesMagnitude(x: real)
    ensures x == Abs(x) * Signum(x)
  {
  }

  /** Any two sign vectors of a connected block agree up to a global sign. */
  lemma SignsUnique(e: nat, n: nat, c: Mat, s: Vec, t: Vec, i: nat)
    requires Connected(e, n, c) && SignBalance(e, n, c, s) && SignBalance(e, n, c, t) && i < e + n
    ensures s(i) == s(0) * t(0) * t(i)
  {
    var p := j => s(j) == t(j);
    forall k, j | 0 <= k < e && 0 <= j < n ensures AgreesAt(e, c, p, k, j) {
      assert TightAt(e, c, s, k, j) && TightAt(e, c, t, k, j);
    }
    assert Respects(e, n, c, p);
    assert p(i) == p(0);
    assert IsSign(s(0)) && IsSign(t(0)) && IsSign(s(i)) && IsSign(t(i));
    SignCases(s(0), t(0), s(i), t(i));
  }

  lemma SignCases(a: real, b: real, x: real, y: real)
    requires IsSign(a) && IsSign(b) && IsSign(x) && IsSign(y) && (a == b <==> x == y)
    ensures x == a * b * y
  {
    if a == 1.0 { if b == 1.0 {} else {} } else { if b == 1.0 {} else {} }
  }

  // ---- Solvability -------------------------------------------------------------------------

  lemma GroundedNullVanishes(e: nat, n: nat, c: Mat, g: Vec, y: Vec)
    requires Connected(e, n, c) && Null(e, n, c, g, y) && SomeGround(e + n, g)
    ensures forall i :: 0 <= i < e + n ==> y(i) == 0.0
  {
    var k :| 0 <= k < e + n && g(k) > 0.0;
    TightMagnitude(e, n, c, y, k);
    forall i | 0 <= i < e + n ensures y(i) == 0.0 { TightMagnitude(e, n, c, y, i); }
  }

  lemma NullPairing(e: nat, n: nat, c: Mat, g: Vec, b: Vec, y: Vec)
    requires Connected(e, n, c) && Null(e, n, c, g, y) && Answers(e, n, c, g, b)
    ensures Dot(e + n, y, b) == 0.0
  {
    hide Dot;
    hide Connected;
    var m := e + n;
    if SomeGround(m, g) {
      GroundedNullVanishes(e, n, c, g, y);
      DotComm(m, y, b);
      DotZero(m, b, y);
    } else if m > 0 && y(0) != 0.0 {
      TightIsSigned(e, n, c, y);
      var s := Signs(y);
      DotScaleLeft(m, Abs(y(0)), s, y, b);
      assert Dot(m, s, b) == 0.0;
    } else {
      forall i | 0 <= i < m ensures y(i) == 0.0 { TightMagnitude(e, n, c, y, i); }
      DotComm(m, y, b);
      DotZero(m, b, y);
    }
  }

  /** A connected balanced system has a solution exactly when it is grounded somewhere or the
      right-hand side is orthogonal to its sign vectors. */
  lemma ConnectedSolvable(e: nat, n: nat, c: Mat, d: Vec, g: Vec, b: Vec)
    requires Balanced(e, n, MagnitudeOf(c), d, g) && (forall i :: 0 <= i < e + n ==> g(i) >= 0.0) && Connected(e, n, c)
    ensures Solvable(e + n, Assembled(e, c, d), b) <==> Answers(e, n, c, g, b)
  {
    hide Dot;
    hide Connected;
    hide Balanced;
    var m := e + n;
    BalancedSolvable(e, n, c, d, g, b);
    if Answers(e, n, c, g, b) {
      forall y: Vec | Null(e, n, c, g, y) ensures Dot(m, y, b) == 0.0 { NullPairing(e, n, c, g, b, y); }
    }
    if Solvable(m, Assembled(e, c, d), b) && !SomeGround(m, g) {
      forall s: Vec | SignBalance(e, n, c, s) ensures Dot(m, s, b) == 0.0 { assert Null(e, n, c, g, s); }
    }
  }

  /** Without signs and without ground the answerable right-hand sides are those of sum zero. */
  lemma UnsignedAnswers(e: nat, n: nat, c: Mat, g: Vec, b: Vec)
    requires Connected(e, n, c) && Ungrounded(e + n, g) && forall k, j :: 0 <= k < e && 0 <= j < n ==> c(k, j) >= 0.0
    ensures Answers(e, n, c, g, b) <==> Sum(e + n, b) == 0.0
  {
    hide Dot;
    hide Sum;
    hide Connected;
    var m, one := e + n, One();
    SumIsDotOne(m, b);
    DotComm(m, b, one);
    assert SignBalance(e, n, c, one);
    if Sum(m, b) == 0.0 {
      forall s: Vec | SignBalance(e, n, c, s) ensures Dot(m, s, b) == 0.0 {
        forall i {:trigger s(i)} | 0 <= i < m ensures s(i) == s(0) * one(i) { SignsUnique(e, n, c, s, one, i); }
        DotScaleLeft(m, s(0), one, s, b);
      }
    }
  }

  // ---- SDDM matrices -----------------------------------------------------------------------

  ghost predicate ConnectedMatrix(m: SddmMatrix) { Connected(m.NEliminated(), m.NKept(), m.Block()) }

  ghost predicate Answerable(m: SddmMatrix, b: Vec) {
    Answers(m.NEliminated(), m.NKept(), m.Block(), At(m.groundEdges), b)
  }

  /** A connected SDDM system is solvable exactly for the right-hand sides it answers. */
  lemma SddmSolvableIff(m: SddmMatrix, b: Vec)
    requires m.Valid() && ConnectedMatrix(m)
    ensures SddmSolvable(m, b) <==> Answerable(m, b)
  {
    hide Answers;
    hide Connected;
    hide Sum;
    hide CrossTab.Valid;
    var e, n, c, d, g := m.NEliminated(), m.NKept(), m.Block(), At(m.diagonal), At(m.groundEdges);
    BalancedSame(e, n, m.Magnitude(), MagnitudeOf(c), d, g);
    ConnectedSolvable(e, n, c, d, g, b);
    if Solvable(e + n, Assembled(e, c, d), b) {
      var y: Vec :| Solves(e + n, Assembled(e, c, d), y, b);
      AssembledIsBipartite(e, n, c, d, y, b);
      assert SolvesSddm(m, y, b);
    }
    if SddmSolvable(m, b) {
      var y: Vec :| SolvesSddm(m, y, b);
      AssembledIsBipartite(e, n, c, d, y, b);
    }
  }

  /** A floating unsigned matrix answers exactly the right-hand sides that sum to zero. */
  lemma FloatingAnswers(m: SddmMatrix, b: Vec)
    requires m.Valid() && ConnectedMatrix(m) && m.Unsigned() && m.grounding.Floating?
    ensures Answerable(m, b) <==> Sum(m.crossTab.NLocal(), b) == 0.0
  {
    hide Answers;
    hide Connected;
    hide CrossTab.Valid;
    forall k, j | 0 <= k < m.NEliminated() && 0 <= j < m.NKept() ensures m.Block()(k, j) >= 0.0 { NonnegativeEntry(m.crossTab.c, k, j); }
    UnsignedAnswers(m.NEliminated(), m.NKept(), m.Block(), At(m.groundEdges), b);
  }
}
