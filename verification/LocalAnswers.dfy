/** What the local solve of a converted component achieves, in terms of the component's Gram
    matrix alone (crates/within/src/domain/factor_pairs/sddm.rs:84-352,
    crates/within/src/block_elim/solver.rs:444-467). */
module LocalAnswers {
  import opened Wrappers
  import opened Sums
  import opened Csr
  import opened CrossTabs
  import opened Transposition
  import opened Elimination
  import opened Sddm
  import opened FoldingSigns
  import opened ReducedFactors
  import opened AssembledSystems
  import opened Components
  import opened SddmKernel
  import opened Connectivity
  import opened BlockElimSolver
  import opened SolveLocal
  import opened Convert
  import opened Build

  // ---- Connectivity survives orientation and folding ---------------------------------------

  /** Orientation exchanges the sides of a connected block. */
  lemma OrientedConnected(x: CrossTab, d: seq<real>, globals: seq<nat>)
    requires x.Valid() && |d| == |globals| == x.NLocal() && Connected(x.NRows(), x.NCols(), MatrixOf(x.c))
    ensures var (y, _, _) := Orient(x, d, globals); Connected(y.NRows(), y.NCols(), MatrixOf(y.c))
  {
    hide Connected;
    hide CsrBlock.Entry;
    hide Coef;
    if x.NRows() < x.NCols() {
      var c, ct := MatrixOf(x.c), MatrixOf(x.ct);
      forall k, j | 0 <= k < x.NRows() && 0 <= j < x.NCols() ensures MirrorsAt(c, ct, k, j) { TransposeEntry(x.c, x.ct, k, j); }
      ConnectedMirror(x.NRows(), x.NCols(), c, ct);
    }
  }

  ghost predicate AllNonzero(f: seq<real>) { forall i :: 0 <= i < |f| ==> f[i] != 0.0 }

  lemma FoldedZero(a: real, b: real, v: real)
    requires a != 0.0 && b != 0.0
    ensures FoldedWeight(a, b, v) == 0.0 <==> v == 0.0
  {
    if v != 0.0 {
      NonzeroTimes(a, b);
      NonzeroTimes(a * b, v);
    }
  }

  lemma NonzeroTimes(a: real, b: real)
    requires a != 0.0 && b != 0.0
    ensures a * b != 0.0
  {
  }

  /** Nonzero factors fold a connected block to a connected one. */
  lemma ConvertedConnected(x: CrossTab, d: seq<real>, f: seq<real>, config: ScalingConfig, comp: LocalComponent)
    requires ConvertedBy(x, d, f, config, comp) && AllNonzero(f) && Connected(x.NRows(), x.NCols(), MatrixOf(x.c))
    ensures ConnectedMatrix(comp.matrix)
  {
    hide Connected;
    hide FoldedWeight;
    hide Finalized;
    hide IsFolded;
    hide CsrBlock.Entry;
    hide SddmMatrix.Valid;
    var e, c, c' := x.NRows(), MatrixOf(x.c), comp.matrix.Block();
    FoldedBlockShape(x, d, f, config, comp);
    forall k, j | 0 <= k < e && 0 <= j < x.NCols() ensures SameEdge(c, c', k, j) {
      FoldedEntry(x.c, f, comp.matrix.crossTab.c, k, j);
      FoldedZero(f[k], f[e + j], x.c.Entry(k, j));
    }
    ConnectedCong(e, x.NCols(), c, c');
  }

  // ---- Signatures are sign balances --------------------------------------------------------

  /** The entry at `(k, j)` finds the sign it demands. */
  ghost predicate SettledEntry(x: CrossTab, sigma: seq<real>, k: int, j: int)
    requires 0 <= k < x.NRows() && 0 <= j < x.NCols() && |sigma| == x.NLocal()
  {
    x.c.Entry(k, j) != 0.0 ==> sigma[x.NRows() + j] == Opposite(sigma[k], x.c.Entry(k, j))
  }

  ghost predicate SettledEntries(x: CrossTab, sigma: seq<real>) {
    && |sigma| == x.NLocal() && (forall i :: 0 <= i < |sigma| ==> IsSign(sigma[i]))
    && forall k, j :: 0 <= k < x.NRows() && 0 <= j < x.NCols() ==> SettledEntry(x, sigma, k, j)
  }

  lemma SignatureSettles(x: CrossTab, sigma: seq<real>)
    requires x.Valid() && Undirected(x.Graph()) && Signature(x.Graph(), sigma)
    ensures SettledEntries(x, sigma)
  {
    hide Coef;
    hide Undirected;
    hide IsTranspose;
    Shaped(x);
    var g, n := x.Graph(), x.NRows();
    forall k, j | 0 <= k < n && 0 <= j < x.NCols() ensures SettledEntry(x, sigma, k, j) {
      var r := x.c.Row(k);
      if x.c.Entry(k, j) != 0.0 {
        EntryStored(r, j);
        var t :| 0 <= t < |r| && r[t].0 == j && r[t].1 == Coef(r, j);
        RowInGraph(x, k);
        assert Settled(g, sigma, k) && g[k][t] == (n + j, r[t].1);
      }
    }
  }

  lemma OppositeBack(s: real, t: real, v: real)
    requires IsSign(s) && IsSign(t) && t == Opposite(s, v)
    ensures s == Opposite(t, v)
  {
  }

  lemma RowSettled(x: CrossTab, sigma: seq<real>, i: nat, j: nat, v: real)
    requires x.Valid() && x.c.Nonzero() && SettledEntries(x, sigma) && i < x.NRows() && (j, v) in x.Neighbors(i)
    ensures x.NRows() <= j < x.NLocal() && sigma[j] == Opposite(sigma[i], v)
  {
    hide Coef;
    hide IsTranspose;
    Shaped(x);
    EdgeFromRow(x, i, j, v);
    var n, r := x.NRows(), x.c.Row(i);
    ShiftIn(r, n, j - n, v);
    var t :| 0 <= t < |r| && r[t] == (j - n, v);
    CoefStored(r, t);
    assert NoZeros(r) && SettledEntry(x, sigma, i, j - n);
  }

  lemma NodeSettled(x: CrossTab, sigma: seq<real>, i: nat, j: nat, v: real)
    requires x.Valid() && x.c.Nonzero() && SettledEntries(x, sigma) && i < x.NLocal() && (j, v) in x.Neighbors(i)
    ensures j < x.NLocal() && sigma[j] == Opposite(sigma[i], v)
  {
    hide CsrBlock.Nonzero;
    hide SettledEntry;
    if i < x.NRows() {
      RowSettled(x, sigma, i, j, v);
    } else {
      EdgeFromColumn(x, i, j, v);
      RowSettled(x, sigma, j, i, v);
      OppositeBack(sigma[j], sigma[i], v);
    }
  }

  lemma SettledIsSignature(x: CrossTab, sigma: seq<real>)
    requires x.Valid() && x.c.Nonzero() && SettledEntries(x, sigma)
    ensures Undirected(x.Graph()) && Signature(x.Graph(), sigma)
  {
    hide CsrBlock.Nonzero;
    hide SettledEntries;
    hide IsTranspose;
    hide Undirected;
    Shaped(x);
    GraphUndirected(x);
    var g := x.Graph();
    SettledSized(x, sigma);
    forall i | 0 <= i < |g| ensures Settled(g, sigma, i) {
      assert g[i] == x.Neighbors(i);
      forall t | 0 <= t < |g[i]| ensures sigma[g[i][t].0] == Opposite(sigma[i], g[i][t].1) {
        assert (g[i][t].0, g[i][t].1) in x.Neighbors(i);
        NodeSettled(x, sigma, i, g[i][t].0, g[i][t].1);
      }
    }
  }

  lemma SettledSized(x: CrossTab, sigma: seq<real>)
    requires SettledEntries(x, sigma)
    ensures |sigma| == x.NLocal() && forall i :: 0 <= i < |sigma| ==> IsSign(sigma[i])
  {
  }

  /** Signs carried through the signs of the factors. */
  function Carry(sigma: Vec, f: seq<real>): Vec { i => sigma(i) * Signum(At(f)(i)) }

  lemma SignedEdge(s: real, t: real, a: real, b: real, v: real)
    requires IsSign(s) && IsSign(t) && a != 0.0 && b != 0.0 && v != 0.0
    ensures FoldedWeight(a, b, v) != 0.0
    ensures s == Flip(FoldedWeight(a, b, v), t) <==> t * Signum(b) == Opposite(s * Signum(a), v)
  {
    FoldedZero(a, b, v);
    FoldedSignum(a, b, v);
    if s == 1.0 { if t == 1.0 {} else {} } else { if t == 1.0 {} else {} }
  }

  lemma FoldedSignum(a: real, b: real, v: real)
    requires a != 0.0 && b != 0.0 && v != 0.0
    ensures FoldedWeight(a, b, v) < 0.0 <==> Signum(a) * Signum(b) * Signum(v) > 0.0
  {
    var p := a * b;
    assert (-a) * b == -p;
    assert FoldedWeight(a, b, v) == -(p * v);
    TimesSign(a, b);
    TimesSign(p, v);
  }

  lemma TimesSign(a: real, b: real)
    requires a != 0.0 && b != 0.0
    ensures a * b != 0.0 && (a * b < 0.0 <==> (a < 0.0) != (b < 0.0))
  {
    if a < 0.0 {
      if b < 0.0 { assert (-a) * (-b) == a * b; PositiveProduct(-a, -b); } else { assert (-a) * b == -(a * b); PositiveProduct(-a, b); }
    } else {
      if b < 0.0 { assert a * (-b) == -(a * b); PositiveProduct(a, -b); } else { PositiveProduct(a, b); }
    }
  }

  /** Carrying signs over the factors turns signatures of the component into sign balances of
      its folded block, and back. */
  lemma BalanceIffSettled(x: CrossTab, d: seq<real>, f: seq<real>, config: ScalingConfig, comp: LocalComponent, s: Vec, sigma: seq<real>)
    requires ConvertedBy(x, d, f, config, comp) && AllNonzero(f) && |sigma| == x.NLocal()
    requires forall i :: 0 <= i < |sigma| ==> sigma[i] == Carry(s, f)(i)
    requires forall i :: 0 <= i < |sigma| ==> IsSign(s(i))
    ensures SignBalance(x.NRows(), x.NCols(), comp.matrix.Block(), s) <==> SettledEntries(x, sigma)
  {
    hide FoldedWeight;
    hide Finalized;
    hide IsFolded;
    hide CsrBlock.Entry;
    hide SddmMatrix.Valid;
    var e, n, c' := x.NRows(), x.NCols(), comp.matrix.Block();
    FoldedBlockShape(x, d, f, config, comp);
    hide TightAt;
    hide SettledEntry;
    forall k, j | 0 <= k < e && 0 <= j < n ensures TightAt(e, c', s, k, j) <==> SettledEntry(x, sigma, k, j) {
      TightIffSettled(x, f, comp.matrix, s, sigma, k, j);
    }
    forall i | 0 <= i < |sigma| ensures IsSign(sigma[i]) { CarriedSign(s(i), At(f)(i)); }
  }

  /** ... entry by entry. */
  lemma TightIffSettled(x: CrossTab, f: seq<real>, m: SddmMatrix, s: Vec, sigma: seq<real>, k: nat, j: nat)
    requires IsFolded(x.c, f, m.crossTab.c) && AllNonzero(f) && |sigma| == |f| == x.NLocal() && k < x.NRows() && j < x.NCols()
    requires sigma[k] == Carry(s, f)(k) && sigma[x.NRows() + j] == Carry(s, f)(x.NRows() + j)
    requires IsSign(s(k)) && IsSign(s(x.NRows() + j))
    ensures TightAt(x.NRows(), m.Block(), s, k, j) <==> SettledEntry(x, sigma, k, j)
  {
    hide FoldedWeight;
    hide IsFolded;
    hide CsrBlock.Entry;
    hide IsSign;
    var e, v := x.NRows(), x.c.Entry(k, j);
    FoldedEntry(x.c, f, m.crossTab.c, k, j);
    FoldedZero(f[k], f[e + j], v);
    if v != 0.0 { SignedEdge(s(k), s(e + j), f[k], f[e + j], v); }
  }

  lemma CarriedSign(s: real, a: real)
    requires IsSign(s)
    ensures IsSign(s * Signum(a))
  {
  }

  // ---- The answer --------------------------------------------------------------------------

  /** What the sign vector `sigma`, weighted by the factors, collects from a right-hand side. */
  function SignedLoad(sigma: seq<real>, f: seq<real>, r: seq<real>): Vec { i => At(sigma)(i) * (Abs(At(f)(i)) * At(r)(i)) }

  /** Every signature, weighted by the factors, is orthogonal to the right-hand side. */
  ghost predicate OrthogonalToSignatures(x: CrossTab, f: seq<real>, r: seq<real>)
    requires x.Valid() && Undirected(x.Graph())
  {
    forall sigma :: Signature(x.Graph(), sigma) ==> Sum(x.NLocal(), SignedLoad(sigma, f, r)) == 0.0
  }

  lemma LoadScalars(s: real, a: real, r: real)
    ensures s * (a * r) == (s * Signum(a)) * (Abs(a) * r)
  {
    if a < 0.0 { assert (s * -1.0) * ((-a) * r) == s * (a * r); }
  }

  /** Pairing with a sign balance is the load of the signature it carries to. */
  lemma PairingIsLoad(n: nat, s: Vec, b: Vec, sigma: seq<real>, f: seq<real>, r: seq<real>)
    requires |sigma| == n && (forall i :: 0 <= i < n ==> sigma[i] == Carry(s, f)(i))
    requires forall i :: 0 <= i < n ==> b(i) == At(f)(i) * At(r)(i)
    ensures Dot(n, s, b) == Sum(n, SignedLoad(sigma, f, r))
  {
    hide Sum;
    var t: Vec := i => s(i) * b(i);
    forall i | 0 <= i < n ensures t(i) == SignedLoad(sigma, f, r)(i) {
      assert At(sigma)(i) == sigma[i];
      LoadScalars(s(i), At(f)(i), At(r)(i));
    }
    SumCong(n, t, SignedLoad(sigma, f, r));
    SumCong(n, t, i => s(i) * b(i));
  }

  lemma CarryTwice(s: real, a: real)
    ensures (s * Signum(a)) * Signum(a) == s
  {
  }

  /** Without a signature the folded component has no sign balance. */
  lemma NoBalance(x: CrossTab, d: seq<real>, f: seq<real>, config: ScalingConfig, comp: LocalComponent, s: Vec)
    requires x.Valid() && x.c.Nonzero() && Undirected(x.Graph()) && ConvertedBy(x, d, f, config, comp) && AllNonzero(f)
    requires forall sigma :: !Signature(x.Graph(), sigma)
    ensures !SignBalance(x.NRows(), x.NCols(), comp.matrix.Block(), s)
  {
    hide ConvertedBy;
    hide SettledEntries;
    hide Undirected;
    hide CrossTab.Valid;
    hide CsrBlock.Nonzero;
    hide Tight;
    Shaped(x);
    if SignBalance(x.NRows(), x.NCols(), comp.matrix.Block(), s) {
      var sigma := seq(x.NLocal(), i => Carry(s, f)(i));
      BalanceIffSettled(x, d, f, config, comp, s, sigma);
      SettledIsSignature(x, sigma);
    }
  }

  /** The folded component's sign balances are all orthogonal to the folded right-hand side
      exactly when its signatures are to the original one. */
  lemma BalancesAreSignatures(x: CrossTab, d: seq<real>, f: seq<real>, config: ScalingConfig, comp: LocalComponent, r: seq<real>, b: Vec)
    requires x.Valid() && x.c.Nonzero() && Undirected(x.Graph()) && ConvertedBy(x, d, f, config, comp) && AllNonzero(f)
    requires forall i :: 0 <= i < x.NLocal() ==> b(i) == At(f)(i) * At(r)(i)
    ensures (forall s: Vec :: SignBalance(x.NRows(), x.NCols(), comp.matrix.Block(), s) ==> Dot(x.NLocal(), s, b) == 0.0) <==>
            OrthogonalToSignatures(x, f, r)
  {
    hide Sum;
    hide Dot;
    hide ConvertedBy;
    hide SettledEntries;
    hide Undirected;
    hide CrossTab.Valid;
    hide CsrBlock.Nonzero;
    hide Tight;
    Shaped(x);
    var e, n, l, c' := x.NRows(), x.NCols(), x.NLocal(), comp.matrix.Block();
    if OrthogonalToSignatures(x, f, r) {
      forall s: Vec | SignBalance(e, n, c', s) ensures Dot(l, s, b) == 0.0 {
        var sigma := seq(l, i => Carry(s, f)(i));
        BalanceIffSettled(x, d, f, config, comp, s, sigma);
        SettledIsSignature(x, sigma);
        PairingIsLoad(l, s, b, sigma, f, r);
      }
    }
    if forall s: Vec :: SignBalance(e, n, c', s) ==> Dot(l, s, b) == 0.0 {
      forall sigma | Signature(x.Graph(), sigma) ensures Sum(l, SignedLoad(sigma, f, r)) == 0.0 {
        SignatureSettles(x, sigma);
        SettledSized(x, sigma);
        var s := Carry(At(sigma), f);
        forall i | 0 <= i < l ensures IsSign(s(i)) && sigma[i] == Carry(s, f)(i) {
          CarriedSign(sigma[i], At(f)(i));
          CarryTwice(sigma[i], At(f)(i));
        }
        BalanceIffSettled(x, d, f, config, comp, s, sigma);
        PairingIsLoad(l, s, b, sigma, f, r);
      }
    }
  }

  /** Some scaled row is strictly dominant. */
  ghost predicate StrictlyDominant(n: nat, d: Vec, s: Vec) { exists i :: 0 <= i < n && s(i) < d(i) }

  /** Without loss, a ground edge is a strictly dominant scaled row. */
  lemma GroundIsStrict(n: nat, d: Vec, s: Vec, config: ScalingConfig, m: SddmMatrix)
    requires Finalized(n, d, s, config, m) && Lossless(n, d, s, config)
    ensures SomeGround(n, At(m.groundEdges)) <==> StrictlyDominant(n, d, s)
  {
    hide Floats;
    forall i | 0 <= i < n ensures At(m.groundEdges)(i) > 0.0 <==> s(i) < d(i) {
      assert FinalizedAt(d, s, m, i);
      LosslessAt(d(i), s(i));
      assert Surpluses(d, s)(i) == Max(Clamped(d(i), s(i)) - s(i), 0.0);
    }
    if SomeGround(n, At(m.groundEdges)) {
      var i :| 0 <= i < n && At(m.groundEdges)(i) > 0.0;
      assert s(i) < d(i);
    }
    if StrictlyDominant(n, d, s) {
      var i :| 0 <= i < n && s(i) < d(i);
      assert At(m.groundEdges)(i) > 0.0;
    }
  }

  lemma FoldedRhsAt(coords: CoordinateMap, e: nat, f: seq<real>, r: seq<real>)
    requires |f| == |r| && forall i :: 0 <= i < |f| ==> coords.Scale(e, i) == f[i]
    ensures forall i :: 0 <= i < |r| ==> At(FoldedVec(coords, e, r))(i) == At(f)(i) * At(r)(i)
  {
    var v := FoldedVec(coords, e, r);
    forall i | 0 <= i < |r| ensures At(v)(i) == At(f)(i) * At(r)(i) { assert v[i] == coords.Scale(e, i) * r[i]; }
  }

  lemma LocalSized(s: BlockElimSolver, m: SddmMatrix, r: seq<real>, y: seq<real>, x: seq<real>)
    requires SolvedLocally(s, m, r, y, x)
    ensures |r| == m.crossTab.NLocal()
  {
  }

  /** Conversion, build and local solve together, for a connected component converted without
      loss: the solve answers the Gram system exactly when some scaled row is strictly dominant
      or every signature of the component is orthogonal to the right-hand side. In particular
      a component without a signature is always answered. */
  lemma LocalSolveAnswersGram(x: CrossTab, d: seq<real>, f: seq<real>, config: ScalingConfig, comp: LocalComponent, s: BlockElimSolver,
                              r: seq<real>, y: seq<real>, sol: seq<real>)
    requires x.Valid() && x.c.Nonzero() && Undirected(x.Graph()) && Connected(x.NRows(), x.NCols(), MatrixOf(x.c))
    requires ConvertedBy(x, d, f, config, comp) && AllNonzero(f)
    requires Lossless(x.NLocal(), ScaledDiagonal(d, f), OffMass(x, f), config)
    requires BuiltFrom(s, comp.matrix) && s.coordinates == comp.coordinates && SolvedLocally(s, comp.matrix, r, y, sol)
    ensures Solves(|r|, Gram(x, d), At(sol), At(r)) <==>
            StrictlyDominant(x.NLocal(), ScaledDiagonal(d, f), OffMass(x, f)) || OrthogonalToSignatures(x, f, r)
  {
    hide Sum;
    hide Dot;
    hide Solves;
    hide Lossless;
    hide Finalized;
    hide Connected;
    hide BuiltFrom;
    hide Undirected;
    hide CrossTab.Valid;
    hide OrthogonalToSignatures;
    hide SddmMatrix.Valid;
    hide SolvedLocally;
    hide FoldedVec;
    hide IsFolded;
    hide SignBalance;
    hide OffMass;
    hide ScaledDiagonal;
    LocalSized(s, comp.matrix, r, y, sol);
    ConvertedSolverRepresents(x, d, f, config, comp, s);
    ConvertedConnected(x, d, f, config, comp);
    SolvesIffAnswerable(Gram(x, d), s, comp.matrix, r, y, sol);
    FoldedBlockShape(x, d, f, config, comp);
    GroundIsStrict(x.NLocal(), ScaledDiagonal(d, f), OffMass(x, f), config, comp.matrix);
    var b := FoldedRhs(s, comp.matrix, r);
    FoldedRhsAt(s.coordinates, x.NRows(), f, r);
    BalancesAreSignatures(x, d, f, config, comp, r, b);
  }
}
