/** The diagonal preconditioner: inverse diagonal of the normal matrix `D^T W D`, a zero diagonal
    kept in the null space (crates/within/src/operator/schwarz.rs:48-87, 184-224). */
module DiagonalPreconditioners {
  import opened Wrappers
  import opened Sums
  import opened Vectors
  import opened Elimination
  import opened Bidiagonal
  import opened Scatter
  import opened DesignOperator
  import opened DesignSystem
  import opened PairGrams
  import opened SchwarzDesigns

  // ---- The diagonal ------------------------------------------------------------------------

  /** The channel comes before column `c` of term `q`. */
  predicate Before(ch: Channel, q: nat, c: nat) { ch.term < q || (ch.term == q && ch.column < c) }

  /** Coefficient `j` belongs to a channel before column `c` of term `q`. */
  ghost predicate Reached(d: Design, j: int, q: nat, c: nat) {
    exists ch: Channel, l: nat :: OwnedBy(d, j, ch, l) && Before(ch, q, c)
  }

  ghost predicate OwnedBy(d: Design, j: int, ch: Channel, l: nat) {
    InDesign(d, ch) && l < d.terms[ch.term].nLevels && j == Base(d, ch) + l
  }

  /** A coefficient has one channel and one level. */
  lemma OneOwner(d: Design, j: int, ch: Channel, l: nat, ch': Channel, l': nat)
    requires Laid(d) && OwnedBy(d, j, ch, l) && OwnedBy(d, j, ch', l')
    ensures ch == ch' && l == l'
  {
    DofInBlock(d, ch, l);
    DofInBlock(d, ch', l');
    if ch.term == ch'.term && ch.column != ch'.column { PlaceApart(ch.column, ch'.column, d.terms[ch.term].nLevels, l, l'); }
  }

  /** The diagonal once every channel before column `c` of term `q` is summed. */
  ghost predicate SummedTo(d: Design, scale: Option<seq<real>>, diag: seq<real>, q: nat, c: nat) {
    && |diag| == d.nDofs
    && forall j :: 0 <= j < d.nDofs ==> diag[j] == if Reached(d, j, q, c) then Normal(d, scale)(j, j) else 0.0
  }

  /** What observation `i` adds at `level` of a channel. */
  ghost function Share(d: Design, scale: Option<seq<real>>, ch: Channel, level: nat): int -> real {
    i => if LevelOf(d, ch.term, i) == level then Cube(ScaleAt(scale, i), Loads(d, ch, i), Loads(d, ch, i)) else 0.0
  }

  /** One channel's slice after `n` observations, the rest as before. */
  ghost predicate SlicedTo(d: Design, scale: Option<seq<real>>, before: seq<real>, diag: seq<real>, ch: Channel, n: nat)
    requires InDesign(d, ch)
  {
    && |diag| == |before| == d.nDofs
    && forall j :: 0 <= j < d.nDofs ==> SliceAt(d, scale, before, diag, ch, n, j)
  }

  ghost predicate SliceAt(d: Design, scale: Option<seq<real>>, before: seq<real>, diag: seq<real>, ch: Channel, n: nat, j: int)
    requires InDesign(d, ch) && 0 <= j < |diag| == |before|
  {
    var l := j - Base(d, ch);
    diag[j] == if 0 <= l < d.terms[ch.term].nLevels then before[j] + Sum(n, Share(d, scale, ch, l)) else before[j]
  }

  function WeightOf(weights: Option<seq<real>>, i: nat): real {
    if weights.Some? && i < |weights.value| then weights.value[i] else 1.0
  }

  lemma WeighedShare(d: Design, scale: Option<seq<real>>, weights: Option<seq<real>>, ch: Channel, i: nat)
    requires InDesign(d, ch) && WeighsAs(scale, weights, d.nObs) && i < d.nObs
    ensures WeightOf(weights, i) * Loads(d, ch, i) * Loads(d, ch, i) == Cube(ScaleAt(scale, i), Loads(d, ch, i), Loads(d, ch, i))
  {
    hide Loads;
    hide Cube;
    WeightIs(scale, weights, d.nObs, i);
    CubeOf(WeightOf(weights, i), ScaleAt(scale, i), Loads(d, ch, i), Loads(d, ch, i));
  }

  lemma SliceStep(d: Design, scale: Option<seq<real>>, before: seq<real>, diag: seq<real>, ch: Channel, n: nat, p: nat, v: real, next: seq<real>)
    requires InDesign(d, ch) && SlicedTo(d, scale, before, diag, ch, n) && p < |diag| && p == Base(d, ch) + LevelOf(d, ch.term, n)
    requires LevelOf(d, ch.term, n) < d.terms[ch.term].nLevels && next == diag[p := diag[p] + v]
    requires v == Cube(ScaleAt(scale, n), Loads(d, ch, n), Loads(d, ch, n))
    ensures SlicedTo(d, scale, before, next, ch, n + 1)
  {
    hide Cube;
    hide Loads;
    hide ScaleAt;
    hide InDesign;
    var more := n + 1;
    forall j | 0 <= j < d.nDofs ensures SliceAt(d, scale, before, next, ch, more, j) { assert SliceAt(d, scale, before, diag, ch, n, j); }
  }

  /** One channel's slice. */
  method AddChannel(d: Design, ghost scale: Option<seq<real>>, weights: Option<seq<real>>, ch: Channel, before: seq<real>) returns (diag: seq<real>)
    requires InDesign(d, ch) && WeighsAs(scale, weights, d.nObs) && |before| == d.nDofs
    ensures SlicedTo(d, scale, before, diag, ch, d.nObs)
  {
    hide SlicedTo;
    hide Loads;
    hide Cube;
    hide WeighsAs;
    assert d.TermValid(ch.term);
    diag := before;
    NoSlice(d, scale, before, ch);
    for i := 0 to d.nObs
      invariant SlicedTo(d, scale, before, diag, ch, i) && |diag| == d.nDofs
    {
      var p := Base(d, ch) + d.levels[ch.term][i];
      DofInBlock(d, ch, d.levels[ch.term][i]);
      WeighedShare(d, scale, weights, ch, i);
      var v := WeightOf(weights, i) * Loads(d, ch, i) * Loads(d, ch, i);
      SliceStep(d, scale, before, diag, ch, i, p, v, diag[p := diag[p] + v]);
      diag := diag[p := diag[p] + v];
    }
  }

  lemma NoSlice(d: Design, scale: Option<seq<real>>, before: seq<real>, ch: Channel)
    requires InDesign(d, ch) && |before| == d.nDofs
    ensures SlicedTo(d, scale, before, before, ch, 0)
  {
    hide InDesign;
  }

  /** A channel's shares are the diagonal of the normal matrix. */
  lemma SharesAreNormal(d: Design, scale: Option<seq<real>>, ch: Channel, l: nat)
    requires InDesign(d, ch) && Laid(d) && l < d.terms[ch.term].nLevels
    ensures Normal(d, scale)(Base(d, ch) + l, Base(d, ch) + l) == Sum(d.nObs, Share(d, scale, ch, l))
  {
    hide Sum;
    hide Matrix;
    hide Normal;
    hide Base;
    hide Cube;
    var j := Base(d, ch) + l;
    forall i | 0 <= i < d.nObs ensures ColOf(Matrix(d, scale), j)(i) * ColOf(Matrix(d, scale), j)(i) == Share(d, scale, ch, l)(i) {
      Product(d, scale, ch, l, ch, l, i);
    }
    NormalSum(d, scale, j, j, Share(d, scale, ch, l));
  }

  /** The next column reaches exactly its own channel's coefficients. */
  lemma ReachedNext(d: Design, q: nat, c: nat, j: int)
    requires d.Valid() && Laid(d) && q < |d.terms| && c < |d.terms[q].columns|
    ensures var l := j - Base(d, Channel(q, c));
      && (0 <= l < d.terms[q].nLevels ==> Reached(d, j, q, c + 1) && !Reached(d, j, q, c))
      && (!(0 <= l < d.terms[q].nLevels) ==> (Reached(d, j, q, c + 1) <==> Reached(d, j, q, c)))
  {
    hide Base;
    hide Design.Valid;
    hide Laid;
    var own := Channel(q, c);
    var l := j - Base(d, own);
    if 0 <= l < d.terms[q].nLevels {
      assert OwnedBy(d, j, own, l) && Before(own, q, c + 1);
      if Reached(d, j, q, c) {
        var ch, l' :| OwnedBy(d, j, ch, l') && Before(ch, q, c);
        OneOwner(d, j, own, l, ch, l');
        assert false;
      }
    } else {
      if Reached(d, j, q, c + 1) {
        var ch, l' :| OwnedBy(d, j, ch, l') && Before(ch, q, c + 1);
        assert ch != own;
        assert Before(ch, q, c);
      }
      if Reached(d, j, q, c) {
        var ch, l' :| OwnedBy(d, j, ch, l') && Before(ch, q, c);
        assert Before(ch, q, c + 1);
      }
    }
  }

  lemma SummedNext(d: Design, scale: Option<seq<real>>, before: seq<real>, diag: seq<real>, q: nat, c: nat)
    requires d.Valid() && Laid(d) && q < |d.terms| && c < |d.terms[q].columns|
    requires SummedTo(d, scale, before, q, c) && SlicedTo(d, scale, before, diag, Channel(q, c), d.nObs)
    ensures SummedTo(d, scale, diag, q, c + 1)
  {
    hide Base;
    hide Design.Valid;
    hide Laid;
    hide Sum;
    hide Share;
    hide Normal;
    hide Reached;
    var ch := Channel(q, c);
    forall j | 0 <= j < d.nDofs ensures diag[j] == if Reached(d, j, q, c + 1) then Normal(d, scale)(j, j) else 0.0 {
      assert SliceAt(d, scale, before, diag, ch, d.nObs, j);
      ReachedNext(d, q, c, j);
      if 0 <= j - Base(d, ch) < d.terms[q].nLevels { SharesAreNormal(d, scale, ch, j - Base(d, ch)); }
    }
  }

  /** Past the last column of a term comes the next term. */
  lemma TermDone(d: Design, j: int, q: nat)
    requires q < |d.terms|
    ensures Reached(d, j, q, |d.terms[q].columns|) <==> Reached(d, j, q + 1, 0)
  {
    hide Base;
    hide Design.Valid;
    if Reached(d, j, q, |d.terms[q].columns|) {
      var ch, l :| OwnedBy(d, j, ch, l) && Before(ch, q, |d.terms[q].columns|);
      assert Before(ch, q + 1, 0);
    }
    if Reached(d, j, q + 1, 0) {
      var ch, l :| OwnedBy(d, j, ch, l) && Before(ch, q + 1, 0);
      assert Before(ch, q, |d.terms[q].columns|);
    }
  }

  lemma SummedTerm(d: Design, scale: Option<seq<real>>, diag: seq<real>, q: nat)
    requires q < |d.terms| && SummedTo(d, scale, diag, q, |d.terms[q].columns|)
    ensures SummedTo(d, scale, diag, q + 1, 0)
  {
    hide Reached;
    hide Normal;
    forall j | 0 <= j < d.nDofs ensures diag[j] == if Reached(d, j, q + 1, 0) then Normal(d, scale)(j, j) else 0.0 { TermDone(d, j, q); }
  }

  /** A coefficient no channel reaches has an empty column. */
  lemma UnreachedIsZero(d: Design, scale: Option<seq<real>>, j: nat)
    requires d.Valid() && !Reached(d, j, |d.terms|, 0)
    ensures EmptyColumn(d, scale, j) && Normal(d, scale)(j, j) == 0.0
  {
    hide Sum;
    hide Base;
    hide Design.Entry;
    forall i | 0 <= i < d.nObs ensures Matrix(d, scale)(i, j) == 0.0 {
      NonzeroReached(d, i, j);
      ZeroScaled(ScaleAt(scale, i), d.Entry(i)(j));
    }
    EmptyNormal(d, scale, j);
  }

  lemma ZeroScaled(a: real, b: real)
    ensures b == 0.0 ==> a * b == 0.0
  {
  }

  lemma NonzeroReached(d: Design, i: nat, j: nat)
    requires d.Valid() && i < d.nObs
    ensures d.Entry(i)(j) != 0.0 ==> Reached(d, j, |d.terms|, 0)
  {
    hide Design.Entry;
    hide Base;
    if d.Entry(i)(j) != 0.0 {
      var ch := EntryChannel(d, i, j);
      assert OwnedBy(d, j, ch, LevelOf(d, ch.term, i)) && Before(ch, |d.terms|, 0);
    }
  }

  lemma EmptyNormal(d: Design, scale: Option<seq<real>>, j: nat)
    requires EmptyColumn(d, scale, j)
    ensures Normal(d, scale)(j, j) == 0.0
  {
    hide Matrix;
    DotZero(d.nObs, ColOf(Matrix(d, scale), j), ColOf(Matrix(d, scale), j));
  }

  lemma SummedAll(d: Design, scale: Option<seq<real>>, diag: seq<real>)
    requires d.Valid() && SummedTo(d, scale, diag, |d.terms|, 0)
    ensures |diag| == d.nDofs && forall j :: 0 <= j < d.nDofs ==> diag[j] == Normal(d, scale)(j, j)
  {
    hide Normal;
    hide Reached;
    hide EmptyColumn;
    forall j | 0 <= j < d.nDofs ensures diag[j] == Normal(d, scale)(j, j) {
      if !Reached(d, j, |d.terms|, 0) { UnreachedIsZero(d, scale, j); }
    }
  }

  lemma NothingSummed(d: Design, scale: Option<seq<real>>, diag: seq<real>)
    requires |diag| == d.nDofs && forall j :: 0 <= j < |diag| ==> diag[j] == 0.0
    ensures SummedTo(d, scale, diag, 0, 0)
  {
  }

  /** The pseudo-inverse of the diagonal of the normal matrix. */
  ghost predicate InverseDiagonal(d: Design, scale: Option<seq<real>>, inv: seq<real>) {
    |inv| == d.nDofs && forall j :: 0 <= j < d.nDofs ==> PseudoInverse(inv[j], Normal(d, scale)(j, j))
  }

  predicate PseudoInverse(v: real, x: real) { if x == 0.0 then v == 0.0 else v * x == 1.0 }

  /** `build_diagonal` */
  method BuildDiagonal(d: Design, ghost scale: Option<seq<real>>, weights: Option<seq<real>>) returns (inv: seq<real>)
    requires d.Valid() && Laid(d) && WeighsAs(scale, weights, d.nObs)
    ensures InverseDiagonal(d, scale, inv)
  {
    hide Normal;
    hide Laid;
    hide SummedTo;
    hide SlicedTo;
    hide WeighsAs;
    hide Design.Valid;
    hide PseudoInverse;
    var diag := seq(d.nDofs, _ => 0.0);
    NothingSummed(d, scale, diag);
    for q := 0 to |d.terms|
      invariant SummedTo(d, scale, diag, q, 0) && |diag| == d.nDofs
    {
      for c := 0 to |d.terms[q].columns|
        invariant SummedTo(d, scale, diag, q, c) && |diag| == d.nDofs
      {
        var before := diag;
        diag := AddChannel(d, scale, weights, Channel(q, c), before);
        SummedNext(d, scale, before, diag, q, c);
        SummedSized(d, scale, diag, q, c + 1);
      }
      SummedTerm(d, scale, diag, q);
    }
    SummedAll(d, scale, diag);
    inv := [];
    for j := 0 to |diag|
      invariant |inv| == j && forall k :: 0 <= k < j ==> PseudoInverse(inv[k], diag[k])
    {
      InverseOf(diag[j]);
      inv := inv + [if diag[j] == 0.0 then 0.0 else 1.0 / diag[j]];
    }
  }

  lemma SummedSized(d: Design, scale: Option<seq<real>>, diag: seq<real>, q: nat, c: nat)
    requires SummedTo(d, scale, diag, q, c)
    ensures |diag| == d.nDofs
  {
  }

  lemma InverseOf(x: real)
    ensures PseudoInverse(if x == 0.0 then 0.0 else 1.0 / x, x)
  {
  }

  // ---- The operator ------------------------------------------------------------------------

  ghost function DiagonalApply(inv: seq<real>, x: seq<real>): (y: seq<real>)
    requires |x| == |inv|
    ensures |y| == |x|
  {
    seq(|x|, j requires 0 <= j < |x| == |inv| => inv[j] * x[j])
  }

  ghost function DiagonalPrecond(inv: seq<real>): seq<real> -> seq<real> { x => if |x| == |inv| then DiagonalApply(inv, x) else x }

  /** The weighted design under its diagonal preconditioner. */
  ghost function DiagonalSystem(d: Design, scale: Option<seq<real>>, inv: seq<real>): System { SystemOf(d, scale, DiagonalPrecond(inv)) }

  lemma DiagonalLinear(inv: seq<real>)
    ensures IsLinear(DiagonalPrecond(inv), |inv|, |inv|)
  {
    var f := DiagonalPrecond(inv);
    forall a, x, b, y | |x| == |inv| && |y| == |inv| ensures LinearAt(f, |inv|, a, x, b, y) {
      forall j | 0 <= j < |inv| ensures f(Comb(a, x, b, y))[j] == Comb(a, f(x), b, f(y))[j] { EntryLinear(inv[j], a, x[j], b, y[j]); }
    }
  }

  lemma EntryLinear(v: real, a: real, x: real, b: real, y: real)
    ensures v * (a * x + b * y) == a * (v * x) + b * (v * y)
  {
  }

  /** Diagonal pairings, entry by entry. */
  ghost function Pairing(inv: seq<real>, x: seq<real>, y: seq<real>): int -> real { j => At(inv)(j) * (At(x)(j) * At(y)(j)) }

  lemma PairingAt(inv: seq<real>, x: seq<real>, y: seq<real>, j: nat)
    requires j < |x| == |y| == |inv|
    ensures Pairing(inv, x, y)(j) == inv[j] * (x[j] * y[j])
  {
    assert At(inv)(j) == inv[j] && At(x)(j) == x[j] && At(y)(j) == y[j];
    assert Pairing(inv, x, y)(j) == At(inv)(j) * (At(x)(j) * At(y)(j));
  }

  lemma DiagonalPairing(inv: seq<real>, x: seq<real>, y: seq<real>)
    requires |x| == |y| == |inv|
    ensures Inner(DiagonalApply(inv, x), y) == Sum(|inv|, Pairing(inv, x, y))
  {
    hide Sum;
    var z := DiagonalApply(inv, x);
    var f: int -> real := j => At(z)(j) * At(y)(j);
    forall j | 0 <= j < |inv| ensures f(j) == Pairing(inv, x, y)(j) {
      assert At(z)(j) == inv[j] * x[j] && At(y)(j) == y[j];
      Regroup(inv[j], x[j], y[j]);
      PairingAt(inv, x, y, j);
    }
    SumCong(|inv|, f, Pairing(inv, x, y));
  }

  lemma SwapFactors(x: real, y: real)
    ensures x * y == y * x
  {
  }

  lemma Regroup(v: real, x: real, y: real)
    ensures (v * x) * y == v * (x * y)
  {
  }

  lemma SquaresNonneg(n: nat, c: int -> real)
    ensures Dot(n, c, c) >= 0.0
  {
    hide Sum;
    var f: int -> real := k => c(k) * c(k);
    forall k | 0 <= k < n ensures f(k) >= 0.0 { SquareNonneg(c(k), f(k)); }
    SumNonneg(n, f);
    SumCong(n, f, k => c(k) * c(k));
  }

  lemma InverseNonnegative(d: Design, scale: Option<seq<real>>, inv: seq<real>, j: nat)
    requires InverseDiagonal(d, scale, inv) && j < |inv|
    ensures inv[j] >= 0.0 && (inv[j] == 0.0 ==> EmptyColumn(d, scale, j))
  {
    hide Matrix;
    hide Dot;
    var c := ColOf(Matrix(d, scale), j);
    var x := Normal(d, scale)(j, j);
    assert x == Dot(d.nObs, c, c);
    SquaresNonneg(d.nObs, c);
    PositiveInverse(inv[j], x);
    if x == 0.0 {
      forall i | 0 <= i < d.nObs ensures Matrix(d, scale)(i, j) == 0.0 { SquaresVanish(d.nObs, c, i); }
    }
  }

  lemma PositiveInverse(v: real, x: real)
    requires PseudoInverse(v, x) && x >= 0.0
    ensures v >= 0.0 && (v == 0.0 ==> x == 0.0)
  {
    if v < 0.0 && x > 0.0 { NegativeProduct(v, x); }
  }

  lemma NegativeProduct(v: real, x: real)
    requires v < 0.0 && x > 0.0
    ensures v * x < 0.0
  {
  }

  lemma DiagonalEnergy(inv: seq<real>, x: seq<real>)
    requires |x| == |inv| && forall j :: 0 <= j < |inv| ==> inv[j] >= 0.0
    ensures Inner(DiagonalApply(inv, x), x) >= 0.0
  {
    hide Sum;
    hide Inner;
    DiagonalPairing(inv, x, x);
    forall j | 0 <= j < |inv| ensures Pairing(inv, x, x)(j) >= 0.0 {
      PairingAt(inv, x, x, j);
      SquareNonneg(x[j], x[j] * x[j]);
      NonnegativeProduct(inv[j], x[j] * x[j]);
    }
    SumNonneg(|inv|, Pairing(inv, x, x));
  }

  lemma NonnegativeProduct(v: real, q: real)
    requires v >= 0.0 && q >= 0.0
    ensures v * q >= 0.0
  {
  }

  lemma DiagonalSymmetric(inv: seq<real>, x: seq<real>, y: seq<real>)
    requires |x| == |y| == |inv|
    ensures Inner(DiagonalApply(inv, x), y) == Inner(DiagonalApply(inv, y), x)
  {
    hide Sum;
    hide Inner;
    DiagonalPairing(inv, x, y);
    DiagonalPairing(inv, y, x);
    forall j | 0 <= j < |inv| ensures Pairing(inv, x, y)(j) == Pairing(inv, y, x)(j) {
      PairingAt(inv, x, y, j);
      PairingAt(inv, y, x, j);
      SwapFactors(x[j], y[j]);
    }
    SumCong(|inv|, Pairing(inv, x, y), Pairing(inv, y, x));
  }

  /** The preconditioned solver's requirements are met by the diagonal preconditioner. */
  lemma DiagonalSystemOperators(d: Design, scale: Option<seq<real>>, inv: seq<real>)
    requires InverseDiagonal(d, scale, inv)
    ensures Operators(DiagonalSystem(d, scale, inv))
  {
    hide Inner;
    hide InverseDiagonal;
    hide IsLinear;
    hide Operators;
    hide EmptyColumn;
    hide DiagonalApply;
    var sys := DiagonalSystem(d, scale, inv);
    InverseSized(d, scale, inv);
    DiagonalLinear(inv);
    forall j | 0 <= j < |inv| ensures inv[j] >= 0.0 { InverseNonnegative(d, scale, inv, j); }
    forall x, y | |x| == sys.n && |y| == sys.n ensures SymmetricAt(sys, x, y) {
      DiagonalSymmetric(inv, x, y);
      InnerComm(x, sys.precond(y));
    }
    forall x | |x| == sys.n ensures NonnegativeAt(sys, x) { DiagonalEnergy(inv, x); }
    DesignOperators(d, scale, DiagonalPrecond(inv));
  }

  lemma InverseSized(d: Design, scale: Option<seq<real>>, inv: seq<real>)
    requires InverseDiagonal(d, scale, inv)
    ensures |inv| == d.nDofs
  {
  }

  /** It is definite on gradients: an entry it drops belongs to an empty column. */
  lemma DiagonalDefinite(d: Design, scale: Option<seq<real>>, inv: seq<real>, u: seq<real>)
    requires InverseDiagonal(d, scale, inv) && |u| == d.nObs
    ensures var sys := DiagonalSystem(d, scale, inv);
      sys.precond(sys.adjoint(u)) == Zeros(d.nDofs) <==> sys.adjoint(u) == Zeros(d.nDofs)
  {
    hide Matrix;
    hide Dot;
    hide EmptyColumn;
    hide Normal;
    hide PseudoInverse;
    var sys := DiagonalSystem(d, scale, inv);
    var g := sys.adjoint(u);
    var y := sys.precond(g);
    forall j | 0 <= j < d.nDofs ensures y[j] == 0.0 <==> g[j] == 0.0 {
      assert y[j] == inv[j] * g[j];
      InverseNonnegative(d, scale, inv, j);
      assert g[j] == Gradient(d, scale, At(u))(j);
      if inv[j] == 0.0 { EmptyGradient(d, scale, At(u), j); }
      ZeroFactor(inv[j], g[j]);
    }
  }

  lemma ZeroFactor(v: real, g: real)
    ensures v * g == 0.0 <==> v == 0.0 || g == 0.0
  {
  }
}
