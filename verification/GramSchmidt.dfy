/** Pivoted Gram-Schmidt through a Gram matrix alone (crates/within/src/solver/reparam.rs:277-330). */
module GramSchmidt {
  import opened Wrappers
  import opened Sums
  import opened Vectors
  import opened LevelMoment

  /** G b */
  ghost function Image(g: seq<seq<real>>, v: nat, b: seq<real>): (r: seq<real>)
    requires Square(g, v) && |b| == v
    ensures |r| == v
  {
    seq(v, i requires 0 <= i < v => Inner(g[i], b))
  }

  /** a G b^T, the geometry of the slope columns in coordinates. */
  ghost function Pairing(g: seq<seq<real>>, v: nat, a: seq<real>, b: seq<real>): real
    requires Square(g, v) && |a| == |b| == v
  {
    Inner(a, Image(g, v, b))
  }

  ghost predicate Symmetric(g: seq<seq<real>>, v: nat) {
    Square(g, v) && forall i, j :: 0 <= i < v && 0 <= j < v ==> g[i][j] == g[j][i]
  }

  lemma ImageComb(g: seq<seq<real>>, v: nat, a: real, x: seq<real>, b: real, y: seq<real>)
    requires Square(g, v) && |x| == |y| == v
    ensures Image(g, v, Comb(a, x, b, y)) == Comb(a, Image(g, v, x), b, Image(g, v, y))
  {
    hide Inner;
    var l, r := Image(g, v, Comb(a, x, b, y)), Comb(a, Image(g, v, x), b, Image(g, v, y));
    forall i | 0 <= i < v ensures l[i] == r[i] { InnerCombRight(g[i], a, x, b, y); }
  }

  lemma PairingCombRight(g: seq<seq<real>>, v: nat, z: seq<real>, a: real, x: seq<real>, b: real, y: seq<real>)
    requires Square(g, v) && |x| == |y| == |z| == v
    ensures Pairing(g, v, z, Comb(a, x, b, y)) == a * Pairing(g, v, z, x) + b * Pairing(g, v, z, y)
  {
    hide Inner;
    ImageComb(g, v, a, x, b, y);
    InnerCombRight(z, a, Image(g, v, x), b, Image(g, v, y));
  }

  lemma PairingCombLeft(g: seq<seq<real>>, v: nat, a: real, x: seq<real>, b: real, y: seq<real>, z: seq<real>)
    requires Square(g, v) && |x| == |y| == |z| == v
    ensures Pairing(g, v, Comb(a, x, b, y), z) == a * Pairing(g, v, x, z) + b * Pairing(g, v, y, z)
  {
    hide Inner;
    InnerComb(a, x, b, y, Image(g, v, z));
  }

  ghost function Entries(g: seq<seq<real>>): (int, int) -> real {
    (i, j) => if 0 <= i < |g| && 0 <= j < |g[i]| then g[i][j] else 0.0
  }

  lemma PairingIsDot(g: seq<seq<real>>, v: nat, a: seq<real>, b: seq<real>)
    requires Square(g, v) && |a| == |b| == v
    ensures Pairing(g, v, a, b) == Dot(v, At(a), MulVec(v, Entries(g), At(b)))
  {
    hide Sum;
    forall i | 0 <= i < v ensures At(Image(g, v, b))(i) == MulVec(v, Entries(g), At(b))(i) {
      DotCong(v, At(g[i]), At(b), RowOf(Entries(g), i), At(b));
    }
    DotCong(v, At(a), At(Image(g, v, b)), At(a), MulVec(v, Entries(g), At(b)));
  }

  lemma PairingSymmetric(g: seq<seq<real>>, v: nat, a: seq<real>, b: seq<real>)
    requires Symmetric(g, v) && |a| == |b| == v
    ensures Pairing(g, v, a, b) == Pairing(g, v, b, a)
  {
    hide Sum;
    hide Pairing;
    var e := Entries(g);
    PairingIsDot(g, v, a, b);
    PairingIsDot(g, v, b, a);
    DotSwap(v, v, At(a), e, At(b));
    forall j | 0 <= j < v ensures VecMul(v, At(a), e)(j) == MulVec(v, e, At(a))(j) { TransposedRow(g, v, a, j); }
    DotCong(v, VecMul(v, At(a), e), At(b), MulVec(v, e, At(a)), At(b));
    DotComm(v, MulVec(v, e, At(a)), At(b));
  }

  lemma TransposedRow(g: seq<seq<real>>, v: nat, a: seq<real>, j: nat)
    requires Symmetric(g, v) && |a| == v && j < v
    ensures VecMul(v, At(a), Entries(g))(j) == MulVec(v, Entries(g), At(a))(j)
  {
    hide Sum;
    var e := Entries(g);
    DotComm(v, At(a), ColOf(e, j));
    forall i | 0 <= i < v ensures ColOf(e, j)(i) == RowOf(e, j)(i) {}
    DotCong(v, ColOf(e, j), At(a), RowOf(e, j), At(a));
  }

  /** Pairing with a coordinate vector reads off a row product. */
  lemma PairingUnit(g: seq<seq<real>>, v: nat, p: nat, b: seq<real>)
    requires Square(g, v) && p < v && |b| == v
    ensures Pairing(g, v, Unit(v, p), b) == Inner(g[p], b)
  {
    hide Sum;
    DotUnit(v, p, At(Unit(v, p)), At(Image(g, v, b)));
  }

  lemma PairingUnits(g: seq<seq<real>>, v: nat, p: nat)
    requires Square(g, v) && p < v
    ensures Pairing(g, v, Unit(v, p), Unit(v, p)) == g[p][p]
  {
    hide Sum;
    PairingUnit(g, v, p, Unit(v, p));
    DotComm(v, At(g[p]), At(Unit(v, p)));
    DotUnit(v, p, At(Unit(v, p)), At(g[p]));
  }

  // ---- Projection --------------------------------------------------------------------------

  ghost predicate Rows(basis: seq<seq<real>>, v: nat) {
    forall t :: 0 <= t < |basis| ==> |basis[t]| == v
  }

  ghost predicate Orthonormal(g: seq<seq<real>>, v: nat, basis: seq<seq<real>>)
    requires Square(g, v)
  {
    Rows(basis, v) && forall s, t :: 0 <= s < |basis| && 0 <= t < |basis| ==> OrthonormalAt(g, v, basis, s, t)
  }

  ghost predicate OrthonormalAt(g: seq<seq<real>>, v: nat, basis: seq<seq<real>>, s: nat, t: nat)
    requires Square(g, v) && Rows(basis, v) && s < |basis| && t < |basis|
  {
    Pairing(g, v, basis[s], basis[t]) == if s == t then 1.0 else 0.0
  }

  /** e_p less its projections on the basis. */
  ghost function Remainder(g: seq<seq<real>>, v: nat, p: nat, basis: seq<seq<real>>): (q: seq<real>)
    requires Square(g, v) && p < v && Rows(basis, v)
    ensures |q| == v
  {
    if basis == [] then Unit(v, p)
    else
      var last := basis[|basis| - 1];
      Comb(1.0, Remainder(g, v, p, basis[..|basis| - 1]), -Inner(g[p], last), last)
  }

  /** The variance of column `j` that the basis leaves over. */
  ghost function Residual(g: seq<seq<real>>, v: nat, j: nat, basis: seq<seq<real>>): real
    requires Square(g, v) && j < v && Rows(basis, v)
  {
    if basis == [] then g[j][j]
    else
      var c := Inner(g[j], basis[|basis| - 1]);
      Residual(g, v, j, basis[..|basis| - 1]) - Mul(c, c)
  }

  lemma OrthonormalPrefix(g: seq<seq<real>>, v: nat, basis: seq<seq<real>>, k: nat)
    requires Square(g, v) && Orthonormal(g, v, basis) && k <= |basis|
    ensures Orthonormal(g, v, basis[..k])
  {
    hide Pairing;
    forall s, t | 0 <= s < k && 0 <= t < k ensures OrthonormalAt(g, v, basis[..k], s, t) {
      assert OrthonormalAt(g, v, basis, s, t);
    }
  }

  /** Against a later basis vector the remainder still pairs like e_p; against its own, to zero. */
  lemma {:induction false} RemainderPairs(g: seq<seq<real>>, v: nat, p: nat, basis: seq<seq<real>>, n: nat, t: nat)
    requires Symmetric(g, v) && p < v && Orthonormal(g, v, basis) && n <= |basis| && t < |basis|
    ensures Rows(basis[..n], v)
    ensures Pairing(g, v, Remainder(g, v, p, basis[..n]), basis[t]) == if t < n then 0.0 else Inner(g[p], basis[t])
    decreases n
  {
    hide Pairing;
    hide Inner;
    if n == 0 {
      PairingUnit(g, v, p, basis[t]);
    } else {
      var b := basis[..n];
      assert b[..n - 1] == basis[..n - 1] && b[n - 1] == basis[n - 1];
      RemainderPairs(g, v, p, basis, n - 1, t);
      var c := Inner(g[p], basis[n - 1]);
      PairingCombLeft(g, v, 1.0, Remainder(g, v, p, basis[..n - 1]), -c, basis[n - 1], basis[t]);
      assert OrthonormalAt(g, v, basis, n - 1, t);
    }
  }

  /** Pythagoras: the remainder's energy is the residual variance. */
  lemma {:induction false} RemainderEnergy(g: seq<seq<real>>, v: nat, p: nat, basis: seq<seq<real>>)
    requires Symmetric(g, v) && p < v && Orthonormal(g, v, basis)
    ensures Pairing(g, v, Remainder(g, v, p, basis), Remainder(g, v, p, basis)) == Residual(g, v, p, basis)
  {
    hide Pairing;
    hide Inner;
    hide Mul;
    if basis == [] {
      PairingUnits(g, v, p);
    } else {
      var n := |basis| - 1;
      var b, last := basis[..n], basis[n];
      OrthonormalPrefix(g, v, basis, n);
      RemainderEnergy(g, v, p, b);
      RemainderPairs(g, v, p, basis, n, n);
      assert OrthonormalAt(g, v, basis, n, n);
      EnergyDrops(g, v, Remainder(g, v, p, b), last, Inner(g[p], last));
    }
  }

  lemma EnergyDrops(g: seq<seq<real>>, v: nat, x: seq<real>, q: seq<real>, c: real)
    requires Symmetric(g, v) && |x| == |q| == v && Pairing(g, v, x, q) == c && Pairing(g, v, q, q) == 1.0
    ensures Pairing(g, v, Comb(1.0, x, -c, q), Comb(1.0, x, -c, q)) == Pairing(g, v, x, x) - Mul(c, c)
  {
    hide Pairing;
    var y := Comb(1.0, x, -c, q);
    PairingSymmetric(g, v, x, q);
    PairingCombLeft(g, v, 1.0, x, -c, q, y);
    PairingCombRight(g, v, x, 1.0, x, -c, q);
    PairingCombRight(g, v, q, 1.0, x, -c, q);
    DropScalars(Pairing(g, v, x, x), c, Pairing(g, v, x, q), Pairing(g, v, q, q));
  }

  lemma DropScalars(e: real, c: real, x: real, q: real)
    requires x == c && q == 1.0
    ensures 1.0 * (1.0 * e + (-c) * x) + (-c) * (1.0 * x + (-c) * q) == e - Mul(c, c)
  {
  }

  /** Dividing the remainder by the root of its energy extends the orthonormal basis. */
  lemma ExtendedOrthonormal(g: seq<seq<real>>, v: nat, p: nat, basis: seq<seq<real>>, q: seq<real>, norm: real)
    requires Symmetric(g, v) && p < v && Orthonormal(g, v, basis)
    requires norm > 0.0 && Mul(norm, norm) == Residual(g, v, p, basis) && q == Scale(1.0 / norm, Remainder(g, v, p, basis))
    ensures Orthonormal(g, v, basis + [q])
  {
    hide Pairing;
    hide Residual;
    hide Remainder;
    var r, more := Remainder(g, v, p, basis), basis + [q];
    RemainderEnergy(g, v, p, basis);
    NormalizedPairs(g, v, r, q, norm, r);
    NormalizedPairs(g, v, r, q, norm, q);
    PairingSymmetric(g, v, r, q);
    UnitEnergy(norm, Residual(g, v, p, basis));
    forall s, t | 0 <= s < |more| && 0 <= t < |more| ensures OrthonormalAt(g, v, more, s, t) {
      var k := |basis|;
      if s < k && t < k { assert OrthonormalAt(g, v, basis, s, t); }
      if s == k && t < k { NewPairs(g, v, p, basis, q, norm, t); }
      if s < k && t == k {
        NewPairs(g, v, p, basis, q, norm, s);
        PairingSymmetric(g, v, basis[s], q);
      }
    }
  }

  lemma UnitEnergy(norm: real, e: real)
    requires norm > 0.0 && Mul(norm, norm) == e
    ensures (1.0 / norm) * ((1.0 / norm) * e) == 1.0
  {
    assert (1.0 / norm) * e == norm;
  }

  lemma NormalizedPairs(g: seq<seq<real>>, v: nat, r: seq<real>, q: seq<real>, norm: real, z: seq<real>)
    requires Square(g, v) && |r| == |z| == v && norm > 0.0 && q == Scale(1.0 / norm, r)
    ensures Pairing(g, v, q, z) == (1.0 / norm) * Pairing(g, v, r, z)
  {
    hide Inner;
    InnerScale(1.0 / norm, r, Image(g, v, z));
  }

  lemma NewPairs(g: seq<seq<real>>, v: nat, p: nat, basis: seq<seq<real>>, q: seq<real>, norm: real, t: nat)
    requires Symmetric(g, v) && p < v && Orthonormal(g, v, basis) && t < |basis|
    requires norm > 0.0 && q == Scale(1.0 / norm, Remainder(g, v, p, basis))
    ensures Pairing(g, v, q, basis[t]) == 0.0
  {
    hide Pairing;
    hide Remainder;
    assert basis[..|basis|] == basis;
    RemainderPairs(g, v, p, basis, |basis|, t);
    NormalizedPairs(g, v, Remainder(g, v, p, basis), q, norm, basis[t]);
  }

  // ---- Pivoting ----------------------------------------------------------------------------

  predicate Eligible(g: seq<seq<real>>, v: nat, tol: real, residual: seq<real>, kept: seq<bool>, j: nat)
    requires Square(g, v) && |residual| == |kept| == v && j < v
  {
    !kept[j] && residual[j] > Mul(tol, g[j][j])
  }

  /** The eligible column of largest residual, the last such on a tie. */
  method FindPivot(g: seq<seq<real>>, v: nat, tol: real, residual: seq<real>, kept: seq<bool>) returns (r: Option<nat>)
    requires Square(g, v) && |residual| == |kept| == v
    ensures r.Some? ==> r.value < v && Eligible(g, v, tol, residual, kept, r.value)
    ensures r.Some? ==> forall j :: 0 <= j < v && Eligible(g, v, tol, residual, kept, j) ==>
              residual[j] <= residual[r.value] && (residual[j] == residual[r.value] ==> j <= r.value)
    ensures r.None? ==> forall j :: 0 <= j < v ==> !Eligible(g, v, tol, residual, kept, j)
  {
    hide Mul;
    r := None;
    for i := 0 to v
      invariant r.Some? ==> r.value < i && Eligible(g, v, tol, residual, kept, r.value)
      invariant r.Some? ==> forall j :: 0 <= j < i && Eligible(g, v, tol, residual, kept, j) ==>
                  residual[j] <= residual[r.value] && (residual[j] == residual[r.value] ==> j <= r.value)
      invariant r.None? ==> forall j :: 0 <= j < i ==> !Eligible(g, v, tol, residual, kept, j)
    {
      if Eligible(g, v, tol, residual, kept, i) && (r.None? || residual[i] >= residual[r.value]) {
        r := Some(i);
      }
    }
  }

  /** How many columns are still free. */
  function Free(kept: seq<bool>): nat {
    if kept == [] then 0 else Free(kept[..|kept| - 1]) + if kept[|kept| - 1] then 0 else 1
  }

  lemma {:induction false} KeepOne(kept: seq<bool>, p: nat)
    requires p < |kept| && !kept[p]
    ensures Free(kept[p := true]) == Free(kept) - 1
  {
    var n := |kept| - 1;
    var after := kept[p := true];
    if p < n {
      KeepOne(kept[..n], p);
      assert after[..n] == kept[..n][p := true];
    } else {
      assert after[..n] == kept[..n];
    }
  }

  lemma {:induction false} AllFree(v: nat)
    ensures Free(seq(v, _ => false)) == v
  {
    if v > 0 {
      AllFree(v - 1);
      assert seq(v, _ => false)[..v - 1] == seq(v - 1, _ => false);
    }
  }

  /** No basis vector reaches a column that was not kept. */
  ghost predicate Supported(basis: seq<seq<real>>, v: nat, kept: seq<bool>) {
    |kept| == v && Rows(basis, v) && forall t, j :: 0 <= t < |basis| && 0 <= j < v && !kept[j] ==> basis[t][j] == 0.0
  }

  /** The residuals are the variances left over. */
  ghost predicate ResidualsOf(g: seq<seq<real>>, v: nat, basis: seq<seq<real>>, residual: seq<real>)
    requires Square(g, v) && Rows(basis, v)
  {
    |residual| == v && forall j :: 0 <= j < v ==> residual[j] == Residual(g, v, j, basis)
  }

  ghost predicate Nonnegative(g: seq<seq<real>>, v: nat) {
    Square(g, v) && forall j :: 0 <= j < v ==> g[j][j] >= 0.0
  }

  /** The state between two pivots. */
  ghost predicate Pivoting(g: seq<seq<real>>, v: nat, basis: seq<seq<real>>, residual: seq<real>, kept: seq<bool>)
    requires Square(g, v)
  {
    && Orthonormal(g, v, basis) && ResidualsOf(g, v, basis, residual) && Supported(basis, v, kept)
    && |basis| + Free(kept) == v
  }

  /** q = e_p less its projections, one basis vector at a time. */
  method ProjectOff(g: seq<seq<real>>, v: nat, p: nat, basis: seq<seq<real>>) returns (q: seq<real>)
    requires Square(g, v) && p < v && Rows(basis, v)
    ensures q == Remainder(g, v, p, basis)
  {
    hide Inner;
    q := seq(v, _ => 0.0)[p := 1.0];
    assert q == Unit(v, p);
    for t := 0 to |basis|
      invariant q == Remainder(g, v, p, basis[..t])
    {
      var c := DotProduct(g[p], basis[t]);
      q := SubtractMultiple(q, c, basis[t]);
      assert basis[..t + 1][..t] == basis[..t];
    }
    assert basis[..|basis|] == basis;
  }

  method SubtractMultiple(q: seq<real>, c: real, b: seq<real>) returns (r: seq<real>)
    requires |q| == |b|
    ensures r == Comb(1.0, q, -c, b)
  {
    r := [];
    ghost var z := Comb(1.0, q, -c, b);
    for i := 0 to |q|
      invariant r == z[..i]
    {
      assert z[i] == q[i] - c * b[i];
      r := r + [q[i] - c * b[i]];
    }
  }

  method DivideBy(q: seq<real>, norm: real) returns (r: seq<real>)
    requires norm != 0.0
    ensures r == Scale(1.0 / norm, q)
  {
    r := [];
    ghost var z := Scale(1.0 / norm, q);
    for i := 0 to |q|
      invariant r == z[..i]
    {
      Quotient(q[i], norm, z[i]);
      r := r + [q[i] / norm];
    }
  }

  lemma Quotient(x: real, c: real, y: real)
    requires c != 0.0 && y == (1.0 / c) * x
    ensures x / c == y
  {
  }

  /** Pythagoras on every column. */
  method DropVariance(g: seq<seq<real>>, v: nat, residual: seq<real>, q: seq<real>, ghost basis: seq<seq<real>>)
    returns (r: seq<real>)
    requires Square(g, v) && Rows(basis, v) && |q| == v && ResidualsOf(g, v, basis, residual)
    ensures ResidualsOf(g, v, basis + [q], r)
  {
    hide Inner;
    r := [];
    assert (basis + [q])[..|basis|] == basis;
    for j := 0 to v
      invariant |r| == j && forall i :: 0 <= i < j ==> r[i] == Residual(g, v, i, basis + [q])
    {
      var c := DotProduct(g[j], q);
      assert Residual(g, v, j, basis + [q]) == Residual(g, v, j, basis) - Mul(c, c);
      r := r + [residual[j] - c * c];
    }
  }

  lemma {:induction false} RemainderSupport(g: seq<seq<real>>, v: nat, p: nat, basis: seq<seq<real>>, kept: seq<bool>, j: nat)
    requires Square(g, v) && p < v && Supported(basis, v, kept) && j < v && !kept[j] && j != p
    ensures Remainder(g, v, p, basis)[j] == 0.0
  {
    hide Inner;
    if basis != [] {
      var n := |basis| - 1;
      var b := basis[..n];
      assert forall t :: 0 <= t < n ==> b[t] == basis[t];
      RemainderSupport(g, v, p, b, kept, j);
      assert basis[n][j] == 0.0;
    }
  }

  lemma SupportGrows(g: seq<seq<real>>, v: nat, p: nat, basis: seq<seq<real>>, kept: seq<bool>, q: seq<real>, norm: real)
    requires Square(g, v) && p < v && Supported(basis, v, kept) && norm != 0.0
    requires q == Scale(1.0 / norm, Remainder(g, v, p, basis))
    ensures Supported(basis + [q], v, kept[p := true])
  {
    hide Remainder;
    var more, kept' := basis + [q], kept[p := true];
    forall t, j | 0 <= t < |more| && 0 <= j < v && !kept'[j] ensures more[t][j] == 0.0 {
      if t < |basis| {
        assert basis[t][j] == 0.0;
      } else {
        RemainderSupport(g, v, p, basis, kept, j);
      }
    }
  }

  lemma PositiveResidual(tol: real, d: real, r: real)
    requires tol >= 0.0 && d >= 0.0 && r > Mul(tol, d)
    ensures r > 0.0
  {
  }

  /** What is left over of each dropped column is within the tolerance of its own variance. */
  ghost predicate DroppedWithin(g: seq<seq<real>>, v: nat, tol: real, w: seq<seq<real>>, kept: seq<bool>)
    requires Square(g, v) && Rows(w, v) && |kept| == v
  {
    forall j :: 0 <= j < v && !kept[j] ==>
      Pairing(g, v, Remainder(g, v, j, w), Remainder(g, v, j, w)) <= Mul(tol, g[j][j])
  }

  lemma DroppedSmall(g: seq<seq<real>>, v: nat, tol: real, basis: seq<seq<real>>, residual: seq<real>, kept: seq<bool>)
    requires Symmetric(g, v) && Pivoting(g, v, basis, residual, kept)
    requires forall j :: 0 <= j < v ==> !Eligible(g, v, tol, residual, kept, j)
    ensures DroppedWithin(g, v, tol, basis, kept)
  {
    hide Pairing;
    hide Remainder;
    hide Mul;
    forall j | 0 <= j < v && !kept[j]
      ensures Pairing(g, v, Remainder(g, v, j, basis), Remainder(g, v, j, basis)) <= Mul(tol, g[j][j])
    {
      RemainderEnergy(g, v, j, basis);
      assert !Eligible(g, v, tol, residual, kept, j);
    }
  }

  // ---- The run -----------------------------------------------------------------------------

  /** A row is its remainder divided by the root of its energy. */
  ghost predicate Normed(q: seq<real>, r: seq<real>, e: real) {
    exists norm: real :: norm > 0.0 && Mul(norm, norm) == e && q == Scale(1.0 / norm, r)
  }

  /** Column `j` still stands out against `basis` by more than the tolerance. */
  ghost predicate StandsOut(g: seq<seq<real>>, v: nat, tol: real, basis: seq<seq<real>>, j: nat)
    requires Square(g, v) && Rows(basis, v) && j < v
  {
    Residual(g, v, j, basis) > Mul(tol, g[j][j])
  }

  /** The pivot stands out against the rows before it, most of all the columns that do and were
      not taken yet, the last such on a tie. */
  ghost predicate Leads(g: seq<seq<real>>, v: nat, tol: real, basis: seq<seq<real>>, taken: seq<nat>, p: nat)
    requires Square(g, v) && Rows(basis, v)
  {
    && p < v && p !in taken && StandsOut(g, v, tol, basis, p)
    && forall j: nat :: j < v && j !in taken && StandsOut(g, v, tol, basis, j) ==>
         Residual(g, v, j, basis) <= Residual(g, v, p, basis) && (Residual(g, v, j, basis) == Residual(g, v, p, basis) ==> j <= p)
  }

  lemma RowsPrefix(w: seq<seq<real>>, v: nat, t: nat)
    requires Rows(w, v) && t <= |w|
    ensures Rows(w[..t], v)
  {
  }

  ghost predicate StepAt(g: seq<seq<real>>, v: nat, tol: real, w: seq<seq<real>>, pivots: seq<nat>, t: nat)
    requires Square(g, v) && Rows(w, v) && t < |w| == |pivots|
  {
    RowsPrefix(w, v, t);
    && Leads(g, v, tol, w[..t], pivots[..t], pivots[t])
    && Normed(w[t], Remainder(g, v, pivots[t], w[..t]), Residual(g, v, pivots[t], w[..t]))
  }

  /** The rows so far, their pivots in order, and the flags of the pivots. */
  ghost predicate Pivoted(g: seq<seq<real>>, v: nat, tol: real, w: seq<seq<real>>, kept: seq<bool>, pivots: seq<nat>)
    requires Square(g, v)
  {
    && Rows(w, v) && |w| == |pivots| && |kept| == v
    && (forall j: nat :: j < v ==> (kept[j] <==> j in pivots))
    && forall t :: 0 <= t < |w| ==> StepAt(g, v, tol, w, pivots, t)
  }

  /** Nothing that was not kept stands out any more. */
  ghost predicate Exhausted(g: seq<seq<real>>, v: nat, tol: real, w: seq<seq<real>>, kept: seq<bool>)
    requires Square(g, v) && Rows(w, v) && |kept| == v
  {
    forall j: nat :: j < v && !kept[j] ==> !StandsOut(g, v, tol, w, j)
  }

  lemma StepSame(g: seq<seq<real>>, v: nat, tol: real, w: seq<seq<real>>, pivots: seq<nat>, w': seq<seq<real>>, pivots': seq<nat>, t: nat)
    requires Square(g, v) && Rows(w, v) && Rows(w', v) && t < |w| == |pivots| && t < |w'| == |pivots'|
    requires w[..t + 1] == w'[..t + 1] && pivots[..t + 1] == pivots'[..t + 1] && StepAt(g, v, tol, w, pivots, t)
    ensures StepAt(g, v, tol, w', pivots', t)
  {
    hide Remainder;
    hide Residual;
    hide Normed;
    hide Leads;
    assert w[..t] == w[..t + 1][..t] && w'[..t] == w'[..t + 1][..t] && w[t] == w[..t + 1][t] && w'[t] == w'[..t + 1][t];
    assert pivots[..t] == pivots[..t + 1][..t] && pivots'[..t] == pivots'[..t + 1][..t];
    assert pivots[t] == pivots[..t + 1][t] && pivots'[t] == pivots'[..t + 1][t];
  }

  lemma PivotedPush(g: seq<seq<real>>, v: nat, tol: real, w: seq<seq<real>>, kept: seq<bool>, pivots: seq<nat>, p: nat, q: seq<real>)
    requires Square(g, v) && Pivoted(g, v, tol, w, kept, pivots) && |q| == v
    requires Leads(g, v, tol, w, pivots, p) && Normed(q, Remainder(g, v, p, w), Residual(g, v, p, w))
    ensures Pivoted(g, v, tol, w + [q], kept[p := true], pivots + [p])
  {
    hide Remainder;
    hide Residual;
    hide Normed;
    hide StandsOut;
    hide StepAt;
    var w', pivots', n := w + [q], pivots + [p], |w|;
    forall t | 0 <= t < |w'| ensures StepAt(g, v, tol, w', pivots', t) {
      if t < n {
        assert StepAt(g, v, tol, w, pivots, t);
        assert w[..t + 1] == w'[..t + 1] && pivots[..t + 1] == pivots'[..t + 1];
        StepSame(g, v, tol, w, pivots, w', pivots', t);
      } else {
        LastStep(g, v, tol, w, pivots, p, q);
      }
    }
  }

  lemma LastStep(g: seq<seq<real>>, v: nat, tol: real, w: seq<seq<real>>, pivots: seq<nat>, p: nat, q: seq<real>)
    requires Square(g, v) && Rows(w, v) && |w| == |pivots| && |q| == v
    requires Leads(g, v, tol, w, pivots, p) && Normed(q, Remainder(g, v, p, w), Residual(g, v, p, w))
    ensures StepAt(g, v, tol, w + [q], pivots + [p], |w|)
  {
    hide Remainder;
    hide Residual;
    hide Normed;
    hide Leads;
    assert (w + [q])[..|w|] == w && (pivots + [p])[..|w|] == pivots;
  }

  lemma FoundLeads(g: seq<seq<real>>, v: nat, tol: real, w: seq<seq<real>>, residual: seq<real>, kept: seq<bool>, pivots: seq<nat>, p: nat)
    requires Square(g, v) && Rows(w, v) && ResidualsOf(g, v, w, residual) && |kept| == v
    requires forall j: nat :: j < v ==> (kept[j] <==> j in pivots)
    requires p < v && Eligible(g, v, tol, residual, kept, p)
    requires forall j :: 0 <= j < v && Eligible(g, v, tol, residual, kept, j) ==>
               residual[j] <= residual[p] && (residual[j] == residual[p] ==> j <= p)
    ensures Leads(g, v, tol, w, pivots, p)
  {
    hide Residual;
    hide Mul;
    forall j: nat | j < v && j !in pivots && StandsOut(g, v, tol, w, j)
      ensures Residual(g, v, j, w) <= Residual(g, v, p, w) && (Residual(g, v, j, w) == Residual(g, v, p, w) ==> j <= p)
    {
      assert Eligible(g, v, tol, residual, kept, j);
    }
  }

  lemma RootUnique(x: real, y: real, e: real)
    requires x > 0.0 && y > 0.0 && Mul(x, x) == e && Mul(y, y) == e
    ensures x == y
  {
    assert (x - y) * (x + y) == 0.0;
  }

  /** The first `n` rows and pivots of two runs agree. */
  lemma {:induction false} RunsAgree(g: seq<seq<real>>, v: nat, tol: real, w: seq<seq<real>>, kept: seq<bool>, pivots: seq<nat>,
                                     w': seq<seq<real>>, kept': seq<bool>, pivots': seq<nat>, n: nat)
    requires Square(g, v) && Pivoted(g, v, tol, w, kept, pivots) && Pivoted(g, v, tol, w', kept', pivots') && n <= |w| && n <= |w'|
    ensures w[..n] == w'[..n] && pivots[..n] == pivots'[..n]
  {
    hide Remainder;
    hide Residual;
    hide StandsOut;
    if n > 0 {
      var t := n - 1;
      RunsAgree(g, v, tol, w, kept, pivots, w', kept', pivots', t);
      assert StepAt(g, v, tol, w, pivots, t) && StepAt(g, v, tol, w', pivots', t);
      var r, e := Remainder(g, v, pivots[t], w[..t]), Residual(g, v, pivots[t], w[..t]);
      assert pivots[t] == pivots'[t];
      NormedUnique(w[t], w'[t], r, e);
      assert w[..n] == w[..t] + [w[t]] && w'[..n] == w'[..t] + [w'[t]];
      assert pivots[..n] == pivots[..t] + [pivots[t]] && pivots'[..n] == pivots'[..t] + [pivots'[t]];
    }
  }

  lemma NormedUnique(q: seq<real>, q': seq<real>, r: seq<real>, e: real)
    requires Normed(q, r, e) && Normed(q', r, e)
    ensures q == q'
  {
    var x :| x > 0.0 && Mul(x, x) == e && q == Scale(1.0 / x, r);
    var y :| y > 0.0 && Mul(y, y) == e && q' == Scale(1.0 / y, r);
    RootUnique(x, y, e);
  }

  /** Where a run goes on past the end of another, its next pivot still stands out there. */
  lemma GoesOn(g: seq<seq<real>>, v: nat, tol: real, w: seq<seq<real>>, kept: seq<bool>, pivots: seq<nat>,
               w': seq<seq<real>>, kept': seq<bool>, pivots': seq<nat>)
    requires Square(g, v) && Pivoted(g, v, tol, w, kept, pivots) && Pivoted(g, v, tol, w', kept', pivots') && |w| < |w'|
    ensures |pivots'| == |w'| && |kept| == v && pivots'[|w|] < v && !kept[pivots'[|w|]] && StandsOut(g, v, tol, w, pivots'[|w|])
  {
    hide Remainder;
    hide Residual;
    hide StandsOut;
    hide Normed;
    var n := |w|;
    RunsAgree(g, v, tol, w, kept, pivots, w', kept', pivots', n);
    assert w[..n] == w && pivots[..n] == pivots;
    assert StepAt(g, v, tol, w', pivots', n);
  }

  /** A finished run cannot be shorter than another. */
  lemma FinishedLongest(g: seq<seq<real>>, v: nat, tol: real, w: seq<seq<real>>, kept: seq<bool>, pivots: seq<nat>,
                        w': seq<seq<real>>, kept': seq<bool>, pivots': seq<nat>)
    requires Square(g, v) && Pivoted(g, v, tol, w, kept, pivots) && Exhausted(g, v, tol, w, kept)
    requires Pivoted(g, v, tol, w', kept', pivots')
    ensures |w'| <= |w|
  {
    hide StandsOut;
    hide Pivoted;
    if |w| < |w'| { GoesOn(g, v, tol, w, kept, pivots, w', kept', pivots'); }
  }

  /** The Gram matrix and the tolerance determine the rows and which columns are kept. */
  lemma PivotedUnique(g: seq<seq<real>>, v: nat, tol: real, w: seq<seq<real>>, kept: seq<bool>, pivots: seq<nat>,
                      w': seq<seq<real>>, kept': seq<bool>, pivots': seq<nat>)
    requires Square(g, v) && Pivoted(g, v, tol, w, kept, pivots) && Exhausted(g, v, tol, w, kept)
    requires Pivoted(g, v, tol, w', kept', pivots') && Exhausted(g, v, tol, w', kept')
    ensures w == w' && kept == kept' && pivots == pivots'
  {
    hide StepAt;
    hide Exhausted;
    FinishedLongest(g, v, tol, w, kept, pivots, w', kept', pivots');
    FinishedLongest(g, v, tol, w', kept', pivots', w, kept, pivots);
    RunsAgree(g, v, tol, w, kept, pivots, w', kept', pivots', |w|);
    assert w[..|w|] == w && w'[..|w|] == w' && pivots[..|w|] == pivots && pivots'[..|w|] == pivots';
  }

  /** `pivoted_gram_schmidt`: `W G W^T = I`, one row per kept column, nothing outside the kept
      columns, every pivot chosen as standing out most against the rows before it, and only
      columns within tolerance of the rows' span dropped. */
  method PivotedGramSchmidt(g: seq<seq<real>>, v: nat, tol: real, sqrt: real -> real)
    returns (w: seq<seq<real>>, kept: seq<bool>, ghost pivots: seq<nat>)
    requires Symmetric(g, v) && Nonnegative(g, v) && tol >= 0.0 && IsSqrt(sqrt)
    ensures Orthonormal(g, v, w) && Supported(w, v, kept) && |w| + Free(kept) == v
    ensures Pivoted(g, v, tol, w, kept, pivots) && Exhausted(g, v, tol, w, kept)
    ensures DroppedWithin(g, v, tol, w, kept)
  {
    hide Pairing;
    hide Remainder;
    hide Residual;
    hide Mul;
    hide Orthonormal;
    hide Pivoted;
    hide Leads;
    hide Normed;
    var residual := seq(v, j requires 0 <= j < v => g[j][j]);
    kept := seq(v, _ => false);
    w, pivots := [], [];
    StartPivoting(g, v, residual, kept);
    NothingPivoted(g, v, tol, kept);
    while true
      invariant Rows(w, v) && Pivoting(g, v, w, residual, kept) && Pivoted(g, v, tol, w, kept, pivots)
      decreases Free(kept)
    {
      var pivot := FindPivot(g, v, tol, residual, kept);
      if pivot.None? {
        DroppedSmall(g, v, tol, w, residual, kept);
        NoneStandsOut(g, v, tol, w, residual, kept);
        return;
      }
      var p := pivot.value;
      PivotFlags(g, v, tol, w, kept, pivots);
      FoundLeads(g, v, tol, w, residual, kept, pivots, p);
      PositiveResidual(tol, g[p][p], residual[p]);
      var q := ProjectOff(g, v, p, w);
      var norm := sqrt(residual[p]);
      NormPositive(sqrt, residual[p]);
      q := DivideBy(q, norm);
      IsNormed(q, Remainder(g, v, p, w), Residual(g, v, p, w), norm);
      ExtendedOrthonormal(g, v, p, w, q, norm);
      SupportGrows(g, v, p, w, kept, q, norm);
      KeepOne(kept, p);
      PivotedPush(g, v, tol, w, kept, pivots, p, q);
      residual := DropVariance(g, v, residual, q, w);
      w, kept, pivots := w + [q], kept[p := true], pivots + [p];
    }
  }

  lemma IsNormed(q: seq<real>, r: seq<real>, e: real, norm: real)
    requires norm > 0.0 && Mul(norm, norm) == e && q == Scale(1.0 / norm, r)
    ensures Normed(q, r, e)
  {
    hide Mul;
  }

  lemma PivotFlags(g: seq<seq<real>>, v: nat, tol: real, w: seq<seq<real>>, kept: seq<bool>, pivots: seq<nat>)
    requires Square(g, v) && Pivoted(g, v, tol, w, kept, pivots)
    ensures |kept| == v && forall j: nat :: j < v ==> (kept[j] <==> j in pivots)
  {
    hide StepAt;
  }

  lemma NothingPivoted(g: seq<seq<real>>, v: nat, tol: real, kept: seq<bool>)
    requires Square(g, v) && kept == seq(v, _ => false)
    ensures Pivoted(g, v, tol, [], kept, [])
  {
  }

  lemma NoneStandsOut(g: seq<seq<real>>, v: nat, tol: real, w: seq<seq<real>>, residual: seq<real>, kept: seq<bool>)
    requires Square(g, v) && Rows(w, v) && |kept| == v && ResidualsOf(g, v, w, residual)
    requires forall j :: 0 <= j < v ==> !Eligible(g, v, tol, residual, kept, j)
    ensures Exhausted(g, v, tol, w, kept)
  {
    hide Residual;
    hide Mul;
    forall j: nat | j < v && !kept[j] ensures !StandsOut(g, v, tol, w, j) { assert !Eligible(g, v, tol, residual, kept, j); }
  }

  lemma NormPositive(sqrt: real -> real, r: real)
    requires IsSqrt(sqrt) && r > 0.0
    ensures sqrt(r) > 0.0 && Mul(sqrt(r), sqrt(r)) == r
  {
  }

  lemma StartPivoting(g: seq<seq<real>>, v: nat, residual: seq<real>, kept: seq<bool>)
    requires Square(g, v) && residual == seq(v, j requires 0 <= j < v => g[j][j]) && kept == seq(v, _ => false)
    ensures Pivoting(g, v, [], residual, kept)
  {
    AllFree(v);
  }
}
