/** Vectors as sequences: linear combinations, inner products and linear maps. */
module Vectors {
  import opened Sums

  function Zeros(n: nat): (z: seq<real>)
    ensures |z| == n
  {
    seq(n, _ => 0.0)
  }

  /** a x + b y */
  function Comb(a: real, x: seq<real>, b: real, y: seq<real>): (z: seq<real>)
    requires |x| == |y|
    ensures |z| == |x|
  {
    seq(|x|, i requires 0 <= i < |x| => a * x[i] + b * y[i])
  }

  function Scale(a: real, x: seq<real>): (z: seq<real>)
    ensures |z| == |x|
  {
    seq(|x|, i requires 0 <= i < |x| => a * x[i])
  }

  function Inner(x: seq<real>, y: seq<real>): real
    requires |x| == |y|
  {
    Dot(|x|, At(x), At(y))
  }

  /** The inner product, term by term. */
  method DotProduct(x: seq<real>, y: seq<real>) returns (s: real)
    requires |x| == |y|
    ensures s == Inner(x, y)
  {
    s := 0.0;
    for i := 0 to |x|
      invariant s == Dot(i, At(x), At(y))
    {
      DotStep(i + 1, At(x), At(y));
      s := s + x[i] * y[i];
    }
  }

  lemma InnerComm(x: seq<real>, y: seq<real>)
    requires |x| == |y|
    ensures Inner(x, y) == Inner(y, x)
  {
    DotComm(|x|, At(x), At(y));
  }

  lemma InnerComb(a: real, x: seq<real>, b: real, y: seq<real>, z: seq<real>)
    requires |x| == |y| == |z|
    ensures Inner(Comb(a, x, b, y), z) == a * Inner(x, z) + b * Inner(y, z)
  {
    hide Sum;
    var f, g := i => a * At(x)(i), i => b * At(y)(i);
    DotScaleLeft(|x|, a, At(x), f, At(z));
    DotScaleLeft(|x|, b, At(y), g, At(z));
    DotAddLeft(|x|, f, g, At(Comb(a, x, b, y)), At(z));
  }

  lemma InnerCombRight(z: seq<real>, a: real, x: seq<real>, b: real, y: seq<real>)
    requires |x| == |y| == |z|
    ensures Inner(z, Comb(a, x, b, y)) == a * Inner(z, x) + b * Inner(z, y)
  {
    InnerComm(z, Comb(a, x, b, y));
    InnerComb(a, x, b, y, z);
    InnerComm(z, x);
    InnerComm(z, y);
  }

  lemma DotComb(n: nat, f: int -> real, a: real, x: seq<real>, b: real, y: seq<real>)
    requires |x| == |y| == n
    ensures Dot(n, f, At(Comb(a, x, b, y))) == a * Dot(n, f, At(x)) + b * Dot(n, f, At(y))
  {
    hide Sum;
    var g, h := i => a * At(x)(i), i => b * At(y)(i);
    DotScale(n, f, a, At(x), g);
    DotScale(n, f, b, At(y), h);
    DotAdd(n, f, g, h, At(Comb(a, x, b, y)));
  }

  lemma SameDifference(x: seq<real>, y: seq<real>)
    requires |x| == |y| && Comb(1.0, x, -1.0, y) == Zeros(|x|)
    ensures x == y
  {
    forall i | 0 <= i < |x| ensures x[i] == y[i] { assert Comb(1.0, x, -1.0, y)[i] == 0.0; }
  }

  lemma NoDifference(x: seq<real>)
    ensures Comb(1.0, x, -1.0, x) == Zeros(|x|)
  {
  }

  lemma ScaleIsComb(a: real, x: seq<real>)
    ensures Scale(a, x) == Comb(a, x, 0.0, x)
  {
  }

  lemma InnerScale(a: real, x: seq<real>, y: seq<real>)
    requires |x| == |y|
    ensures Inner(Scale(a, x), y) == a * Inner(x, y)
  {
    DotScaleLeft(|x|, a, At(x), At(Scale(a, x)), At(y));
  }

  lemma InnerScaleRight(y: seq<real>, a: real, x: seq<real>)
    requires |x| == |y|
    ensures Inner(y, Scale(a, x)) == a * Inner(y, x)
  {
    InnerComm(y, Scale(a, x));
    InnerScale(a, x, y);
    InnerComm(y, x);
  }

  lemma InnerZeros(n: nat, y: seq<real>)
    requires |y| == n
    ensures Inner(Zeros(n), y) == 0.0 == Inner(y, Zeros(n))
  {
    DotZero(n, At(Zeros(n)), At(y));
    InnerComm(Zeros(n), y);
  }

  lemma SelfNonneg(x: seq<real>)
    ensures Inner(x, x) >= 0.0
  {
    var sq := i => At(x)(i) * At(x)(i);
    forall i | 0 <= i < |x| ensures sq(i) >= 0.0 { SquareNonneg(At(x)(i), sq(i)); }
    SumNonneg(|x|, sq);
  }

  lemma SquareVanishes(x: real, q: real)
    requires q == x * x && q <= 0.0
    ensures x == 0.0
  {
    if x != 0.0 { SquareOfNonzero(x, q); }
  }

  lemma SelfZero(x: seq<real>)
    requires Inner(x, x) == 0.0
    ensures x == Zeros(|x|)
  {
    var sq := i => At(x)(i) * At(x)(i);
    assert Inner(x, x) == Sum(|x|, sq);
    forall i | 0 <= i < |x| ensures sq(i) >= 0.0 { SquareNonneg(At(x)(i), sq(i)); }
    forall i | 0 <= i < |x| ensures x[i] == 0.0 {
      SumBoundsTerm(|x|, i, sq);
      SquareVanishes(x[i], sq(i));
    }
  }

  lemma ScaleZeros(a: real, n: nat)
    ensures Scale(a, Zeros(n)) == Zeros(n)
  {
  }

  lemma ScaleOne(x: seq<real>)
    ensures Scale(1.0, x) == x
  {
  }

  /** The projection onto a unit vector is no longer than the vector. */
  lemma UnitProjection(x: seq<real>, w: seq<real>)
    requires |x| == |w| && Inner(w, w) == 1.0
    ensures Inner(x, w) * Inner(x, w) <= Inner(x, x)
  {
    hide Inner;
    var t := Inner(x, w);
    var r := Comb(1.0, x, -t, w);
    SelfNonneg(r);
    InnerComb(1.0, x, -t, w, r);
    InnerCombRight(x, 1.0, x, -t, w);
    InnerCombRight(w, 1.0, x, -t, w);
    InnerComm(x, w);
    assert Inner(r, r) == (Inner(x, x) - t * t) - t * (t - t * 1.0);
  }

  ghost predicate IsLinear(f: seq<real> -> seq<real>, n: nat, m: nat) {
    forall a, x, b, y :: |x| == n && |y| == n ==> LinearAt(f, m, a, x, b, y)
  }

  ghost predicate LinearAt(f: seq<real> -> seq<real>, m: nat, a: real, x: seq<real>, b: real, y: seq<real>)
    requires |x| == |y|
  {
    |f(x)| == |f(y)| == m && f(Comb(a, x, b, y)) == Comb(a, f(x), b, f(y))
  }

  lemma LinearComb(f: seq<real> -> seq<real>, n: nat, m: nat, a: real, x: seq<real>, b: real, y: seq<real>)
    requires IsLinear(f, n, m) && |x| == |y| == n
    ensures |f(x)| == |f(y)| == m && f(Comb(a, x, b, y)) == Comb(a, f(x), b, f(y))
  {
    assert LinearAt(f, m, a, x, b, y);
  }

  lemma LinearScale(f: seq<real> -> seq<real>, n: nat, m: nat, a: real, x: seq<real>)
    requires IsLinear(f, n, m) && |x| == n
    ensures |f(x)| == m && f(Scale(a, x)) == Scale(a, f(x))
  {
    ScaleIsComb(a, x);
    ScaleIsComb(a, f(x));
    LinearComb(f, n, m, a, x, 0.0, x);
  }

  lemma LinearZeros(f: seq<real> -> seq<real>, n: nat, m: nat)
    requires IsLinear(f, n, m)
    ensures f(Zeros(n)) == Zeros(m)
  {
    LinearScale(f, n, m, 0.0, Zeros(n));
    ScaleZeros(0.0, n);
    assert Scale(0.0, f(Zeros(n))) == Zeros(m);
  }

  /** A coordinate vector. */
  function Unit(n: nat, j: nat): (e: seq<real>)
    ensures |e| == n
  {
    seq(n, i => if i == j then 1.0 else 0.0)
  }
}
