/** Finite sums of real-valued functions, the common language of every vector and
    matrix statement in this project. */
module Sums {

  /** f(0) + f(1) + ... + f(n-1) */
  function Sum(n: nat, f: int -> real): real {
    if n == 0 then 0.0 else Sum(n - 1, f) + f(n - 1)
  }

  /** A sequence read as a total function, zero outside its bounds. */
  function At(s: seq<real>): int -> real {
    i => if 0 <= i < |s| then s[i] else 0.0
  }

  function Abs(x: real): real { if x < 0.0 then -x else x }

  function Max(x: real, y: real): real { if x < y then y else x }

  /** A square root on the nonnegative reals. */
  ghost predicate IsSqrt(sqrt: real -> real) {
    forall x :: x >= 0.0 ==> sqrt(x) >= 0.0 && sqrt(x) * sqrt(x) == x
  }

  /** A product kept whole, so that equal factors make equal products. */
  function Mul(x: real, y: real): real { x * y }

  lemma MulComm(x: real, y: real)
    ensures Mul(x, y) == Mul(y, x)
  {
  }

  lemma ZeroTimes(x: real, y: real)
    ensures x == 0.0 || y == 0.0 ==> Mul(x, y) == 0.0
  {
  }

  lemma PositiveProduct(x: real, y: real)
    requires x > 0.0 && y > 0.0
    ensures x * y > 0.0
  {
  }

  lemma SignedProduct(x: real, y: real, q: real)
    requires x > 0.0 && y > 0.0 && q == x * y
    ensures q > 0.0
  {
  }

  lemma SquareOfNonzero(x: real, q: real)
    requires x != 0.0 && q == x * x
    ensures q > 0.0
  {
    if x > 0.0 {
      SignedProduct(x, x, q);
    } else {
      assert (-x) * (-x) == q;
      SignedProduct(-x, -x, q);
    }
  }

  lemma SquareNonneg(x: real, q: real)
    requires q == x * x
    ensures q >= 0.0
  {
    if x != 0.0 { SquareOfNonzero(x, q); }
  }

  lemma EqualSquares(x: real, y: real, q: real)
    requires x >= 0.0 && y >= 0.0 && x * x == q && y * y == q
    ensures x == y
  {
    if x < y { SquareMono(x, y, q, q); }
    if y < x { SquareMono(y, x, q, q); }
  }

  lemma SquareMono(x: real, y: real, p: real, q: real)
    requires 0.0 <= x < y && x * x == p && y * y == q
    ensures p < q
  {
    assert q - p == (y - x) * (y + x);
    SignedProduct(y - x, y + x, q - p);
  }

  lemma SumStep(n: nat, f: int -> real)
    ensures Sum(n + 1, f) == Sum(n, f) + f(n)
  {
  }

  lemma {:induction false} SumCong(n: nat, f: int -> real, g: int -> real)
    requires forall i :: 0 <= i < n ==> f(i) == g(i)
    ensures Sum(n, f) == Sum(n, g)
  {
    if n > 0 { SumCong(n - 1, f, g); }
  }

  lemma {:induction false} SumZero(n: nat, f: int -> real)
    requires forall i :: 0 <= i < n ==> f(i) == 0.0
    ensures Sum(n, f) == 0.0
  {
    if n > 0 { SumZero(n - 1, f); }
  }

  lemma {:induction false} SumAdd(n: nat, f: int -> real, g: int -> real, h: int -> real)
    requires forall i {:trigger h(i)} :: 0 <= i < n ==> h(i) == f(i) + g(i)
    ensures Sum(n, h) == Sum(n, f) + Sum(n, g)
  {
    if n > 0 { SumAdd(n - 1, f, g, h); }
  }

  lemma {:induction false} SumSub(n: nat, f: int -> real, g: int -> real, h: int -> real)
    requires forall i {:trigger h(i)} :: 0 <= i < n ==> h(i) == f(i) - g(i)
    ensures Sum(n, h) == Sum(n, f) - Sum(n, g)
  {
    if n > 0 { SumSub(n - 1, f, g, h); }
  }

  lemma {:induction false} SumScale(n: nat, a: real, f: int -> real, h: int -> real)
    requires forall i {:trigger h(i)} :: 0 <= i < n ==> h(i) == a * f(i)
    ensures Sum(n, h) == a * Sum(n, f)
  {
    if n > 0 {
      SumScale(n - 1, a, f, h);
      Distributes(a, Sum(n - 1, f), f(n - 1));
    }
  }

  lemma Distributes(a: real, x: real, y: real)
    ensures a * (x + y) == a * x + a * y
    ensures a * (x - y) == a * x - a * y
  {
  }

  /** A sum with at most one nonzero term. */
  lemma {:induction false} SumDelta(n: nat, k: int, f: int -> real)
    requires 0 <= k < n
    requires forall i :: 0 <= i < n && i != k ==> f(i) == 0.0
    ensures Sum(n, f) == f(k)
  {
    if k == n - 1 { SumZero(n - 1, f); } else { SumDelta(n - 1, k, f); }
  }

  /** Changing one term changes the sum by exactly that difference. */
  lemma {:induction false} SumUpdate(n: nat, k: int, f: int -> real, g: int -> real)
    requires 0 <= k < n
    requires forall i :: 0 <= i < n && i != k ==> f(i) == g(i)
    ensures Sum(n, g) == Sum(n, f) + g(k) - f(k)
  {
    if k == n - 1 { SumCong(n - 1, f, g); } else { SumUpdate(n - 1, k, f, g); }
  }

  lemma {:induction false} SumMono(n: nat, f: int -> real, g: int -> real)
    requires forall i :: 0 <= i < n ==> f(i) <= g(i)
    ensures Sum(n, f) <= Sum(n, g)
  {
    if n > 0 { SumMono(n - 1, f, g); }
  }

  lemma {:induction false} SumNonneg(n: nat, f: int -> real)
    requires forall i :: 0 <= i < n ==> f(i) >= 0.0
    ensures Sum(n, f) >= 0.0
  {
    if n > 0 { SumNonneg(n - 1, f); }
  }

  /** A sum of nonnegative terms bounds each of its terms. */
  lemma {:induction false} SumBoundsTerm(n: nat, k: int, f: int -> real)
    requires 0 <= k < n
    requires forall i :: 0 <= i < n ==> f(i) >= 0.0
    ensures f(k) <= Sum(n, f)
  {
    if k == n - 1 { SumNonneg(n - 1, f); } else { SumBoundsTerm(n - 1, k, f); }
  }

  /** Splitting a sum at m. */
  lemma {:induction false} SumSplit(m: nat, n: nat, f: int -> real, g: int -> real)
    requires forall i :: 0 <= i < n ==> g(i) == f(m + i)
    ensures Sum(m + n, f) == Sum(m, f) + Sum(n, g)
  {
    if n > 0 { SumSplit(m, n - 1, f, g); }
  }

  /** Exchanging the order of a double sum. */
  lemma {:induction false} SumSwap(m: nat, n: nat, f: (int, int) -> real)
    ensures Sum(m, i => Sum(n, j => f(i, j))) == Sum(n, j => Sum(m, i => f(i, j)))
  {
    if m == 0 {
      SumZero(n, j => Sum(m, i => f(i, j)));
    } else {
      SumSwap(m - 1, n, f);
      SumAdd(n, j => Sum(m - 1, i => f(i, j)), j => f(m - 1, j), j => Sum(m, i => f(i, j)));
      var outer := i => Sum(n, j => f(i, j));
      assert Sum(m, outer) == Sum(m - 1, outer) + outer(m - 1);
    }
  }

  // ---- Inner products --------------------------------------------------------------------

  function Dot(n: nat, f: int -> real, g: int -> real): real {
    Sum(n, i => f(i) * g(i))
  }

  lemma DotCong(n: nat, f: int -> real, g: int -> real, f': int -> real, g': int -> real)
    requires forall i :: 0 <= i < n ==> f(i) == f'(i) && g(i) == g'(i)
    ensures Dot(n, f, g) == Dot(n, f', g')
  {
    SumCong(n, i => f(i) * g(i), i => f'(i) * g'(i));
  }

  lemma DotComm(n: nat, f: int -> real, g: int -> real)
    ensures Dot(n, f, g) == Dot(n, g, f)
  {
    SumCong(n, i => f(i) * g(i), i => g(i) * f(i));
  }

  lemma DotAdd(n: nat, f: int -> real, g: int -> real, h: int -> real, s: int -> real)
    requires forall i {:trigger s(i)} :: 0 <= i < n ==> s(i) == g(i) + h(i)
    ensures Dot(n, f, s) == Dot(n, f, g) + Dot(n, f, h)
  {
    forall i | 0 <= i < n ensures f(i) * s(i) == f(i) * g(i) + f(i) * h(i) { Distributes(f(i), g(i), h(i)); }
    SumAdd(n, i => f(i) * g(i), i => f(i) * h(i), i => f(i) * s(i));
  }

  lemma DotSub(n: nat, f: int -> real, g: int -> real, h: int -> real, s: int -> real)
    requires forall i {:trigger s(i)} :: 0 <= i < n ==> s(i) == g(i) - h(i)
    ensures Dot(n, f, s) == Dot(n, f, g) - Dot(n, f, h)
  {
    forall i | 0 <= i < n ensures f(i) * s(i) == f(i) * g(i) - f(i) * h(i) { Distributes(f(i), g(i), h(i)); }
    SumSub(n, i => f(i) * g(i), i => f(i) * h(i), i => f(i) * s(i));
  }

  lemma DotScale(n: nat, f: int -> real, a: real, g: int -> real, s: int -> real)
    requires forall i {:trigger s(i)} :: 0 <= i < n ==> s(i) == a * g(i)
    ensures Dot(n, f, s) == a * Dot(n, f, g)
  {
    forall i | 0 <= i < n ensures f(i) * s(i) == a * (f(i) * g(i)) { Reassociate(f(i), a, g(i)); }
    SumScale(n, a, i => f(i) * g(i), i => f(i) * s(i));
  }

  lemma DotAddLeft(n: nat, f: int -> real, g: int -> real, s: int -> real, x: int -> real)
    requires forall i {:trigger s(i)} :: 0 <= i < n ==> s(i) == f(i) + g(i)
    ensures Dot(n, s, x) == Dot(n, f, x) + Dot(n, g, x)
  {
    DotComm(n, s, x);
    DotComm(n, f, x);
    DotComm(n, g, x);
    DotAdd(n, x, f, g, s);
  }

  lemma DotSubLeft(n: nat, f: int -> real, g: int -> real, s: int -> real, x: int -> real)
    requires forall i {:trigger s(i)} :: 0 <= i < n ==> s(i) == f(i) - g(i)
    ensures Dot(n, s, x) == Dot(n, f, x) - Dot(n, g, x)
  {
    DotComm(n, s, x);
    DotComm(n, f, x);
    DotComm(n, g, x);
    DotSub(n, x, f, g, s);
  }

  lemma DotScaleLeft(n: nat, a: real, f: int -> real, s: int -> real, x: int -> real)
    requires forall i {:trigger s(i)} :: 0 <= i < n ==> s(i) == a * f(i)
    ensures Dot(n, s, x) == a * Dot(n, f, x)
  {
    DotComm(n, s, x);
    DotComm(n, f, x);
    DotScale(n, x, a, f, s);
  }

  lemma Reassociate(x: real, a: real, y: real)
    ensures x * (a * y) == a * (x * y)
  {
  }

  /** Subtracting a constant from every entry. */
  lemma DotShift(n: nat, f: int -> real, g: int -> real, a: real, s: int -> real)
    requires forall i {:trigger s(i)} :: 0 <= i < n ==> s(i) == g(i) - a
    ensures Dot(n, f, s) == Dot(n, f, g) - a * Sum(n, f)
  {
    forall i | 0 <= i < n ensures f(i) * s(i) == f(i) * g(i) - a * f(i) { Distributes(f(i), g(i), a); }
    SumScale(n, a, f, i => a * f(i));
    SumSub(n, i => f(i) * g(i), i => a * f(i), i => f(i) * s(i));
  }

  /** A unit vector picks one entry. */
  lemma DotUnit(n: nat, k: int, f: int -> real, g: int -> real)
    requires 0 <= k < n
    requires forall i :: 0 <= i < n && i != k ==> f(i) == 0.0
    ensures Dot(n, f, g) == f(k) * g(k)
  {
    SumDelta(n, k, i => f(i) * g(i));
  }

  lemma DotZero(n: nat, f: int -> real, g: int -> real)
    requires forall i :: 0 <= i < n ==> f(i) == 0.0 || g(i) == 0.0
    ensures Dot(n, f, g) == 0.0
  {
    SumZero(n, i => f(i) * g(i));
  }

  function RowOf(c: (int, int) -> real, k: int): int -> real { j => c(k, j) }

  function ColOf(c: (int, int) -> real, j: int): int -> real { k => c(k, j) }

  /** M x */
  function MulVec(n: nat, c: (int, int) -> real, x: int -> real): int -> real { k => Dot(n, RowOf(c, k), x) }

  /** M^T u */
  function VecMul(m: nat, u: int -> real, c: (int, int) -> real): int -> real { j => Dot(m, u, ColOf(c, j)) }

  /** u^T (M x) == (M^T u)^T x */
  lemma {:induction false} DotSwap(m: nat, n: nat, u: int -> real, c: (int, int) -> real, x: int -> real)
    ensures Dot(m, u, MulVec(n, c, x)) == Dot(n, VecMul(m, u, c), x)
    decreases m, 1
  {
    if m == 0 {
      DotZero(n, VecMul(m, u, c), x);
    } else {
      DotSwapNext(m, n, u, c, x);
    }
  }

  lemma {:induction false} DotSwapNext(m: nat, n: nat, u: int -> real, c: (int, int) -> real, x: int -> real)
    requires m > 0
    ensures Dot(m, u, MulVec(n, c, x)) == Dot(n, VecMul(m, u, c), x)
    decreases m, 0
  {
    hide Sum;
    hide Dot;
    hide Mul;
    DotSwap(m - 1, n, u, c, x);
    DotSwapStep(m, n, u, c, x);
    DotStepTo(m, u, MulVec(n, c, x), Dot(n, RowOf(c, m - 1), x));
  }

  lemma DotSwapStep(m: nat, n: nat, u: int -> real, c: (int, int) -> real, x: int -> real)
    requires m > 0
    ensures Dot(n, VecMul(m, u, c), x) == Dot(n, VecMul(m - 1, u, c), x) + Mul(u(m - 1), Dot(n, RowOf(c, m - 1), x))
  {
    forall j | 0 <= j < n ensures VecMul(m, u, c)(j) == VecMul(m - 1, u, c)(j) + u(m - 1) * RowOf(c, m - 1)(j) {
      VecMulStep(m, u, c, j);
    }
    DotAxpyLeft(n, VecMul(m - 1, u, c), u(m - 1), RowOf(c, m - 1), VecMul(m, u, c), x);
  }

  /** s = f + a g */
  lemma DotAxpyLeft(n: nat, f: int -> real, a: real, g: int -> real, s: int -> real, x: int -> real)
    requires forall i {:trigger s(i)} :: 0 <= i < n ==> s(i) == f(i) + a * g(i)
    ensures Dot(n, s, x) == Dot(n, f, x) + a * Dot(n, g, x)
  {
    var ag := i => a * g(i);
    DotAddLeft(n, f, ag, s, x);
    DotScaleLeft(n, a, g, ag, x);
  }

  lemma VecMulStep(m: nat, u: int -> real, c: (int, int) -> real, j: int)
    requires m > 0
    ensures VecMul(m, u, c)(j) == VecMul(m - 1, u, c)(j) + u(m - 1) * RowOf(c, m - 1)(j)
  {
    DotStep(m, u, ColOf(c, j));
  }

  lemma DotStep(n: nat, f: int -> real, g: int -> real)
    requires n > 0
    ensures Dot(n, f, g) == Dot(n - 1, f, g) + f(n - 1) * g(n - 1)
  {
  }

  lemma DotStepTo(n: nat, f: int -> real, g: int -> real, y: real)
    requires n > 0 && g(n - 1) == y
    ensures Dot(n, f, g) == Dot(n - 1, f, g) + Mul(f(n - 1), y)
  {
  }

  /** The entries past the first `e`. */
  function Tail(e: nat, y: int -> real): int -> real { j => y(e + j) }

  lemma {:induction false} DotSplit(m: nat, n: nat, f: int -> real, g: int -> real)
    ensures Dot(m + n, f, g) == Dot(m, f, g) + Dot(n, Tail(m, f), Tail(m, g))
  {
    if n > 0 {
      DotSplit(m, n - 1, f, g);
      DotStep(m + n, f, g);
      DotStep(n, Tail(m, f), Tail(m, g));
    }
  }

  /** The inner product with a sum of vectors. */
  lemma {:induction false} DotOfSum(n: nat, m: nat, f: (int, int) -> real, x: int -> real)
    ensures Dot(n, d => Sum(m, c => f(c, d)), x) == Sum(m, c => Dot(n, d => f(c, d), x))
  {
    if m == 0 {
      DotZero(n, d => Sum(m, c => f(c, d)), x);
    } else {
      DotOfSum(n, m - 1, f, x);
      var s, p, l: int -> real := d => Sum(m, c => f(c, d)), d => Sum(m - 1, c => f(c, d)), d => f(m - 1, d);
      forall d | 0 <= d < n ensures s(d) == p(d) + l(d) { SumStep(m - 1, c => f(c, d)); }
      DotAddLeft(n, p, l, s, x);
      SumStep(m - 1, c => Dot(n, d => f(c, d), x));
    }
  }
}
