/** The in-place vector kernels of the bidiagonalization
    (crates/schwarz-precond/src/lsmr/bidiag.rs:22-107). */
module VectorKernels {
  import opened Wrappers
  import opened Sums
  import opened Vectors

  /** The first `i` entries of `y` are those of `z`, the rest still those of `y0`. */
  ghost predicate Rewritten(y: seq<real>, z: seq<real>, y0: seq<real>, i: nat) {
    |y| == |z| == |y0| && i <= |y| && forall k :: 0 <= k < |y| ==> y[k] == if k < i then z[k] else y0[k]
  }

  /** Fused `y = x + scale y` returning the squared norm of the result. */
  method AxpyWithSqNorm(y: array<real>, x: seq<real>, scale: real) returns (s: real)
    requires |x| == y.Length
    modifies y
    ensures y[..] == Comb(1.0, x, scale, old(y[..])) && s == Inner(y[..], y[..])
  {
    ghost var y0 := y[..];
    ghost var z := Comb(1.0, x, scale, y0);
    s := 0.0;
    for i := 0 to y.Length
      invariant Rewritten(y[..], z, y0, i) && s == Dot(i, At(z), At(z))
    {
      var val := x[i] + scale * y[i];
      assert z[i] == val;
      y[i] := val;
      DotStep(i + 1, At(z), At(z));
      s := s + val * val;
    }
    assert y[..] == z;
  }

  /** y = alpha x + beta y */
  method Axpby(y: array<real>, x: seq<real>, alpha: real, beta: real)
    requires |x| == y.Length
    modifies y
    ensures y[..] == Comb(alpha, x, beta, old(y[..]))
  {
    ghost var y0 := y[..];
    ghost var z := Comb(alpha, x, beta, y0);
    for i := 0 to y.Length
      invariant Rewritten(y[..], z, y0, i)
    {
      assert z[i] == alpha * x[i] + beta * y[i];
      y[i] := alpha * x[i] + beta * y[i];
    }
    assert y[..] == z;
  }

  method ScaleInPlace(y: array<real>, s: real)
    modifies y
    ensures y[..] == Scale(s, old(y[..]))
  {
    ghost var y0 := y[..];
    ghost var z := Scale(s, y0);
    for i := 0 to y.Length
      invariant Rewritten(y[..], z, y0, i)
    {
      assert z[i] == s * y[i];
      y[i] := s * y[i];
    }
    assert y[..] == z;
  }

  /** `copy_from_slice` over a whole vector. */
  method Overwrite(y: array<real>, x: seq<real>)
    requires |x| == y.Length
    modifies y
    ensures y[..] == x
  {
    forall i | 0 <= i < y.Length { y[i] := x[i]; }
  }

  /** `vec_norm`: scaled by the largest magnitude before squaring. */
  method VecNorm(v: seq<real>, sqrt: real -> real) returns (r: real)
    requires IsSqrt(sqrt)
    ensures r == sqrt(Inner(v, v))
  {
    hide Inner;
    var scale := 0.0;
    for i := 0 to |v|
      invariant scale >= 0.0 && forall k :: 0 <= k < i ==> -scale <= v[k] <= scale
    {
      scale := Max(scale, Abs(v[i]));
    }
    if scale == 0.0 {
      assert v == Zeros(|v|);
      InnerZeros(|v|, v);
      SqrtUnique(sqrt, 0.0, 0.0);
      return 0.0;
    }
    var w := seq(|v|, i requires 0 <= i < |v| => v[i] / scale);
    var q := DotProduct(w, w);
    UndoDivide(scale, v, w);
    InnerScale(scale, w, v);
    InnerScaleRight(w, scale, w);
    SelfNonneg(w);
    r := scale * sqrt(q);
    NormScalars(scale, sqrt(q), q, Inner(v, v), r);
    SqrtUnique(sqrt, r, Inner(v, v));
  }

  lemma UndoDivide(c: real, v: seq<real>, w: seq<real>)
    requires c != 0.0 && |w| == |v| && forall i :: 0 <= i < |v| ==> w[i] == v[i] / c
    ensures v == Scale(c, w)
  {
    var s := Scale(c, w);
    forall i | 0 <= i < |v| ensures v[i] == s[i] { QuotientTimes(v[i], c); }
  }

  lemma QuotientTimes(x: real, c: real)
    requires c != 0.0
    ensures c * (x / c) == x
  {
  }

  lemma NormScalars(c: real, s: real, q: real, z: real, r: real)
    requires c > 0.0 && s >= 0.0 && s * s == q && z == c * (c * q) && r == c * s
    ensures r >= 0.0 && r * r == z
  {
    if s > 0.0 { SignedProduct(c, s, r); }
    assert r * r == c * (c * (s * s));
  }

  lemma SqrtUnique(sqrt: real -> real, r: real, q: real)
    requires IsSqrt(sqrt) && r >= 0.0 && r * r == q
    ensures r == sqrt(q)
  {
    SquareNonneg(r, q);
    EqualSquares(r, sqrt(q), q);
  }

  datatype LsmrError = InvalidInput

  /** sqrt(epsilon) |v| |p| */
  function RoundoffBound(sqrt: real -> real, epsilon: real, vv: real, pp: real): real { sqrt(epsilon) * sqrt(vv * pp) }

  /** `alpha_from_vp`: the norm, zero for a pairing that is negative within roundoff of the
      product of norms, an error beyond that. */
  method AlphaFromVp(v: seq<real>, p: seq<real>, sqrt: real -> real, epsilon: real) returns (r: Result<real, LsmrError>)
    requires |v| == |p|
    ensures r.Err? <==> Inner(v, p) < 0.0 && Inner(v, p) < -RoundoffBound(sqrt, epsilon, Inner(v, v), Inner(p, p))
    ensures r.Ok? ==> r.value == sqrt(Max(Inner(v, p), 0.0))
  {
    var vp := DotProduct(v, p);
    if vp < 0.0 {
      var vv := DotProduct(v, v);
      var pp := DotProduct(p, p);
      var bound := RoundoffBound(sqrt, epsilon, vv, pp);
      if vp < -bound {
        return Err(InvalidInput);
      }
    }
    r := Ok(sqrt(Max(vp, 0.0)));
  }
}
