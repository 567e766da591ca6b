/** `ModifiedGolubKahan` and its refinement of the textbook recurrence over whole runs
    (crates/schwarz-precond/src/lsmr/bidiag.rs:278-304, 390-513). */
module ModifiedGolubKahans {
  import opened Wrappers
  import opened Sums
  import opened Vectors
  import opened VectorKernels
  import opened Bidiagonal
  import opened WindowRings
  import opened GolubKahan

  /** The stored state stands for the normalized triple `s`: `v` itself, `p` scaled by alpha
      while alpha lives, `u` scaled by what `k` undoes. */
  ghost predicate Simulates(u: seq<real>, v: seq<real>, p: seq<real>, alpha: real, k: real, s: Basis) {
    alpha == s.alpha && v == s.v && (s.alpha > 0.0 ==> p == Scale(s.alpha, s.p)) && Scale(k, u) == s.u
  }

  ghost function PairOf(s: Basis): Pair { (s.v, s.p) }

  /** The ring was pushed the pairs of the run in order, up to a left breakdown. */
  ghost predicate PushedFrom(pushed: seq<Pair>, h: seq<Basis>) {
    && |pushed| <= |h| && (forall i :: 0 <= i < |pushed| ==> pushed[i] == PairOf(h[i]))
    && (|pushed| < |h| ==> h[|h| - 1].alpha == 0.0)
  }

  // ---- The scaled vectors ------------------------------------------------------------------

  lemma ScaledLeft(y: seq<real>, alpha: real, k: real, u: seq<real>, scale: real)
    requires |y| == |u| && scale == -(alpha * k)
    ensures Comb(1.0, y, scale, u) == Comb(1.0, y, -alpha, Scale(k, u))
  {
    var w, z := Comb(1.0, y, scale, u), Comb(1.0, y, -alpha, Scale(k, u));
    forall i | 0 <= i < |y| ensures w[i] == z[i] { LeftProducts(alpha, k, u[i]); }
  }

  lemma LeftProducts(a: real, k: real, x: real)
    ensures -(a * k) * x == -a * (k * x)
  {
  }

  /** beta^-1 A^T u - (beta / alpha) (alpha p) is A^T (u / beta) - beta p. */
  lemma ScaledRight(y: seq<real>, beta: real, alpha: real, p: seq<real>)
    requires |y| == |p| && beta != 0.0 && alpha != 0.0
    ensures Comb(1.0 / beta, y, -(beta / alpha), Scale(alpha, p)) == Comb(1.0, Scale(1.0 / beta, y), -beta, p)
  {
    var w, z := Comb(1.0 / beta, y, -(beta / alpha), Scale(alpha, p)), Comb(1.0, Scale(1.0 / beta, y), -beta, p);
    forall i | 0 <= i < |y| ensures w[i] == z[i] { RightProducts(beta, alpha, p[i]); }
  }

  lemma RightProducts(beta: real, alpha: real, x: real)
    requires alpha != 0.0
    ensures -(beta / alpha) * (alpha * x) == -beta * x
  {
    assert (beta / alpha) * alpha == beta;
    assert -(beta / alpha) * (alpha * x) == -((beta / alpha) * alpha) * x;
  }

  /** Where alpha has vanished the next left vector vanishes too: the division by alpha is
      never reached. */
  lemma StalledLeft(sys: System, s: Basis)
    requires Operators(sys) && Normalized(sys, s) && s.alpha == 0.0
    ensures LeftRaw(sys, s) == Zeros(sys.m) && Inner(LeftRaw(sys, s), LeftRaw(sys, s)) == 0.0
  {
    hide Inner;
    BrokenDown(sys, s);
    InnerZeros(sys.m, Zeros(sys.m));
  }

  // ---- Reorthogonalization is a no-op ------------------------------------------------------

  /** The window of a ring, or none. */
  ghost function WindowIn(ring: WindowRing?): (w: seq<Pair>)
    requires ring != null ==> ring.Valid()
    reads ring
  {
    if ring == null then [] else Last(ring.pushed, ring.count)
  }

  ghost predicate WindowSized(w: seq<Pair>, n: nat) {
    forall i :: 0 <= i < |w| ==> |w[i].0| == |w[i].1| == n
  }

  lemma RingWindowSized(ring: WindowRing)
    requires ring.Valid()
    ensures WindowSized(Last(ring.pushed, ring.count), ring.n)
  {
    var w := ring.Window();
  }

  /** The raw right vector is orthogonal to every pair of the run. */
  lemma RawOrthogonal(sys: System, sqrt: real -> real, b: seq<real>, h: seq<Basis>, p: seq<real>, u: seq<real>, beta: real, j: nat)
    requires Operators(sys) && IsSqrt(sqrt) && Run(sys, b, h) && Orthogonal(sys, h) && j < |h| && |p| == sys.n && |u| == sys.m
    requires Next(sys, h[|h| - 1], RightOf(sys, sqrt, p, u, beta))
    ensures |sys.precond(p)| == |h[j].p| == sys.n && Inner(sys.precond(p), h[j].p) == 0.0
  {
    hide Inner;
    hide Operators;
    hide Next;
    hide RightOf;
    hide First;
    hide StepAt;
    var t := RightOf(sys, sqrt, p, u, beta);
    SizedPrecond(sys, p);
    NextOrthogonal(sys, b, h, t, j);
    RightOfNormalizes(sys, sqrt, p, u, beta);
    if t.alpha > 0.0 {
      PrecondScale(sys, 1.0 / t.alpha, p);
      InnerScale(1.0 / t.alpha, sys.precond(p), h[j].p);
      ProductZero(1.0 / t.alpha, Inner(sys.precond(p), h[j].p));
    } else {
      InnerZeros(sys.n, h[j].p);
    }
  }

  /** So the sweep over the window leaves the new pair alone. */
  lemma WindowNoop(sys: System, w: seq<Pair>, pushed: seq<Pair>, b: seq<real>, h: seq<Basis>, v: seq<real>, p: seq<real>)
    requires PushedFrom(pushed, h) && |w| <= |pushed| && w == Last(pushed, |w|) && |v| == |p| == sys.n && WindowSized(w, sys.n)
    requires forall j :: 0 <= j < |h| ==> |h[j].p| == sys.n && Inner(v, h[j].p) == 0.0
    ensures Sweep(w, v, p) == (v, p)
  {
    hide Inner;
    forall i | 0 <= i < |w| ensures Inner(v, w[i].1) == 0.0 {
      var j := |pushed| - |w| + i;
      assert w[i] == pushed[j] == PairOf(h[j]);
    }
    SweepNoop(w, v, p);
  }

  // ---- One normalization -------------------------------------------------------------------

  /** What `reorthonormalize_v` leaves, from the swept pair `q`. */
  ghost predicate NormalizedFrom(sqrt: real -> real, q: Pair, alpha: real, v: seq<real>, p: seq<real>)
    requires |q.0| == |q.1|
  {
    && alpha == sqrt(Max(Inner(q.0, q.1), 0.0)) && p == q.1
    && v == if alpha > 0.0 then Scale(1.0 / alpha, q.0) else q.0
  }

  function InverseOrZero(alpha: real): real { if alpha > 0.0 then 1.0 / alpha else 0.0 }

  /** `reorthonormalize_v` */
  method ReorthonormalizeV(sys: System, sqrt: real -> real, epsilon: real, v: array<real>, p: array<real>, ring: WindowRing?)
    returns (r: Result<real, LsmrError>)
    requires Operators(sys) && IsSqrt(sqrt) && v != p && v.Length == p.Length == sys.n
    requires ring != null ==> ring.Valid() && ring.n == sys.n
    modifies v, p, ring
    ensures ring != null ==> ring.Valid() && ring.n == sys.n
    ensures |sys.precond(old(p[..]))| == sys.n && WindowSized(old(WindowIn(ring)), sys.n)
    ensures var q := Sweep(old(WindowIn(ring)), sys.precond(old(p[..])), old(p[..]));
      && (r.Err? <==> Inner(q.0, q.1) < 0.0 && Inner(q.0, q.1) < -RoundoffBound(sqrt, epsilon, Inner(q.0, q.0), Inner(q.1, q.1)))
      && (r.Ok? ==> NormalizedFrom(sqrt, q, r.value, v[..], p[..]))
    ensures ring != null && r.Ok? ==> ring.pushed == old(ring.pushed) + [(v[..], Scale(InverseOrZero(r.value), p[..]))]
  {
    hide Operators;
    hide Inner;
    hide Sweep;
    SizedPrecond(sys, p[..]);
    Overwrite(v, sys.precond(p[..]));
    ghost var w := WindowIn(ring);
    SweepEmpty(v[..], p[..]);
    if ring != null {
      RingWindowSized(ring);
      ring.Reorthogonalize(v, p);
    }
    ghost var q := Sweep(w, sys.precond(old(p[..])), old(p[..]));
    assert q == (v[..], p[..]);
    r := AlphaFromVp(v[..], p[..], sqrt, epsilon);
    if r.Ok? {
      if r.value > 0.0 {
        ScaleInPlace(v, 1.0 / r.value);
      }
      if ring != null {
        ring.Push(v[..], Scale(InverseOrZero(r.value), p[..]));
      }
    }
  }

  // ---- One step ----------------------------------------------------------------------------

  /** Normalizing a raw right vector yields the pair of `RightOf`, `p` still scaled by alpha. */
  lemma RightSimulates(sys: System, sqrt: real -> real, p: seq<real>, u: seq<real>, beta: real, alpha: real, v: seq<real>)
    requires Operators(sys) && IsSqrt(sqrt) && |p| == sys.n && |u| == sys.m && |sys.precond(p)| == sys.n
    requires NormalizedFrom(sqrt, (sys.precond(p), p), alpha, v, p)
    ensures var t := RightOf(sys, sqrt, p, u, beta);
      && alpha == t.alpha && v == t.v && (t.alpha > 0.0 ==> p == Scale(t.alpha, t.p)) && t.u == u && t.beta == beta
      && (v, Scale(InverseOrZero(alpha), p)) == PairOf(t)
  {
    hide Inner;
    hide Operators;
    hide RightOf;
    var t := RightOf(sys, sqrt, p, u, beta);
    RightOfNormalizes(sys, sqrt, p, u, beta);
    RightAlpha(sys, sqrt, p, u, beta, alpha);
    if t.alpha > 0.0 {
      ScaleBack(t.alpha, p);
      PrecondScale(sys, 1.0 / t.alpha, p);
    } else {
      PrecondZeros(sys);
      ZeroScale(p);
    }
  }

  lemma RightAlpha(sys: System, sqrt: real -> real, p: seq<real>, u: seq<real>, beta: real, alpha: real)
    requires Operators(sys) && IsSqrt(sqrt) && |p| == sys.n && |u| == sys.m && |sys.precond(p)| == sys.n
    requires alpha == sqrt(Max(Inner(sys.precond(p), p), 0.0))
    ensures alpha == RightOf(sys, sqrt, p, u, beta).alpha
  {
    hide Inner;
    hide Operators;
    SizedPrecond(sys, p);
  }

  function Min(x: nat, y: nat): nat { if x < y then x else y }

  lemma RunOfFirst(sys: System, b: seq<real>, t: Basis)
    requires First(sys, b, t)
    ensures Run(sys, b, [t])
  {
    assert StepAt(sys, [t], 0);
  }

  /** The first normalized triple, left in the buffers. */
  method InitBuffers(sys: System, sqrt: real -> real, epsilon: real, b: seq<real>, u: array<real>, v: array<real>,
                     p: array<real>, ring: WindowRing?)
    returns (alpha: real)
    requires Operators(sys) && IsSqrt(sqrt) && |b| == sys.m == u.Length && v.Length == p.Length == sys.n
    requires u != v && u != p && v != p && u[..] == Zeros(sys.m)
    requires ring != null ==> ring.Valid() && ring.n == sys.n && ring.pushed == []
    modifies u, v, p, ring
    ensures Simulates(u[..], v[..], p[..], alpha, 1.0, FirstOf(sys, sqrt, b))
    ensures ring != null ==> ring.Valid() && ring.pushed == [PairOf(FirstOf(sys, sqrt, b))]
  {
    hide Operators;
    hide Inner;
    hide RightOf;
    hide WindowRing.Valid;
    var beta := VecNorm(b, sqrt);
    SelfNonneg(b);
    SqrtZero(sqrt, Inner(b, b));
    if beta > 0.0 {
      Overwrite(u, Scale(1.0 / beta, b));
    }
    SizedAdjoint(sys, u[..]);
    Overwrite(p, sys.adjoint(u[..]));
    SizedPrecond(sys, p[..]);
    Overwrite(v, sys.precond(p[..]));
    var r := AlphaFromVp(v[..], p[..], sqrt, epsilon);
    alpha := r.value;
    if alpha > 0.0 {
      ScaleInPlace(v, 1.0 / alpha);
    }
    RightSimulates(sys, sqrt, p[..], u[..], beta, alpha, v[..]);
    if ring != null {
      ring.Push(v[..], Scale(InverseOrZero(alpha), p[..]));
    }
    ScaleOne(u[..]);
  }

  class ModifiedGolubKahan {
    const sys: System
    const sqrt: real -> real
    const epsilon: real
    const u: array<real>
    const v: array<real>
    const pTilde: array<real>
    const ring: WindowRing?
    ghost const b: seq<real>
    var alpha: real
    var betaPrevInv: real
    ghost var hist: seq<Basis>

    /** `init`, with `WindowRing::new`: no ring when the capped window is empty. */
    constructor (sys: System, sqrt: real -> real, epsilon: real, b: seq<real>, localSize: nat)
      requires Operators(sys) && IsSqrt(sqrt) && |b| == sys.m
      ensures Valid() && hist == [FirstOf(sys, sqrt, b)] && this.sys == sys && this.b == b && this.sqrt == sqrt
      ensures fresh(u) && fresh(v) && fresh(pTilde) && (ring != null ==> fresh(ring))
    {
      hide Operators;
      hide Inner;
      hide RightOf;
      hide FirstOf;
      hide First;
      hide Run;
      hide WindowRing.Valid;
      this.sys, this.sqrt, this.epsilon, this.b := sys, sqrt, epsilon, b;
      u, v, pTilde := new real[sys.m](_ => 0.0), new real[sys.n](_ => 0.0), new real[sys.n](_ => 0.0);
      var cap := Min(localSize, Min(sys.m, sys.n));
      if cap == 0 {
        ring := null;
      } else {
        var window := new WindowRing(cap, sys.n);
        ring := window;
      }
      alpha, betaPrevInv, hist := 0.0, 1.0, [];
      new;
      alpha := InitBuffers(sys, sqrt, epsilon, b, u, v, pTilde, ring);
      ghost var t := FirstOf(sys, sqrt, b);
      FirstOfIsFirst(sys, sqrt, b);
      RunOfFirst(sys, b, t);
      hist := [t];
    }

    /** The arrays and the ring, apart from each other. */
    ghost predicate Buffers() {
      && u.Length == sys.m && v.Length == pTilde.Length == sys.n
      && u != v && u != pTilde && v != pTilde
      && (ring != null ==> ring.n == sys.n)
    }

    /** `hist` is a textbook run and the stored vectors stand for its last triple. */
    ghost predicate Valid()
      reads this, u, v, pTilde, ring
    {
      && Buffers() && Operators(sys) && IsSqrt(sqrt) && Run(sys, b, hist)
      && Simulates(u[..], v[..], pTilde[..], alpha, betaPrevInv, hist[|hist| - 1])
      && (ring != null ==> ring.Valid() && PushedFrom(ring.pushed, hist))
    }

    /** `update_p_tilde`; dividing by alpha needs it positive. */
    method UpdatePTilde(beta: real, betaInv: real)
      requires Operators(sys) && Buffers() && alpha > 0.0
      modifies pTilde
      ensures |sys.adjoint(u[..])| == sys.n
      ensures pTilde[..] == Comb(betaInv, sys.adjoint(u[..]), -(beta / alpha), old(pTilde[..]))
    {
      hide Operators;
      SizedAdjoint(sys, u[..]);
      var atu := sys.adjoint(u[..]);
      Axpby(pTilde, atu, betaInv, -(beta / alpha));
    }

    /** The left half: `u` becomes the raw left vector of the last triple. */
    method UpdateU(ghost s: Basis) returns (beta: real)
      requires Operators(sys) && IsSqrt(sqrt) && Buffers() && Normalized(sys, s)
      requires Simulates(u[..], v[..], pTilde[..], alpha, betaPrevInv, s)
      modifies u
      ensures u[..] == LeftRaw(sys, s) && beta == sqrt(Inner(LeftRaw(sys, s), LeftRaw(sys, s)))
      ensures s.alpha == 0.0 ==> beta == 0.0
    {
      hide Operators;
      hide Inner;
      SizedApply(sys, v[..]);
      var av := sys.apply(v[..]);
      var scale := -(alpha * betaPrevInv);
      ScaledLeft(av, alpha, betaPrevInv, u[..], scale);
      assert LeftRaw(sys, s) == Comb(1.0, av, -alpha, Scale(betaPrevInv, u[..]));
      var betaSq := AxpyWithSqNorm(u, av, scale);
      beta := sqrt(betaSq);
      if s.alpha == 0.0 {
        StalledLeft(sys, s);
        SqrtZero(sqrt, 0.0);
        RootOfZero(sqrt);
      }
    }

    /** Everything but the simulation: what holds while a step towards `t` rewrites the buffers. */
    ghost predicate Stepping(t: Basis)
      reads this, ring
    {
      && Buffers() && Operators(sys) && IsSqrt(sqrt) && Run(sys, b, hist) && Run(sys, b, hist + [t])
      && (ring != null ==> ring.Valid() && PushedFrom(ring.pushed, hist))
    }

    /** The lucky breakdown: everything paired with `u` is zeroed. */
    method BreakDown(ghost t: Basis)
      requires Stepping(t) && t == Broken(sys)
      modifies this`alpha, this`betaPrevInv, this`hist, v, pTilde
      ensures Valid() && hist == old(hist) + [t] && alpha == 0.0
    {
      hide Operators;
      hide Inner;
      hide Run;
      hide WindowRing.Valid;
      Overwrite(v, Zeros(sys.n));
      Overwrite(pTilde, Zeros(sys.n));
      alpha := 0.0;
      betaPrevInv := 0.0;
      ScaleZeros(0.0, sys.n);
      ZeroScale(u[..]);
      hist := hist + [t];
    }

    /** The right half: the stored `p` and `v` become those of the textbook successor. */
    method Advance(beta: real, ghost s: Basis, ghost t: Basis) returns (r: Result<real, LsmrError>)
      requires Stepping(t) && s == hist[|hist| - 1] && Normalized(sys, s) && s.alpha > 0.0 && t == NextOf(sys, sqrt, s)
      requires u[..] == LeftRaw(sys, s) && beta == sqrt(Inner(u[..], u[..])) && beta != 0.0
      requires alpha == s.alpha && pTilde[..] == Scale(s.alpha, s.p)
      modifies this`alpha, this`betaPrevInv, this`hist, v, pTilde, ring
      ensures Valid() && hist == old(hist) + [t] && r == Ok(t.alpha) && t.beta == beta
    {
      hide WindowIn;
      hide Comb;
      hide Operators;
      hide Inner;
      hide Run;
      hide NextOf;
      hide LeftRaw;
      hide RightRaw;
      hide Sweep;
      hide WindowRing.Valid;
      RunNonempty(sys, b, hist);
      var betaInv := 1.0 / beta;
      UpdatePTilde(beta, betaInv);
      RightRawStored(sys, s, u[..], beta);
      ghost var p := pTilde[..];
      ghost var w := WindowIn(ring);
      AdvanceNoop(sys, sqrt, b, hist, s, t, u[..], beta, p, ring);
      SizedPrecond(sys, p);
      var q := ReorthonormalizeV(sys, sqrt, epsilon, v, pTilde, ring);
      NextOfRight(sys, sqrt, s, u[..], beta);
      RightSimulates(sys, sqrt, p, Scale(betaInv, u[..]), beta, q.value, v[..]);
      alpha := q.value;
      betaPrevInv := betaInv;
      hist := hist + [t];
      r := Ok(alpha);
    }

    /** One step. The stored state keeps simulating the textbook run, which grows by one
        triple; no alpha is needed positive and no error can be raised. */
    method Step() returns (r: Result<BidiagStep, LsmrError>)
      requires Valid()
      modifies this`alpha, this`betaPrevInv, this`hist, u, v, pTilde, ring
      ensures Valid() && |hist| == old(|hist|) + 1 && hist[..old(|hist|)] == old(hist)
      ensures r == Ok(BidiagStep(hist[|hist| - 1].alpha, hist[|hist| - 1].beta))
    {
      hide Operators;
      hide Inner;
      hide Run;
      hide Next;
      hide NextOf;
      hide LeftRaw;
      hide WindowRing.Valid;
      RunNonempty(sys, b, hist);
      ghost var s := hist[|hist| - 1];
      ghost var t := NextTriple(sys, sqrt, b, hist);
      var beta := UpdateU(s);
      if beta == 0.0 {
        assert Sized(sys, s) && sqrt(Inner(u[..], u[..])) == 0.0;
        NextOfBroken(sys, sqrt, s, u[..]);
        BreakDown(t);
        return Ok(BidiagStep(0.0, beta));
      }
      var right := Advance(beta, s, t);
      r := Ok(BidiagStep(right.value, beta));
    }
  }

  ghost function NextTriple(sys: System, sqrt: real -> real, b: seq<real>, h: seq<Basis>): (t: Basis)
    requires Operators(sys) && IsSqrt(sqrt) && |h| > 0 && Run(sys, b, h)
    ensures var s := h[|h| - 1];
      Normalized(sys, s) && t == NextOf(sys, sqrt, s) && Next(sys, s, t) && Run(sys, b, h + [t])
  {
    RunNormalized(sys, b, h, |h| - 1);
    NextOfIsNext(sys, sqrt, h[|h| - 1]);
    RunExtends(sys, b, h, NextOf(sys, sqrt, h[|h| - 1]));
    NextOf(sys, sqrt, h[|h| - 1])
  }

  lemma NextOfBroken(sys: System, sqrt: real -> real, s: Basis, uRaw: seq<real>)
    requires Operators(sys) && Sized(sys, s) && uRaw == LeftRaw(sys, s) && sqrt(Inner(uRaw, uRaw)) == 0.0
    ensures NextOf(sys, sqrt, s) == Broken(sys)
  {
  }

  lemma RightRawStored(sys: System, s: Basis, uRaw: seq<real>, beta: real)
    requires Operators(sys) && Sized(sys, s) && |uRaw| == sys.m && beta != 0.0 && s.alpha != 0.0
    ensures |sys.adjoint(uRaw)| == sys.n
    ensures Comb(1.0 / beta, sys.adjoint(uRaw), -(beta / s.alpha), Scale(s.alpha, s.p))
            == RightRaw(sys, s, Scale(1.0 / beta, uRaw), beta)
  {
    hide Operators;
    AdjointScale(sys, 1.0 / beta, uRaw);
    ScaledRight(sys.adjoint(uRaw), beta, s.alpha, s.p);
  }

  lemma NextOfRight(sys: System, sqrt: real -> real, s: Basis, uRaw: seq<real>, beta: real)
    requires Operators(sys) && Sized(sys, s) && uRaw == LeftRaw(sys, s) && |uRaw| == sys.m
    requires beta == sqrt(Inner(uRaw, uRaw)) && beta != 0.0
    ensures var u := Scale(1.0 / beta, uRaw);
      && |RightRaw(sys, s, u, beta)| == sys.n
      && NextOf(sys, sqrt, s) == RightOf(sys, sqrt, RightRaw(sys, s, u, beta), u, beta)
  {
    hide Inner;
    hide RightOf;
    SizedAdjoint(sys, Scale(1.0 / beta, uRaw));
  }

  lemma AdvanceNoop(sys: System, sqrt: real -> real, b: seq<real>, h: seq<Basis>, s: Basis, t: Basis, uRaw: seq<real>,
                    beta: real, p: seq<real>, ring: WindowRing?)
    requires Operators(sys) && IsSqrt(sqrt) && Run(sys, b, h) && Run(sys, b, h + [t]) && |h| > 0 && s == h[|h| - 1] && Sized(sys, s)
    requires uRaw == LeftRaw(sys, s) && |uRaw| == sys.m && beta == sqrt(Inner(uRaw, uRaw)) && beta != 0.0
    requires p == RightRaw(sys, s, Scale(1.0 / beta, uRaw), beta) && t == NextOf(sys, sqrt, s) && |p| == sys.n
    requires ring != null ==> ring.Valid() && ring.n == sys.n && PushedFrom(ring.pushed, h)
    ensures |sys.precond(p)| == sys.n && WindowSized(WindowIn(ring), sys.n)
    ensures Sweep(WindowIn(ring), sys.precond(p), p) == (sys.precond(p), p)
  {
    hide Operators;
    hide Inner;
    hide Run;
    hide NextOf;
    hide RightOf;
    hide RightRaw;
    hide LeftRaw;
    hide Sweep;
    hide Next;
    NextOfRight(sys, sqrt, s, uRaw, beta);
    RunOrthogonal(sys, b, h);
    RunStep(sys, b, h + [t], |h|);
    SizedPrecond(sys, p);
    forall j | 0 <= j < |h| ensures |h[j].p| == sys.n && Inner(sys.precond(p), h[j].p) == 0.0 {
      RawOrthogonal(sys, sqrt, b, h, p, Scale(1.0 / beta, uRaw), beta, j);
    }
    SweepEmpty(sys.precond(p), p);
    if ring != null {
      RingWindowSized(ring);
      WindowNoop(sys, WindowIn(ring), ring.pushed, b, h, sys.precond(p), p);
    }
  }

  ghost function Broken(sys: System): Basis {
    Basis(Zeros(sys.m), Zeros(sys.n), Zeros(sys.n), 0.0, 0.0)
  }

  /** After a breakdown every later step is (0, 0). */
  lemma {:induction false} RunStalls(sys: System, b: seq<real>, h: seq<Basis>, k: nat, j: nat)
    requires Operators(sys) && Run(sys, b, h) && k < j < |h| && h[k].alpha == 0.0
    ensures h[j].alpha == 0.0 && h[j].beta == 0.0 && h[j].v == Zeros(sys.n)
    decreases j
  {
    hide Operators;
    hide Inner;
    hide First;
    hide Next;
    if k + 1 < j { RunStalls(sys, b, h, k, j - 1); }
    RunNormalized(sys, b, h, j - 1);
    RunStep(sys, b, h, j);
    StalledStep(sys, h[j - 1], h[j]);
    RunNormalized(sys, b, h, j);
    BrokenDown(sys, h[j]);
  }

  lemma ZeroScale(x: seq<real>)
    ensures Scale(0.0, x) == Zeros(|x|)
  {
  }

  lemma RootOfZero(sqrt: real -> real)
    requires IsSqrt(sqrt)
    ensures sqrt(0.0) == 0.0
  {
    var r := sqrt(0.0);
    assert r * r == 0.0;
    if r != 0.0 { SquareOfNonzero(r, 0.0); }
  }
}
