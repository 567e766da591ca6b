/** The ring of recent basis pairs and its modified Gram-Schmidt sweep
    (crates/schwarz-precond/src/lsmr/bidiag.rs:130-217). */
module WindowRings {
  import opened Sums
  import opened Vectors
  import opened VectorKernels
  import opened Bidiagonal

  type Pair = (seq<real>, seq<real>)

  /** `a mod cap` for an index at most one lap ahead. */
  function Wrap(a: nat, cap: nat): nat { if a < cap then a else a - cap }

  lemma WrapIsMod(a: nat, cap: nat)
    requires 0 < cap && a < 2 * cap
    ensures a % cap == Wrap(a, cap)
  {
    if a >= cap { assert a == 1 * cap + (a - cap); }
  }

  /** The last `n` elements. */
  function Last<T>(s: seq<T>, n: nat): seq<T>
    requires n <= |s|
  {
    s[|s| - n..]
  }

  /** The slot of the `i`-th oldest pair, of `cap`. */
  function ChronoSlot(cap: nat, next: nat, count: nat, i: nat): nat {
    Wrap((if count < cap then 0 else next) + i, cap)
  }

  ghost predicate RingShape(vs: seq<seq<real>>, ps: seq<seq<real>>, next: nat, count: nat, n: nat) {
    && |vs| == |ps| > 0 && next < |vs| && count <= |vs|
    && (forall i :: 0 <= i < |vs| ==> |vs[i]| == |ps[i]| == n)
    && (count < |vs| ==> next == count)
  }

  /** The filled slots, oldest first. */
  function WindowOf(vs: seq<seq<real>>, ps: seq<seq<real>>, next: nat, count: nat): (w: seq<Pair>)
    requires next < |vs| == |ps| && count <= |vs|
    ensures |w| == count
  {
    seq(count, i requires 0 <= i < count =>
      (vs[ChronoSlot(|vs|, next, count, i)], ps[ChronoSlot(|vs|, next, count, i)]))
  }

  /** Writing the next slot and advancing drops the oldest pair of a full ring and appends. */
  lemma PushWindow(vs: seq<seq<real>>, ps: seq<seq<real>>, next: nat, count: nat, n: nat, v: seq<real>, p: seq<real>)
    requires RingShape(vs, ps, next, count, n) && |v| == |p| == n
    ensures var next' := if next + 1 == |vs| then 0 else next + 1;
      var count' := if count < |vs| then count + 1 else count;
      && RingShape(vs[next := v], ps[next := p], next', count', n)
      && WindowOf(vs[next := v], ps[next := p], next', count') == Last(WindowOf(vs, ps, next, count) + [(v, p)], count')
  {
  }

  lemma LastOfPush<T>(s: seq<T>, n: nat, x: T, k: nat)
    requires n <= |s| && k <= n + 1
    ensures Last(Last(s, n) + [x], k) == Last(s + [x], k)
  {
  }

  /** `(v, p)` with the projection on `q` removed from both. */
  function Projected(q: Pair, x: Pair): (r: Pair)
    requires |q.0| == |q.1| == |x.0| == |x.1|
    ensures |r.0| == |r.1| == |x.0|
  {
    var c := Inner(x.0, q.1);
    (Comb(-c, q.0, 1.0, x.0), Comb(-c, q.1, 1.0, x.1))
  }

  method ProjectOut(v: array<real>, p: array<real>, vj: seq<real>, pj: seq<real>)
    requires v != p && v.Length == p.Length == |vj| == |pj|
    modifies v, p
    ensures (v[..], p[..]) == Projected((vj, pj), (old(v[..]), old(p[..])))
  {
    hide Inner;
    var c := DotProduct(v[..], pj);
    Axpby(v, vj, -c, 1.0);
    Axpby(p, pj, -c, 1.0);
  }

  class WindowRing {
    var vs: seq<seq<real>>
    var ps: seq<seq<real>>
    var next: nat
    var count: nat
    ghost var pushed: seq<Pair>
    const n: nat

    /** `L` lanes of `cap` slots, empty. */
    constructor (cap: nat, n: nat)
      requires cap > 0
      ensures Valid() && pushed == [] && Capacity() == cap && this.n == n
    {
      vs, ps := seq(cap, _ => Zeros(n)), seq(cap, _ => Zeros(n));
      next, count, pushed := 0, 0, [];
      this.n := n;
    }

    function Capacity(): nat
      reads this
    {
      |vs|
    }

    ghost predicate InShape()
      reads this
    {
      RingShape(vs, ps, next, count, n)
    }

    function Window(): (w: seq<Pair>)
      requires InShape()
      reads this
      ensures |w| == count
    {
      WindowOf(vs, ps, next, count)
    }

    /** The window is the last `min(cap, pushes)` pairs, in the order they were pushed. */
    ghost predicate Valid()
      reads this
    {
      && InShape()
      && count == (if |pushed| < |vs| then |pushed| else |vs|)
      && Window() == Last(pushed, count)
    }

    /** `advance` and the two lane copies of `push`. */
    method Push(v: seq<real>, p: seq<real>)
      requires Valid() && |v| == |p| == n
      modifies this
      ensures Valid() && pushed == old(pushed) + [(v, p)] && Capacity() == old(Capacity())
    {
      PushWindow(vs, ps, next, count, n, v, p);
      LastOfPush(pushed, count, (v, p), if count < |vs| then count + 1 else count);
      var cap := Capacity();
      var slot := next;
      WrapIsMod(next + 1, cap);
      next := (next + 1) % cap;
      if count < cap {
        count := count + 1;
      }
      vs, ps := vs[slot := v], ps[slot := p];
      pushed := pushed + [(v, p)];
    }

    /** Subtract the projections on the window, oldest first, from `v` and `p` in lockstep. */
    method Reorthogonalize(v: array<real>, p: array<real>)
      requires Valid() && v != p && v.Length == p.Length == n
      modifies v, p
      ensures (v[..], p[..]) == Sweep(Last(pushed, count), old(v[..]), old(p[..]))
    {
      hide Last;
      hide Sweep;
      hide Projected;
      ghost var w := Window();
      ghost var v0, p0 := v[..], p[..];
      SweepEmpty(v0, p0);
      for i := 0 to count
        invariant (v[..], p[..]) == Sweep(w[..i], v0, p0)
      {
        var start := if count < Capacity() then 0 else next;
        WrapIsMod(start + i, Capacity());
        var slot := (start + i) % Capacity();
        assert w[i] == (vs[slot], ps[slot]);
        SweepStep(w, i, v0, p0);
        ProjectOut(v, p, vs[slot], ps[slot]);
      }
      assert w[..count] == w;
    }
  }

  /** One modified Gram-Schmidt sweep over a window of pairs. */
  function Sweep(w: seq<Pair>, v: seq<real>, p: seq<real>): (r: Pair)
    requires |v| == |p| && forall i :: 0 <= i < |w| ==> |w[i].0| == |w[i].1| == |v|
    ensures |r.0| == |r.1| == |v|
  {
    if w == [] then (v, p) else Projected(w[|w| - 1], Sweep(w[..|w| - 1], v, p))
  }

  lemma SweepEmpty(v: seq<real>, p: seq<real>)
    requires |v| == |p|
    ensures Sweep([], v, p) == (v, p)
  {
  }

  lemma SweepStep(w: seq<Pair>, i: nat, v: seq<real>, p: seq<real>)
    requires |v| == |p| && i < |w| && forall i :: 0 <= i < |w| ==> |w[i].0| == |w[i].1| == |v|
    ensures Sweep(w[..i + 1], v, p) == Projected(w[i], Sweep(w[..i], v, p))
  {
    hide Projected;
    assert w[..i + 1][..i] == w[..i];
  }

  /** The window pairs obey `v = M^-1 p`. */
  ghost predicate PairsUnder(sys: System, w: seq<Pair>) {
    forall i :: 0 <= i < |w| ==> PairUnder(sys, w[i])
  }

  ghost predicate PairUnder(sys: System, q: Pair) { |q.0| == |q.1| == sys.n && q.0 == sys.precond(q.1) }

  /** The lockstep sweep keeps `v = M^-1 p`. */
  lemma {:induction false} SweepKeepsPrecond(sys: System, w: seq<Pair>, v: seq<real>, p: seq<real>)
    requires Operators(sys) && PairsUnder(sys, w) && |v| == |p| == sys.n && v == sys.precond(p)
    ensures forall i :: 0 <= i < |w| ==> |w[i].0| == |w[i].1| == |v|
    ensures Sweep(w, v, p).0 == sys.precond(Sweep(w, v, p).1)
  {
    hide Operators;
    hide Inner;
    forall i | 0 <= i < |w| ensures |w[i].0| == |w[i].1| == |v| { assert PairUnder(sys, w[i]); }
    if w != [] {
      var g := w[..|w| - 1];
      forall i | 0 <= i < |g| ensures PairUnder(sys, g[i]) { assert PairUnder(sys, w[i]); }
      SweepKeepsPrecond(sys, g, v, p);
      var (x, y) := Sweep(g, v, p);
      var q := w[|w| - 1];
      assert PairUnder(sys, q);
      PrecondComb(sys, -Inner(x, q.1), q.1, 1.0, y);
    }
  }

  lemma CombZero(x: seq<real>, y: seq<real>, c: real)
    requires |x| == |y| && c == 0.0
    ensures Comb(-c, x, 1.0, y) == y
  {
  }

  /** On a vector already orthogonal to the window the sweep changes nothing. */
  lemma {:induction false} SweepNoop(w: seq<Pair>, v: seq<real>, p: seq<real>)
    requires |v| == |p| && forall i :: 0 <= i < |w| ==> |w[i].0| == |w[i].1| == |v|
    requires forall i :: 0 <= i < |w| ==> Inner(v, w[i].1) == 0.0
    ensures Sweep(w, v, p) == (v, p)
  {
    hide Inner;
    if w != [] {
      var g, q := w[..|w| - 1], w[|w| - 1];
      assert forall i :: 0 <= i < |g| ==> g[i] == w[i];
      SweepNoop(g, v, p);
      assert Inner(v, q.1) == 0.0;
      CombZero(q.0, v, Inner(v, q.1));
      CombZero(q.1, p, Inner(v, q.1));
    }
  }

  /** A window orthonormal in its own pairing; a pair may also be zero. */
  ghost predicate OrthonormalWindow(w: seq<Pair>) {
    && (forall i, j :: 0 <= i < |w| && 0 <= j < |w| && i != j ==> |w[i].0| == |w[j].1| && Inner(w[i].0, w[j].1) == 0.0)
    && (forall i :: 0 <= i < |w| ==> UnitPair(w[i]))
  }

  ghost predicate UnitPair(q: Pair) { |q.0| == |q.1| && (Inner(q.0, q.1) == 1.0 || q.1 == Zeros(|q.1|)) }

  /** Subtracting the projection on `q` removes it, and leaves pairings with others alone. */
  lemma ProjectedAway(q: Pair, x: seq<real>, z: seq<real>)
    requires UnitPair(q) && |q.0| == |x| == |z|
    ensures var y := Comb(-Inner(x, q.1), q.0, 1.0, x);
      && Inner(y, q.1) == 0.0
      && (Inner(q.0, z) == 0.0 ==> Inner(y, z) == Inner(x, z))
  {
    hide Inner;
    var c := Inner(x, q.1);
    InnerComb(-c, q.0, 1.0, x, q.1);
    InnerComb(-c, q.0, 1.0, x, z);
    if q.1 == Zeros(|q.1|) {
      InnerZeros(|x|, x);
      InnerZeros(|x|, Comb(-c, q.0, 1.0, x));
    }
  }

  /** Whatever vector comes in, the sweep's result is orthogonal to the whole window. */
  lemma {:induction false} SweepOrthogonalizes(w: seq<Pair>, v: seq<real>, p: seq<real>, j: nat)
    requires |v| == |p| && (forall i :: 0 <= i < |w| ==> |w[i].0| == |w[i].1| == |v|)
    requires OrthonormalWindow(w) && j < |w|
    ensures Inner(Sweep(w, v, p).0, w[j].1) == 0.0
  {
    hide Inner;
    var g, q := w[..|w| - 1], w[|w| - 1];
    var x := Sweep(g, v, p).0;
    assert UnitPair(q);
    ProjectedAway(q, x, w[j].1);
    if j < |g| {
      assert g[j] == w[j];
      assert Inner(q.0, w[j].1) == 0.0;
      SweepOrthogonalizes(g, v, p, j);
    }
  }
}
