/** Relaxation towards a diagonally dominant scaling, and what its report certifies
    (crates/within/src/domain/factor_pairs/sddm.rs:382-466). */
module DominanceScaling {
  import opened Wrappers
  import opened Sums
  import opened Csr

  datatype NotScalable = NotScalable

  datatype Scaling = Scaling(scales: seq<real>, sweeps: nat, violation: real)

  /** Adjacency lists whose columns are nodes. */
  ghost predicate InGraph(g: seq<Row>) {
    forall i :: 0 <= i < |g| ==> InRange(g[i], |g|)
  }

  /** Row `i` with each weight replaced by `|v| q_i q_j`. */
  function Normalized(r: Row, q: seq<real>, i: nat): (w: Row)
    requires InRange(r, |q|) && i < |q|
    ensures |w| == |r| && InRange(w, |q|)
  {
    seq(|r|, t requires 0 <= t < |r| => (r[t].0, NormalizedWeight(r[t].1, q[i], q[r[t].0])))
  }

  function NormalizedWeight(v: real, a: real, b: real): real { Abs(v) * a * b }

  lemma NormalizedPrefix(r: Row, q: seq<real>, i: nat)
    requires r != [] && InRange(r, |q|) && i < |q|
    ensures Normalized(r[..|r| - 1], q, i) == Normalized(r, q, i)[..|r| - 1]
  {
  }

  /** The weighted sum of `mu` over a row. */
  ghost function Target(w: Row, mu: seq<real>): real
    requires InRange(w, |mu|)
  {
    if w == [] then 0.0 else Target(w[..|w| - 1], mu) + w[|w| - 1].1 * mu[w[|w| - 1].0]
  }

  ghost predicate Weights(w: seq<Row>) {
    InGraph(w) && forall i: int, t: int :: 0 <= i < |w| && 0 <= t < |w[i]| ==> w[i][t].1 >= 0.0
  }

  ghost predicate Positive(s: seq<real>) { forall i :: 0 <= i < |s| ==> s[i] > 0.0 }

  lemma ProductMono(w: real, x: real, y: real)
    requires w >= 0.0 && x <= y
    ensures w * x <= w * y
  {
  }

  lemma ScaleDistributes(a: real, t: real, w: real, m: real)
    ensures a * (t + w * m) == a * t + w * (a * m)
  {
  }

  /** If `a mu <= u` entry by entry, then `a target(mu) <= target(u)`. */
  lemma {:induction false} TargetMono(w: Row, mu: seq<real>, u: seq<real>, a: real)
    requires |mu| == |u| && InRange(w, |mu|) && forall t :: 0 <= t < |w| ==> w[t].1 >= 0.0
    requires forall j :: 0 <= j < |mu| ==> Below(a, mu[j], u[j])
    ensures a * Target(w, mu) <= Target(w, u)
  {
    if w != [] {
      var p := w[..|w| - 1];
      var (j, v) := w[|w| - 1];
      TargetMono(p, mu, u, a);
      ScaleDistributes(a, Target(p, mu), v, mu[j]);
      assert Below(a, mu[j], u[j]);
      ProductMono(v, a * mu[j], u[j]);
    }
  }

  /** `u` witnesses that the normalized weights can be made dominant. */
  ghost predicate Witness(w: seq<Row>, u: seq<real>, lo: real, hi: real) {
    && Weights(w) && |u| == |w| && 0.0 < lo
    && (forall i :: 0 <= i < |u| ==> lo <= u[i] <= hi)
    && (forall i :: 0 <= i < |u| ==> Target(w[i], u) <= u[i])
  }

  /** Every witness dominates the iterate, scaled up by all the peaks divided out so far. */
  ghost predicate Dominated(w: seq<Row>, mu: seq<real>, peaks: real) {
    forall u, lo, hi, a :: Witness(w, u, lo, hi) && IsProduct(lo, peaks, a) ==> DominatedBy(mu, a, u)
  }

  ghost predicate IsProduct(x: real, y: real, a: real) { a == x * y }

  ghost predicate DominatedBy(mu: seq<real>, a: real, u: seq<real>) {
    |u| == |mu| && forall i :: 0 <= i < |mu| ==> Below(a, mu[i], u[i])
  }

  ghost predicate Below(a: real, m: real, u: real) { a * m <= u }

  /** The inner accumulation `sum |v| q_i q_j mu_j`. */
  method RowTarget(r: Row, q: seq<real>, i: nat, mu: seq<real>) returns (target: real)
    requires |mu| == |q| && InRange(r, |q|) && i < |q|
    ensures target == Target(Normalized(r, q, i), mu)
  {
    target := 0.0;
    ghost var w := Normalized(r, q, i);
    for t := 0 to |r|
      invariant target == Target(w[..t], mu)
    {
      assert w[..t + 1][..t] == w[..t];
      target := target + Abs(r[t].1) * q[i] * q[r[t].0] * mu[r[t].0];
    }
    assert w[..|r|] == w;
  }

  /** The normalized weights of the whole graph. */
  ghost function NormalizedGraph(g: seq<Row>, q: seq<real>): (w: seq<Row>)
    requires InGraph(g) && |q| == |g|
    ensures |w| == |g| && InGraph(w) && forall i :: 0 <= i < |g| ==> w[i] == Normalized(g[i], q, i)
  {
    seq(|g|, i requires 0 <= i < |g| => Normalized(g[i], q, i))
  }

  lemma NormalizedNonnegative(g: seq<Row>, q: seq<real>)
    requires InGraph(g) && |q| == |g| && Positive(q)
    ensures Weights(NormalizedGraph(g, q))
  {
    var w: seq<Row> := NormalizedGraph(g, q);
    forall i: int, t: int | 0 <= i < |w| && 0 <= t < |w[i]| ensures w[i][t].1 >= 0.0 {
      TripleNonnegative(Abs(g[i][t].1), q[i], q[g[i][t].0]);
    }
  }

  lemma TripleNonnegative(x: real, y: real, z: real)
    requires x >= 0.0 && y >= 0.0 && z >= 0.0
    ensures x * y * z >= 0.0
  {
  }

  /** `v` is the largest relative dominance violation of `mu`, clamped at zero. */
  ghost predicate IsViolation(w: seq<Row>, mu: seq<real>, v: real) {
    && InGraph(w) && |mu| == |w| && v >= 0.0
    && (forall i :: 0 <= i < |w| ==> Within(Target(w[i], mu), mu[i], v))
    && (v > 0.0 ==> exists i :: 0 <= i < |w| && Attains(Target(w[i], mu), mu[i], v))
  }

  ghost predicate Within(t: real, m: real, v: real) { t <= (1.0 + v) * m }

  ghost predicate Attains(t: real, m: real, v: real) { t == (1.0 + v) * m }

  lemma DivMul(t: real, m: real)
    requires m != 0.0
    ensures (t / m) * m == t
  {
  }

  lemma MulOrder(x: real, y: real, m: real)
    requires m > 0.0
    ensures x <= y <==> x * m <= y * m
  {
    if x <= y { ProductMono(m, x, y); } else { assert (x - y) * m > 0.0; }
  }

  lemma RatioWithin(t: real, m: real, v: real)
    requires m > 0.0
    ensures t / m - 1.0 <= v <==> Within(t, m, v)
    ensures Attains(t, m, t / m - 1.0)
  {
    DivMul(t, m);
    MulOrder(t / m, 1.0 + v, m);
  }

  lemma WithinMono(t: real, m: real, v: real, v': real)
    requires m > 0.0 && v <= v' && Within(t, m, v)
    ensures Within(t, m, v')
  {
    MulOrder(1.0 + v, 1.0 + v', m);
  }

  /** The relative excess of a target over its entry. */
  function Ratio(target: real, m: real): real { if m == 0.0 then 0.0 else target / m - 1.0 }

  method Excess(target: real, m: real) returns (e: real)
    requires m > 0.0
    ensures e == Ratio(target, m)
    ensures Attains(target, m, e) && forall v :: e <= v <==> Within(target, m, v)
  {
    e := target / m - 1.0;
    forall v ensures e <= v <==> Within(target, m, v) { RatioWithin(target, m, v); }
    RatioWithin(target, m, e);
  }

  /** The largest relative excess among the first `n` entries of an iterate, at least zero. */
  ghost function Violation(w: seq<Row>, mu: seq<real>, n: nat): real
    requires InGraph(w) && |mu| == |w| && n <= |w|
  {
    if n == 0 then 0.0 else Max(Violation(w, mu, n - 1), Ratio(Target(w[n - 1], mu), mu[n - 1]))
  }

  method ViolationOf(g: seq<Row>, q: seq<real>, mu: seq<real>) returns (v: real)
    requires InGraph(g) && |q| == |mu| == |g| && Positive(mu)
    ensures IsViolation(NormalizedGraph(g, q), mu, v)
    ensures v == Violation(NormalizedGraph(g, q), mu, |g|)
  {
    hide Target;
    hide Attains;
    hide Within;
    v := 0.0;
    ghost var w := NormalizedGraph(g, q);
    for i := 0 to |g|
      invariant v >= 0.0
      invariant forall k :: 0 <= k < i ==> Within(Target(w[k], mu), mu[k], v)
      invariant v > 0.0 ==> exists k :: 0 <= k < i && Attains(Target(w[k], mu), mu[k], v)
      invariant v == Violation(w, mu, i)
    {
      var target := RowTarget(g[i], q, i, mu);
      var excess := Excess(target, mu[i]);
      if excess > v {
        forall k | 0 <= k < i ensures Within(Target(w[k], mu), mu[k], excess) {
          WithinMono(Target(w[k], mu), mu[k], v, excess);
        }
        v := excess;
      }
    }
  }

  lemma RaiseOne(w: Row, mu: seq<real>, a: real, u: seq<real>, i: nat, t: real)
    requires |mu| == |u| && i < |mu| && InRange(w, |mu|) && forall k :: 0 <= k < |w| ==> w[k].1 >= 0.0
    requires DominatedBy(mu, a, u) && t == Target(w, mu) && Target(w, u) <= u[i]
    ensures DominatedBy(mu[i := t], a, u)
  {
    TargetMono(w, mu, u, a);
  }

  /** Raising one entry to its target keeps every witness above the iterate. */
  lemma RaiseKeepsDominated(w: seq<Row>, mu: seq<real>, peaks: real, i: nat, t: real)
    requires Weights(w) && |mu| == |w| && i < |mu| && Dominated(w, mu, peaks) && t == Target(w[i], mu)
    ensures Dominated(w, mu[i := t], peaks)
  {
    forall u, lo, hi, a | Witness(w, u, lo, hi) && IsProduct(lo, peaks, a) ensures DominatedBy(mu[i := t], a, u) {
      assert DominatedBy(mu, a, u);
      RaiseOne(w[i], mu, a, u, i, t);
    }
  }

  /** The iterate after the first `n` steps of a sweep: each entry in turn is raised to its
      current target. */
  ghost function Swept(w: seq<Row>, mu: seq<real>, n: nat): (r: seq<real>)
    requires InGraph(w) && |mu| == |w| && n <= |w|
    ensures |r| == |mu|
  {
    if n == 0 then mu
    else
      var m := Swept(w, mu, n - 1);
      m[n - 1 := Max(m[n - 1], Target(w[n - 1], m))]
  }

  /** A sweep lowers no entry and keeps every witness above the iterate. */
  lemma {:induction false} SweptDominated(w: seq<Row>, mu: seq<real>, peaks: real, n: nat)
    requires InGraph(w) && Weights(w) && |mu| == |w| && n <= |w| && Dominated(w, mu, peaks)
    ensures Dominated(w, Swept(w, mu, n), peaks) && forall i :: 0 <= i < |mu| ==> mu[i] <= Swept(w, mu, n)[i]
  {
    hide Dominated;
    hide Target;
    hide Weights;
    if n > 0 {
      SweptDominated(w, mu, peaks, n - 1);
      var m := Swept(w, mu, n - 1);
      var t := Target(w[n - 1], m);
      if t > m[n - 1] { RaiseKeepsDominated(w, m, peaks, n - 1, t); } else { assert m[n - 1 := m[n - 1]] == m; }
    }
  }

  /** One Gauss-Seidel sweep: each entry is raised to its current target if below it. */
  method Sweep(g: seq<Row>, q: seq<real>, mu: seq<real>) returns (mu': seq<real>)
    requires InGraph(g) && |q| == |mu| == |g| && Positive(q)
    ensures |mu'| == |mu| && mu' == Swept(NormalizedGraph(g, q), mu, |g|)
  {
    hide Target;
    mu' := mu;
    for i := 0 to |g|
      invariant |mu'| == |mu| && mu' == Swept(NormalizedGraph(g, q), mu, i)
    {
      var target := RowTarget(g[i], q, i, mu');
      if target > mu'[i] {
        mu' := mu'[i := target];
      } else {
        assert mu'[i := mu'[i]] == mu';
      }
    }
  }

  /** The largest entry, or zero. */
  function Largest(mu: seq<real>): real {
    if mu == [] then 0.0 else Max(Largest(mu[..|mu| - 1]), mu[|mu| - 1])
  }

  lemma {:induction false} LargestIsPeak(mu: seq<real>)
    ensures Largest(mu) >= 0.0 && forall i :: 0 <= i < |mu| ==> mu[i] <= Largest(mu)
    ensures Largest(mu) > 0.0 ==> exists i :: 0 <= i < |mu| && mu[i] == Largest(mu)
  {
    if mu != [] {
      var n := |mu| - 1;
      LargestIsPeak(mu[..n]);
      forall i | 0 <= i < |mu| ensures mu[i] <= Largest(mu) { if i < n { assert mu[..n][i] == mu[i]; } }
      if Largest(mu[..n]) > mu[n] && Largest(mu) > 0.0 {
        var i :| 0 <= i < n && mu[..n][i] == Largest(mu[..n]);
        assert mu[i] == Largest(mu);
      }
    }
  }

  method Peak(mu: seq<real>) returns (peak: real)
    ensures peak == Largest(mu)
  {
    peak := 0.0;
    for i := 0 to |mu|
      invariant peak == Largest(mu[..i])
    {
      assert mu[..i + 1][..i] == mu[..i];
      peak := Max(peak, mu[i]);
    }
    assert mu[..|mu|] == mu;
  }

  function Divided(mu: seq<real>, peak: real): (r: seq<real>)
    requires peak != 0.0
    ensures |r| == |mu|
  {
    seq(|mu|, i requires 0 <= i < |mu| => mu[i] / peak)
  }

  lemma DivideOut(a: real, a': real, m: real, peak: real, u: real)
    requires peak != 0.0 && a' == a * peak && Below(a, m, u)
    ensures Below(a', m / peak, u)
  {
    DivMul(m, peak);
    Regroup(a, peak, m / peak);
  }

  lemma Regroup(a: real, c: real, d: real)
    ensures (a * c) * d == a * (d * c)
  {
  }

  lemma DivideAll(mu: seq<real>, a: real, a': real, peak: real, u: seq<real>)
    requires peak != 0.0 && a' == a * peak && DominatedBy(mu, a, u)
    ensures DominatedBy(Divided(mu, peak), a', u)
  {
    var r := Divided(mu, peak);
    forall i | 0 <= i < |r| ensures Below(a', r[i], u[i]) {
      assert Below(a, mu[i], u[i]);
      DivideOut(a, a', mu[i], peak, u[i]);
    }
  }

  lemma DivideKeepsDominated(w: seq<Row>, mu: seq<real>, peaks: real, peak: real, peaks': real)
    requires Dominated(w, mu, peaks) && peak != 0.0 && IsProduct(peaks, peak, peaks')
    ensures Dominated(w, Divided(mu, peak), peaks')
  {
    forall u, lo, hi, a' | Witness(w, u, lo, hi) && IsProduct(lo, peaks', a')
      ensures DominatedBy(Divided(mu, peak), a', u)
    {
      var a := lo * peaks;
      assert IsProduct(lo, peaks, a);
      assert lo * (peaks * peak) == (lo * peaks) * peak;
      DivideAll(mu, a, a', peak, u);
    }
  }

  /** The iterate after normalization: entries in (0, 1], the largest exactly 1. */
  ghost predicate Unit(mu: seq<real>) {
    && (forall i :: 0 <= i < |mu| ==> 0.0 < mu[i] <= 1.0)
    && exists i :: 0 <= i < |mu| && mu[i] == 1.0
  }

  lemma DividedIsUnit(mu: seq<real>, peak: real)
    requires Positive(mu) && peak > 0.0 && (forall i :: 0 <= i < |mu| ==> mu[i] <= peak)
    requires exists i :: 0 <= i < |mu| && mu[i] == peak
    ensures Unit(Divided(mu, peak))
  {
    var r := Divided(mu, peak);
    forall i | 0 <= i < |r| ensures 0.0 < r[i] <= 1.0 { RatioRange(mu[i], peak); }
    var k :| 0 <= k < |mu| && mu[k] == peak;
    assert r[k] == 1.0;
  }

  lemma RatioRange(m: real, p: real)
    requires 0.0 < m <= p
    ensures 0.0 < m / p <= 1.0
  {
  }

  /** The divisor after one sweep from `mu`, and the iterate it leaves. */
  ghost function SweepPeak(w: seq<Row>, mu: seq<real>): real
    requires InGraph(w) && |mu| == |w|
  {
    Largest(Swept(w, mu, |w|))
  }

  ghost function NextIterate(w: seq<Row>, mu: seq<real>): (r: seq<real>)
    requires InGraph(w) && |mu| == |w|
    ensures |r| == |mu|
  {
    if SweepPeak(w, mu) == 0.0 then mu else Divided(Swept(w, mu, |w|), SweepPeak(w, mu))
  }

  /** The iterate after `k` normalized sweeps from all ones. */
  ghost function Iterate(w: seq<Row>, k: nat): (mu: seq<real>)
    requires InGraph(w)
    ensures |mu| == |w|
  {
    if k == 0 then seq(|w|, _ => 1.0) else NextIterate(w, Iterate(w, k - 1))
  }

  /** What the first `k` sweeps divided by. */
  ghost function Peaks(w: seq<Row>, k: nat): (p: seq<real>)
    requires InGraph(w)
    ensures |p| == k
  {
    if k == 0 then [] else Peaks(w, k - 1) + [SweepPeak(w, Iterate(w, k - 1))]
  }

  /** How many sweeps are made, `k` of them done: until the violation is within tolerance or the
      budget is spent. */
  ghost function Sweeps(w: seq<Row>, tolerance: real, maxSweeps: nat, k: nat): (n: nat)
    requires InGraph(w)
    decreases maxSweeps - k
  {
    if k >= maxSweeps || Violation(w, Iterate(w, k), |w|) <= tolerance then k else Sweeps(w, tolerance, maxSweeps, k + 1)
  }

  /** The divisor is at least 1, and the next iterate stays in (0, 1] below every witness. */
  lemma NextDominated(w: seq<Row>, mu: seq<real>, peaks: real, peaks': real)
    requires InGraph(w) && Weights(w) && |mu| == |w| && Unit(mu) && Dominated(w, mu, peaks) && IsProduct(peaks, SweepPeak(w, mu), peaks')
    ensures SweepPeak(w, mu) >= 1.0 && Unit(NextIterate(w, mu)) && Dominated(w, NextIterate(w, mu), peaks')
  {
    hide Dominated;
    hide Weights;
    hide Swept;
    hide Largest;
    hide IsProduct;
    var raised := Swept(w, mu, |w|);
    SweptDominated(w, mu, peaks, |w|);
    LargestIsPeak(raised);
    var k :| 0 <= k < |mu| && mu[k] == 1.0;
    assert raised[k] >= 1.0;
    DividedIsUnit(raised, Largest(raised));
    DivideKeepsDominated(w, raised, peaks, Largest(raised), peaks');
  }

  /** One sweep, then division by its peak. */
  method SweepAndNormalize(g: seq<Row>, q: seq<real>, mu: seq<real>) returns (mu': seq<real>, ghost peak: real)
    requires InGraph(g) && |q| == |mu| == |g| && Positive(q) && Unit(mu)
    ensures |mu'| == |mu| && Unit(mu') && peak >= 1.0
    ensures peak == SweepPeak(NormalizedGraph(g, q), mu) && mu' == NextIterate(NormalizedGraph(g, q), mu)
  {
    hide Swept;
    hide Largest;
    var raised := Sweep(g, q, mu);
    var top := Peak(raised);
    SweptRises(g, q, mu);
    mu' := Divided(raised, top);
    peak := top;
  }

  lemma SweptRises(g: seq<Row>, q: seq<real>, mu: seq<real>)
    requires InGraph(g) && |q| == |mu| == |g| && Positive(q) && Unit(mu)
    ensures var w := NormalizedGraph(g, q); SweepPeak(w, mu) >= 1.0 && Unit(NextIterate(w, mu))
  {
    hide NextIterate;
    hide SweepPeak;
    hide Weights;
    var w := NormalizedGraph(g, q);
    NormalizedNonnegative(g, q);
    NothingAbove(w, mu);
    NextDominated(w, mu, 0.0, 0.0);
  }

  /** Scaled by zero, every witness is above any iterate. */
  lemma NothingAbove(w: seq<Row>, mu: seq<real>)
    requires |mu| == |w|
    ensures Dominated(w, mu, 0.0) && forall p :: IsProduct(0.0, p, 0.0)
  {
  }

  ghost function Product(s: seq<real>): real {
    if s == [] then 1.0 else Product(s[..|s| - 1]) * s[|s| - 1]
  }

  lemma ProductPush(s: seq<real>, x: real)
    ensures IsProduct(Product(s), x, Product(s + [x]))
  {
    assert (s + [x])[..|s|] == s;
  }

  lemma StartDominated(w: seq<Row>, mu: seq<real>)
    requires |mu| == |w| && forall i :: 0 <= i < |mu| ==> mu[i] == 1.0
    ensures Dominated(w, mu, 1.0)
  {
    forall u, lo, hi, a | Witness(w, u, lo, hi) && IsProduct(lo, 1.0, a) ensures DominatedBy(mu, a, u) {
      forall i | 0 <= i < |mu| ensures Below(a, mu[i], u[i]) { assert a == lo && mu[i] == 1.0; }
    }
  }

  lemma NoPeaks()
    ensures Product([]) == 1.0
  {
  }

  /** After `k` sweeps of the run: the iterate, its violation and the divisors so far. */
  ghost predicate RunAt(w: seq<Row>, tolerance: real, maxSweeps: nat, k: nat, mu: seq<real>, violation: real, peaks: seq<real>) {
    && InGraph(w) && mu == Iterate(w, k) && |mu| == |w| && peaks == Peaks(w, k) && violation == Violation(w, mu, |w|)
    && k <= maxSweeps && Sweeps(w, tolerance, maxSweeps, 0) == Sweeps(w, tolerance, maxSweeps, k)
  }

  lemma RunStarts(w: seq<Row>, tolerance: real, maxSweeps: nat)
    requires InGraph(w)
    ensures var ones := seq(|w|, _ => 1.0); RunAt(w, tolerance, maxSweeps, 0, ones, Violation(w, ones, |w|), [])
  {
  }

  lemma RunStep(w: seq<Row>, tolerance: real, maxSweeps: nat, k: nat, mu: seq<real>, violation: real, peaks: seq<real>)
    requires RunAt(w, tolerance, maxSweeps, k, mu, violation, peaks) && violation > tolerance && k < maxSweeps && InGraph(w) && |mu| == |w|
    ensures RunAt(w, tolerance, maxSweeps, k + 1, NextIterate(w, mu), Violation(w, NextIterate(w, mu), |w|), peaks + [SweepPeak(w, mu)])
  {
    hide Violation;
    hide NextIterate;
    hide SweepPeak;
  }

  lemma RunEnds(w: seq<Row>, tolerance: real, maxSweeps: nat, k: nat, mu: seq<real>, violation: real, peaks: seq<real>)
    requires RunAt(w, tolerance, maxSweeps, k, mu, violation, peaks) && (violation <= tolerance || k >= maxSweeps) && InGraph(w)
    ensures k == Sweeps(w, tolerance, maxSweeps, 0) && mu == Iterate(w, k) && |mu| == |w| && peaks == Peaks(w, k) && violation == Violation(w, mu, |w|)
  {
    hide Violation;
  }

  /** The relaxation loop: it ends within budget, above tolerance only when the budget is
      spent, with the violation of the iterate it returns; `peaks` lists the normalizations. */
  method Relax(g: seq<Row>, q: seq<real>, tolerance: real, maxSweeps: nat)
    returns (mu: seq<real>, sweeps: nat, violation: real, ghost peaks: seq<real>)
    requires InGraph(g) && |q| == |g| > 0 && Positive(q)
    ensures |mu| == |g| && Unit(mu) && |peaks| == sweeps <= maxSweeps
    ensures var w := NormalizedGraph(g, q);
      && sweeps == Sweeps(w, tolerance, maxSweeps, 0) && mu == Iterate(w, sweeps) && peaks == Peaks(w, sweeps)
      && violation == Violation(w, mu, |g|)
    ensures IsViolation(NormalizedGraph(g, q), mu, violation)
    ensures violation > tolerance ==> sweeps == maxSweeps
    ensures forall i :: 0 <= i < |peaks| ==> peaks[i] >= 1.0
    ensures SpreadBounds(NormalizedGraph(g, q), Product(peaks))
  {
    hide NormalizedGraph;
    hide IsViolation;
    hide RunAt;
    hide Iterate;
    hide Peaks;
    hide Sweeps;
    hide Violation;
    hide Product;
    hide SpreadBounds;
    hide Weights;
    mu := seq(|g|, _ => 1.0);
    peaks := [];
    assert mu[0] == 1.0 && mu == seq(|NormalizedGraph(g, q)|, _ => 1.0);
    violation := ViolationOf(g, q, mu);
    sweeps := 0;
    RunStarts(NormalizedGraph(g, q), tolerance, maxSweeps);
    while violation > tolerance && sweeps < maxSweeps
      invariant |mu| == |g| && Unit(mu) && |peaks| == sweeps <= maxSweeps
      invariant IsViolation(NormalizedGraph(g, q), mu, violation)
      invariant RunAt(NormalizedGraph(g, q), tolerance, maxSweeps, sweeps, mu, violation, peaks)
      decreases maxSweeps - sweeps
    {
      ghost var peak, was, before := 0.0, mu, violation;
      mu, peak := SweepAndNormalize(g, q, mu);
      violation := ViolationOf(g, q, mu);
      RunStep(NormalizedGraph(g, q), tolerance, maxSweeps, sweeps, was, before, peaks);
      peaks := peaks + [peak];
      sweeps := sweeps + 1;
    }
    RunEnds(NormalizedGraph(g, q), tolerance, maxSweeps, sweeps, mu, violation, peaks);
    NormalizedNonnegative(g, q);
    PeaksBoundedBySpread(NormalizedGraph(g, q), sweeps);
  }

  /** `peaks` is at most the spread of any dominant scaling of the weights. */
  ghost predicate SpreadBounds(w: seq<Row>, peaks: real) {
    forall u, lo, hi :: Witness(w, u, lo, hi) ==> Stretched(lo, peaks, hi)
  }

  ghost predicate Stretched(lo: real, peaks: real, hi: real) { lo * peaks <= hi }

  lemma DominatedSpread(w: seq<Row>, mu: seq<real>, peaks: real)
    requires Unit(mu) && Dominated(w, mu, peaks)
    ensures SpreadBounds(w, peaks)
  {
    forall u, lo, hi | Witness(w, u, lo, hi) ensures Stretched(lo, peaks, hi) { SpreadBound(w, mu, peaks, lo * peaks, u, lo, hi); }
  }

  /** After every number of sweeps the iterate is in (0, 1] and below every witness scaled by
      the product of the divisors. */
  lemma {:induction false} IteratesDominated(w: seq<Row>, k: nat)
    requires InGraph(w) && Weights(w) && |w| > 0
    ensures Unit(Iterate(w, k)) && Dominated(w, Iterate(w, k), Product(Peaks(w, k)))
    ensures forall i :: 0 <= i < k ==> Peaks(w, k)[i] >= 1.0
  {
    hide Dominated;
    hide Weights;
    hide Unit;
    hide NextIterate;
    hide SweepPeak;
    hide Product;
    if k == 0 {
      var ones := seq(|w|, _ => 1.0);
      OnesAreUnit(ones);
      NoPeaks();
      StartDominated(w, ones);
    } else {
      IteratesDominated(w, k - 1);
      var mu, peaks := Iterate(w, k - 1), Peaks(w, k - 1);
      ProductPush(peaks, SweepPeak(w, mu));
      NextDominated(w, mu, Product(peaks), Product(peaks + [SweepPeak(w, mu)]));
    }
  }

  lemma OnesAreUnit(mu: seq<real>)
    requires |mu| > 0 && forall i :: 0 <= i < |mu| ==> mu[i] == 1.0
    ensures Unit(mu)
  {
    assert mu[0] == 1.0;
  }

  /** For every number of sweeps: each divisor is at least 1, and their product is at most the
      spread of any dominant scaling of the weights. */
  lemma PeaksBoundedBySpread(w: seq<Row>, k: nat)
    requires InGraph(w) && Weights(w) && |w| > 0
    ensures forall i :: 0 <= i < k ==> Peaks(w, k)[i] >= 1.0
    ensures SpreadBounds(w, Product(Peaks(w, k)))
  {
    hide Weights;
    hide Product;
    hide Peaks;
    hide Iterate;
    IteratesDominated(w, k);
    DominatedSpread(w, Iterate(w, k), Product(Peaks(w, k)));
  }

  lemma SpreadBound(w: seq<Row>, mu: seq<real>, peaks: real, a: real, u: seq<real>, lo: real, hi: real)
    requires Unit(mu) && Dominated(w, mu, peaks) && Witness(w, u, lo, hi) && IsProduct(lo, peaks, a)
    ensures a <= hi
  {
    assert DominatedBy(mu, a, u);
    var k :| 0 <= k < |mu| && mu[k] == 1.0;
    assert Below(a, mu[k], u[k]);
  }

  // ---- The certificate in the original weights ---------------------------------------------

  /** sum_j |v_ij| s_i s_j */
  ghost function ScaledMagnitude(r: Row, s: seq<real>, si: real): real
    requires InRange(r, |s|)
  {
    if r == [] then 0.0
    else ScaledMagnitude(r[..|r| - 1], s, si) + Abs(r[|r| - 1].1) * si * s[r[|r| - 1].0]
  }

  lemma {:induction false} MagnitudeIsTarget(r: Row, q: seq<real>, mu: seq<real>, s: seq<real>, i: nat)
    requires InRange(r, |q|) && i < |q| && Products(s, mu, q)
    ensures IsProduct(mu[i], Target(Normalized(r, q, i), mu), ScaledMagnitude(r, s, s[i]))
  {
    if r != [] {
      var p, w := r[..|r| - 1], Normalized(r, q, i);
      MagnitudeIsTarget(p, q, mu, s, i);
      NormalizedPrefix(r, q, i);
      var j, v := r[|r| - 1].0, Abs(r[|r| - 1].1);
      Distributes(mu[i], Target(w[..|w| - 1], mu), (v * q[i] * q[j]) * mu[j]);
      assert IsProduct(mu[i], q[i], s[i]) && IsProduct(mu[j], q[j], s[j]);
      SplitScales(v, mu[i], q[i], mu[j], q[j]);
    }
  }

  lemma SplitScales(v: real, a: real, b: real, c: real, d: real)
    ensures v * (a * b) * (c * d) == a * ((v * b * d) * c)
  {
  }

  /** `violation` certifies dominance of the scaled rows, up to the tolerance. */
  ghost predicate Certifies(g: seq<Row>, d: seq<real>, s: seq<real>, v: real) {
    && InGraph(g) && |s| == |d| == |g|
    && forall i :: 0 <= i < |g| ==> CertifiesAt(g, d, s, v, i)
  }

  ghost predicate CertifiesAt(g: seq<Row>, d: seq<real>, s: seq<real>, v: real, i: nat)
    requires InGraph(g) && |s| == |d| == |g| && i < |g|
  {
    RowCertified(ScaledMagnitude(g[i], s, s[i]), v, d[i], s[i])
  }

  /** off-diagonal magnitude <= (1 + v) * scaled diagonal */
  ghost predicate RowCertified(x: real, v: real, d: real, s: real) { x <= (1.0 + v) * (d * (s * s)) }

  ghost predicate RowAttained(x: real, v: real, d: real, s: real) { x == (1.0 + v) * (d * (s * s)) }

  ghost predicate AttainedAt(g: seq<Row>, d: seq<real>, s: seq<real>, v: real, i: nat)
    requires InGraph(g) && |s| == |d| == |g| && i < |g|
  {
    RowAttained(ScaledMagnitude(g[i], s, s[i]), v, d[i], s[i])
  }

  /** Some scaled row is in excess by exactly `v`. */
  ghost predicate Attained(g: seq<Row>, d: seq<real>, s: seq<real>, v: real) {
    && InGraph(g) && |s| == |d| == |g|
    && exists i :: 0 <= i < |g| && AttainedAt(g, d, s, v, i)
  }

  lemma CertifyRow(x: real, t: real, m: real, v: real, d: real, q: real, s: real)
    requires IsProduct(m, t, x)
    requires m > 0.0 && IsProduct(m, q, s) && InvertsSquare(q, d) && Within(t, m, v)
    ensures RowCertified(x, v, d, s)
  {
    ProductMono(m, t, (1.0 + v) * m);
    assert d * (s * s) == m * m by { Squares(d, m, q); }
    Regroup2(m, 1.0 + v);
  }

  /** The worst row of the iterate, read in the original weights. */
  lemma AttainRow(x: real, t: real, m: real, v: real, d: real, q: real, s: real)
    requires IsProduct(m, t, x)
    requires IsProduct(m, q, s) && InvertsSquare(q, d) && Attains(t, m, v)
    ensures RowAttained(x, v, d, s)
  {
    assert d * (s * s) == m * m by { Squares(d, m, q); }
    Regroup2(m, 1.0 + v);
  }

  lemma Squares(d: real, m: real, q: real)
    requires q * q * d == 1.0
    ensures d * ((m * q) * (m * q)) == m * m
  {
    assert d * ((m * q) * (m * q)) == (m * m) * (q * q * d);
  }

  lemma Regroup2(m: real, v: real)
    ensures m * (v * m) == v * (m * m)
  {
  }

  ghost predicate InvertsSquares(q: seq<real>, d: seq<real>) {
    |q| == |d| && forall k :: 0 <= k < |d| ==> InvertsSquare(q[k], d[k])
  }

  ghost predicate InvertsSquare(q: real, d: real) { q * q * d == 1.0 }

  ghost predicate Products(s: seq<real>, mu: seq<real>, q: seq<real>) {
    |s| == |mu| == |q| && forall k :: 0 <= k < |s| ==> IsProduct(mu[k], q[k], s[k])
  }

  lemma CertifyAll(g: seq<Row>, d: seq<real>, q: seq<real>, mu: seq<real>, s: seq<real>, v: real)
    requires InGraph(g) && |q| == |mu| == |s| == |d| == |g| && Positive(mu)
    requires IsViolation(NormalizedGraph(g, q), mu, v) && Products(s, mu, q)
    requires InvertsSquares(q, d)
    ensures Certifies(g, d, s, v)
  {
    forall i | 0 <= i < |g| ensures CertifiesAt(g, d, s, v, i) { CertifyOne(g, d, q, mu, s, v, i); }
  }

  lemma CertifyOne(g: seq<Row>, d: seq<real>, q: seq<real>, mu: seq<real>, s: seq<real>, v: real, i: nat)
    requires InGraph(g) && |q| == |mu| == |s| == |d| == |g| && Positive(mu) && i < |g|
    requires IsViolation(NormalizedGraph(g, q), mu, v) && Products(s, mu, q) && InvertsSquares(q, d)
    ensures CertifiesAt(g, d, s, v, i)
  {
    assert InvertsSquare(q[i], d[i]) && IsProduct(mu[i], q[i], s[i]);
    assert Within(Target(NormalizedGraph(g, q)[i], mu), mu[i], v);
    MagnitudeIsTarget(g[i], q, mu, s, i);
    CertifyRow(ScaledMagnitude(g[i], s, s[i]), Target(Normalized(g[i], q, i), mu), mu[i], v, d[i], q[i], s[i]);
  }

  lemma AttainOne(g: seq<Row>, d: seq<real>, q: seq<real>, mu: seq<real>, s: seq<real>, v: real)
    requires InGraph(g) && |q| == |mu| == |s| == |d| == |g| && v > 0.0
    requires IsViolation(NormalizedGraph(g, q), mu, v) && Products(s, mu, q) && InvertsSquares(q, d)
    ensures Attained(g, d, s, v)
  {
    hide Target;
    var w := NormalizedGraph(g, q);
    var i :| 0 <= i < |w| && Attains(Target(w[i], mu), mu[i], v);
    assert InvertsSquare(q[i], d[i]) && IsProduct(mu[i], q[i], s[i]);
    MagnitudeIsTarget(g[i], q, mu, s, i);
    AttainRow(ScaledMagnitude(g[i], s, s[i]), Target(Normalized(g[i], q, i), mu), mu[i], v, d[i], q[i], s[i]);
    assert AttainedAt(g, d, s, v, i);
  }

  /** Plain row magnitude, and the test for rows that are dominant as they stand. */
  method AlreadyDominant(g: seq<Row>, d: seq<real>, tolerance: real) returns (ok: bool)
    requires InGraph(g) && |d| == |g|
    ensures ok <==> Certifies(g, d, seq(|g|, _ => 1.0), tolerance)
  {
    ok := true;
    ghost var ones := seq(|g|, _ => 1.0);
    for i := 0 to |g|
      invariant ok <==> forall k :: 0 <= k < i ==> CertifiesAt(g, d, ones, tolerance, k)
    {
      var rowSum := RowMagnitude(g[i], |g|);
      assert (1.0 + tolerance) * (d[i] * (1.0 * 1.0)) == d[i] * (1.0 + tolerance);
      assert CertifiesAt(g, d, ones, tolerance, i) <==> rowSum <= d[i] * (1.0 + tolerance);
      if rowSum > d[i] * (1.0 + tolerance) {
        ok := false;
      }
    }
  }

  method RowMagnitude(r: Row, n: nat) returns (sum: real)
    requires InRange(r, n)
    ensures sum == ScaledMagnitude(r, seq(n, _ => 1.0), 1.0)
  {
    sum := 0.0;
    for t := 0 to |r|
      invariant sum == ScaledMagnitude(r[..t], seq(n, _ => 1.0), 1.0)
    {
      assert r[..t + 1][..t] == r[..t];
      sum := sum + Abs(r[t].1);
    }
    assert r[..|r|] == r;
  }

  /** The normalizers `1 / sqrt(d_i)`. */
  function InverseRootsOf(d: seq<real>, sqrt: real -> real): (q: seq<real>)
    ensures |q| == |d|
  {
    seq(|d|, i requires 0 <= i < |d| => if sqrt(d[i]) == 0.0 then 1.0 else 1.0 / sqrt(d[i]))
  }

  method InverseRoots(d: seq<real>, sqrt: real -> real) returns (q: seq<real>)
    requires IsSqrt(sqrt) && Positive(d)
    ensures Positive(q) && InvertsSquares(q, d) && q == InverseRootsOf(d, sqrt)
  {
    q := [];
    for i := 0 to |d|
      invariant |q| == i && (forall k :: 0 <= k < i ==> q[k] == InverseRootsOf(d, sqrt)[k])
      invariant Positive(q) && Positive(q) && forall k :: 0 <= k < i ==> InvertsSquare(q[k], d[k])
    {
      InverseRoot(d[i], sqrt(d[i]));
      q := q + [1.0 / sqrt(d[i])];
    }
  }

  lemma InverseRoot(d: real, r: real)
    requires d > 0.0 && r >= 0.0 && r * r == d
    ensures r != 0.0 && 1.0 / r > 0.0 && InvertsSquare(1.0 / r, d)
  {
    assert r != 0.0;
    DivMul(1.0, r);
    var k := 1.0 / r;
    assert k * k * (r * r) == (k * r) * (k * r);
  }

  /** The scaling the relaxation reaches from a graph, its diagonal, a tolerance and a budget. */
  ghost function ScalingOf(g: seq<Row>, d: seq<real>, tolerance: real, maxSweeps: nat, sqrt: real -> real): (s: Scaling)
    requires InGraph(g) && |d| == |g|
    ensures |s.scales| == |g|
  {
    var ones := seq(|g|, _ => 1.0);
    if Certifies(g, d, ones, tolerance) then Scaling(ones, 0, 0.0)
    else
      var w := NormalizedGraph(g, InverseRootsOf(d, sqrt));
      var k := Sweeps(w, tolerance, maxSweeps, 0);
      Scaling(Multiplied(Iterate(w, k), InverseRootsOf(d, sqrt)), k, Max(Violation(w, Iterate(w, k), |w|), 0.0))
  }

  /** The product of all the divisors of that run is at most the spread of any dominant scaling. */
  ghost predicate PeaksBounded(g: seq<Row>, d: seq<real>, tolerance: real, maxSweeps: nat, sqrt: real -> real)
    requires InGraph(g) && |d| == |g|
  {
    var w := NormalizedGraph(g, InverseRootsOf(d, sqrt));
    SpreadBounds(w, Product(Peaks(w, Sweeps(w, tolerance, maxSweeps, 0))))
  }

  /** `dominance_scaling`: positive scales, a budget kept, and a report that certifies the
      dominance of the scaled rows up to the larger of its violation and the tolerance; beyond
      the tolerance the violation is attained. */
  method ScaleToDominance(g: seq<Row>, diagonal: seq<real>, tolerance: real, maxSweeps: nat, sqrt: real -> real)
    returns (r: Result<Scaling, NotScalable>)
    requires InGraph(g) && |diagonal| == |g| && tolerance >= 0.0 && IsSqrt(sqrt)
    ensures r.Err? <==> exists i :: 0 <= i < |diagonal| && diagonal[i] <= 0.0
    ensures r.Ok? ==> r.value == ScalingOf(g, diagonal, tolerance, maxSweeps, sqrt)
    ensures r.Ok? && !Certifies(g, diagonal, seq(|g|, _ => 1.0), tolerance) ==> PeaksBounded(g, diagonal, tolerance, maxSweeps, sqrt)
    ensures r.Ok? ==> Positive(r.value.scales) && r.value.sweeps <= maxSweeps && r.value.violation >= 0.0
    ensures r.Ok? ==> Certifies(g, diagonal, r.value.scales, Max(r.value.violation, tolerance))
    ensures r.Ok? && r.value.violation > tolerance ==>
              r.value.sweeps == maxSweeps && Certifies(g, diagonal, r.value.scales, r.value.violation)
              && Attained(g, diagonal, r.value.scales, r.value.violation)
  {
    hide Sweeps;
    hide Iterate;
    hide Peaks;
    hide Violation;
    hide Dominated;
    hide SpreadBounds;
    hide NormalizedGraph;
    hide IsViolation;
    for i := 0 to |diagonal|
      invariant forall k :: 0 <= k < i ==> diagonal[k] > 0.0
    {
      if diagonal[i] <= 0.0 {
        return Err(NotScalable);
      }
    }
    var dominant := AlreadyDominant(g, diagonal, tolerance);
    if dominant {
      return Ok(Scaling(seq(|g|, _ => 1.0), 0, 0.0));
    }
    var q := InverseRoots(diagonal, sqrt);
    var mu, sweeps, violation;
    ghost var peaks;
    mu, sweeps, violation, peaks := Relax(g, q, tolerance, maxSweeps);
    var scales := Multiplied(mu, q);
    CertifyAll(g, diagonal, q, mu, scales, violation);
    LoosenAll(g, diagonal, scales, violation, Max(violation, tolerance));
    if violation > tolerance { AttainOne(g, diagonal, q, mu, scales, violation); }
    ScalesPositive(mu, q, scales);
    r := Ok(Scaling(scales, sweeps, Max(violation, 0.0)));
  }

  function Multiplied(mu: seq<real>, q: seq<real>): (s: seq<real>)
    requires |mu| == |q|
    ensures Products(s, mu, q)
  {
    seq(|mu|, i requires 0 <= i < |mu| => mu[i] * q[i])
  }

  lemma ScalesPositive(mu: seq<real>, q: seq<real>, s: seq<real>)
    requires Products(s, mu, q) && Positive(mu) && Positive(q)
    ensures Positive(s)
  {
    forall k | 0 <= k < |s| ensures s[k] > 0.0 { assert IsProduct(mu[k], q[k], s[k]); }
  }

  lemma LoosenAll(g: seq<Row>, d: seq<real>, s: seq<real>, v: real, v': real)
    requires Certifies(g, d, s, v) && v <= v' && Positive(d)
    ensures Certifies(g, d, s, v')
  {
    forall i | 0 <= i < |g| ensures CertifiesAt(g, d, s, v', i) {
      assert CertifiesAt(g, d, s, v, i);
      LoosenRow(d[i], s[i], v, v');
    }
  }

  lemma LoosenRow(d: real, s: real, v: real, v': real)
    requires d > 0.0 && v <= v'
    ensures forall x :: RowCertified(x, v, d, s) ==> RowCertified(x, v', d, s)
  {
    assert s * s >= 0.0;
    assert d * (s * s) >= 0.0;
    ProductMono(d * (s * s), 1.0 + v, 1.0 + v');
  }
}
