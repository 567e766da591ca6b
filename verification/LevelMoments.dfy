/** One-pass weighted within-level moments and the Gram matrices read off from them
    (crates/within/src/solver/reparam.rs:197-275). */
module LevelMoment {
  import opened Sums

  datatype Observation = Observation(level: nat, z: seq<real>, w: real)

  /** The weight observation `i` carries at `level`; nonpositive weights carry none. */
  ghost function Mass(obs: seq<Observation>, level: nat): int -> real {
    i => if 0 <= i < |obs| && obs[i].level == level && obs[i].w > 0.0 then obs[i].w else 0.0
  }

  /** Slope `j` of every observation. */
  ghost function Slope(obs: seq<Observation>, j: nat): int -> real {
    i => if 0 <= i < |obs| && j < |obs[i].z| then obs[i].z[j] else 0.0
  }

  ghost function Times(f: int -> real, g: int -> real): int -> real { i => Mul(f(i), g(i)) }

  ghost function TotalMass(obs: seq<Observation>, level: nat): real { Sum(|obs|, Mass(obs, level)) }

  ghost function FirstMoment(obs: seq<Observation>, level: nat, j: nat): real {
    Dot(|obs|, Mass(obs, level), Slope(obs, j))
  }

  ghost function SecondMoment(obs: seq<Observation>, level: nat, j: nat, k: nat): real {
    Dot(|obs|, Mass(obs, level), Times(Slope(obs, j), Slope(obs, k)))
  }

  // ---- One more observation ----------------------------------------------------------------

  lemma MassPush(obs: seq<Observation>, o: Observation, level: nat)
    ensures forall i :: 0 <= i < |obs| ==> Mass(obs + [o], level)(i) == Mass(obs, level)(i)
    ensures Mass(obs + [o], level)(|obs|) == if o.level == level && o.w > 0.0 then o.w else 0.0
  {
  }

  lemma TotalMassPush(obs: seq<Observation>, o: Observation, level: nat)
    ensures TotalMass(obs + [o], level) == TotalMass(obs, level) + (if o.level == level && o.w > 0.0 then o.w else 0.0)
  {
    MassPush(obs, o, level);
    SumStep(|obs|, Mass(obs + [o], level));
    SumCong(|obs|, Mass(obs + [o], level), Mass(obs, level));
  }

  lemma MomentPush(obs: seq<Observation>, o: Observation, level: nat, f: int -> real, f': int -> real)
    requires forall i :: 0 <= i < |obs| ==> f'(i) == f(i)
    ensures Dot(|obs| + 1, Mass(obs + [o], level), f') ==
            Dot(|obs|, Mass(obs, level), f) + (if o.level == level && o.w > 0.0 then o.w * f'(|obs|) else 0.0)
  {
    hide Sum;
    MassPush(obs, o, level);
    DotStep(|obs| + 1, Mass(obs + [o], level), f');
    DotCong(|obs|, Mass(obs + [o], level), f', Mass(obs, level), f);
  }

  lemma FirstMomentPush(obs: seq<Observation>, o: Observation, level: nat, j: nat)
    requires j < |o.z|
    ensures FirstMoment(obs + [o], level, j) ==
            FirstMoment(obs, level, j) + (if o.level == level && o.w > 0.0 then o.w * o.z[j] else 0.0)
  {
    hide Dot;
    MomentPush(obs, o, level, Slope(obs, j), Slope(obs + [o], j));
  }

  lemma SecondMomentPush(obs: seq<Observation>, o: Observation, level: nat, j: nat, k: nat)
    requires j < |o.z| && k < |o.z|
    ensures SecondMoment(obs + [o], level, j, k) ==
            SecondMoment(obs, level, j, k) + (if o.level == level && o.w > 0.0 then o.w * Mul(o.z[j], o.z[k]) else 0.0)
  {
    hide Dot;
    hide Mul;
    MomentPush(obs, o, level, Times(Slope(obs, j), Slope(obs, k)), Times(Slope(obs + [o], j), Slope(obs + [o], k)));
  }

  // ---- The running moments -----------------------------------------------------------------

  /** The mean and the centred second moment, stated without division. */
  ghost predicate MeanOf(w: real, mu: real, first: real) { w * mu == first }

  ghost predicate ComomentOf(com: real, w: real, muJ: real, muK: real, second: real) {
    com + w * (muJ * muK) == second
  }

  lemma MeanStep(w: real, mu: real, first: real, wi: real, z: real, w': real, mu': real)
    requires MeanOf(w, mu, first) && wi > 0.0 && w >= 0.0 && w' == w + wi && mu' == mu + (wi / w') * (z - mu)
    ensures MeanOf(w', mu', first + wi * z)
  {
    var r := wi / w';
    assert w' * r == wi;
    RatioStep(w', r, wi, z - mu);
    assert w' * mu' == w' * mu + wi * (z - mu);
  }

  lemma RatioStep(w: real, r: real, wi: real, d: real)
    requires w * r == wi
    ensures w * (r * d) == wi * d
  {
    assert w * (r * d) == (w * r) * d;
  }

  /** The Welford update of one comoment, with `delta` from the old mean of `k` and the
      deviation from the new mean of `j`. */
  lemma ComomentStep(com: real, w: real, muJ: real, muK: real, second: real, wi: real, zJ: real, zK: real,
                     w': real, muJ': real, muK': real, com': real, second': real)
    requires ComomentOf(com, w, muJ, muK, second) && w' * muJ' == w * muJ + wi * zJ
    requires w' * (muK' - muK) == wi * (zK - muK)
    requires com' == com + (zK - muK) * (wi * (zJ - muJ')) && second' == second + wi * Mul(zJ, zK)
    ensures ComomentOf(com', w', muJ', muK', second')
  {
    Replace(muJ', w' * (muK' - muK), wi * (zK - muK));
    Replace(muK, w' * muJ', w * muJ + wi * zJ);
  }

  lemma Replace(k: real, x: real, y: real)
    requires x == y
    ensures k * x == k * y
  {
  }

  // ---- The packed triangle -----------------------------------------------------------------

  function TriLen(v: nat): nat { if v == 0 then 0 else TriLen(v - 1) + v }

  /** `(j, k)` with `k <= j` in a packed row-major lower triangle. */
  function TriIndex(j: nat, k: nat): nat { TriLen(j) + k }

  lemma {:induction false} TriLenClosed(v: nat)
    ensures TriLen(v) == v * (v + 1) / 2
  {
    if v > 0 { TriLenClosed(v - 1); }
  }

  lemma {:induction false} TriLenMono(j: nat, v: nat)
    requires j <= v
    ensures TriLen(j) <= TriLen(v)
  {
    if j < v { TriLenMono(j, v - 1); }
  }

  lemma TriIndexBound(j: nat, k: nat, v: nat)
    requires k <= j < v
    ensures TriIndex(j, k) < TriLen(v)
  {
    TriLenMono(j + 1, v);
  }

  /** Distinct cells of the triangle have distinct places. */
  lemma TriIndexInjective(j: nat, k: nat, j': nat, k': nat)
    requires k <= j && k' <= j' && (j, k) != (j', k')
    ensures TriIndex(j, k) != TriIndex(j', k')
  {
    if j < j' { TriLenMono(j + 1, j'); }
    if j' < j { TriLenMono(j' + 1, j); }
  }

  /** The moments of one level: total weight, means, packed comoments. */
  datatype Moments = Moments(w: real, mean: seq<real>, comoment: seq<real>)

  ghost predicate Describes(m: Moments, obs: seq<Observation>, level: nat, v: nat) {
    && |m.mean| == v && |m.comoment| == TriLen(v) && m.w == TotalMass(obs, level)
    && (forall j :: 0 <= j < v ==> MeanOf(m.w, m.mean[j], FirstMoment(obs, level, j)))
    && (forall j, k :: 0 <= k <= j < v ==> ComomentAt(m, obs, level, v, j, k))
  }

  ghost predicate ComomentAt(m: Moments, obs: seq<Observation>, level: nat, v: nat, j: nat, k: nat)
    requires k <= j < v == |m.mean| && |m.comoment| == TriLen(v)
  {
    TriIndexBound(j, k, v);
    ComomentOf(m.comoment[TriIndex(j, k)], m.w, m.mean[j], m.mean[k], SecondMoment(obs, level, j, k))
  }

  /** Observations elsewhere, or without weight, change nothing. */
  lemma DescribesElsewhere(m: Moments, obs: seq<Observation>, o: Observation, level: nat, v: nat)
    requires Describes(m, obs, level, v) && |o.z| == v && !(o.level == level && o.w > 0.0)
    ensures Describes(m, obs + [o], level, v)
  {
    hide FirstMoment;
    hide SecondMoment;
    hide TotalMass;
    TotalMassPush(obs, o, level);
    forall j | 0 <= j < v ensures MeanOf(m.w, m.mean[j], FirstMoment(obs + [o], level, j)) {
      FirstMomentPush(obs, o, level, j);
    }
    forall j, k | 0 <= k <= j < v ensures ComomentAt(m, obs + [o], level, v, j, k) {
      SecondMomentPush(obs, o, level, j, k);
      assert ComomentAt(m, obs, level, v, j, k);
    }
  }

  /** What one update computes, entry by entry. */
  ghost predicate UpdatedBy(m: Moments, m': Moments, z: seq<real>, wi: real, v: nat) {
    && |m.mean| == |m'.mean| == |z| == v && |m.comoment| == |m'.comoment| == TriLen(v)
    && m'.w == m.w + wi && m'.w > 0.0
    && (forall j :: 0 <= j < v ==> MeanUpdatedAt(m, m', z, wi, j))
    && (forall j, k :: 0 <= k <= j < v ==> ComomentUpdatedAt(m, m', z, wi, v, j, k))
  }

  ghost predicate MeanUpdatedAt(m: Moments, m': Moments, z: seq<real>, wi: real, j: nat)
    requires j < |m.mean| == |m'.mean| == |z| && m'.w > 0.0
  {
    m'.mean[j] == m.mean[j] + (wi / m'.w) * (z[j] - m.mean[j])
  }

  ghost predicate ComomentUpdatedAt(m: Moments, m': Moments, z: seq<real>, wi: real, v: nat, j: nat, k: nat)
    requires k <= j < v == |m.mean| == |m'.mean| == |z| && |m.comoment| == |m'.comoment| == TriLen(v)
  {
    TriIndexBound(j, k, v);
    m'.comoment[TriIndex(j, k)] == m.comoment[TriIndex(j, k)] + (z[k] - m.mean[k]) * (wi * (z[j] - m'.mean[j]))
  }

  lemma MassNonneg(obs: seq<Observation>, level: nat)
    ensures TotalMass(obs, level) >= 0.0
  {
    SumNonneg(|obs|, Mass(obs, level));
  }

  lemma UpdatedMean(m: Moments, m': Moments, obs: seq<Observation>, o: Observation, v: nat, j: nat)
    requires Describes(m, obs, o.level, v) && UpdatedBy(m, m', o.z, o.w, v) && o.w > 0.0 && j < v
    ensures MeanOf(m'.w, m'.mean[j], FirstMoment(obs + [o], o.level, j))
    ensures m'.w * m'.mean[j] == m.w * m.mean[j] + o.w * o.z[j]
    ensures m'.w * (m'.mean[j] - m.mean[j]) == o.w * (o.z[j] - m.mean[j])
  {
    hide FirstMoment;
    hide SecondMoment;
    hide TotalMass;
    MassNonneg(obs, o.level);
    assert MeanUpdatedAt(m, m', o.z, o.w, j);
    FirstMomentPush(obs, o, o.level, j);
    MeanStep(m.w, m.mean[j], FirstMoment(obs, o.level, j), o.w, o.z[j], m'.w, m'.mean[j]);
    RatioStep(m'.w, o.w / m'.w, o.w, o.z[j] - m.mean[j]);
  }

  lemma ComomentFacts(m: Moments, m': Moments, obs: seq<Observation>, o: Observation, v: nat, j: nat, k: nat)
    requires Describes(m, obs, o.level, v) && UpdatedBy(m, m', o.z, o.w, v) && k <= j < v
    ensures |m.mean| == |m'.mean| == |o.z| == v && |m.comoment| == |m'.comoment| == TriLen(v)
    ensures m.w == TotalMass(obs, o.level) && m'.w == m.w + o.w > 0.0
    ensures ComomentAt(m, obs, o.level, v, j, k) && ComomentUpdatedAt(m, m', o.z, o.w, v, j, k)
  {
    hide ComomentAt;
    hide ComomentUpdatedAt;
    hide MeanOf;
    hide TriLen;
  }

  lemma UpdatedComoment(m: Moments, m': Moments, obs: seq<Observation>, o: Observation, v: nat, j: nat, k: nat)
    requires Describes(m, obs, o.level, v) && UpdatedBy(m, m', o.z, o.w, v) && o.w > 0.0 && k <= j < v
    ensures ComomentAt(m', obs + [o], o.level, v, j, k)
  {
    hide MeanOf;
    hide TriIndex;
    hide TriLen;
    hide FirstMoment;
    hide SecondMoment;
    hide TotalMass;
    hide Mul;
    TriIndexBound(j, k, v);
    hide Describes;
    hide UpdatedBy;
    hide ComomentOf;
    ComomentFacts(m, m', obs, o, v, j, k);
    UpdatedMean(m, m', obs, o, v, j);
    UpdatedMean(m, m', obs, o, v, k);
    SecondMomentPush(obs, o, o.level, j, k);
    ComomentStep(m.comoment[TriIndex(j, k)], m.w, m.mean[j], m.mean[k], SecondMoment(obs, o.level, j, k),
                 o.w, o.z[j], o.z[k], m'.w, m'.mean[j], m'.mean[k],
                 m'.comoment[TriIndex(j, k)], SecondMoment(obs + [o], o.level, j, k));
  }

  /** The one-pass update keeps describing the two-pass sums. */
  lemma UpdateDescribes(m: Moments, m': Moments, obs: seq<Observation>, o: Observation, v: nat)
    requires Describes(m, obs, o.level, v) && UpdatedBy(m, m', o.z, o.w, v) && o.w > 0.0
    ensures Describes(m', obs + [o], o.level, v)
  {
    hide FirstMoment;
    hide SecondMoment;
    hide TotalMass;
    hide ComomentAt;
    TotalMassPush(obs, o, o.level);
    forall j | 0 <= j < v ensures MeanOf(m'.w, m'.mean[j], FirstMoment(obs + [o], o.level, j)) {
      UpdatedMean(m, m', obs, o, v, j);
    }
    forall j, k | 0 <= k <= j < v ensures ComomentAt(m', obs + [o], o.level, v, j, k) {
      UpdatedComoment(m, m', obs, o, v, j, k);
    }
  }

  method UpdateMean(mean: seq<real>, z: seq<real>, ratio: real) returns (mean': seq<real>, delta: seq<real>)
    requires |mean| == |z|
    ensures |mean'| == |delta| == |mean|
    ensures forall j :: 0 <= j < |mean| ==> delta[j] == z[j] - mean[j] && mean'[j] == mean[j] + ratio * delta[j]
  {
    mean', delta := [], [];
    for j := 0 to |mean|
      invariant |mean'| == |delta| == j
      invariant forall k :: 0 <= k < j ==> delta[k] == z[k] - mean[k] && mean'[k] == mean[k] + ratio * delta[k]
    {
      var d := z[j] - mean[j];
      delta, mean' := delta + [d], mean' + [mean[j] + ratio * d];
    }
  }

  /** The cells before `(j, k)`, row by row, have been updated. */
  ghost predicate CellsDone(com: seq<real>, com': seq<real>, inc: (int, int) -> real, v: nat, j: nat, k: nat) {
    && |com| == |com'| == TriLen(v)
    && forall a, b :: 0 <= b <= a < v ==> CellAt(com, com', inc, v, j, k, a, b)
  }

  ghost predicate CellAt(com: seq<real>, com': seq<real>, inc: (int, int) -> real, v: nat, j: nat, k: nat, a: nat, b: nat)
    requires b <= a < v && |com| == |com'| == TriLen(v)
  {
    TriIndexBound(a, b, v);
    com'[TriIndex(a, b)] == com[TriIndex(a, b)] + if a < j || (a == j && b < k) then inc(a, b) else 0.0
  }

  lemma CellStep(com: seq<real>, com': seq<real>, inc: (int, int) -> real, v: nat, j: nat, k: nat, x: real)
    requires CellsDone(com, com', inc, v, j, k) && k <= j < v && x == inc(j, k)
    ensures TriIndex(j, k) < |com'|
    ensures CellsDone(com, com'[TriIndex(j, k) := com'[TriIndex(j, k)] + x], inc, v, j, k + 1)
  {
    TriIndexBound(j, k, v);
    var com'' := com'[TriIndex(j, k) := com'[TriIndex(j, k)] + x];
    var next := k + 1;
    forall a, b | 0 <= b <= a < v ensures CellAt(com, com'', inc, v, j, next, a, b) {
      assert CellAt(com, com', inc, v, j, k, a, b);
      TriIndexBound(a, b, v);
      if (a, b) != (j, k) { TriIndexInjective(a, b, j, k); }
    }
  }

  lemma RowDone(com: seq<real>, com': seq<real>, inc: (int, int) -> real, v: nat, j: nat)
    requires CellsDone(com, com', inc, v, j, j + 1)
    ensures CellsDone(com, com', inc, v, j + 1, 0)
  {
    var next := j + 1;
    forall a, b | 0 <= b <= a < v ensures CellAt(com, com', inc, v, next, 0, a, b) {
      assert CellAt(com, com', inc, v, j, next, a, b);
    }
  }

  method UpdateComoment(com: seq<real>, delta: seq<real>, z: seq<real>, mean: seq<real>, w: real, ghost inc: (int, int) -> real)
    returns (com': seq<real>)
    requires |delta| == |z| == |mean| && |com| == TriLen(|z|)
    requires forall j, k :: 0 <= k <= j < |z| ==> inc(j, k) == delta[k] * (w * (z[j] - mean[j]))
    ensures CellsDone(com, com', inc, |z|, |z|, 0)
  {
    hide CellsDone;
    var v := |z|;
    com' := com;
    NothingDone(com, inc, v);
    for j := 0 to v
      invariant CellsDone(com, com', inc, v, j, 0)
    {
      var dev := w * (z[j] - mean[j]);
      for k := 0 to j + 1
        invariant CellsDone(com, com', inc, v, j, k)
      {
        CellStep(com, com', inc, v, j, k, delta[k] * dev);
        com' := com'[TriIndex(j, k) := com'[TriIndex(j, k)] + delta[k] * dev];
      }
      RowDone(com, com', inc, v, j);
    }
  }

  lemma NothingDone(com: seq<real>, inc: (int, int) -> real, v: nat)
    requires |com| == TriLen(v)
    ensures CellsDone(com, com, inc, v, 0, 0)
  {
    forall a, b | 0 <= b <= a < v ensures CellAt(com, com, inc, v, 0, 0, a, b) {}
  }

  // ---- The accumulator ---------------------------------------------------------------------

  class LevelMoments {
    const nSlopes: nat
    var wSum: seq<real>
    var mean: seq<seq<real>>
    var comoment: seq<seq<real>>
    var delta: seq<real>
    ghost var seen: seq<Observation>

    /** Every level's moments are the sums over what has been observed. */
    ghost predicate Valid()
      reads this
    {
      |delta| == nSlopes && AllDescribe(wSum, mean, comoment, seen, nSlopes)
    }

    constructor (nLevels: nat, nSlopes: nat)
      ensures Valid() && seen == [] && |wSum| == nLevels && this.nSlopes == nSlopes
    {
      this.nSlopes := nSlopes;
      wSum := seq(nLevels, _ => 0.0);
      mean := seq(nLevels, _ => seq(nSlopes, _ => 0.0));
      comoment := seq(nLevels, _ => seq(TriLen(nSlopes), _ => 0.0));
      delta, seen := seq(nSlopes, _ => 0.0), [];
      new;
      forall l | 0 <= l < nLevels ensures DescribesAt(wSum, mean, comoment, [], l, nSlopes) {
        DescribesNothing(l, nSlopes);
      }
    }

    method Observe(level: nat, z: seq<real>, w: real)
      requires Valid() && level < |wSum| && |z| == nSlopes
      modifies this
      ensures Valid() && seen == old(seen) + [Observation(level, z, w)] && |wSum| == old(|wSum|)
    {
      hide Describes;
      ghost var o := Observation(level, z, w);
      OthersDescribe(wSum, mean, comoment, seen, o, nSlopes);
      if w <= 0.0 {
        seen := seen + [o];
        return;
      }
      ghost var was := Moments(wSum[level], mean[level], comoment[level]);
      assert DescribesAt(wSum, mean, comoment, seen, level, nSlopes);
      DescribedSizes(was, seen, level, nSlopes);
      var total := wSum[level] + w;
      var mean', delta' := UpdateMean(mean[level], z, w / total);
      ghost var inc := Increments(z, delta', mean', w);
      var com' := UpdateComoment(comoment[level], delta', z, mean', w, inc);
      CellsUpdate(was, Moments(total, mean', com'), z, w, delta', nSlopes);
      UpdateDescribes(was, Moments(total, mean', com'), seen, o, nSlopes);
      ReplaceLevel(wSum, mean, comoment, seen + [o], level, Moments(total, mean', com'), nSlopes);
      wSum := wSum[level := total];
      mean := mean[level := mean'];
      comoment := comoment[level := com'];
      delta, seen := delta', seen + [o];
    }
  }

  ghost predicate AllDescribe(w: seq<real>, mean: seq<seq<real>>, com: seq<seq<real>>, seen: seq<Observation>, v: nat) {
    && |w| == |mean| == |com| && forall l :: 0 <= l < |w| ==> DescribesAt(w, mean, com, seen, l, v)
  }

  ghost predicate DescribesAt(w: seq<real>, mean: seq<seq<real>>, com: seq<seq<real>>, seen: seq<Observation>, l: nat, v: nat)
    requires l < |w| == |mean| == |com|
  {
    Describes(Moments(w[l], mean[l], com[l]), seen, l, v)
  }

  /** An observation leaves the levels it does not touch described. */
  lemma OthersDescribe(w: seq<real>, mean: seq<seq<real>>, com: seq<seq<real>>, seen: seq<Observation>, o: Observation, v: nat)
    requires AllDescribe(w, mean, com, seen, v) && |o.z| == v
    ensures forall l :: 0 <= l < |w| && !(o.level == l && o.w > 0.0) ==> DescribesAt(w, mean, com, seen + [o], l, v)
  {
    hide Describes;
    forall l | 0 <= l < |w| && !(o.level == l && o.w > 0.0) ensures DescribesAt(w, mean, com, seen + [o], l, v) {
      assert DescribesAt(w, mean, com, seen, l, v);
      DescribesElsewhere(Moments(w[l], mean[l], com[l]), seen, o, l, v);
    }
  }

  /** Replacing the touched level completes the description. */
  lemma ReplaceLevel(w: seq<real>, mean: seq<seq<real>>, com: seq<seq<real>>, seen: seq<Observation>, level: nat, m: Moments, v: nat)
    requires |w| == |mean| == |com| && level < |w| && Describes(m, seen, level, v)
    requires forall l :: 0 <= l < |w| && l != level ==> DescribesAt(w, mean, com, seen, l, v)
    ensures AllDescribe(w[level := m.w], mean[level := m.mean], com[level := m.comoment], seen, v)
  {
    hide Describes;
    var w', mean', com' := w[level := m.w], mean[level := m.mean], com[level := m.comoment];
    forall l | 0 <= l < |w| ensures DescribesAt(w', mean', com', seen, l, v) {
      if l != level { assert DescribesAt(w, mean, com, seen, l, v); }
    }
  }

  lemma DescribedSizes(m: Moments, obs: seq<Observation>, level: nat, v: nat)
    requires Describes(m, obs, level, v)
    ensures |m.mean| == v && |m.comoment| == TriLen(v) && m.w >= 0.0
  {
    MassNonneg(obs, level);
  }

  /** What an observation adds to each comoment. */
  ghost function Increments(z: seq<real>, delta: seq<real>, mean: seq<real>, w: real): (int, int) -> real {
    (j, k) => if 0 <= k <= j < |z| && |z| == |delta| == |mean| then delta[k] * (w * (z[j] - mean[j])) else 0.0
  }

  lemma DescribesNothing(level: nat, v: nat)
    ensures Describes(Moments(0.0, seq(v, _ => 0.0), seq(TriLen(v), _ => 0.0)), [], level, v)
  {
    var m := Moments(0.0, seq(v, _ => 0.0), seq(TriLen(v), _ => 0.0));
    forall j, k | 0 <= k <= j < v ensures ComomentAt(m, [], level, v, j, k) { TriIndexBound(j, k, v); }
  }

  lemma CellUpdate(m: Moments, m': Moments, z: seq<real>, w: real, delta: seq<real>, v: nat, j: nat, k: nat)
    requires |m.mean| == |m'.mean| == |z| == |delta| == v && |m.comoment| == TriLen(v) && k <= j < v
    requires delta[k] == z[k] - m.mean[k] && CellsDone(m.comoment, m'.comoment, Increments(z, delta, m'.mean, w), v, v, 0)
    ensures ComomentUpdatedAt(m, m', z, w, v, j, k)
  {
    hide TriIndex;
    hide TriLen;
    assert CellAt(m.comoment, m'.comoment, Increments(z, delta, m'.mean, w), v, v, 0, j, k);
  }

  lemma CellsUpdate(m: Moments, m': Moments, z: seq<real>, w: real, delta: seq<real>, v: nat)
    requires |m.mean| == |m'.mean| == |z| == |delta| == v && |m.comoment| == TriLen(v) && m'.w == m.w + w && m'.w > 0.0
    requires forall j :: 0 <= j < v ==> delta[j] == z[j] - m.mean[j] && m'.mean[j] == m.mean[j] + (w / m'.w) * delta[j]
    requires CellsDone(m.comoment, m'.comoment, Increments(z, delta, m'.mean, w), v, v, 0)
    ensures UpdatedBy(m, m', z, w, v)
  {
    hide ComomentUpdatedAt;
    hide TriIndex;
    hide TriLen;
    CellsSize(m.comoment, m'.comoment, Increments(z, delta, m'.mean, w), v);
    forall j, k | 0 <= k <= j < v ensures ComomentUpdatedAt(m, m', z, w, v, j, k) {
      CellUpdate(m, m', z, w, delta, v, j, k);
    }
  }

  lemma CellsSize(com: seq<real>, com': seq<real>, inc: (int, int) -> real, v: nat)
    requires CellsDone(com, com', inc, v, v, 0)
    ensures |com'| == |com| == TriLen(v)
  {
  }

  // ---- The Gram matrix ---------------------------------------------------------------------

  /** The two-pass sum: deviations from fixed centers, multiplied and weighted. */
  ghost function Centered(obs: seq<Observation>, level: nat, center: seq<real>, j: nat, k: nat): real
    requires j < |center| && k < |center|
  {
    Dot(|obs|, Mass(obs, level), Times(Shifted(Slope(obs, j), center[j]), Shifted(Slope(obs, k), center[k])))
  }

  ghost function Shifted(f: int -> real, c: real): int -> real { i => f(i) - c }

  /** Around the mean the two-pass sum is the second moment less the mean's share. */
  lemma CenteredAtMean(obs: seq<Observation>, level: nat, mu: seq<real>, j: nat, k: nat)
    requires j < |mu| && k < |mu|
    requires MeanOf(TotalMass(obs, level), mu[j], FirstMoment(obs, level, j))
    requires MeanOf(TotalMass(obs, level), mu[k], FirstMoment(obs, level, k))
    ensures Centered(obs, level, mu, j, k) == SecondMoment(obs, level, j, k) - TotalMass(obs, level) * (mu[j] * mu[k])
  {
    hide Dot;
    hide Sum;
    CenteredExpands(|obs|, Mass(obs, level), Slope(obs, j), Slope(obs, k), mu[j], mu[k]);
    CenterScalars(SecondMoment(obs, level, j, k), FirstMoment(obs, level, j), FirstMoment(obs, level, k), TotalMass(obs, level), mu[j], mu[k]);
  }

  lemma CenterScalars(s: real, fj: real, fk: real, w: real, muJ: real, muK: real)
    requires w * muJ == fj && w * muK == fk
    ensures s - muK * fj - muJ * fk + (muJ * muK) * w == s - w * (muJ * muK)
  {
    Replace(muK, w * muJ, fj);
    Replace(muJ, w * muK, fk);
  }

  /** Sum m (f - a)(g - b), expanded. */
  ghost predicate Expands(n: nat, m: int -> real, f: int -> real, g: int -> real, a: real, b: real) {
    Dot(n, m, Times(Shifted(f, a), Shifted(g, b))) ==
    Dot(n, m, Times(f, g)) - b * Dot(n, m, f) - a * Dot(n, m, g) + (a * b) * Sum(n, m)
  }

  lemma {:induction false} CenteredExpands(n: nat, m: int -> real, f: int -> real, g: int -> real, a: real, b: real)
    ensures Expands(n, m, f, g, a, b)
  {
    hide Dot;
    hide Sum;
    if n == 0 {
      EmptyDot(m, Times(Shifted(f, a), Shifted(g, b)));
      EmptyDot(m, Times(f, g));
      EmptyDot(m, f);
      EmptyDot(m, g);
      SumZero(0, m);
    } else {
      hide Expands;
      CenteredExpands(n - 1, m, f, g, a, b);
      ExpandedStep(n, m, f, g, a, b);
    }
  }

  lemma EmptyDot(f: int -> real, g: int -> real)
    ensures Dot(0, f, g) == 0.0
  {
  }

  lemma ExpandedStep(n: nat, m: int -> real, f: int -> real, g: int -> real, a: real, b: real)
    requires n > 0 && Expands(n - 1, m, f, g, a, b)
    ensures Expands(n, m, f, g, a, b)
  {
    hide Dot;
    hide Sum;
    DotStep(n, m, Times(Shifted(f, a), Shifted(g, b)));
    DotStep(n, m, Times(f, g));
    DotStep(n, m, f);
    DotStep(n, m, g);
    SumStep(n - 1, m);
    StepScalars(m(n - 1), f(n - 1), g(n - 1), a, b);
    Gathered(Dot(n - 1, m, f), Dot(n - 1, m, g), Sum(n - 1, m), m(n - 1), f(n - 1), g(n - 1), a, b);
  }

  lemma StepScalars(m: real, f: real, g: real, a: real, b: real)
    ensures m * Mul(f - a, g - b) == m * Mul(f, g) - b * (m * f) - a * (m * g) + (a * b) * m
  {
  }

  lemma Gathered(x: real, y: real, s: real, m: real, f: real, g: real, a: real, b: real)
    ensures b * (x + m * f) == b * x + b * (m * f) && a * (y + m * g) == a * y + a * (m * g)
    ensures (a * b) * (s + m) == (a * b) * s + (a * b) * m
  {
    Distributes(b, x, m * f);
    Distributes(a, y, m * g);
    Distributes(a * b, s, m);
  }

  lemma CenteredSymmetric(obs: seq<Observation>, level: nat, center: seq<real>, j: nat, k: nat)
    requires j < |center| && k < |center|
    ensures Centered(obs, level, center, j, k) == Centered(obs, level, center, k, j)
  {
    var f, g := Shifted(Slope(obs, j), center[j]), Shifted(Slope(obs, k), center[k]);
    forall i | 0 <= i < |obs| ensures Times(f, g)(i) == Times(g, f)(i) { MulComm(f(i), g(i)); }
    DotCong(|obs|, Mass(obs, level), Times(f, g), Mass(obs, level), Times(g, f));
  }

  /** A square matrix by rows. */
  predicate Square(g: seq<seq<real>>, v: nat) {
    |g| == v && forall j :: 0 <= j < v ==> |g[j]| == v
  }

  /** `g` is the level's Gram about `center`: the means under an intercept, zero without. */
  ghost predicate IsGram(g: seq<seq<real>>, obs: seq<Observation>, level: nat, center: seq<real>, v: nat) {
    && Square(g, v) && |center| == v
    && forall j, k :: 0 <= j < v && 0 <= k < v ==> GramAt(g, obs, level, center, j, k)
  }

  ghost predicate GramAt(g: seq<seq<real>>, obs: seq<Observation>, level: nat, center: seq<real>, j: nat, k: nat)
    requires j < |g| && k < |g[j]| && j < |center| && k < |center|
  {
    g[j][k] == Centered(obs, level, center, j, k)
  }

  /** One entry read off the stored moments. */
  function GramEntry(m: Moments, intercept: bool, j: nat, k: nat): real
    requires j < |m.mean| && k < |m.mean| && TriIndex(j, k) < |m.comoment|
  {
    m.comoment[TriIndex(j, k)] + if intercept then 0.0 else m.w * (m.mean[j] * m.mean[k])
  }

  function Center(m: Moments, intercept: bool): seq<real> {
    if intercept then m.mean else seq(|m.mean|, _ => 0.0)
  }

  lemma EntryIsCentered(m: Moments, obs: seq<Observation>, level: nat, v: nat, intercept: bool, j: nat, k: nat)
    requires Describes(m, obs, level, v) && k <= j < v
    ensures TriIndex(j, k) < |m.comoment|
    ensures GramEntry(m, intercept, j, k) == Centered(obs, level, Center(m, intercept), j, k)
  {
    hide FirstMoment;
    hide SecondMoment;
    hide TotalMass;
    hide Centered;
    hide TriIndex;
    hide TriLen;
    TriIndexBound(j, k, v);
    assert ComomentAt(m, obs, level, v, j, k);
    if intercept {
      CenteredAtMean(obs, level, m.mean, j, k);
    } else {
      CenteredAtZero(obs, level, Center(m, false), j, k);
    }
  }

  lemma CenteredAtZero(obs: seq<Observation>, level: nat, c: seq<real>, j: nat, k: nat)
    requires j < |c| && k < |c| && c[j] == 0.0 && c[k] == 0.0
    ensures Centered(obs, level, c, j, k) == SecondMoment(obs, level, j, k)
  {
    var f, g := Slope(obs, j), Slope(obs, k);
    DotCong(|obs|, Mass(obs, level), Times(Shifted(f, c[j]), Shifted(g, c[k])), Mass(obs, level), Times(f, g));
  }

  /** Both triangles hold their entry up to `(j, k)`. */
  ghost predicate Filled(g: seq<seq<real>>, e: (int, int) -> real, v: nat, j: nat, k: nat) {
    Square(g, v) && forall a, b :: 0 <= b <= a < v ==> FilledAt(g, e, j, k, a, b)
  }

  ghost predicate FilledAt(g: seq<seq<real>>, e: (int, int) -> real, j: nat, k: nat, a: nat, b: nat)
    requires a < |g| && b < |g| && b < |g[a]| && a < |g[b]|
  {
    a < j || (a == j && b < k) ==> g[a][b] == e(a, b) && g[b][a] == e(a, b)
  }

  function Mirrored(g: seq<seq<real>>, j: nat, k: nat, x: real): (r: seq<seq<real>>)
    requires j < |g| && k < |g| && k < |g[j]| && j < |g[k]|
    ensures |r| == |g| && forall a :: 0 <= a < |g| ==> |r[a]| == |g[a]|
  {
    var once := g[j := g[j][k := x]];
    once[k := once[k][j := x]]
  }

  lemma FillStep(g: seq<seq<real>>, e: (int, int) -> real, v: nat, j: nat, k: nat)
    requires Filled(g, e, v, j, k) && k <= j < v
    ensures Filled(Mirrored(g, j, k, e(j, k)), e, v, j, k + 1)
  {
    var r, next := Mirrored(g, j, k, e(j, k)), k + 1;
    forall a, b | 0 <= b <= a < v ensures FilledAt(r, e, j, next, a, b) {
      assert FilledAt(g, e, j, k, a, b);
    }
  }

  lemma FillRow(g: seq<seq<real>>, e: (int, int) -> real, v: nat, j: nat)
    requires Filled(g, e, v, j, j + 1)
    ensures Filled(g, e, v, j + 1, 0)
  {
    var next := j + 1;
    forall a, b | 0 <= b <= a < v ensures FilledAt(g, e, next, 0, a, b) { assert FilledAt(g, e, j, next, a, b); }
  }

  ghost function EntryOf(m: Moments, intercept: bool): (int, int) -> real {
    (j, k) => if 0 <= k <= j < |m.mean| && TriIndex(j, k) < |m.comoment| then GramEntry(m, intercept, j, k) else 0.0
  }

  /** `gram`: what a level's stored moments say about its observations' two-pass sums. */
  method Gram(m: Moments, intercept: bool, ghost obs: seq<Observation>, ghost level: nat, v: nat) returns (g: seq<seq<real>>)
    requires Describes(m, obs, level, v)
    ensures IsGram(g, obs, level, Center(m, intercept), v)
  {
    hide Filled;
    hide Describes;
    DescribedSizes(m, obs, level, v);
    g := seq(v, _ => seq(v, _ => 0.0));
    ghost var e := EntryOf(m, intercept);
    NothingFilled(g, e, v);
    for j := 0 to v
      invariant Filled(g, e, v, j, 0)
    {
      for k := 0 to j + 1
        invariant Filled(g, e, v, j, k)
      {
        FilledSquare(g, e, v, j, k);
        TriIndexBound(j, k, v);
        FillStep(g, e, v, j, k);
        g := Mirrored(g, j, k, GramEntry(m, intercept, j, k));
      }
      FillRow(g, e, v, j);
    }
    FilledIsGram(g, m, intercept, obs, level, v);
  }

  lemma NothingFilled(g: seq<seq<real>>, e: (int, int) -> real, v: nat)
    requires Square(g, v)
    ensures Filled(g, e, v, 0, 0)
  {
    forall a, b | 0 <= b <= a < v ensures FilledAt(g, e, 0, 0, a, b) {}
  }

  lemma FilledSquare(g: seq<seq<real>>, e: (int, int) -> real, v: nat, j: nat, k: nat)
    requires Filled(g, e, v, j, k)
    ensures Square(g, v)
  {
  }

  lemma FilledIsGram(g: seq<seq<real>>, m: Moments, intercept: bool, obs: seq<Observation>, level: nat, v: nat)
    requires Describes(m, obs, level, v) && Filled(g, EntryOf(m, intercept), v, v, 0)
    ensures IsGram(g, obs, level, Center(m, intercept), v)
  {
    hide Describes;
    hide Centered;
    hide GramEntry;
    hide TriIndex;
    DescribedSizes(m, obs, level, v);
    var c := Center(m, intercept);
    forall j, k | 0 <= j < v && 0 <= k < v ensures GramAt(g, obs, level, c, j, k) {
      var a, b := if k <= j then j else k, if k <= j then k else j;
      EntryIsCentered(m, obs, level, v, intercept, a, b);
      CenteredSymmetric(obs, level, c, a, b);
      assert FilledAt(g, EntryOf(m, intercept), v, 0, a, b);
    }
  }
}
