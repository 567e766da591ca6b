/** Partition weights: the squared weights of every covered coefficient sum to one
    (crates/within/src/domain/factor_pairs.rs:154-194). */
module PartitionOfUnity {
  import opened Sums
  import opened Subdomains

  /** How many of the first `n` indices are `g`. */
  function Hits(indices: seq<nat>, g: nat, n: nat): nat
    requires n <= |indices|
  {
    if n == 0 then 0 else Hits(indices, g, n - 1) + if indices[n - 1] == g then 1 else 0
  }

  /** How often the first `n` domains hold `g`. */
  function Holders(domains: seq<seq<nat>>, g: nat, n: nat): nat
    requires n <= |domains|
  {
    if n == 0 then 0 else Holders(domains, g, n - 1) + Hits(domains[n - 1], g, |domains[n - 1]|)
  }

  ghost predicate InDofs(domains: seq<seq<nat>>, nDofs: nat) {
    forall s, i :: 0 <= s < |domains| && 0 <= i < |domains[s]| ==> domains[s][i] < nDofs
  }

  /** The counting pass. */
  method CountHolders(domains: seq<seq<nat>>, nDofs: nat) returns (counts: seq<nat>)
    requires InDofs(domains, nDofs)
    ensures |counts| == nDofs && forall g :: 0 <= g < nDofs ==> counts[g] == Holders(domains, g, |domains|)
  {
    counts := seq(nDofs, _ => 0);
    for s := 0 to |domains|
      invariant |counts| == nDofs && forall g :: 0 <= g < nDofs ==> counts[g] == Holders(domains, g, s)
    {
      var indices := domains[s];
      for i := 0 to |indices|
        invariant |counts| == nDofs && forall g :: 0 <= g < nDofs ==> counts[g] == Holders(domains, g, s) + Hits(indices, g, i)
      {
        counts := counts[indices[i] := counts[indices[i]] + 1];
      }
    }
  }

  /** The weights one domain is given. */
  ghost predicate WeightsFor(indices: seq<nat>, counts: seq<nat>, w: PartitionWeights) {
    && w.Len() == |indices|
    && forall i :: 0 <= i < |indices| ==> indices[i] < |counts| && WeightAt(w.Get(i), counts[indices[i]])
  }

  ghost predicate PositiveWeights(w: PartitionWeights) { forall i :: 0 <= i < w.Len() ==> w.Get(i) > 0.0 }

  /** A weight whose square is one over the count. */
  ghost predicate WeightAt(v: real, c: nat) { v > 0.0 && v * v * (c as real) == 1.0 }

  lemma InverseRoot(c: nat, root: real)
    requires c > 0 && root >= 0.0 && root * root == c as real
    ensures root > 0.0 && WeightAt(1.0 / root, c)
  {
    ZeroTimes(root, root);
    assert Mul(root, root) == c as real;
    var v := 1.0 / root;
    assert v * root == 1.0;
    assert v * v * (root * root) == (v * root) * (v * root);
  }

  /** A held index is counted. */
  lemma {:induction false} HitCounted(indices: seq<nat>, i: nat, n: nat)
    requires i < n <= |indices|
    ensures Hits(indices, indices[i], n) >= 1
  {
    if i < n - 1 { HitCounted(indices, i, n - 1); }
  }

  lemma {:induction false} HeldCounted(domains: seq<seq<nat>>, s: nat, i: nat, n: nat)
    requires s < n <= |domains| && i < |domains[s]|
    ensures Holders(domains, domains[s][i], n) >= 1
  {
    if s < n - 1 { HeldCounted(domains, s, i, n - 1); } else { HitCounted(domains[s], i, |domains[s]|); }
  }

  /** One domain: uniform when it shares nothing, inverse roots of the counts otherwise. */
  method DomainWeights(indices: seq<nat>, counts: seq<nat>, sqrt: real -> real) returns (w: PartitionWeights)
    requires IsSqrt(sqrt) && forall i :: 0 <= i < |indices| ==> indices[i] < |counts| && counts[indices[i]] >= 1
    ensures WeightsFor(indices, counts, w)
  {
    hide WeightAt;
    if forall i :: 0 <= i < |indices| ==> counts[indices[i]] <= 1 {
      w := Uniform(|indices|);
      forall i | 0 <= i < |indices| ensures WeightAt(1.0, counts[indices[i]]) { UnitWeight(counts[indices[i]]); }
      return;
    }
    var v := [];
    for i := 0 to |indices|
      invariant |v| == i && forall j :: 0 <= j < i ==> WeightAt(v[j], counts[indices[j]])
    {
      var c := counts[indices[i]];
      InverseRoot(c, sqrt(c as real));
      v := v + [1.0 / sqrt(c as real)];
    }
    w := NonUniform(v);
  }

  lemma UnitWeight(c: nat)
    requires c == 1
    ensures WeightAt(1.0, c)
  {
  }

  /** `compute_partition_weights` */
  method ComputePartitionWeights(domains: seq<seq<nat>>, nDofs: nat, sqrt: real -> real) returns (weights: seq<PartitionWeights>)
    requires InDofs(domains, nDofs) && IsSqrt(sqrt)
    ensures |weights| == |domains|
    ensures forall s :: 0 <= s < |domains| ==> weights[s].Len() == |domains[s]| && PositiveWeights(weights[s])
    ensures forall g: nat :: g < nDofs && Holders(domains, g, |domains|) > 0 ==> TotalAt(domains, weights, g, |domains|) == 1.0
  {
    hide WeightsFor;
    hide PositiveWeights;
    var counts := CountHolders(domains, nDofs);
    weights := [];
    for s := 0 to |domains|
      invariant |weights| == s && forall l :: 0 <= l < s ==> WeightsFor(domains[l], counts, weights[l])
    {
      forall i | 0 <= i < |domains[s]| ensures domains[s][i] < |counts| && counts[domains[s][i]] >= 1 { HeldCounted(domains, s, i, |domains|); }
      var w := DomainWeights(domains[s], counts, sqrt);
      weights := weights + [w];
    }
    forall s | 0 <= s < |domains| ensures weights[s].Len() == |domains[s]| && PositiveWeights(weights[s]) { Sized(domains[s], counts, weights[s]); }
    forall g: nat | g < nDofs && Holders(domains, g, |domains|) > 0 ensures TotalAt(domains, weights, g, |domains|) == 1.0 {
      SharesAddUp(domains, weights, counts, g, |domains|);
      WholeShare(Holders(domains, g, |domains|));
    }
  }

  lemma Sized(indices: seq<nat>, counts: seq<nat>, w: PartitionWeights)
    requires WeightsFor(indices, counts, w)
    ensures w.Len() == |indices| && PositiveWeights(w)
  {
  }

  // ---- The partition identity --------------------------------------------------------------

  /** Squared weights at `g` among the first `n` entries of one domain. */
  ghost function SquaresAt(indices: seq<nat>, w: PartitionWeights, g: nat, n: nat): real
    requires n <= |indices| == w.Len()
  {
    if n == 0 then 0.0 else SquaresAt(indices, w, g, n - 1) + if indices[n - 1] == g then w.Get(n - 1) * w.Get(n - 1) else 0.0
  }

  /** Diagonal entry `g` of `Σ Rᵢᵀ D̃ᵢ² Rᵢ` over the first `n` domains. */
  ghost function TotalAt(domains: seq<seq<nat>>, weights: seq<PartitionWeights>, g: nat, n: nat): real
    requires n <= |domains| == |weights| && forall s :: 0 <= s < |domains| ==> weights[s].Len() == |domains[s]|
  {
    if n == 0 then 0.0 else TotalAt(domains, weights, g, n - 1) + SquaresAt(domains[n - 1], weights[n - 1], g, |domains[n - 1]|)
  }

  /** `h` of the `c` equal shares. */
  ghost function Share(h: nat, c: nat): real
    requires c > 0
  {
    h as real / c as real
  }

  lemma ShareStep(h: nat, c: nat, v: real)
    requires c > 0 && WeightAt(v, c)
    ensures Share(h + 1, c) == Share(h, c) + v * v
  {
    var q, r := v * v, c as real;
    assert q * r == 1.0;
    OneShare(q, r);
    SplitShare(h as real, r);
  }

  lemma OneShare(q: real, r: real)
    requires r > 0.0 && q * r == 1.0
    ensures q == 1.0 / r
  {
  }

  lemma SplitShare(h: real, r: real)
    requires r > 0.0
    ensures (h + 1.0) / r == h / r + 1.0 / r
  {
  }

  lemma WholeShare(c: nat)
    requires c > 0
    ensures Share(c, c) == 1.0
  {
  }

  lemma AddShares(a: nat, b: nat, c: nat)
    requires c > 0
    ensures Share(a + b, c) == Share(a, c) + Share(b, c)
  {
    AddQuotients(a as real, b as real, c as real);
  }

  lemma AddQuotients(a: real, b: real, r: real)
    requires r > 0.0
    ensures (a + b) / r == a / r + b / r
  {
  }

  lemma {:induction false} DomainShares(indices: seq<nat>, w: PartitionWeights, counts: seq<nat>, g: nat, n: nat)
    requires n <= |indices| && WeightsFor(indices, counts, w) && g < |counts| && counts[g] > 0
    ensures SquaresAt(indices, w, g, n) == Share(Hits(indices, g, n), counts[g])
  {
    hide Share;
    hide WeightAt;
    if n == 0 {
      NoShare(counts[g]);
    } else {
      DomainShares(indices, w, counts, g, n - 1);
      if indices[n - 1] == g { ShareStep(Hits(indices, g, n - 1), counts[g], w.Get(n - 1)); }
    }
  }

  lemma NoShare(c: nat)
    requires c > 0
    ensures Share(0, c) == 0.0
  {
  }

  /** Every holder contributes one share. */
  lemma {:induction false} SharesAddUp(domains: seq<seq<nat>>, weights: seq<PartitionWeights>, counts: seq<nat>, g: nat, n: nat)
    requires n <= |domains| == |weights| && (forall s :: 0 <= s < |domains| ==> WeightsFor(domains[s], counts, weights[s]))
    requires g < |counts| && counts[g] > 0
    ensures forall s :: 0 <= s < |domains| ==> weights[s].Len() == |domains[s]|
    ensures TotalAt(domains, weights, g, n) == Share(Holders(domains, g, n), counts[g])
  {
    hide Share;
    if n == 0 {
      NoShare(counts[g]);
    } else {
      SharesAddUp(domains, weights, counts, g, n - 1);
      DomainShares(domains[n - 1], weights[n - 1], counts, g, |domains[n - 1]|);
      AddShares(Holders(domains, g, n - 1), Hits(domains[n - 1], g, |domains[n - 1]|), counts[g]);
    }
  }
}
