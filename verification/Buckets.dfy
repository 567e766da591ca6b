/** Stable bucket placement: the counting pass, the prefix sum and the cursor rule that
    `CsrBlock::transpose`, `counting_sort_by_lo`, `stable_argsort` and the sparse
    accumulation share. Position `p` lands at `Slot(keys, p)`. */
module Buckets {

  /** How many of the first `p` keys equal `k`. */
  ghost function Count(keys: seq<nat>, k: nat, p: nat): nat
    requires p <= |keys|
  {
    if p == 0 then 0 else Count(keys, k, p - 1) + (if keys[p - 1] == k then 1 else 0)
  }

  /** How many of the first `p` keys are below `k`. */
  ghost function Less(keys: seq<nat>, k: nat, p: nat): nat
    requires p <= |keys|
  {
    if p == 0 then 0 else Less(keys, k, p - 1) + (if keys[p - 1] < k then 1 else 0)
  }

  /** Where a stable counting sort puts position `p`. */
  ghost function Slot(keys: seq<nat>, p: nat): nat
    requires p < |keys|
  {
    Less(keys, keys[p], |keys|) + Count(keys, keys[p], p)
  }

  lemma {:induction false} LessStep(keys: seq<nat>, k: nat, p: nat)
    requires p <= |keys|
    ensures Less(keys, k + 1, p) == Less(keys, k, p) + Count(keys, k, p) <= p
  {
    if p > 0 { LessStep(keys, k, p - 1); }
  }

  lemma {:induction false} LessMono(keys: seq<nat>, a: nat, b: nat, p: nat)
    requires p <= |keys| && a <= b
    ensures Less(keys, a, p) <= Less(keys, b, p)
  {
    if p > 0 { LessMono(keys, a, b, p - 1); }
  }

  lemma {:induction false} LessAll(keys: seq<nat>, k: nat, p: nat)
    requires p <= |keys| && forall q :: 0 <= q < p ==> keys[q] < k
    ensures Less(keys, k, p) == p
  {
    if p > 0 { LessAll(keys, k, p - 1); }
  }

  lemma {:induction false} LessZero(keys: seq<nat>, p: nat)
    requires p <= |keys|
    ensures Less(keys, 0, p) == 0
  {
    if p > 0 { LessZero(keys, p - 1); }
  }

  lemma {:induction false} CountMono(keys: seq<nat>, k: nat, p: nat, q: nat)
    requires p <= q <= |keys|
    ensures Count(keys, k, p) <= Count(keys, k, q)
    ensures p < q && keys[p] == k ==> Count(keys, k, p) < Count(keys, k, q)
    decreases q
  {
    if p < q { CountMono(keys, k, p, q - 1); }
  }

  /** Every slot lies in its own bucket. */
  lemma SlotInBucket(keys: seq<nat>, p: nat)
    requires p < |keys|
    ensures Less(keys, keys[p], |keys|) <= Slot(keys, p) < Less(keys, keys[p] + 1, |keys|) <= |keys|
  {
    LessStep(keys, keys[p], |keys|);
    CountMono(keys, keys[p], p, |keys|);
  }

  /** Placement is ordered by key, ties by original position: the sort is stable. */
  lemma SlotOrder(keys: seq<nat>, p: nat, q: nat)
    requires p < |keys| && q < |keys|
    requires keys[p] < keys[q] || (keys[p] == keys[q] && p < q)
    ensures Slot(keys, p) < Slot(keys, q)
  {
    SlotInBucket(keys, p);
    SlotInBucket(keys, q);
    if keys[p] < keys[q] {
      LessMono(keys, keys[p] + 1, keys[q], |keys|);
    } else {
      CountMono(keys, keys[p], p, q);
    }
  }

  lemma SlotInjective(keys: seq<nat>, p: nat, q: nat)
    requires p < |keys| && q < |keys| && p != q
    ensures Slot(keys, p) != Slot(keys, q)
  {
    if keys[p] < keys[q] || (keys[p] == keys[q] && p < q) {
      SlotOrder(keys, p, q);
    } else {
      SlotOrder(keys, q, p);
    }
  }

  /** {0, ..., n-1} */
  ghost function Range(n: nat): (r: set<nat>)
    ensures |r| == n
    ensures forall s: nat :: s in r <==> s < n
  {
    if n == 0 then {} else Range(n - 1) + {n - 1}
  }

  lemma {:induction false} SlotImageSize(keys: seq<nat>, n: nat)
    requires n <= |keys|
    ensures |set p | 0 <= p < n :: Slot(keys, p)| == n
  {
    if n > 0 {
      SlotImageSize(keys, n - 1);
      var image := set p | 0 <= p < n - 1 :: Slot(keys, p);
      if Slot(keys, n - 1) in image {
        var q :| 0 <= q < n - 1 && Slot(keys, q) == Slot(keys, n - 1);
        SlotInjective(keys, q, n - 1);
      }
      assert (set p | 0 <= p < n :: Slot(keys, p)) == image + {Slot(keys, n - 1)};
    }
  }

  lemma SubsetOfSameSize<T>(a: set<T>, b: set<T>)
    requires a <= b && |a| == |b|
    ensures a == b
  {
    if x :| x in b && x !in a {
      assert |b| == |b - {x}| + 1;
      SubsetSize(a, b - {x});
    }
  }

  lemma {:induction false} SubsetSize<T>(a: set<T>, b: set<T>)
    requires a <= b
    ensures |a| <= |b|
  {
    if a != {} {
      var x :| x in a;
      SubsetSize(a - {x}, b - {x});
    }
  }

  /** Placement is onto: every output position receives exactly one input position. */
  lemma SlotOnto(keys: seq<nat>, s: nat) returns (p: nat)
    requires s < |keys|
    ensures p < |keys| && Slot(keys, p) == s
  {
    var n := |keys|;
    var image := set p | 0 <= p < n :: Slot(keys, p);
    SlotImageSize(keys, n);
    forall x | x in image ensures x in Range(n) {
      var q :| 0 <= q < n && Slot(keys, q) == x;
      SlotInBucket(keys, q);
    }
    SubsetOfSameSize(image, Range(n));
    assert s in image;
    p :| 0 <= p < n && Slot(keys, p) == s;
  }

  /** Placing every element at a place of its own rearranges the sequence. */
  lemma {:induction false} PlacementPermutes<T>(a: seq<T>, b: seq<T>, f: seq<nat>)
    requires |a| == |b| == |f|
    requires forall i :: 0 <= i < |f| ==> f[i] < |b| && b[f[i]] == a[i]
    requires forall i, j :: 0 <= i < j < |f| ==> f[i] != f[j]
    ensures multiset(a) == multiset(b)
  {
    if a != [] {
      var n := |a| - 1;
      var s := f[n];
      var b' := b[..s] + b[s + 1..];
      var f' := seq(n, i requires 0 <= i < n => if f[i] < s then f[i] else f[i] - 1);
      forall i | 0 <= i < n ensures f'[i] < |b'| && b'[f'[i]] == a[i] { assert f[i] != s; }
      PlacementPermutes(a[..n], b', f');
      assert a == a[..n] + [a[n]];
      assert b == b[..s] + [b[s]] + b[s + 1..];
    }
  }

  /** The counting pass and its prefix sum: `starts[k]` is where bucket `k` begins. */
  method BucketStarts(keys: seq<nat>, buckets: nat) returns (starts: seq<nat>)
    requires forall p :: 0 <= p < |keys| ==> keys[p] < buckets
    ensures |starts| == buckets + 1
    ensures forall k :: 0 <= k <= buckets ==> starts[k] == Less(keys, k, |keys|)
  {
    var counts := seq(buckets, _ => 0);
    for p := 0 to |keys|
      invariant |counts| == buckets
      invariant forall k :: 0 <= k < buckets ==> counts[k] == Count(keys, k, p)
    {
      counts := counts[keys[p] := counts[keys[p]] + 1];
    }
    starts := seq(buckets + 1, _ => 0);
    LessZero(keys, |keys|);
    for k := 0 to buckets
      invariant |starts| == buckets + 1
      invariant forall b :: 0 <= b <= k ==> starts[b] == Less(keys, b, |keys|)
    {
      LessStep(keys, k, |keys|);
      starts := starts[k + 1 := starts[k] + counts[k]];
    }
  }
}
