/** The locality sort: two ways to the same stable permutation, and reordering there and back
    (crates/within/src/domain.rs:105-140, 281-306). */
module StableArgsort {
  import opened Buckets
  import opened Sorting

  /** Position `i` before `j`: smaller key first, ties in original order. */
  predicate Before(key: seq<nat>, i: nat, j: nat) {
    i < |key| && j < |key| && (key[i] < key[j] || (key[i] == key[j] && i <= j))
  }

  /** A total order even where no key is given. */
  function KeyOrder(key: seq<nat>): (nat, nat) -> bool {
    (i: nat, j: nat) =>
      if i < |key| && j < |key| then Before(key, i, j)
      else if i < |key| then true
      else if j < |key| then false
      else i <= j
  }

  lemma KeyOrderTotal(key: seq<nat>)
    ensures TotalOrder(KeyOrder(key)) && forall i, j :: KeyOrder(key)(i, j) && KeyOrder(key)(j, i) ==> i == j
  {
    var leq := KeyOrder(key);
    forall i, j ensures leq(i, j) || leq(j, i) {}
    forall i, j, k ensures leq(i, j) && leq(j, k) ==> leq(i, k) {}
  }

  function Identity(n: nat): (s: seq<nat>)
    ensures |s| == n && forall i :: 0 <= i < n ==> s[i] == i
  {
    seq(n, i requires 0 <= i < n => i)
  }

  /** `sort_by_cached_key`: the stable sort of the positions. */
  function StableSort(key: seq<nat>): seq<nat> { Sort(Identity(|key|), KeyOrder(key)) }

  /** `perm` lists every position once, in stable key order. */
  ghost predicate IsStable(key: seq<nat>, perm: seq<nat>) {
    && multiset(perm) == multiset(Identity(|key|))
    && SortedBy(perm, KeyOrder(key))
  }

  /** There is only one stable order. */
  lemma StableUnique(key: seq<nat>, p: seq<nat>, q: seq<nat>)
    requires IsStable(key, p) && IsStable(key, q)
    ensures p == q
  {
    hide KeyOrder;
    KeyOrderTotal(key);
    SortedUnique(p, q, KeyOrder(key));
  }

  lemma SortIsStable(key: seq<nat>)
    ensures IsStable(key, StableSort(key))
  {
    hide KeyOrder;
    hide Sort;
    KeyOrderTotal(key);
    SortSorted(Identity(|key|), KeyOrder(key));
  }

  /** The first `n` positions sit in their slots. */
  ghost predicate Placing(key: seq<nat>, perm: seq<nat>, cursors: seq<nat>, n: nat) {
    && n <= |key| == |perm|
    && (forall k :: 0 <= k < |cursors| ==> cursors[k] == Less(key, k, |key|) + Count(key, k, n))
    && forall p {:trigger Slot(key, p)} :: 0 <= p < n ==> Slot(key, p) < |perm| && perm[Slot(key, p)] == p
  }

  lemma PlaceNext(key: seq<nat>, perm: seq<nat>, cursors: seq<nat>, n: nat)
    requires Placing(key, perm, cursors, n) && n < |key| && key[n] < |cursors|
    ensures cursors[key[n]] == Slot(key, n) < |perm|
    ensures Placing(key, perm[Slot(key, n) := n], cursors[key[n] := cursors[key[n]] + 1], n + 1)
  {
    SlotInBucket(key, n);
    var perm' := perm[Slot(key, n) := n];
    forall p {:trigger Slot(key, p)} | 0 <= p < n + 1 ensures Slot(key, p) < |perm'| && perm'[Slot(key, p)] == p {
      if p < n { SlotInjective(key, p, n); }
    }
  }

  lemma PlacedIsStable(key: seq<nat>, perm: seq<nat>, cursors: seq<nat>)
    requires Placing(key, perm, cursors, |key|)
    ensures IsStable(key, perm)
  {
    hide Less;
    hide Count;
    hide Slot;
    var id, f := Identity(|key|), seq(|key|, p requires 0 <= p < |key| => Slot(key, p));
    forall i | 0 <= i < |f| ensures f[i] < |perm| && perm[f[i]] == id[i] { assert f[i] == Slot(key, i); }
    forall i, j | 0 <= i < j < |f| ensures f[i] != f[j] { SlotInjective(key, i, j); }
    PlacementPermutes(id, perm, f);
    forall s, t | 0 <= s < t < |perm| ensures KeyOrder(key)(perm[s], perm[t]) {
      var p := SlotOnto(key, s);
      var q := SlotOnto(key, t);
      assert perm[s] == p && perm[t] == q;
      if !Before(key, p, q) { SlotOrder(key, q, p); }
    }
  }

  /** The counting branch. */
  method CountingArgsort(key: seq<nat>, nLevels: nat) returns (perm: seq<nat>)
    requires forall i :: 0 <= i < |key| ==> key[i] < nLevels
    ensures IsStable(key, perm)
  {
    hide Less;
    hide Count;
    hide Slot;
    hide IsStable;
    var starts := BucketStarts(key, nLevels);
    var cursors: seq<nat> := starts[..nLevels];
    perm := seq(|key|, _ => 0);
    CursorsAtStart(key, perm, cursors);
    for i := 0 to |key|
      invariant |cursors| == nLevels && Placing(key, perm, cursors, i)
    {
      PlaceNext(key, perm, cursors, i);
      perm := perm[cursors[key[i]] := i];
      cursors := cursors[key[i] := cursors[key[i]] + 1];
    }
    PlacedIsStable(key, perm, cursors);
  }

  lemma CursorsAtStart(key: seq<nat>, perm: seq<nat>, cursors: seq<nat>)
    requires |perm| == |key| && forall k :: 0 <= k < |cursors| ==> cursors[k] == Less(key, k, |key|)
    ensures Placing(key, perm, cursors, 0)
  {
  }

  /** `stable_argsort`: both branches give the one stable order. */
  method Argsort(key: seq<nat>, nLevels: nat) returns (perm: seq<nat>)
    requires forall i :: 0 <= i < |key| ==> key[i] < nLevels
    ensures perm == StableSort(key) && IsStable(key, perm)
  {
    hide StableSort;
    hide IsStable;
    SortIsStable(key);
    if |key| < nLevels {
      perm := StableSort(key);
    } else {
      perm := CountingArgsort(key, nLevels);
      StableUnique(key, perm, StableSort(key));
    }
  }

  // ---- Reordering --------------------------------------------------------------------------

  /** `permute_obs_in` */
  function PermuteIn(v: seq<real>, perm: seq<nat>): (r: seq<real>)
    requires |perm| == |v| && forall k :: 0 <= k < |perm| ==> perm[k] < |v|
    ensures |r| == |v|
  {
    seq(|v|, k requires 0 <= k < |v| == |perm| && perm[k] < |v| => v[perm[k]])
  }

  lemma PositionsListed(key: seq<nat>, perm: seq<nat>)
    requires IsStable(key, perm)
    ensures |perm| == |key| && (forall k :: 0 <= k < |perm| ==> perm[k] < |key|)
    ensures forall i: nat :: i < |key| ==> i in perm
    ensures forall k, l :: 0 <= k < l < |perm| ==> perm[k] != perm[l]
  {
    hide KeyOrder;
    var id := Identity(|key|);
    assert |multiset(perm)| == |perm| && |multiset(id)| == |id|;
    forall k | 0 <= k < |perm| ensures perm[k] < |key| {
      assert perm[k] in multiset(perm);
      assert perm[k] in id;
    }
    forall i: nat | i < |key| ensures i in perm {
      assert id[i] in multiset(id);
      assert i in multiset(perm);
    }
    forall k, l | 0 <= k < l < |perm| ensures perm[k] != perm[l] { ListedOnce(perm, |key|, k, l); }
  }

  lemma {:induction false} IdentityOnce(n: nat, x: nat)
    ensures multiset(Identity(n))[x] <= 1
  {
    if n > 0 {
      IdentityOnce(n - 1, x);
      assert Identity(n) == Identity(n - 1) + [n - 1];
      if x == n - 1 { assert x !in Identity(n - 1); }
    }
  }

  lemma ListedOnce(perm: seq<nat>, n: nat, k: nat, l: nat)
    requires multiset(perm) == multiset(Identity(n)) && k < l < |perm|
    ensures perm[k] != perm[l]
  {
    var a, b := perm[..l], perm[l..];
    assert perm == a + b && a[k] in multiset(a) && b[0] in multiset(b);
    assert multiset(perm) == multiset(a) + multiset(b);
    IdentityOnce(n, perm[k]);
  }

  /** Two lists that agree in internal order agree in the caller's order. */
  lemma RoundTrip(key: seq<nat>, perm: seq<nat>, v: seq<real>, out: seq<real>)
    requires IsStable(key, perm) && |v| == |key| == |out| && |perm| == |key| && forall k :: 0 <= k < |perm| ==> perm[k] < |v|
    requires PermuteIn(out, perm) == PermuteIn(v, perm)
    ensures out == v
  {
    hide IsStable;
    PositionsListed(key, perm);
    forall i | 0 <= i < |v| ensures out[i] == v[i] {
      assert i in perm;
      var k :| 0 <= k < |perm| && perm[k] == i;
      assert PermuteIn(out, perm)[k] == PermuteIn(v, perm)[k];
    }
  }

  /** `permute_obs_out`: the caller's order of a list in internal order, undoing `PermuteIn`. */
  method PermuteOut(v: seq<real>, perm: seq<nat>, ghost key: seq<nat>) returns (out: seq<real>)
    requires IsStable(key, perm) && |perm| == |v| == |key| && forall k :: 0 <= k < |perm| ==> perm[k] < |v|
    ensures |out| == |v| && PermuteIn(out, perm) == v
    ensures forall w :: |w| == |v| && PermuteIn(w, perm) == v ==> out == w
  {
    hide IsStable;
    PositionsListed(key, perm);
    out := seq(|v|, _ => 0.0);
    for k := 0 to |perm|
      invariant |out| == |v| && forall l :: 0 <= l < k ==> out[perm[l]] == v[l]
    {
      out := out[perm[k] := v[k]];
    }
    assert PermuteIn(out, perm) == v;
    forall w | |w| == |v| && PermuteIn(w, perm) == v ensures out == w { RoundTrip(key, perm, w, out); }
  }

  /** The sorting term's own levels come out non-decreasing. */
  lemma SortedLevels(key: seq<nat>, perm: seq<nat>)
    requires IsStable(key, perm)
    ensures |perm| == |key| && forall k, l :: 0 <= k < l < |perm| ==> perm[k] < |key| && perm[l] < |key| && key[perm[k]] <= key[perm[l]]
  {
    PositionsListed(key, perm);
    forall k, l | 0 <= k < l < |perm| ensures key[perm[k]] <= key[perm[l]] { assert KeyOrder(key)(perm[k], perm[l]); }
  }
}
