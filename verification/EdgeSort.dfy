/** Sorting and merging fill edges (crates/within/src/block_elim/schur.rs:272-273, 370-427). */
module EdgeSort {
  import opened Sums
  import opened Buckets
  import opened Sorting

  /** An undirected fill edge, `lo < hi`. */
  datatype Edge = Edge(lo: nat, hi: nat, w: real)

  /** By `hi`, then by weight. */
  predicate HiWeightLe(a: Edge, b: Edge) { a.hi < b.hi || (a.hi == b.hi && a.w <= b.w) }

  /** The total order `(lo, hi, weight)`. */
  predicate EdgeLe(a: Edge, b: Edge) { a.lo < b.lo || (a.lo == b.lo && HiWeightLe(a, b)) }

  function HiWeightLeq(): (Edge, Edge) -> bool { (a: Edge, b: Edge) => HiWeightLe(a, b) }

  function EdgeLeq(): (Edge, Edge) -> bool { (a: Edge, b: Edge) => EdgeLe(a, b) }

  lemma EdgeOrder()
    ensures TotalOrder(EdgeLeq()) && TotalOrder(HiWeightLeq())
    ensures forall x, y :: EdgeLeq()(x, y) && EdgeLeq()(y, x) ==> x == y
  {
    var e, h := EdgeLeq(), HiWeightLeq();
    forall x, y ensures (e(x, y) || e(y, x)) && (h(x, y) || h(y, x)) {}
    forall x, y, z ensures (e(x, y) && e(y, z) ==> e(x, z)) && (h(x, y) && h(y, z) ==> h(x, z)) {}
  }

  /** Equal multisets sort alike: the result does not depend on the order of arrival. */
  lemma SortByMultiset(a: seq<Edge>, b: seq<Edge>)
    requires multiset(a) == multiset(b)
    ensures Sort(a, EdgeLeq()) == Sort(b, EdgeLeq())
  {
    hide EdgeLeq;
    hide Sort;
    EdgeOrder();
    SortSorted(a, EdgeLeq());
    SortSorted(b, EdgeLeq());
    SortedUnique(Sort(a, EdgeLeq()), Sort(b, EdgeLeq()), EdgeLeq());
  }

  // ---- The counting sort -------------------------------------------------------------------

  function Los(edges: seq<Edge>): (k: seq<nat>)
    ensures |k| == |edges|
  {
    seq(|edges|, i requires 0 <= i < |edges| => edges[i].lo)
  }

  ghost predicate PlacedUpTo(edges: seq<Edge>, keys: seq<nat>, out: seq<Edge>, cursors: seq<nat>, n: nat) {
    && |keys| == |edges| == |out| && n <= |edges|
    && (forall k :: 0 <= k < |cursors| ==> cursors[k] == Less(keys, k, |keys|) + Count(keys, k, n))
    && (forall p {:trigger Slot(keys, p)} :: 0 <= p < n ==> Slot(keys, p) < |out| && out[Slot(keys, p)] == edges[p])
  }

  lemma PlaceEdge(edges: seq<Edge>, keys: seq<nat>, out: seq<Edge>, cursors: seq<nat>, n: nat)
    requires PlacedUpTo(edges, keys, out, cursors, n) && n < |edges| && keys[n] < |cursors|
    ensures cursors[keys[n]] == Slot(keys, n) < |out|
    ensures PlacedUpTo(edges, keys, out[Slot(keys, n) := edges[n]], cursors[keys[n] := cursors[keys[n]] + 1], n + 1)
  {
    SlotInBucket(keys, n);
    var out' := out[Slot(keys, n) := edges[n]];
    forall p {:trigger Slot(keys, p)} | 0 <= p < n + 1 ensures Slot(keys, p) < |out'| && out'[Slot(keys, p)] == edges[p] {
      if p < n { SlotInjective(keys, p, n); }
    }
  }

  lemma PlacedSorted(edges: seq<Edge>, out: seq<Edge>, cursors: seq<nat>)
    requires PlacedUpTo(edges, Los(edges), out, cursors, |edges|)
    ensures multiset(out) == multiset(edges) && forall i, j :: 0 <= i < j < |out| ==> out[i].lo <= out[j].lo
  {
    hide Less;
    hide Count;
    hide Slot;
    var keys := Los(edges);
    var f := seq(|edges|, p requires 0 <= p < |edges| => Slot(keys, p));
    forall i, j | 0 <= i < j < |f| ensures f[i] != f[j] { SlotInjective(keys, i, j); }
    PlacementPermutes(edges, out, f);
    forall i, j | 0 <= i < j < |out| ensures out[i].lo <= out[j].lo {
      var p := SlotOnto(keys, i);
      var q := SlotOnto(keys, j);
      assert out[i] == edges[p] && out[j] == edges[q];
      if keys[q] < keys[p] { SlotOrder(keys, q, p); }
    }
  }

  /** `counting_sort_by_lo` */
  method CountingSortByLo(edges: seq<Edge>, n: nat) returns (out: seq<Edge>)
    requires forall i :: 0 <= i < |edges| ==> edges[i].lo < n
    ensures multiset(out) == multiset(edges) && |out| == |edges|
    ensures forall i, j :: 0 <= i < j < |out| ==> out[i].lo <= out[j].lo
  {
    hide Less;
    hide Count;
    hide Slot;
    var keys := Los(edges);
    var starts := BucketStarts(keys, n);
    var cursors := starts[..n];
    out := seq(|edges|, _ => Edge(0, 0, 0.0));
    NothingPlaced(edges, keys, out, cursors);
    for i := 0 to |edges|
      invariant |cursors| == n && PlacedUpTo(edges, keys, out, cursors, i)
    {
      PlaceEdge(edges, keys, out, cursors, i);
      out := out[cursors[keys[i]] := edges[i]];
      cursors := cursors[keys[i] := cursors[keys[i]] + 1];
    }
    PlacedSorted(edges, out, cursors);
  }

  lemma NothingPlaced(edges: seq<Edge>, keys: seq<nat>, out: seq<Edge>, cursors: seq<nat>)
    requires |keys| == |edges| == |out| && forall k :: 0 <= k < |cursors| ==> cursors[k] == Less(keys, k, |keys|)
    ensures PlacedUpTo(edges, keys, out, cursors, 0)
  {
  }

  /** `par_chunk_by_mut` on equal `lo`, each run sorted by `(hi, weight)`. */
  method SortRuns(edges: seq<Edge>) returns (out: seq<Edge>)
    requires forall i, j :: 0 <= i < j < |edges| ==> edges[i].lo <= edges[j].lo
    ensures multiset(out) == multiset(edges) && SortedBy(out, EdgeLeq())
  {
    hide EdgeLeq;
    hide HiWeightLeq;
    hide Sort;
    out := [];
    var i := 0;
    while i < |edges|
      invariant i <= |edges| && multiset(out) == multiset(edges[..i]) && SortedBy(out, EdgeLeq())
      invariant i < |edges| ==> forall k :: 0 <= k < |out| ==> out[k].lo < edges[i].lo
      decreases |edges| - i
    {
      var j := i + 1;
      while j < |edges| && edges[j].lo == edges[i].lo
        invariant i < j <= |edges| && forall k :: i <= k < j ==> edges[k].lo == edges[i].lo
      {
        j := j + 1;
      }
      var run := edges[i..j];
      RunSorted(out, run, edges[i].lo);
      assert edges[..j] == edges[..i] + run;
      out := out + Sort(run, HiWeightLeq());
      i := j;
    }
    assert edges[..i] == edges;
  }

  lemma RunSorted(out: seq<Edge>, run: seq<Edge>, lo: nat)
    requires SortedBy(out, EdgeLeq()) && (forall k :: 0 <= k < |out| ==> out[k].lo < lo)
    requires forall k :: 0 <= k < |run| ==> run[k].lo == lo
    ensures SortedBy(out + Sort(run, HiWeightLeq()), EdgeLeq())
    ensures forall k :: 0 <= k < |out + Sort(run, HiWeightLeq())| ==> (out + Sort(run, HiWeightLeq()))[k].lo <= lo
  {
    hide Sort;
    EdgeOrder();
    SortSorted(run, HiWeightLeq());
    var s := Sort(run, HiWeightLeq());
    forall k | 0 <= k < |s| ensures s[k].lo == lo {
      assert s[k] in multiset(s);
      assert s[k] in run;
    }
    var all := out + s;
    forall i, j | 0 <= i < j < |all| ensures EdgeLeq()(all[i], all[j]) {
      if j < |out| {
        assert EdgeLeq()(out[i], out[j]);
      } else if i >= |out| {
        assert HiWeightLeq()(s[i - |out|], s[j - |out|]);
      }
    }
  }

  // ---- Merging -----------------------------------------------------------------------------

  predicate SamePair(a: Edge, b: Edge) { a.lo == b.lo && a.hi == b.hi }

  /** Appending an edge, or adding its weight to the last one of the same pair. */
  function PushEdge(r: seq<Edge>, e: Edge): (s: seq<Edge>) {
    if r != [] && SamePair(r[|r| - 1], e) then r[|r| - 1 := Edge(e.lo, e.hi, r[|r| - 1].w + e.w)] else r + [e]
  }

  function Merged(s: seq<Edge>): seq<Edge> {
    if s == [] then [] else PushEdge(Merged(s[..|s| - 1]), s[|s| - 1])
  }

  /** Total weight of the pair. */
  ghost function PairWeight(s: seq<Edge>, lo: nat, hi: nat): real {
    if s == [] then 0.0
    else PairWeight(s[..|s| - 1], lo, hi) + if s[|s| - 1].lo == lo && s[|s| - 1].hi == hi then s[|s| - 1].w else 0.0
  }

  predicate PairLess(a: Edge, b: Edge) { a.lo < b.lo || (a.lo == b.lo && a.hi < b.hi) }

  ghost predicate PairsAscend(s: seq<Edge>) {
    forall i, j :: 0 <= i < j < |s| ==> PairLess(s[i], s[j])
  }

  lemma PairWeightPush(s: seq<Edge>, e: Edge, lo: nat, hi: nat)
    ensures PairWeight(s + [e], lo, hi) == PairWeight(s, lo, hi) + if e.lo == lo && e.hi == hi then e.w else 0.0
  {
    assert (s + [e])[..|s|] == s;
  }

  lemma PushEdgeWeight(r: seq<Edge>, e: Edge, lo: nat, hi: nat)
    ensures PairWeight(PushEdge(r, e), lo, hi) == PairWeight(r, lo, hi) + if e.lo == lo && e.hi == hi then e.w else 0.0
  {
    hide PairWeight;
    if r != [] && SamePair(r[|r| - 1], e) {
      var k := |r| - 1;
      var last := Edge(e.lo, e.hi, r[k].w + e.w);
      assert r == r[..k] + [r[k]] && PushEdge(r, e) == r[..k] + [last];
      PairWeightPush(r[..k], r[k], lo, hi);
      PairWeightPush(r[..k], last, lo, hi);
    } else {
      PairWeightPush(r, e, lo, hi);
    }
  }

  /** Merging conserves every pair's weight. */
  lemma {:induction false} MergedWeight(s: seq<Edge>, lo: nat, hi: nat)
    ensures PairWeight(Merged(s), lo, hi) == PairWeight(s, lo, hi)
  {
    hide PushEdge;
    if s != [] {
      var n := |s| - 1;
      MergedWeight(s[..n], lo, hi);
      PushEdgeWeight(Merged(s[..n]), s[n], lo, hi);
    }
  }

  /** `e` comes no earlier than the last edge of `r`. */
  ghost predicate Follows(r: seq<Edge>, e: Edge) {
    r != [] ==> PairLess(r[|r| - 1], e) || SamePair(r[|r| - 1], e)
  }

  lemma PushAscends(r: seq<Edge>, e: Edge)
    requires PairsAscend(r) && Follows(r, e)
    ensures PairsAscend(PushEdge(r, e)) && PushEdge(r, e) != [] && SamePair(PushEdge(r, e)[|PushEdge(r, e)| - 1], e)
  {
    var t := PushEdge(r, e);
    forall i, j | 0 <= i < j < |t| ensures PairLess(t[i], t[j]) {
      if j < |r| { assert PairLess(r[i], r[j]); } else if i < |r| - 1 { assert PairLess(r[i], r[|r| - 1]); }
    }
  }

  /** Merging a sorted list leaves strictly ascending pairs, the last one being the last. */
  lemma {:induction false} MergedAscends(s: seq<Edge>)
    requires SortedBy(s, EdgeLeq())
    ensures PairsAscend(Merged(s)) && (s != [] ==> Merged(s) != [] && SamePair(Merged(s)[|Merged(s)| - 1], s[|s| - 1]))
  {
    hide PushEdge;
    hide PairsAscend;
    if s == [] {
      NoPairs();
    } else {
      var n := |s| - 1;
      MergedAscends(s[..n]);
      if n > 0 { assert EdgeLeq()(s[n - 1], s[n]); }
      PushAscends(Merged(s[..n]), s[n]);
    }
  }

  lemma NoPairs()
    ensures PairsAscend([])
  {
  }

  ghost predicate EdgesWithin(s: seq<Edge>, n: nat) {
    forall i :: 0 <= i < |s| ==> s[i].lo < s[i].hi < n
  }

  lemma {:induction false} MergedWithin(s: seq<Edge>, n: nat)
    requires EdgesWithin(s, n)
    ensures EdgesWithin(Merged(s), n)
  {
    if s != [] {
      MergedWithin(s[..|s| - 1], n);
      assert s[|s| - 1].lo < s[|s| - 1].hi < n;
    }
  }

  lemma MergedStep(s: seq<Edge>, k: nat)
    requires k < |s|
    ensures Merged(s[..k + 1]) == PushEdge(Merged(s[..k]), s[k])
  {
    assert s[..k + 1][..k] == s[..k];
  }

  /** Writing at or past the last kept edge is `PushEdge` on what is kept. */
  lemma WritePushes(r: seq<Edge>, write: nat, e: Edge)
    requires write + 1 < |r|
    ensures SamePair(r[write], e) ==> r[write := Edge(r[write].lo, r[write].hi, r[write].w + e.w)][..write + 1] == PushEdge(r[..write + 1], e)
    ensures !SamePair(r[write], e) ==> r[write + 1 := e][..write + 2] == PushEdge(r[..write + 1], e)
  {
  }

  /** The in-place dedup with read and write indices. */
  method Dedup(sorted: seq<Edge>) returns (r: seq<Edge>)
    requires |sorted| > 0
    ensures r == Merged(sorted)
  {
    hide PushEdge;
    hide Merged;
    r := sorted;
    var write := 0;
    assert sorted[..1] == [sorted[0]];
    MergedOne(sorted[0]);
    for read := 1 to |sorted|
      invariant write < read && |r| == |sorted|
      invariant r[..write + 1] == Merged(sorted[..read]) && r[read..] == sorted[read..]
    {
      MergedStep(sorted, read);
      assert r[read] == r[read..][0] == sorted[read];
      WritePushes(r, write, r[read]);
      ghost var rest := r[read + 1..];
      assert rest == r[read..][1..] == sorted[read + 1..];
      if SamePair(r[write], r[read]) {
        r := r[write := Edge(r[write].lo, r[write].hi, r[write].w + r[read].w)];
      } else {
        write := write + 1;
        r := r[write := r[read]];
      }
      assert r[read + 1..] == rest;
    }
    assert sorted[..|sorted|] == sorted;
    r := r[..write + 1];
  }

  /** `sort_and_dedup`: both branches give the merge of the one sorted arrangement. */
  method SortAndDedup(edges: seq<Edge>, nKept: nat) returns (r: seq<Edge>)
    requires forall i :: 0 <= i < |edges| ==> edges[i].lo < nKept
    ensures r == Merged(Sort(edges, EdgeLeq()))
  {
    hide EdgeLeq;
    if |edges| <= 1 {
      SingleMerged(edges);
      return edges;
    }
    var sorted;
    if |edges| >= nKept {
      var byLo := CountingSortByLo(edges, nKept);
      sorted := SortRuns(byLo);
      EdgeOrder();
      SortSorted(edges, EdgeLeq());
      SortedUnique(sorted, Sort(edges, EdgeLeq()), EdgeLeq());
    } else {
      sorted := Sort(edges, EdgeLeq());
    }
    r := Dedup(sorted);
  }

  lemma SingleMerged(edges: seq<Edge>)
    requires |edges| <= 1
    ensures Merged(Sort(edges, EdgeLeq())) == edges
  {
    if |edges| == 1 {
      var e, leq := edges[0], EdgeLeq();
      assert edges[..0] == [] && edges == [e];
      assert Sort(edges[..0], leq) == [];
      assert Insert(e, [], leq) == [e];
      assert Sort(edges, leq) == [e];
      MergedOne(e);
    }
  }

  lemma MergedOne(e: Edge)
    ensures Merged([e]) == [e]
  {
    assert [e][..0] == [];
    assert Merged([]) == [];
  }

  lemma {:induction false} PairWeightByMultiset(a: seq<Edge>, b: seq<Edge>, lo: nat, hi: nat)
    requires multiset(a) == multiset(b)
    ensures PairWeight(a, lo, hi) == PairWeight(b, lo, hi)
    decreases |a|
  {
    hide PairWeight;
    if a == [] {
      EmptyMultiset(b);
    } else {
      var n := |a| - 1;
      var k := WithoutLast(a, b);
      PairWeightByMultiset(a[..n], b[..k] + b[k + 1..], lo, hi);
      PairWeightRemove(b, k, lo, hi);
      assert a == a[..n] + [a[n]];
      PairWeightPush(a[..n], a[n], lo, hi);
    }
  }

  lemma EmptyMultiset(b: seq<Edge>)
    requires multiset(b) == multiset{}
    ensures b == []
  {
    assert |multiset(b)| == |b|;
  }

  /** Where `b` holds the last edge of `a`, and what remains without it. */
  lemma WithoutLast(a: seq<Edge>, b: seq<Edge>) returns (k: nat)
    requires a != [] && multiset(a) == multiset(b)
    ensures k < |b| && b[k] == a[|a| - 1] && multiset(a[..|a| - 1]) == multiset(b[..k] + b[k + 1..])
  {
    var n := |a| - 1;
    assert a[n] in multiset(b);
    k :| 0 <= k < |b| && b[k] == a[n];
    assert a == a[..n] + [a[n]];
    assert b == b[..k] + [b[k]] + b[k + 1..];
    assert multiset(a[..n]) == multiset(a) - multiset{a[n]};
    assert multiset(b[..k] + b[k + 1..]) == multiset(b) - multiset{a[n]};
  }

  lemma {:induction false} PairWeightRemove(b: seq<Edge>, k: nat, lo: nat, hi: nat)
    requires k < |b|
    ensures PairWeight(b, lo, hi) == PairWeight(b[..k] + b[k + 1..], lo, hi) + if b[k].lo == lo && b[k].hi == hi then b[k].w else 0.0
    decreases |b|
  {
    var n := |b| - 1;
    if k == n {
      assert b[..k] + b[k + 1..] == b[..n];
    } else {
      PairWeightRemove(b[..n], k, lo, hi);
      assert b[..k] + b[k + 1..] == (b[..n][..k] + b[..n][k + 1..]) + [b[n]];
      PairWeightPush(b[..n][..k] + b[..n][k + 1..], b[n], lo, hi);
    }
  }

  /** What reaches the Laplacian depends only on the multiset of emitted edges: strictly
      ascending pairs, each with its total weight. */
  lemma MergedEdges(edges: seq<Edge>, lo: nat, hi: nat)
    ensures PairsAscend(Merged(Sort(edges, EdgeLeq())))
    ensures PairWeight(Merged(Sort(edges, EdgeLeq())), lo, hi) == PairWeight(edges, lo, hi)
  {
    hide EdgeLeq;
    hide Sort;
    EdgeOrder();
    SortSorted(edges, EdgeLeq());
    MergedAscends(Sort(edges, EdgeLeq()));
    MergedWeight(Sort(edges, EdgeLeq()), lo, hi);
    PairWeightByMultiset(Sort(edges, EdgeLeq()), edges, lo, hi);
  }
}
