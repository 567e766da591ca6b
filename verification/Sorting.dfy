/** The library sorts the source calls: a total preorder in, a sorted permutation out. */
module Sorting {
  ghost predicate TotalOrder<T(!new)>(leq: (T, T) -> bool) {
    && (forall x, y :: leq(x, y) || leq(y, x))
    && (forall x, y, z :: leq(x, y) && leq(y, z) ==> leq(x, z))
  }

  ghost predicate SortedBy<T>(s: seq<T>, leq: (T, T) -> bool) {
    forall i, j :: 0 <= i < j < |s| ==> leq(s[i], s[j])
  }

  /** `x` inserted after the last element that precedes it. */
  function Insert<T>(x: T, s: seq<T>, leq: (T, T) -> bool): (r: seq<T>)
    ensures multiset(r) == multiset(s) + multiset{x} && |r| == |s| + 1
  {
    if s == [] then [x]
    else if leq(s[|s| - 1], x) then s + [x]
    else
      assert s == s[..|s| - 1] + [s[|s| - 1]];
      Insert(x, s[..|s| - 1], leq) + [s[|s| - 1]]
  }

  function Sort<T>(s: seq<T>, leq: (T, T) -> bool): (r: seq<T>)
    ensures multiset(r) == multiset(s) && |r| == |s|
  {
    if s == [] then []
    else
      assert s == s[..|s| - 1] + [s[|s| - 1]];
      Insert(s[|s| - 1], Sort(s[..|s| - 1], leq), leq)
  }

  lemma {:induction false} InsertSorted<T(!new)>(x: T, s: seq<T>, leq: (T, T) -> bool)
    requires TotalOrder(leq) && SortedBy(s, leq)
    ensures SortedBy(Insert(x, s, leq), leq)
  {
    if s != [] {
      var p, y := s[..|s| - 1], s[|s| - 1];
      if leq(y, x) {
        forall i | 0 <= i < |s| ensures leq(s[i], x) { assert leq(s[i], y) || i == |s| - 1; }
      } else {
        InsertSorted(x, p, leq);
        var r := Insert(x, p, leq);
        forall i | 0 <= i < |r| ensures leq(r[i], y) {
          assert r[i] in multiset(r);
          if r[i] in p {
            var k :| 0 <= k < |p| && p[k] == r[i];
            assert leq(s[k], s[|s| - 1]);
          }
        }
      }
    }
  }

  lemma {:induction false} SortSorted<T(!new)>(s: seq<T>, leq: (T, T) -> bool)
    requires TotalOrder(leq)
    ensures SortedBy(Sort(s, leq), leq)
  {
    if s != [] {
      SortSorted(s[..|s| - 1], leq);
      InsertSorted(s[|s| - 1], Sort(s[..|s| - 1], leq), leq);
    }
  }

  lemma LastIsLargest<T(!new)>(a: seq<T>, y: T, leq: (T, T) -> bool)
    requires TotalOrder(leq) && SortedBy(a, leq) && a != [] && y in multiset(a)
    ensures leq(y, a[|a| - 1])
  {
    var k :| 0 <= k < |a| && a[k] == y;
  }

  /** Under an antisymmetric order a multiset has only one sorted arrangement. */
  lemma {:induction false} SortedUnique<T(!new)>(a: seq<T>, b: seq<T>, leq: (T, T) -> bool)
    requires TotalOrder(leq) && (forall x, y :: leq(x, y) && leq(y, x) ==> x == y)
    requires SortedBy(a, leq) && SortedBy(b, leq) && multiset(a) == multiset(b)
    ensures a == b
  {
    assert |multiset(a)| == |a| && |multiset(b)| == |b|;
    if a != [] {
      var x := SameLast(a, b, leq);
      SplitLast(a, leq);
      SplitLast(b, leq);
      SortedUnique(a[..|a| - 1], b[..|b| - 1], leq);
    }
  }

  lemma SplitLast<T>(a: seq<T>, leq: (T, T) -> bool)
    requires a != [] && SortedBy(a, leq)
    ensures a == a[..|a| - 1] + [a[|a| - 1]]
    ensures SortedBy(a[..|a| - 1], leq)
    ensures multiset(a[..|a| - 1]) == multiset(a) - multiset{a[|a| - 1]}
  {
    assert a == a[..|a| - 1] + [a[|a| - 1]];
  }

  lemma SameLast<T(!new)>(a: seq<T>, b: seq<T>, leq: (T, T) -> bool) returns (x: T)
    requires TotalOrder(leq) && (forall x, y :: leq(x, y) && leq(y, x) ==> x == y)
    requires SortedBy(a, leq) && SortedBy(b, leq) && multiset(a) == multiset(b) && |a| == |b| > 0
    ensures x == a[|a| - 1] == b[|b| - 1]
  {
    x := a[|a| - 1];
    var y := b[|b| - 1];
    assert x in multiset(a) && y in multiset(b);
    LastIsLargest(a, y, leq);
    LastIsLargest(b, x, leq);
  }

  function NatLeq(): (nat, nat) -> bool { (x: nat, y: nat) => x <= y }

  /** `sort_unstable` on indices. */
  function SortNats(s: seq<nat>): (r: seq<nat>) { Sort(s, NatLeq()) }

  lemma SortNatsSorted(s: seq<nat>)
    ensures forall i, j :: 0 <= i < j < |SortNats(s)| ==> SortNats(s)[i] <= SortNats(s)[j]
    ensures forall x :: x in SortNats(s) <==> x in s
  {
    var r := SortNats(s);
    SortSorted(s, NatLeq());
    assert forall i, j :: 0 <= i < j < |r| ==> NatLeq()(r[i], r[j]);
    forall x ensures x in r <==> x in s {
      assert x in multiset(r) <==> x in multiset(s);
    }
  }
}
