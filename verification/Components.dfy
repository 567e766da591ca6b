/** Connected components of a cross-tabulation's bipartite graph
    (crates/within/src/domain/cross_tab.rs:84-88, 161-205). */
module Components {
  import opened Csr
  import opened CrossTabs
  import opened Buckets
  import opened Sorting
  import opened FoldingSigns

  /** An edge leads from `i` to `j`. */
  ghost predicate Linked(g: seq<Row>, i: nat, j: nat) {
    i < |g| && exists t :: 0 <= t < |g[i]| && g[i][t].0 == j
  }

  ghost predicate ReachIn(g: seq<Row>, i: nat, j: nat, k: nat)
    decreases k
  {
    if k == 0 then i == j else exists m: nat :: Linked(g, i, m) && ReachIn(g, m, j, k - 1)
  }

  /** A path joins `i` and `j`. */
  ghost predicate Reach(g: seq<Row>, i: nat, j: nat) { exists k: nat :: ReachIn(g, i, j, k) }

  lemma {:induction false} ReachInTrans(g: seq<Row>, i: nat, j: nat, l: nat, a: nat, b: nat)
    requires ReachIn(g, i, j, a) && ReachIn(g, j, l, b)
    ensures ReachIn(g, i, l, a + b)
    decreases a
  {
    if a > 0 {
      var m: nat :| Linked(g, i, m) && ReachIn(g, m, j, a - 1);
      ReachInTrans(g, m, j, l, a - 1, b);
      assert a + b - 1 == (a - 1) + b;
    }
  }

  lemma LinkedSymmetric(g: seq<Row>, i: nat, j: nat)
    requires Undirected(g) && Linked(g, i, j)
    ensures Linked(g, j, i)
  {
    var t :| 0 <= t < |g[i]| && g[i][t].0 == j;
    var v := g[i][t].1;
    assert (j, v) in g[i];
    assert (i, v) in g[j];
    var u :| 0 <= u < |g[j]| && g[j][u] == (i, v);
  }

  lemma OneStep(g: seq<Row>, i: nat, j: nat)
    requires Linked(g, i, j)
    ensures ReachIn(g, i, j, 1)
  {
    assert ReachIn(g, j, j, 0);
  }

  lemma {:induction false} ReachInSymmetric(g: seq<Row>, i: nat, j: nat, k: nat)
    requires Undirected(g) && ReachIn(g, i, j, k)
    ensures ReachIn(g, j, i, k)
    decreases k
  {
    if k > 0 {
      var m: nat :| Linked(g, i, m) && ReachIn(g, m, j, k - 1);
      ReachInSymmetric(g, m, j, k - 1);
      LinkedSymmetric(g, i, m);
      OneStep(g, m, i);
      ReachInTrans(g, j, m, i, k - 1, 1);
    }
  }

  lemma ReachSelf(g: seq<Row>, i: nat)
    ensures Reach(g, i, i)
  {
    assert ReachIn(g, i, i, 0);
  }

  lemma ReachExtends(g: seq<Row>, i: nat, j: nat, l: nat)
    requires Reach(g, i, j) && Linked(g, j, l)
    ensures Reach(g, i, l)
  {
    var k: nat :| ReachIn(g, i, j, k);
    OneStep(g, j, l);
    ReachInTrans(g, i, j, l, k, 1);
  }

  /** Two nodes reached from the same root reach each other. */
  lemma ReachViaRoot(g: seq<Row>, root: nat, i: nat, j: nat)
    requires Undirected(g) && Reach(g, root, i) && Reach(g, root, j)
    ensures Reach(g, i, j)
  {
    var a: nat :| ReachIn(g, root, i, a);
    var b: nat :| ReachIn(g, root, j, b);
    ReachInSymmetric(g, root, i, a);
    ReachInTrans(g, i, root, j, a, b);
  }

  /** Paths never leave a closed set. */
  lemma {:induction false} ReachStays(g: seq<Row>, closed: set<nat>, i: nat, j: nat, k: nat)
    requires Undirected(g) && Closed(g, closed) && i in closed && ReachIn(g, i, j, k)
    ensures j in closed
    decreases k
  {
    if k > 0 {
      var m: nat :| Linked(g, i, m) && ReachIn(g, m, j, k - 1);
      var t :| 0 <= t < |g[i]| && g[i][t].0 == m;
      assert ClosedAt(g, closed, i);
      ReachStays(g, closed, m, j, k - 1);
    }
  }

  // ---- The search --------------------------------------------------------------------------

  /** Nodes of the current tree: reached from the root, scanned once off the stack. */
  ghost predicate Exploring(g: seq<Row>, visited: seq<bool>, closed: set<nat>, tree: set<nat>, root: nat) {
    && Undirected(g) && |visited| == |g| && root in tree && closed !! tree && Closed(g, closed)
    && (forall i: nat :: i < |g| ==> (visited[i] <==> i in closed + tree))
    && (forall i: nat :: i in tree ==> i < |g| && Reach(g, root, i))
  }

  function Occurs(s: seq<nat>, i: nat): nat { multiset(s)[i] }

  lemma OccursPush(s: seq<nat>, x: nat, i: nat)
    ensures Occurs(s + [x], i) == Occurs(s, i) + if x == i then 1 else 0
  {
  }

  lemma OccursLast(s: seq<nat>, i: nat)
    requires s != []
    ensures Occurs(s, i) == Occurs(s[..|s| - 1], i) + if s[|s| - 1] == i then 1 else 0
  {
    OccursPush(s[..|s| - 1], s[|s| - 1], i);
    assert s == s[..|s| - 1] + [s[|s| - 1]];
  }

  lemma OccursNone(i: nat)
    ensures Occurs([], i) == 0
  {
  }

  lemma OccursTwice(s: seq<nat>, i: nat, j: nat)
    requires i < j < |s| && s[i] == s[j]
    ensures Occurs(s, s[i]) >= 2
  {
    var a, b := s[..j], s[j..];
    assert s == a + b && a[i] in multiset(a) && b[0] in multiset(b);
    assert multiset(s) == multiset(a) + multiset(b);
  }

  /** Each tree node waits on the stack once, is being scanned, or has been taken and scanned. */
  ghost predicate Split(g: seq<Row>, tree: set<nat>, stack: seq<nat>, taken: seq<nat>, busy: set<nat>)
    requires Undirected(g)
  {
    && (forall i: nat :: i in tree <==> Occurs(stack, i) + Occurs(taken, i) == 1)
    && (forall i: nat :: Occurs(stack, i) + Occurs(taken, i) <= 1)
    && (forall i: nat :: i in taken && i !in busy ==> i < |g| && ClosedAt(g, tree, i))
  }

  lemma PushNeighbor(g: seq<Row>, visited: seq<bool>, closed: set<nat>, tree: set<nat>, root: nat, stack: seq<nat>, taken: seq<nat>, i: nat, t: nat)
    requires Exploring(g, visited, closed, tree, root) && Split(g, tree, stack, taken, {i})
    requires i in tree && t < |g[i]| && g[i][t].0 < |visited| && !visited[g[i][t].0]
    ensures var j := g[i][t].0;
      && j !in tree && Exploring(g, visited[j := true], closed, tree + {j}, root)
      && Split(g, tree + {j}, stack + [j], taken, {i})
  {
    hide Reach;
    var j := g[i][t].0;
    NeighborNotClosed(g, closed, i, t);
    assert Linked(g, i, j);
    ReachExtends(g, root, i, j);
    assert multiset(stack + [j]) == multiset(stack) + multiset{j};
    forall k: nat | k in taken && k !in {i} ensures k < |g| && ClosedAt(g, tree + {j}, k) {
      assert ClosedAt(g, tree, k);
    }
  }

  /** All neighbours of one node enter the tree. */
  method VisitNeighbors(g: seq<Row>, visited: seq<bool>, stack: seq<nat>, i: nat,
                        ghost closed: set<nat>, ghost tree: set<nat>, ghost root: nat, ghost taken: seq<nat>)
    returns (visited': seq<bool>, stack': seq<nat>, ghost tree': set<nat>)
    requires Exploring(g, visited, closed, tree, root) && Split(g, tree, stack, taken, {i}) && i in tree
    ensures Exploring(g, visited', closed, tree', root) && Split(g, tree', stack', taken, {})
    ensures tree <= tree' && (tree' == tree ==> stack' == stack)
  {
    hide Reach;
    hide Undirected;
    visited', stack', tree' := visited, stack, tree;
    for t := 0 to |g[i]|
      invariant Exploring(g, visited', closed, tree', root) && Split(g, tree', stack', taken, {i})
      invariant tree <= tree' && (tree' == tree ==> stack' == stack)
      invariant forall u :: 0 <= u < t ==> g[i][u].0 in tree'
    {
      var j := g[i][t].0;
      NeighborBound(g, i, t);
      if !visited'[j] {
        PushNeighbor(g, visited', closed, tree', root, stack', taken, i, t);
        visited' := visited'[j := true];
        stack' := stack' + [j];
        tree' := tree' + {j};
      } else {
        NeighborNotClosed(g, closed, i, t);
      }
    }
    assert ClosedAt(g, tree', i);
  }

  lemma NeighborBound(g: seq<Row>, i: nat, t: nat)
    requires Undirected(g) && i < |g| && t < |g[i]|
    ensures g[i][t].0 < |g|
  {
  }

  datatype BipartiteComponent = BipartiteComponent(rows: seq<nat>, cols: seq<nat>) {
    /** Node ids are rows first, then columns. */
    predicate Has(nRows: nat, i: nat) { if i < nRows then i in rows else i - nRows in cols }
  }

  ghost predicate Ascends(s: seq<nat>) { forall i, j :: 0 <= i < j < |s| ==> s[i] < s[j] }

  /** The row nodes of a list, or its column nodes renumbered. */
  function RowNodes(taken: seq<nat>, nRows: nat): seq<nat> {
    if taken == [] then []
    else
      var (p, i) := (RowNodes(taken[..|taken| - 1], nRows), taken[|taken| - 1]);
      if i < nRows then p + [i] else p
  }

  function ColNodes(taken: seq<nat>, nRows: nat): seq<nat> {
    if taken == [] then []
    else
      var (p, i) := (ColNodes(taken[..|taken| - 1], nRows), taken[|taken| - 1]);
      if i < nRows then p else p + [i - nRows]
  }

  lemma {:induction false} NodeCounts(taken: seq<nat>, nRows: nat, i: nat)
    ensures i < nRows ==> Occurs(RowNodes(taken, nRows), i) == Occurs(taken, i)
    ensures Occurs(ColNodes(taken, nRows), i) == Occurs(taken, nRows + i)
    ensures i >= nRows ==> Occurs(RowNodes(taken, nRows), i) == 0
  {
    hide Occurs;
    if taken == [] {
      OccursNone(i);
      OccursNone(nRows + i);
    } else {
      var p, x := taken[..|taken| - 1], taken[|taken| - 1];
      NodeCounts(p, nRows, i);
      OccursLast(taken, i);
      OccursLast(taken, nRows + i);
      if x < nRows { OccursPush(RowNodes(p, nRows), x, i); } else { OccursPush(ColNodes(p, nRows), x - nRows, i); }
    }
  }

  lemma SortKeeps(s: seq<nat>)
    ensures forall i: nat :: Occurs(SortNats(s), i) == Occurs(s, i)
  {
    hide Sort;
  }

  /** Sorting a list without repetitions makes it strictly ascend. */
  lemma SortedDistinct(s: seq<nat>)
    requires forall i: nat :: Occurs(s, i) <= 1
    ensures Ascends(SortNats(s))
  {
    hide Occurs;
    var r := SortNats(s);
    SortNatsSorted(s);
    SortKeeps(s);
    forall i, j | 0 <= i < j < |r| ensures r[i] < r[j] {
      if r[i] == r[j] { OccursTwice(r, i, j); }
    }
  }

  /** `comp` holds exactly the nodes of `tree`, in ascending order. */
  ghost predicate Lists(comp: BipartiteComponent, nRows: nat, tree: set<nat>) {
    Ascends(comp.rows) && Ascends(comp.cols) && (forall r :: r in comp.rows ==> r < nRows) && forall i: nat :: comp.Has(nRows, i) <==> i in tree
  }

  lemma SortedComponent(g: seq<Row>, tree: set<nat>, taken: seq<nat>, nRows: nat)
    requires Undirected(g) && Split(g, tree, [], taken, {})
    ensures Lists(BipartiteComponent(SortNats(RowNodes(taken, nRows)), SortNats(ColNodes(taken, nRows))), nRows, tree)
  {
    hide SortNats;
    hide RowNodes;
    hide ColNodes;
    var rows, cols := RowNodes(taken, nRows), ColNodes(taken, nRows);
    forall i: nat ensures Occurs(rows, i) <= 1 && Occurs(cols, i) <= 1 { NodeCounts(taken, nRows, i); }
    SortedDistinct(rows);
    SortedDistinct(cols);
    SortNatsSorted(rows);
    SortNatsSorted(cols);
    var comp := BipartiteComponent(SortNats(rows), SortNats(cols));
    forall i: nat ensures comp.Has(nRows, i) <==> i in tree {
      NodeCounts(taken, nRows, if i < nRows then i else i - nRows);
      if i < nRows { InMultiset(rows, i); } else { InMultiset(cols, i - nRows); }
    }
    forall r | r in comp.rows ensures r < nRows {
      NodeCounts(taken, nRows, r);
      InMultiset(rows, r);
    }
  }

  lemma InMultiset(s: seq<nat>, i: nat)
    ensures i in s <==> Occurs(s, i) > 0
  {
    assert i in s <==> i in multiset(s);
  }

  lemma TakeTop(g: seq<Row>, tree: set<nat>, stack: seq<nat>, taken: seq<nat>)
    requires Undirected(g) && stack != [] && Split(g, tree, stack, taken, {})
    ensures var i := stack[|stack| - 1]; i in tree && Split(g, tree, stack[..|stack| - 1], taken + [i], {i})
  {
    hide Occurs;
    hide ClosedAt;
    var i, rest := stack[|stack| - 1], stack[..|stack| - 1];
    InMultiset(stack, i);
    forall k: nat ensures Occurs(rest, k) + Occurs(taken + [i], k) == Occurs(stack, k) + Occurs(taken, k) {
      OccursLast(stack, k);
      OccursPush(taken, i, k);
    }
    forall k: nat | k in taken + [i] && k !in {i} ensures k < |g| && ClosedAt(g, tree, k) { assert k in taken; }
  }

  lemma Rooted(g: seq<Row>, root: nat)
    requires Undirected(g)
    ensures Split(g, {root}, [root], [], {})
  {
    assert multiset([root]) == multiset{root};
  }

  /** A component is a reachability class: its nodes are exactly those any of them reaches. */
  ghost predicate IsClass(g: seq<Row>, comp: BipartiteComponent, nRows: nat) {
    && (exists i: nat :: i < |g| && comp.Has(nRows, i))
    && (forall i: nat :: comp.Has(nRows, i) ==> i < |g|)
    && (forall i: nat, j: nat :: comp.Has(nRows, i) ==> (comp.Has(nRows, j) <==> Reach(g, i, j)))
  }

  lemma ExploredClass(g: seq<Row>, visited: seq<bool>, closed: set<nat>, tree: set<nat>, root: nat, comp: BipartiteComponent, nRows: nat)
    requires Exploring(g, visited, closed, tree, root) && Closed(g, tree) && Lists(comp, nRows, tree)
    ensures IsClass(g, comp, nRows) && comp.Has(nRows, root)
  {
    hide Undirected;
    assert comp.Has(nRows, root);
    forall i: nat, j: nat | comp.Has(nRows, i) ensures comp.Has(nRows, j) <==> Reach(g, i, j) {
      if comp.Has(nRows, j) {
        ReachViaRoot(g, root, i, j);
      }
      if Reach(g, i, j) {
        var k: nat :| ReachIn(g, i, j, k);
        ReachStays(g, tree, i, j, k);
      }
    }
  }

  /** One component: everything reached from an unvisited root. */
  method Explore(g: seq<Row>, visited: seq<bool>, root: nat, nRows: nat, ghost closed: set<nat>)
    returns (visited': seq<bool>, comp: BipartiteComponent, ghost tree: set<nat>)
    requires Undirected(g) && |visited| == |g| && root < |g| && !visited[root] && Closed(g, closed)
    requires forall i: nat :: i < |g| ==> (visited[i] <==> i in closed)
    ensures Exploring(g, visited', closed, tree, root) && Closed(g, tree) && Lists(comp, nRows, tree)
    ensures IsClass(g, comp, nRows) && comp.Has(nRows, root)
  {
    hide Reach;
    hide Undirected;
    hide Split;
    hide Lists;
    hide SortNats;
    hide IsClass;
    hide BipartiteComponent.Has;
    ReachSelf(g, root);
    Rooted(g, root);
    visited', tree := visited[root := true], {root};
    var stack: seq<nat> := [root];
    var rows: seq<nat>, cols: seq<nat> := [], [];
    ghost var taken: seq<nat> := [];
    while stack != []
      invariant Exploring(g, visited', closed, tree, root) && Split(g, tree, stack, taken, {})
      invariant rows == RowNodes(taken, nRows) && cols == ColNodes(taken, nRows)
      decreases |g| - |tree|, |stack|
    {
      var i: nat, rest: seq<nat> := stack[|stack| - 1], stack[..|stack| - 1];
      TakeTop(g, tree, stack, taken);
      ghost var all: seq<nat> := taken + [i];
      assert all[..|all| - 1] == taken;
      if i < nRows { rows := rows + [i]; } else { cols := cols + [i - nRows]; }
      ghost var before := tree;
      visited', stack, tree := VisitNeighbors(g, visited', rest, i, closed, tree, root, all);
      taken := all;
      WiderTree(g, visited', closed, before, tree, root);
    }
    TreeClosed(g, tree, taken);
    SortedComponent(g, tree, taken, nRows);
    comp := BipartiteComponent(SortNats(rows), SortNats(cols));
    ExploredClass(g, visited', closed, tree, root, comp, nRows);
  }

  lemma WiderTree(g: seq<Row>, visited: seq<bool>, closed: set<nat>, before: set<nat>, tree: set<nat>, root: nat)
    requires Exploring(g, visited, closed, tree, root) && before <= tree
    ensures |before| <= |tree| <= |g| && (before != tree ==> |before| < |tree|)
  {
    SubsetSize(before, tree);
    SubsetSize(tree, Range(|g|));
    if |before| == |tree| { SubsetOfSameSize(before, tree); }
  }

  lemma TreeClosed(g: seq<Row>, tree: set<nat>, taken: seq<nat>)
    requires Undirected(g) && Split(g, tree, [], taken, {})
    ensures Closed(g, tree)
  {
    forall i: nat | i in tree ensures i < |g| && ClosedAt(g, tree, i) {
      InMultiset(taken, i);
      InMultiset([], i);
    }
  }

  // ---- All components ----------------------------------------------------------------------

  /** Sorted, disjoint reachability classes that together hold every node. */
  ghost predicate Partition(g: seq<Row>, comps: seq<BipartiteComponent>, nRows: nat) {
    && (forall a :: 0 <= a < |comps| ==> Ascends(comps[a].rows) && Ascends(comps[a].cols))
    && (forall a, r :: 0 <= a < |comps| && r in comps[a].rows ==> r < nRows)
    && (forall a :: 0 <= a < |comps| ==> IsClass(g, comps[a], nRows))
    && (forall a, b, i: nat :: 0 <= a < b < |comps| && comps[a].Has(nRows, i) ==> !comps[b].Has(nRows, i))
    && (forall i: nat :: i < |g| ==> Held(comps, nRows, i))
  }

  ghost predicate Held(comps: seq<BipartiteComponent>, nRows: nat, i: nat) {
    exists a :: 0 <= a < |comps| && comps[a].Has(nRows, i)
  }

  /** The components found so far, covering exactly `closed`. */
  ghost predicate Found(g: seq<Row>, comps: seq<BipartiteComponent>, nRows: nat, closed: set<nat>) {
    && (forall a :: 0 <= a < |comps| ==> Ascends(comps[a].rows) && Ascends(comps[a].cols))
    && (forall a, r :: 0 <= a < |comps| && r in comps[a].rows ==> r < nRows)
    && (forall a :: 0 <= a < |comps| ==> IsClass(g, comps[a], nRows))
    && (forall a, b, i: nat :: 0 <= a < b < |comps| && comps[a].Has(nRows, i) ==> !comps[b].Has(nRows, i))
    && (forall i: nat :: i in closed <==> Held(comps, nRows, i))
  }

  lemma FoundNext(g: seq<Row>, comps: seq<BipartiteComponent>, nRows: nat, closed: set<nat>, tree: set<nat>, comp: BipartiteComponent)
    requires Found(g, comps, nRows, closed) && closed !! tree && Lists(comp, nRows, tree) && IsClass(g, comp, nRows)
    ensures Found(g, comps + [comp], nRows, closed + tree)
  {
    hide IsClass;
    hide BipartiteComponent.Has;
    var all := comps + [comp];
    forall a, b, i: nat | 0 <= a < b < |all| && all[a].Has(nRows, i) ensures !all[b].Has(nRows, i) {
      if b == |comps| { assert Held(comps, nRows, i); }
    }
    forall i: nat ensures i in closed + tree <==> Held(all, nRows, i) {
      if i in closed {
        var a :| 0 <= a < |comps| && comps[a].Has(nRows, i);
        assert all[a].Has(nRows, i);
      }
      if i in tree { assert all[|comps|].Has(nRows, i); }
      if Held(all, nRows, i) {
        var a :| 0 <= a < |all| && all[a].Has(nRows, i);
        if a < |comps| { assert Held(comps, nRows, i); }
      }
    }
  }

  lemma ClosedUnion(g: seq<Row>, closed: set<nat>, tree: set<nat>)
    requires Undirected(g) && Closed(g, closed) && Closed(g, tree)
    ensures Closed(g, closed + tree)
  {
    forall i: nat | i in closed + tree ensures i < |g| && ClosedAt(g, closed + tree, i) {
      if i in closed { assert ClosedAt(g, closed, i); } else { assert ClosedAt(g, tree, i); }
    }
  }

  /** `bipartite_connected_components`, on the graph. */
  method GraphComponents(g: seq<Row>, nRows: nat) returns (comps: seq<BipartiteComponent>)
    requires Undirected(g)
    ensures Partition(g, comps, nRows)
  {
    hide Undirected;
    hide IsClass;
    hide Lists;
    hide Reach;
    hide Closed;
    hide BipartiteComponent.Has;
    var visited := seq(|g|, _ => false);
    comps := [];
    ghost var closed: set<nat> := {};
    NothingClosed(g);
    for start := 0 to |g|
      invariant |visited| == |g| && Closed(g, closed) && Found(g, comps, nRows, closed)
      invariant forall i: nat :: i < |g| ==> (visited[i] <==> i in closed)
      invariant forall i: nat :: i < start ==> i in closed
    {
      if visited[start] {
        continue;
      }
      var comp;
      ghost var tree;
      visited, comp, tree := Explore(g, visited, start, nRows, closed);
      FoundNext(g, comps, nRows, closed, tree, comp);
      ClosedUnion(g, closed, tree);
      comps := comps + [comp];
      closed := closed + tree;
    }
  }

  lemma NothingClosed(g: seq<Row>)
    requires Undirected(g)
    ensures Closed(g, {})
  {
  }

  /** `bipartite_connected_components` */
  method BipartiteConnectedComponents(x: CrossTab) returns (comps: seq<BipartiteComponent>)
    requires x.Valid()
    ensures Partition(x.Graph(), comps, x.NRows())
  {
    GraphUndirected(x);
    comps := GraphComponents(x.Graph(), x.NRows());
  }
}
