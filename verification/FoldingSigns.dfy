/** Sign signatures of a signed graph by depth-first two-colouring
    (crates/within/src/domain/factor_pairs/sddm.rs:355-380). */
module FoldingSigns {
  import opened Wrappers
  import opened Csr
  import opened CrossTabs
  import opened Buckets

  /** `f64::signum`: +1 for positive values and for +0. */
  function Signum(v: real): real { if v < 0.0 then -1.0 else 1.0 }

  predicate IsSign(s: real) { s == 1.0 || s == -1.0 }

  /** The product of a sign with `b`. */
  function Flip(s: real, b: real): real { if s < 0.0 then -b else b }

  /** The sign an edge of weight `v` demands at its far end. */
  function Opposite(s: real, v: real): real { if v < 0.0 then s else -s }

  /** Every edge at `i` finds the sign it demands. */
  ghost predicate Settled(g: seq<Row>, s: seq<real>, i: nat)
    requires Undirected(g) && |s| == |g| && i < |g|
  {
    SettledUpTo(g, s, i, |g[i]|)
  }

  ghost predicate SettledUpTo(g: seq<Row>, s: seq<real>, i: nat, n: nat)
    requires Undirected(g) && |s| == |g| && i < |g| && n <= |g[i]|
  {
    forall t :: 0 <= t < n ==> s[g[i][t].0] == Opposite(s[i], g[i][t].1)
  }

  /** A signature: a sign per node under which every edge finds the sign it demands. */
  ghost predicate Signature(g: seq<Row>, s: seq<real>)
    requires Undirected(g)
  {
    && |s| == |g|
    && (forall i :: 0 <= i < |g| ==> IsSign(s[i]))
    && (forall i :: 0 <= i < |g| ==> Settled(g, s, i))
  }

  /** Exactly the nodes in `done` carry a sign. */
  ghost predicate Assigned(s: seq<real>, done: set<nat>) {
    && (forall i: nat :: i in done ==> i < |s| && IsSign(s[i]))
    && (forall i: nat :: i < |s| && i !in done ==> s[i] == 0.0)
  }

  /** Neighbours of closed nodes are closed. */
  ghost predicate Closed(g: seq<Row>, closed: set<nat>)
    requires Undirected(g)
  {
    forall i: nat :: i in closed ==> i < |g| && ClosedAt(g, closed, i)
  }

  ghost predicate ClosedAt(g: seq<Row>, closed: set<nat>, i: nat)
    requires Undirected(g) && i < |g|
  {
    forall t :: 0 <= t < |g[i]| ==> g[i][t].0 in closed
  }

  /** On the tree grown from `root`, every signature is `s` up to its sign at the root. */
  ghost predicate Forced(g: seq<Row>, s: seq<real>, tree: set<nat>, root: nat)
    requires Undirected(g) && root < |g| && |s| == |g|
  {
    forall sigma :: Signature(g, sigma) ==> Agrees(s, sigma, tree, sigma[root])
  }

  ghost predicate Agrees(s: seq<real>, sigma: seq<real>, tree: set<nat>, at: real) {
    forall i: nat :: i in tree ==> i < |s| && i < |sigma| && sigma[i] == Flip(s[i], at)
  }

  /** What the search maintains at every step: `closed` holds the finished trees, `tree` the
      current one, and all closed nodes are settled. */
  ghost predicate Searching(g: seq<Row>, s: seq<real>, closed: set<nat>, tree: set<nat>, root: nat) {
    && Undirected(g) && |s| == |g| && root < |g|
    && Assigned(s, closed + tree) && closed !! tree && Closed(g, closed) && root in tree
    && (forall i: nat :: i in closed ==> Settled(g, s, i))
    && Forced(g, s, tree, root)
  }

  /** Tree nodes are settled except those on the stack and the one being scanned. */
  ghost predicate SettledExcept(g: seq<Row>, s: seq<real>, tree: set<nat>, stack: seq<nat>, busy: set<nat>)
    requires Undirected(g) && |s| == |g|
  {
    && (forall i: nat :: i in tree ==> i < |g|)
    && (forall t :: 0 <= t < |stack| ==> stack[t] in tree)
    && (forall i: nat :: i in tree && i !in stack && i !in busy ==> Settled(g, s, i))
  }

  /** Assigning an unsigned node disturbs no settled edge. */
  lemma SettledKept(g: seq<Row>, s: seq<real>, i: nat, n: nat, j: nat, e: real)
    requires Undirected(g) && |s| == |g| && i < |g| && n <= |g[i]| && j < |s|
    requires IsSign(s[i]) && s[j] == 0.0 && SettledUpTo(g, s, i, n)
    ensures SettledUpTo(g, s[j := e], i, n)
  {
    forall t | 0 <= t < n ensures s[j := e][g[i][t].0] == Opposite(s[j := e][i], g[i][t].1) {
      assert s[g[i][t].0] == Opposite(s[i], g[i][t].1);
    }
  }

  /** No edge leads from the current tree back into a closed one. */
  lemma NeighborNotClosed(g: seq<Row>, closed: set<nat>, i: nat, t: nat)
    requires Undirected(g) && Closed(g, closed) && i < |g| && i !in closed && t < |g[i]|
    ensures g[i][t].0 !in closed
  {
    var (j, v) := g[i][t];
    assert (j, v) in g[i];
    assert (i, v) in g[j];
    var u :| 0 <= u < |g[j]| && g[j][u] == (i, v);
  }

  /** What a signature must be at a neighbour of a tree node. */
  lemma ForcedNeighbor(g: seq<Row>, s: seq<real>, tree: set<nat>, root: nat, i: nat, t: nat, sigma: seq<real>)
    requires Undirected(g) && root < |g| && |s| == |g| && Forced(g, s, tree, root)
    requires i in tree && i < |g| && t < |g[i]| && Signature(g, sigma) && IsSign(s[i])
    ensures sigma[g[i][t].0] == Flip(Opposite(s[i], g[i][t].1), sigma[root])
  {
    assert Agrees(s, sigma, tree, sigma[root]);
    assert Settled(g, sigma, i);
    assert sigma[g[i][t].0] == Opposite(sigma[i], g[i][t].1);
  }

  /** A node whose sign contradicts the tree rules out every signature. */
  lemma Frustrated(g: seq<Row>, s: seq<real>, tree: set<nat>, root: nat, i: nat, t: nat)
    requires Undirected(g) && root < |g| && |s| == |g| && Forced(g, s, tree, root)
    requires i in tree && i < |g| && t < |g[i]| && IsSign(s[i])
    requires g[i][t].0 in tree && IsSign(s[g[i][t].0]) && s[g[i][t].0] != Opposite(s[i], g[i][t].1)
    ensures forall sigma :: !Signature(g, sigma)
  {
    forall sigma ensures !Signature(g, sigma) {
      if Signature(g, sigma) {
        ForcedNeighbor(g, s, tree, root, i, t, sigma);
        assert false;
      }
    }
  }

  lemma GrowForced(g: seq<Row>, s: seq<real>, tree: set<nat>, root: nat, i: nat, t: nat, s': seq<real>)
    requires Undirected(g) && root < |g| && |s| == |g| && Forced(g, s, tree, root)
    requires i in tree && i < |g| && t < |g[i]| && IsSign(s[i]) && g[i][t].0 !in tree
    requires s' == s[g[i][t].0 := Opposite(s[i], g[i][t].1)]
    ensures Forced(g, s', tree + {g[i][t].0}, root)
  {
    var j := g[i][t].0;
    forall sigma | Signature(g, sigma) ensures Agrees(s', sigma, tree + {j}, sigma[root]) {
      ForcedNeighbor(g, s, tree, root, i, t, sigma);
      assert Agrees(s, sigma, tree, sigma[root]);
    }
  }

  lemma GrowSettled(g: seq<Row>, s: seq<real>, tree: set<nat>, stack: seq<nat>, i: nat, j: nat, e: real)
    requires Undirected(g) && |s| == |g| && j < |g| && s[j] == 0.0
    requires SettledExcept(g, s, tree, stack, {i})
    requires forall k: nat :: k in tree ==> k < |g| && IsSign(s[k])
    ensures SettledExcept(g, s[j := e], tree + {j}, stack + [j], {i})
  {
    var next := stack + [j];
    forall k: nat | k in tree + {j} && k !in next && k !in {i} ensures Settled(g, s[j := e], k) {
      assert next[|stack|] == j;
      assert forall u :: 0 <= u < |stack| ==> next[u] == stack[u];
      SettledKept(g, s, k, |g[k]|, j, e);
    }
  }

  /** Signing the next neighbour grows the tree and keeps every invariant. */
  lemma GrowTree(g: seq<Row>, s: seq<real>, closed: set<nat>, tree: set<nat>, root: nat, i: nat, t: nat, s': seq<real>)
    requires Searching(g, s, closed, tree, root)
    requires i in tree && i < |g| && t < |g[i]|
    requires s[g[i][t].0] == 0.0 && IsSign(s[i])
    requires s' == s[g[i][t].0 := Opposite(s[i], g[i][t].1)]
    ensures g[i][t].0 !in closed + tree && Searching(g, s', closed, tree + {g[i][t].0}, root)
  {
    var j := g[i][t].0;
    forall k: nat | k in closed ensures Settled(g, s', k) {
      SettledKept(g, s, k, |g[k]|, j, Opposite(s[i], g[i][t].1));
    }
    GrowForced(g, s, tree, root, i, t, s');
  }

  /** The step that signs an unsigned neighbour, with the whole scan state. */
  lemma ScanStep(g: seq<Row>, s: seq<real>, closed: set<nat>, tree: set<nat>, root: nat, stack: seq<nat>, i: nat, t: nat, s': seq<real>)
    requires Searching(g, s, closed, tree, root) && SettledExcept(g, s, tree, stack, {i})
    requires i in tree && i < |g| && t < |g[i]| && SettledUpTo(g, s, i, t)
    requires s[g[i][t].0] == 0.0 && IsSign(s[i])
    requires s' == s[g[i][t].0 := Opposite(s[i], g[i][t].1)]
    ensures var j := g[i][t].0;
      && j !in tree
      && Searching(g, s', closed, tree + {j}, root)
      && SettledExcept(g, s', tree + {j}, stack + [j], {i})
      && SettledUpTo(g, s', i, t + 1)
  {
    var j, e := g[i][t].0, Opposite(s[i], g[i][t].1);
    GrowTree(g, s, closed, tree, root, i, t, s');
    GrowSettled(g, s, tree, stack, i, j, e);
    SettledKept(g, s, i, t, j, e);
  }

  lemma AssignedBound(s: seq<real>, done: set<nat>)
    requires Assigned(s, done)
    ensures |done| <= |s|
  {
    SubsetSize(done, Range(|s|));
  }

  /** A finished tree joins the closed set. */
  lemma CloseTree(g: seq<Row>, s: seq<real>, closed: set<nat>, tree: set<nat>, root: nat)
    requires Searching(g, s, closed, tree, root) && SettledExcept(g, s, tree, [], {})
    ensures Closed(g, closed + tree)
    ensures forall i: nat :: i in closed + tree ==> Settled(g, s, i)
  {
    forall i: nat | i in closed + tree ensures ClosedAt(g, closed + tree, i) {
      assert Settled(g, s, i);
      forall t | 0 <= t < |g[i]| ensures g[i][t].0 in closed + tree {
        assert s[g[i][t].0] == Opposite(s[i], g[i][t].1);
      }
    }
  }

  /** Scanning one node: all its neighbours find or receive their sign, unless two demands
      clash, in which case no signature exists. */
  method ScanNeighbors(g: seq<Row>, s: seq<real>, stack: seq<nat>, i: nat,
                       ghost closed: set<nat>, ghost tree: set<nat>, ghost root: nat)
    returns (ok: bool, s': seq<real>, stack': seq<nat>, ghost tree': set<nat>)
    requires Searching(g, s, closed, tree, root) && SettledExcept(g, s, tree, stack, {i}) && i in tree
    ensures !ok ==> forall sigma :: !Signature(g, sigma)
    ensures ok ==> |s'| == |g| && Searching(g, s', closed, tree', root) && SettledExcept(g, s', tree', stack', {})
    ensures ok ==> tree <= tree' && (tree' == tree ==> stack' == stack)
  {
    ok, s', stack', tree' := true, s, stack, tree;
    for t := 0 to |g[i]|
      invariant Searching(g, s', closed, tree', root) && SettledExcept(g, s', tree', stack', {i})
      invariant tree <= tree' && SettledUpTo(g, s', i, t)
      invariant tree' == tree ==> stack' == stack
    {
      var (j, v) := g[i][t];
      assert IsSign(s'[i]);
      var expected := -s'[i] * Signum(v);
      assert expected == Opposite(s'[i], v);
      if s'[j] == 0.0 {
        ScanStep(g, s', closed, tree', root, stack', i, t, s'[j := expected]);
        s' := s'[j := expected];
        stack' := stack' + [j];
        tree' := tree' + {j};
      } else if s'[j] != expected {
        NeighborNotClosed(g, closed, i, t);
        Frustrated(g, s', tree', root, i, t);
        ok := false;
        return;
      }
    }
  }

  /** Depth-first growth of one tree from an unsigned root. */
  method GrowFrom(g: seq<Row>, s: seq<real>, ghost closed: set<nat>, root: nat)
    returns (ok: bool, s': seq<real>, ghost tree: set<nat>)
    requires Undirected(g) && |s| == |g| && root < |g| && root !in closed
    requires Assigned(s, closed) && Closed(g, closed) && forall i: nat :: i in closed ==> Settled(g, s, i)
    ensures !ok ==> forall sigma :: !Signature(g, sigma)
    ensures ok ==> Searching(g, s', closed, tree, root) && SettledExcept(g, s', tree, [], {})
  {
    hide Undirected;
    hide Searching;
    hide SettledExcept;
    hide Signature;
    PlantTree(g, s, closed, root);
    ok, s', tree := true, s[root := 1.0], {root};
    var stack: seq<nat> := [root];
    while stack != []
      invariant |s'| == |g| && Searching(g, s', closed, tree, root)
      invariant SettledExcept(g, s', tree, stack, {})
      decreases |g| - |closed + tree|, |stack|
    {
      var i, rest := stack[|stack| - 1], stack[..|stack| - 1];
      PopBusy(g, s', tree, stack);
      ghost var before := tree;
      ok, s', stack, tree := ScanNeighbors(g, s', rest, i, closed, tree, root);
      if !ok {
        return;
      }
      TreeGrew(g, s', closed, before, tree, root);
    }
  }

  /** A root signed on its own starts a tree. */
  lemma PlantTree(g: seq<Row>, s: seq<real>, closed: set<nat>, root: nat)
    requires Undirected(g) && |s| == |g| && root < |g| && root !in closed
    requires Assigned(s, closed) && Closed(g, closed) && forall i: nat :: i in closed ==> Settled(g, s, i)
    ensures Searching(g, s[root := 1.0], closed, {root}, root) && SettledExcept(g, s[root := 1.0], {root}, [root], {})
  {
    hide SettledUpTo;
    hide Undirected;
    hide Closed;
    forall i: nat | i in closed ensures Settled(g, s[root := 1.0], i) {
      SettledKept(g, s, i, |g[i]|, root, 1.0);
    }
  }

  /** The node taken off the stack becomes the busy one. */
  lemma PopBusy(g: seq<Row>, s: seq<real>, tree: set<nat>, stack: seq<nat>)
    requires Undirected(g) && |s| == |g| && stack != [] && SettledExcept(g, s, tree, stack, {})
    ensures stack[|stack| - 1] in tree && SettledExcept(g, s, tree, stack[..|stack| - 1], {stack[|stack| - 1]})
  {
    hide Settled;
    hide Undirected;
    assert stack == stack[..|stack| - 1] + [stack[|stack| - 1]];
  }

  lemma TreeGrew(g: seq<Row>, s: seq<real>, closed: set<nat>, before: set<nat>, tree: set<nat>, root: nat)
    requires Searching(g, s, closed, tree, root) && before <= tree
    ensures |closed + before| <= |closed + tree| <= |g|
    ensures before != tree ==> |closed + before| < |closed + tree|
  {
    SubsetSize(closed + before, closed + tree);
    AssignedBound(s, closed + tree);
    if |closed + tree| == |closed + before| { SubsetOfSameSize(closed + before, closed + tree); }
  }

  /** `None` exactly when the graph is frustrated: no signature exists. */
  method FoldGraph(g: seq<Row>) returns (r: Option<seq<real>>)
    requires Undirected(g)
    ensures r.Some? ==> Signature(g, r.value)
    ensures r.None? ==> forall sigma :: !Signature(g, sigma)
  {
    var n := |g|;
    var signs: seq<real> := seq(n, _ => 0.0);
    ghost var closed: set<nat> := {};
    for root := 0 to n
      invariant |signs| == n && Assigned(signs, closed) && Closed(g, closed)
      invariant forall i: nat :: i < root ==> i in closed
      invariant forall i: nat :: i in closed ==> Settled(g, signs, i)
    {
      if signs[root] != 0.0 {
        continue;
      }
      var ok;
      ghost var tree;
      ok, signs, tree := GrowFrom(g, signs, closed, root);
      if !ok {
        return None;
      }
      CloseTree(g, signs, closed, tree, root);
      closed := closed + tree;
    }
    r := Some(signs);
  }

  /** `folding_signs` on a component's bipartite graph. */
  method FindSigns(x: CrossTab) returns (r: Option<seq<real>>)
    requires x.Valid()
    ensures Undirected(x.Graph())
    ensures r.Some? ==> Signature(x.Graph(), r.value)
    ensures r.None? ==> forall sigma :: !Signature(x.Graph(), sigma)
  {
    GraphUndirected(x);
    r := FoldGraph(x.Graph());
  }

  /** With nonzero weights a signature is exactly a choice of signs that makes every folded
      off-diagonal `s_i s_j v` negative, so `FindSigns` decides whether one exists. */
  lemma SignatureFolds(g: seq<Row>, s: seq<real>)
    requires Undirected(g) && |s| == |g|
    requires forall i, t :: 0 <= i < |g| && 0 <= t < |g[i]| ==> g[i][t].1 != 0.0
    requires forall i :: 0 <= i < |g| ==> IsSign(s[i])
    ensures Signature(g, s) <==>
            forall i, t :: 0 <= i < |g| && 0 <= t < |g[i]| ==> s[i] * s[g[i][t].0] * g[i][t].1 < 0.0
  {
    forall i, t | 0 <= i < |g| && 0 <= t < |g[i]|
      ensures s[i] * s[g[i][t].0] * g[i][t].1 < 0.0 <==> s[g[i][t].0] == Opposite(s[i], g[i][t].1)
    {
      SignProduct(s[i], s[g[i][t].0], g[i][t].1);
    }
    forall i | 0 <= i < |g|
      ensures Settled(g, s, i) <==> forall t :: 0 <= t < |g[i]| ==> s[i] * s[g[i][t].0] * g[i][t].1 < 0.0
    {
    }
  }

  lemma SignProduct(a: real, b: real, v: real)
    requires IsSign(a) && IsSign(b) && v != 0.0
    ensures a * b * v < 0.0 <==> b == Opposite(a, v)
  {
    if a == 1.0 { if b == 1.0 {} else {} } else { if b == 1.0 {} else {} }
  }
}
