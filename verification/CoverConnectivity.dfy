/** When the Gremban cover of a connected component is connected: exactly when no choice of signs
    balances the component (crates/within/src/block_elim/solver.rs:221-277,
    crates/within/src/block_elim/factor.rs:12-40). */
module CoverConnectivity {
  import opened Sums
  import opened CrossTabs
  import opened Elimination
  import opened Gremban
  import opened Sddm
  import opened FoldingSigns
  import opened AssembledSystems
  import opened SddmKernel
  import opened Connectivity
  import opened Cover

  /** The two copies of a node among the cover's, rows of both sheets first. */
  function Lower(e: nat, i: int): int { if i < e then i else e + i }

  function Upper(e: nat, n: nat, i: int): int { if i < e then e + i else e + n + i }

  /** The node a cover node is a copy of. */
  function Base(e: nat, n: nat, x: int): int {
    if x < e + e then Unsheet(e, x) else e + Unsheet(n, x - (e + e))
  }

  function IsLower(e: nat, n: nat, x: int): bool { if x < e + e then x < e else x - (e + e) < n }

  lemma Copies(e: nat, n: nat, x: int)
    requires 0 <= x < (e + e) + (n + n)
    ensures 0 <= Base(e, n, x) < e + n
    ensures x == if IsLower(e, n, x) then Lower(e, Base(e, n, x)) else Upper(e, n, Base(e, n, x))
  {
  }

  // ---- Edges of the cover ------------------------------------------------------------------

  /** A positive entry joins equal sheets. */
  lemma PositiveEdges(e: nat, n: nat, c: Mat, p: int -> bool, k: int, j: int)
    requires Respects(e + e, n + n, CoverBlock(e, n, c), p) && 0 <= k < e && 0 <= j < n && c(k, j) > 0.0
    ensures p(Lower(e, k)) == p(Lower(e, e + j)) && p(Upper(e, n, k)) == p(Upper(e, n, e + j))
  {
    var m := CoverBlock(e, n, c);
    assert Unsheet(e, e + k) == k && Unsheet(n, n + j) == j && Unsheet(e, k) == k && Unsheet(n, j) == j;
    assert AgreesAt(e + e, m, p, k, j) && AgreesAt(e + e, m, p, e + k, n + j);
  }

  /** A negative entry joins opposite sheets. */
  lemma NegativeEdges(e: nat, n: nat, c: Mat, p: int -> bool, k: int, j: int)
    requires Respects(e + e, n + n, CoverBlock(e, n, c), p) && 0 <= k < e && 0 <= j < n && c(k, j) < 0.0
    ensures p(Lower(e, k)) == p(Upper(e, n, e + j)) && p(Upper(e, n, k)) == p(Lower(e, e + j))
  {
    var m := CoverBlock(e, n, c);
    assert Unsheet(e, e + k) == k && Unsheet(n, n + j) == j && Unsheet(e, k) == k && Unsheet(n, j) == j;
    assert AgreesAt(e + e, m, p, k, n + j) && AgreesAt(e + e, m, p, e + k, j);
  }

  // ---- Frustrated components have connected covers -----------------------------------------

  /** Do the two copies of a node carry the same label? */
  function Same(e: nat, n: nat, p: int -> bool): int -> bool { i => p(Lower(e, i)) == p(Upper(e, n, i)) }

  lemma SameUniform(e: nat, n: nat, c: Mat, p: int -> bool)
    requires Connected(e, n, c) && Respects(e + e, n + n, CoverBlock(e, n, c), p)
    ensures Uniform(e + n, Same(e, n, p))
  {
    hide CoverBlock;
    hide Respects;
    var q := Same(e, n, p);
    forall k, j | 0 <= k < e && 0 <= j < n ensures AgreesAt(e, c, q, k, j) {
      if c(k, j) > 0.0 { PositiveEdges(e, n, c, p, k, j); }
      if c(k, j) < 0.0 { NegativeEdges(e, n, c, p, k, j); }
    }
    EdgesRespected(e, n, c, q);
  }

  lemma EdgesRespected(e: nat, n: nat, c: Mat, q: int -> bool)
    requires Connected(e, n, c) && forall k, j :: 0 <= k < e && 0 <= j < n ==> AgreesAt(e, c, q, k, j)
    ensures Uniform(e + n, q)
  {
    assert Respects(e, n, c, q);
  }

  /** Copies that agree project to a labelling of the component. */
  lemma AgreeingCopies(e: nat, n: nat, c: Mat, p: int -> bool)
    requires Connected(e, n, c) && Respects(e + e, n + n, CoverBlock(e, n, c), p)
    requires forall i :: 0 <= i < e + n ==> Same(e, n, p)(i)
    ensures Uniform((e + e) + (n + n), p)
  {
    hide CoverBlock;
    hide Respects;
    hide Connected;
    var q: int -> bool := i => p(Lower(e, i));
    forall k, j | 0 <= k < e && 0 <= j < n ensures AgreesAt(e, c, q, k, j) {
      assert Same(e, n, p)(e + j);
      if c(k, j) > 0.0 { PositiveEdges(e, n, c, p, k, j); }
      if c(k, j) < 0.0 { NegativeEdges(e, n, c, p, k, j); }
    }
    EdgesRespected(e, n, c, q);
    var l := (e + e) + (n + n);
    forall x | 0 <= x < l ensures p(x) == p(0) {
      Copies(e, n, x);
      Copies(e, n, 0);
      var i, o := Base(e, n, x), Base(e, n, 0);
      assert Same(e, n, p)(i) && Same(e, n, p)(o);
      assert q(i) == q(0) && q(o) == q(0);
    }
  }

  /** Copies that disagree give the component a balance. */
  function SignOf(e: nat, p: int -> bool): Vec { i => if p(Lower(e, i)) then 1.0 else -1.0 }

  lemma DisagreeingCopies(e: nat, n: nat, c: Mat, p: int -> bool)
    requires Respects(e + e, n + n, CoverBlock(e, n, c), p) && forall i :: 0 <= i < e + n ==> !Same(e, n, p)(i)
    ensures SignBalance(e, n, c, SignOf(e, p))
  {
    hide CoverBlock;
    hide Respects;
    var s := SignOf(e, p);
    forall k, j | 0 <= k < e && 0 <= j < n ensures TightAt(e, c, s, k, j) {
      assert !Same(e, n, p)(e + j);
      if c(k, j) > 0.0 { PositiveEdges(e, n, c, p, k, j); }
      if c(k, j) < 0.0 { NegativeEdges(e, n, c, p, k, j); }
    }
  }

  // ---- A balance cuts the cover ------------------------------------------------------------

  /** The cover node on the sheet its base's sign points to. */
  function Side(e: nat, n: nat, s: Vec): int -> bool { x => (s(Base(e, n, x)) == 1.0) == IsLower(e, n, x) }

  lemma SideAgrees(e: nat, n: nat, c: Mat, s: Vec, k: int, j: int)
    requires SignBalance(e, n, c, s) && 0 <= k < e + e && 0 <= j < n + n
    ensures AgreesAt(e + e, CoverBlock(e, n, c), Side(e, n, s), k, j)
  {
    var k0, j0 := Unsheet(e, k), Unsheet(n, j);
    assert TightAt(e, c, s, k0, j0) && IsSign(s(k0)) && IsSign(s(e + j0));
    assert Base(e, n, k) == k0 && Base(e, n, (e + e) + j) == e + j0;
  }

  lemma BalanceCuts(e: nat, n: nat, c: Mat, s: Vec)
    requires SignBalance(e, n, c, s) && e + n > 0
    ensures !Connected(e + e, n + n, CoverBlock(e, n, c))
  {
    hide CoverBlock;
    hide SignBalance;
    var p, m, ee, nn := Side(e, n, s), CoverBlock(e, n, c), e + e, n + n;
    forall k, j | 0 <= k < ee && 0 <= j < nn ensures AgreesAt(ee, m, p, k, j) { SideAgrees(e, n, c, s, k, j); }
    assert Respects(ee, nn, m, p);
    var x := if e > 0 then e else n;
    assert Base(e, n, x) == 0 == Base(e, n, 0) && !IsLower(e, n, x) && IsLower(e, n, 0);
    assert p(x) != p(0);
    assert !Uniform(ee + nn, p);
  }

  /** The cover of a connected block is connected exactly when nothing balances the block. */
  lemma CoverConnectedIff(e: nat, n: nat, c: Mat)
    requires Connected(e, n, c) && e + n > 0
    ensures Connected(e + e, n + n, CoverBlock(e, n, c)) <==> forall s: Vec :: !SignBalance(e, n, c, s)
  {
    hide CoverBlock;
    hide SignBalance;
    hide Respects;
    var m, ee, nn := CoverBlock(e, n, c), e + e, n + n;
    if Connected(ee, nn, m) {
      forall s: Vec ensures !SignBalance(e, n, c, s) {
        if SignBalance(e, n, c, s) { BalanceCuts(e, n, c, s); }
      }
    }
    if forall s: Vec :: !SignBalance(e, n, c, s) {
      forall p: int -> bool | Respects(ee, nn, m, p) ensures Uniform(ee + nn, p) {
        SameUniform(e, n, c, p);
        var q := Same(e, n, p);
        if q(0) {
          AgreeingCopies(e, n, c, p);
        } else {
          DisagreeingCopies(e, n, c, p);
        }
      }
    }
  }

  /** The assembled cover of a connected component, in the same terms. */
  lemma AssembledCoverConnected(m: SddmMatrix, cover: SddmMatrix)
    requires IsCover(m, cover) && ConnectedMatrix(m) && m.crossTab.NLocal() > 0
    ensures ConnectedMatrix(cover) <==> forall s: Vec :: !SignBalance(m.NEliminated(), m.NKept(), m.Block(), s)
  {
    hide CoverBlock;
    hide SignBalance;
    hide Connected;
    var e, n, b := m.NEliminated(), m.NKept(), CoverBlock(m.NEliminated(), m.NKept(), m.Block());
    var ee, nn := e + e, n + n;
    CoverConnectedIff(e, n, m.Block());
    forall k, j | 0 <= k < ee && 0 <= j < nn ensures SameEdge(b, cover.Block(), k, j) && SameEdge(cover.Block(), b, k, j) {
      assert cover.Block()(k, j) == b(k, j);
    }
    if ConnectedMatrix(cover) { ConnectedCong(e + e, n + n, cover.Block(), b); }
    if Connected(e + e, n + n, b) { ConnectedCong(e + e, n + n, b, cover.Block()); }
  }
}
