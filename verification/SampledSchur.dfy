/** The sampled Schur complement: each eliminated star is replaced by edges from an external
    clique sampler, the kept surplus becomes ground edges, and the merged list is laid out
    (crates/within/src/block_elim/schur.rs:63-68, 274-373). */
module SampledSchur {
  import opened Sums
  import opened Csr
  import opened Sorting
  import opened CrossTabs
  import opened Elimination
  import opened Gremban
  import opened Sddm
  import opened ExplicitLaplacian
  import opened ReducedSystem
  import opened EdgeSort
  import opened EdgeLaplacian

  /** Star index (its seed) and incident edges in; edges among its neighbours out. */
  type Sampler = (nat, Row) -> seq<Edge>

  ghost predicate IsColumn(r: Row, c: nat) { exists t :: 0 <= t < |r| && r[t].0 == c }

  ghost predicate SoundEdge(r: Row, e: Edge) {
    e.lo < e.hi && IsColumn(r, e.lo) && IsColumn(r, e.hi) && e.w >= 0.0
  }

  ghost predicate SoundEdges(r: Row, es: seq<Edge>) {
    forall t :: 0 <= t < |es| ==> SoundEdge(r, es[t])
  }

  /** What the sampler is called on: distinct neighbours in order, weights at least 0. */
  ghost predicate ProperStar(r: Row) {
    Ascending(r) && forall t :: 0 <= t < |r| ==> r[t].1 >= 0.0
  }

  /** All that is asked of the sampler: forward edges between neighbours, weights at least 0. */
  ghost predicate SoundSampler(sampler: Sampler) {
    forall k, r :: ProperStar(r) ==> SoundEdges(r, sampler(k, r))
  }

  /** What eliminating vertex `k` joins: its stored neighbours and, when it is grounded, the ground. */
  function Entries(m: SddmMatrix, k: nat): Row
    requires m.crossTab.c.Valid() && k < m.NEliminated() <= |m.groundEdges|
  {
    m.crossTab.c.Row(k) + if m.grounding.Grounded? && m.groundEdges[k] > 0.0 then [(m.NKept(), m.groundEdges[k])] else []
  }

  /** `sample_star`: a star with at most one incident edge fills nothing. */
  function StarEdges(m: SddmMatrix, sampler: Sampler, k: nat): seq<Edge>
    requires m.crossTab.c.Valid() && k < m.NEliminated() <= |m.groundEdges|
  {
    if |m.crossTab.c.Row(k)| == 0 || |Entries(m, k)| <= 1 then [] else sampler(k, Entries(m, k))
  }

  function FirstStars(m: SddmMatrix, sampler: Sampler, k: nat): seq<Edge>
    requires m.crossTab.c.Valid() && k <= m.NEliminated() <= |m.groundEdges|
  {
    if k == 0 then [] else FirstStars(m, sampler, k - 1) + StarEdges(m, sampler, k - 1)
  }

  /** One edge to the ground for each positive kept surplus. */
  function GroundEdgesOf(surplus: seq<real>, ground: nat): seq<Edge> {
    if surplus == [] then []
    else
      var (p, i) := (GroundEdgesOf(surplus[..|surplus| - 1], ground), |surplus| - 1);
      if surplus[i] > 0.0 then p + [Edge(i, ground, surplus[i])] else p
  }

  function KeptSurplus(m: SddmMatrix): seq<real>
    requires m.NEliminated() <= |m.groundEdges|
  {
    m.groundEdges[m.NEliminated()..]
  }

  /** Everything emitted, before sorting and merging. */
  function Emitted(m: SddmMatrix, sampler: Sampler): seq<Edge>
    requires m.crossTab.c.Valid() && m.NEliminated() <= |m.groundEdges|
  {
    FirstStars(m, sampler, m.NEliminated()) + if m.grounding.Grounded? then GroundEdgesOf(KeptSurplus(m), m.NKept()) else []
  }

  // ---- Every emitted edge is well formed ---------------------------------------------------

  /** Forward, inside the graph, weight at least 0. */
  ghost predicate WellFormed(es: seq<Edge>, n: nat) {
    forall t :: 0 <= t < |es| ==> es[t].lo < es[t].hi < n && es[t].w >= 0.0
  }

  lemma WellFormedJoin(a: seq<Edge>, b: seq<Edge>, n: nat)
    requires WellFormed(a, n) && WellFormed(b, n)
    ensures WellFormed(a + b, n)
  {
  }

  lemma ColumnBound(r: Row, c: nat, n: nat)
    requires InRange(r, n) && IsColumn(r, c)
    ensures c < n
  {
  }

  lemma EntriesInRange(m: SddmMatrix, k: nat)
    requires m.crossTab.c.Valid() && k < m.NEliminated() <= |m.groundEdges|
    ensures InRange(Entries(m, k), ReducedDim(m.NKept(), m.grounding))
  {
  }

  lemma EntriesProper(m: SddmMatrix, k: nat)
    requires m.crossTab.c.Sorted() && m.Unsigned() && k < m.NEliminated() <= |m.groundEdges|
    ensures ProperStar(Entries(m, k))
  {
    var r := m.crossTab.c.Row(k);
    forall t | 0 <= t < |r| ensures r[t].1 >= 0.0 {
      assert r[t].1 == m.crossTab.c.data[m.crossTab.c.indptr[k] + t];
    }
  }

  lemma StarWellFormed(m: SddmMatrix, sampler: Sampler, k: nat)
    requires m.crossTab.c.Sorted() && m.Unsigned() && k < m.NEliminated() <= |m.groundEdges| && SoundSampler(sampler)
    ensures WellFormed(StarEdges(m, sampler, k), ReducedDim(m.NKept(), m.grounding))
  {
    hide IsColumn;
    hide Entries;
    hide ProperStar;
    var es, r, n := StarEdges(m, sampler, k), Entries(m, k), ReducedDim(m.NKept(), m.grounding);
    EntriesInRange(m, k);
    EntriesProper(m, k);
    assert SoundEdges(r, sampler(k, r));
    forall t | 0 <= t < |es| ensures es[t].lo < es[t].hi < n && es[t].w >= 0.0 {
      assert SoundEdge(r, es[t]);
      ColumnBound(r, es[t].hi, n);
    }
  }

  lemma {:induction false} StarsWellFormed(m: SddmMatrix, sampler: Sampler, k: nat)
    requires m.crossTab.c.Sorted() && m.Unsigned() && k <= m.NEliminated() <= |m.groundEdges| && SoundSampler(sampler)
    ensures WellFormed(FirstStars(m, sampler, k), ReducedDim(m.NKept(), m.grounding))
  {
    hide WellFormed;
    hide StarEdges;
    hide SoundSampler;
    if k == 0 {
      NoneWellFormed(ReducedDim(m.NKept(), m.grounding));
    } else {
      StarsWellFormed(m, sampler, k - 1);
      StarWellFormed(m, sampler, k - 1);
      WellFormedJoin(FirstStars(m, sampler, k - 1), StarEdges(m, sampler, k - 1), ReducedDim(m.NKept(), m.grounding));
    }
  }

  lemma NoneWellFormed(n: nat)
    ensures WellFormed([], n)
  {
  }

  lemma {:induction false} GroundWellFormed(surplus: seq<real>, ground: nat)
    requires |surplus| <= ground
    ensures WellFormed(GroundEdgesOf(surplus, ground), ground + 1)
  {
    if surplus != [] { GroundWellFormed(surplus[..|surplus| - 1], ground); }
  }

  lemma EmittedWellFormed(m: SddmMatrix, sampler: Sampler)
    requires m.Valid() && m.Unsigned() && SoundSampler(sampler)
    ensures WellFormed(Emitted(m, sampler), ReducedDim(m.NKept(), m.grounding))
  {
    hide WellFormed;
    hide FirstStars;
    hide GroundEdgesOf;
    hide SoundSampler;
    StarsWellFormed(m, sampler, m.NEliminated());
    if m.grounding.Grounded? {
      GroundWellFormed(KeptSurplus(m), m.NKept());
      WellFormedJoin(FirstStars(m, sampler, m.NEliminated()), GroundEdgesOf(KeptSurplus(m), m.NKept()), m.NKept() + 1);
    } else {
      assert Emitted(m, sampler) == FirstStars(m, sampler, m.NEliminated());
    }
  }

  // ---- The pipeline ------------------------------------------------------------------------

  /** `par_emit` */
  method ParEmit(m: SddmMatrix, sampler: Sampler) returns (edges: seq<Edge>)
    requires m.Valid() && m.Unsigned() && SoundSampler(sampler)
    ensures edges == Merged(Sort(Emitted(m, sampler), EdgeLeq()))
  {
    hide SoundSampler;
    hide StarEdges;
    hide EdgeLeq;
    hide Merged;
    hide Sort;
    edges := [];
    for k := 0 to m.NEliminated()
      invariant edges == FirstStars(m, sampler, k)
    {
      edges := edges + StarEdges(m, sampler, k);
    }
    if m.grounding.Grounded? {
      var grounds := EmitGround(KeptSurplus(m), m.NKept());
      edges := edges + grounds;
    }
    assert edges == Emitted(m, sampler);
    EmittedWellFormed(m, sampler);
    edges := SortAndDedup(edges, m.NKept());
  }

  method EmitGround(surplus: seq<real>, ground: nat) returns (es: seq<Edge>)
    ensures es == GroundEdgesOf(surplus, ground)
  {
    es := [];
    for i := 0 to |surplus|
      invariant es == GroundEdgesOf(surplus[..i], ground)
    {
      assert surplus[..i + 1][..i] == surplus[..i];
      if surplus[i] > 0.0 {
        es := es + [Edge(i, ground, surplus[i])];
      }
    }
    assert surplus[..|surplus|] == surplus;
  }

  lemma {:induction false} PairWeightNonneg(es: seq<Edge>, n: nat, i: nat, j: nat)
    requires WellFormed(es, n)
    ensures PairWeight(es, i, j) >= 0.0
  {
    if es != [] { PairWeightNonneg(es[..|es| - 1], n, i, j); }
  }

  /** A graph Laplacian whose weights are those emitted between each pair. */
  ghost predicate WeighsLike(l: CsrBlock, es: seq<Edge>, n: nat) {
    && l.Sorted() && l.nrows == l.ncols == n
    && (forall i: nat, j: nat :: i < n && j < n && i != j ==> l.Entry(i, j) == l.Entry(j, i) == -Between(es, i, j) <= 0.0)
    && (forall i: nat :: i < n ==> SumsToZero(l, i, n))
  }

  ghost predicate SumsToZero(l: CsrBlock, i: nat, n: nat) { Sum(n, k => l.Entry(i, k)) == 0.0 }

  lemma EmittedWeighs(l: CsrBlock, es: seq<Edge>, n: nat)
    requires WellFormed(es, n) && l.Sorted() && l.nrows == l.ncols == n
    requires forall k :: 0 <= k < n ==> l.Row(k) == LaplacianRow(Merged(Sort(es, EdgeLeq())), k)
    ensures WeighsLike(l, es, n)
  {
    hide LaplacianRow;
    hide Merged;
    hide Sort;
    hide EdgeLeq;
    hide Sum;
    SortWithin(es, n);
    MergedWithin(Sort(es, EdgeLeq()), n);
    forall i: nat, j: nat | i < n && j < n && i != j ensures l.Entry(i, j) == l.Entry(j, i) == -Between(es, i, j) <= 0.0 {
      LaplacianOfEmitted(es, l, n, i, j);
      PairWeightNonneg(es, n, i, j);
      PairWeightNonneg(es, n, j, i);
    }
    forall i: nat | i < n ensures SumsToZero(l, i, n) {
      LaplacianMeaning(l, Merged(Sort(es, EdgeLeq())), n, i, i);
    }
  }

  /** `sampled`: whatever the sampler returns, the result is a graph Laplacian. */
  method Sampled(m: SddmMatrix, sampler: Sampler) returns (l: CsrBlock)
    requires m.Valid() && m.Unsigned() && SoundSampler(sampler)
    ensures WeighsLike(l, Emitted(m, sampler), ReducedDim(m.NKept(), m.grounding))
  {
    hide SoundSampler;
    hide WellFormed;
    hide LaplacianRow;
    hide EdgeLeq;
    hide Sort;
    hide Merged;
    hide Emitted;
    hide WeighsLike;
    var n := ReducedDim(m.NKept(), m.grounding);
    var edges := ParEmit(m, sampler);
    EmittedWellFormed(m, sampler);
    ghost var es := Emitted(m, sampler);
    WellFormedWithin(es, n);
    SortWithin(es, n);
    MergedWithin(Sort(es, EdgeLeq()), n);
    MergedEdges(es, 0, 0);
    l := BuildLaplacianCsr(edges, n);
    EmittedWeighs(l, es, n);
  }

  lemma WellFormedWithin(es: seq<Edge>, n: nat)
    requires WellFormed(es, n)
    ensures EdgesWithin(es, n)
  {
  }

  // ---- Against the exact complement --------------------------------------------------------

  /** Total incident weight. */
  ghost function Capacity(r: Row): real { Fold(r, (c: int, v: real) => v) }

  /** The sampler returns the whole clique: weight `w_a w_b / capacity` between neighbours. */
  ghost predicate CliqueOf(r: Row, es: seq<Edge>) {
    forall a: nat, b: nat :: a != b ==> Between(es, a, b) * Capacity(r) == Coef(r, a) * Coef(r, b)
  }

  ghost predicate CliqueSampler(sampler: Sampler) {
    forall k, r :: ProperStar(r) && Capacity(r) > 0.0 ==> CliqueOf(r, sampler(k, r))
  }

  lemma {:induction false} BetweenJoin(a: seq<Edge>, b: seq<Edge>, i: nat, j: nat)
    ensures Between(a + b, i, j) == Between(a, i, j) + Between(b, i, j)
  {
    hide PairWeight;
    if b == [] {
      assert a + b == a;
      NothingBetween(i, j);
    } else {
      var p, e := b[..|b| - 1], b[|b| - 1];
      BetweenJoin(a, p, i, j);
      assert a + b == (a + p) + [e] && b == p + [e];
      PairWeightPush(a + p, e, i, j);
      PairWeightPush(a + p, e, j, i);
      PairWeightPush(p, e, i, j);
      PairWeightPush(p, e, j, i);
    }
  }

  lemma NothingBetween(i: nat, j: nat)
    ensures Between([], i, j) == 0.0
  {
  }

  /** A star's capacity is its diagonal. */
  lemma CapacityIsDiagonal(m: SddmMatrix, k: nat)
    requires m.Valid() && m.Unsigned() && k < m.NEliminated()
    ensures Capacity(Entries(m, k)) == m.diagonal[k]
  {
    hide Fold;
    hide Sum;
    hide Coef;
    var r, g := m.crossTab.c.Row(k), (c: int, v: real) => v;
    UnsignedBalanced(m);
    FoldIsSum(r, m.NKept(), g);
    SumCong(m.NKept(), j => g(j, Coef(r, j)), RowOf(m.Block(), k));
    assert At(m.diagonal)(k) == Sum(m.NKept(), RowOf(m.Block(), k)) + At(m.groundEdges)(k);
    if m.grounding.Grounded? && m.groundEdges[k] > 0.0 {
      FoldOfPush(r, m.NKept(), m.groundEdges[k], g);
    } else {
      NoGroundAt(m, k);
      assert Entries(m, k) == r;
    }
  }

  lemma NoGroundAt(m: SddmMatrix, i: nat)
    requires m.Valid() && i < m.crossTab.NLocal()
    ensures m.groundEdges[i] >= 0.0 && (m.grounding.Floating? ==> m.groundEdges[i] == 0.0)
  {
    if m.grounding.Floating? { assert At(m.groundEdges)(i) == 0.0; }
  }

  /** The star's weight towards a kept vertex, or towards the ground. */
  lemma EntryCoef(m: SddmMatrix, k: nat, j: nat)
    requires m.Valid() && k < m.NEliminated()
    ensures Coef(Entries(m, k), j) == if j == m.NKept() then m.groundEdges[k] else m.crossTab.c.Entry(k, j)
  {
    hide Coef;
    var r, n := m.crossTab.c.Row(k), m.NKept();
    CoefAbsent(r, n);
    NoGroundAt(m, k);
    if m.grounding.Grounded? && m.groundEdges[k] > 0.0 {
      CoefOfPush(r, n, m.groundEdges[k], j);
    } else {
      assert Entries(m, k) == r;
    }
  }

  /** A star with a single incident edge has no two neighbours. */
  lemma LonelyStar(r: Row, a: nat, b: nat)
    requires |r| <= 1 && a != b
    ensures Coef(r, a) == 0.0 || Coef(r, b) == 0.0
  {
    if |r| == 1 && r[0].0 == a { CoefAbsent(r, b); } else { CoefAbsent(r, a); }
  }

  lemma DivideOut(x: real, d: real, inv: real, p: real, q: real)
    requires x * d == p * q && inv * d == 1.0
    ensures x == (p * inv) * q
  {
    assert x == x * (inv * d) == (x * d) * inv == (p * q) * inv;
  }

  lemma ZeroSplit(x: real, p: real, q: real, inv: real)
    requires x == 0.0 && (p == 0.0 || q == 0.0)
    ensures x == (p * inv) * q
  {
  }

  lemma PositiveDiagonal(m: SddmMatrix, inv: seq<real>, k: nat)
    requires Reciprocals(m, inv) && k < |inv|
    ensures m.diagonal[k] > 0.0
  {
    var d, v := m.diagonal[k], inv[k];
    if d <= 0.0 { SignMismatch(v, d, v * d); }
  }

  lemma SignMismatch(v: real, d: real, p: real)
    requires v > 0.0 && d <= 0.0 && p == v * d
    ensures p <= 0.0
  {
  }

  lemma StarBetween(m: SddmMatrix, sampler: Sampler, inv: seq<real>, k: nat, a: nat, b: nat)
    requires m.Valid() && m.Unsigned() && Reciprocals(m, inv) && CliqueSampler(sampler) && k < m.NEliminated() && a != b
    ensures Between(StarEdges(m, sampler, k), a, b) == (Coef(Entries(m, k), a) * inv[k]) * Coef(Entries(m, k), b)
  {
    hide Coef;
    hide Between;
    hide Capacity;
    hide ProperStar;
    var r, es := Entries(m, k), StarEdges(m, sampler, k);
    var x, p, q := Between(es, a, b), Coef(r, a), Coef(r, b);
    if |m.crossTab.c.Row(k)| == 0 || |r| <= 1 {
      NothingBetween(a, b);
      LonelyStar(r, a, b);
      ZeroSplit(x, p, q, inv[k]);
    } else {
      CapacityIsDiagonal(m, k);
      EntriesProper(m, k);
      PositiveDiagonal(m, inv, k);
      assert CliqueOf(r, sampler(k, r));
      DivideOut(x, m.diagonal[k], inv[k], p, q);
    }
  }

  /** Summed over the stars this is the Schur complement's fill. */
  lemma {:induction false} StarsBetween(m: SddmMatrix, sampler: Sampler, inv: seq<real>, k: nat, a: nat, b: nat, u: Vec, v: Vec)
    requires m.Valid() && m.Unsigned() && Reciprocals(m, inv) && CliqueSampler(sampler) && k <= m.NEliminated() && a != b
    requires forall l {:trigger u(l)} :: 0 <= l < m.NEliminated() ==> u(l) == Coef(Entries(m, l), a) * inv[l]
    requires forall l {:trigger v(l)} :: 0 <= l < m.NEliminated() ==> v(l) == Coef(Entries(m, l), b)
    ensures Between(FirstStars(m, sampler, k), a, b) == Dot(k, u, v)
  {
    hide Coef;
    hide Between;
    hide StarEdges;
    hide Entries;
    hide CliqueSampler;
    if k == 0 {
      NothingBetween(a, b);
    } else {
      var l := k - 1;
      StarsBetween(m, sampler, inv, l, a, b, u, v);
      StarBetween(m, sampler, inv, l, a, b);
      BetweenJoin(FirstStars(m, sampler, l), StarEdges(m, sampler, l), a, b);
      assert u(l) * v(l) == (Coef(Entries(m, l), a) * inv[l]) * Coef(Entries(m, l), b);
      DotStep(k, u, v);
    }
  }

  lemma {:induction false} GroundBetween(surplus: seq<real>, ground: nat, a: nat, b: nat)
    requires |surplus| <= ground && a < ground && b <= ground && a != b && forall t :: 0 <= t < |surplus| ==> surplus[t] >= 0.0
    ensures Between(GroundEdgesOf(surplus, ground), a, b) == if b == ground && a < |surplus| then surplus[a] else 0.0
  {
    hide PairWeight;
    if surplus == [] {
      NothingBetween(a, b);
    } else {
      var n := |surplus| - 1;
      GroundBetween(surplus[..n], ground, a, b);
      var p, e := GroundEdgesOf(surplus[..n], ground), Edge(n, ground, surplus[n]);
      PairWeightPush(p, e, a, b);
      PairWeightPush(p, e, b, a);
    }
  }

  /** Weight emitted between two kept vertices: minus the Schur entry. */
  lemma EmittedKept(m: SddmMatrix, sampler: Sampler, inv: seq<real>, a: nat, b: nat)
    requires m.Valid() && m.Unsigned() && Reciprocals(m, inv) && CliqueSampler(sampler) && a < m.NKept() && b < m.NKept() && a != b
    ensures Between(Emitted(m, sampler), a, b) == -ReducedOf(m, inv)(a, b)
  {
    hide Coef;
    hide Between;
    hide FirstStars;
    hide GroundEdgesOf;
    hide CliqueSampler;
    hide Sum;
    hide Entries;
    var e := m.NEliminated();
    var u, v := Weighted(m.Block(), At(inv), a), ColOf(m.Block(), b);
    forall l | 0 <= l < e ensures u(l) == Coef(Entries(m, l), a) * inv[l] && v(l) == Coef(Entries(m, l), b) {
      EntryCoef(m, l, a);
      EntryCoef(m, l, b);
    }
    StarsBetween(m, sampler, inv, e, a, b, u, v);
    if m.grounding.Grounded? {
      KeptSurplusNonneg(m);
      GroundBetween(KeptSurplus(m), m.NKept(), a, b);
      BetweenJoin(FirstStars(m, sampler, e), GroundEdgesOf(KeptSurplus(m), m.NKept()), a, b);
    } else {
      assert Emitted(m, sampler) == FirstStars(m, sampler, e);
    }
    assert Between(Emitted(m, sampler), a, b) == Dot(e, u, v);
    assert ReducedOf(m, inv)(a, b) == SchurOf(m, inv)(a, b) == -Fill(e, m.Block(), At(inv), a)(b);
  }

  lemma KeptSurplusNonneg(m: SddmMatrix)
    requires m.Valid()
    ensures |KeptSurplus(m)| == m.NKept() && forall t :: 0 <= t < |KeptSurplus(m)| ==> KeptSurplus(m)[t] >= 0.0
  {
  }

  /** Weight emitted towards the ground: the reduced surplus. */
  lemma EmittedGround(m: SddmMatrix, sampler: Sampler, inv: seq<real>, a: nat)
    requires m.Valid() && m.Unsigned() && Reciprocals(m, inv) && CliqueSampler(sampler) && a < m.NKept() && m.grounding.Grounded?
    ensures Between(Emitted(m, sampler), a, m.NKept()) == -ReducedOf(m, inv)(a, m.NKept())
  {
    hide Coef;
    hide Between;
    hide FirstStars;
    hide GroundEdgesOf;
    hide CliqueSampler;
    hide Sum;
    hide Entries;
    var e, n := m.NEliminated(), m.NKept();
    var u, v := Weighted(m.Block(), At(inv), a), At(m.groundEdges);
    forall l | 0 <= l < e ensures u(l) == Coef(Entries(m, l), a) * inv[l] && v(l) == Coef(Entries(m, l), n) {
      EntryCoef(m, l, a);
      EntryCoef(m, l, n);
    }
    StarsBetween(m, sampler, inv, e, a, n, u, v);
    KeptSurplusNonneg(m);
    GroundBetween(KeptSurplus(m), n, a, n);
    BetweenJoin(FirstStars(m, sampler, e), GroundEdgesOf(KeptSurplus(m), n), a, n);
    assert Between(Emitted(m, sampler), a, n) == Dot(e, u, v) + KeptSurplus(m)[a];
    assert Tail(e, At(m.groundEdges))(a) == KeptSurplus(m)[a];
    assert SurplusOf(m, inv)(a) == Tail(e, v)(a) + Dot(e, u, v);
    assert Tail(e, v)(a) == KeptSurplus(m)[a];
    assert Between(Emitted(m, sampler), a, n) == SurplusOf(m, inv)(a);
    assert ReducedOf(m, inv)(a, n) == -SurplusOf(m, inv)(a);
  }

  /** With whole cliques sampling changes nothing: the laid-out Laplacian is the exact reduced
      matrix, ground row and diagonal included. */
  lemma WholeCliquesAreExact(m: SddmMatrix, sampler: Sampler, inv: seq<real>, l: CsrBlock, i: nat, j: nat)
    requires m.Valid() && m.Unsigned() && Reciprocals(m, inv) && CliqueSampler(sampler)
    requires WeighsLike(l, Emitted(m, sampler), ReducedDim(m.NKept(), m.grounding))
    requires i < l.nrows && j < l.nrows
    ensures l.Entry(i, j) == ReducedOf(m, inv)(i, j)
  {
    hide Between;
    hide Emitted;
    hide CliqueSampler;
    hide Sum;
    hide ReducedOf;
    var n := l.nrows;
    forall k: nat | k < n && k != i ensures l.Entry(i, k) == ReducedOf(m, inv)(i, k) {
      ReducedIsLaplacian(m, inv, i, k);
      if k == m.NKept() {
        EmittedGround(m, sampler, inv, i);
      } else if i == m.NKept() {
        EmittedGround(m, sampler, inv, k);
        assert l.Entry(k, i) == -Between(Emitted(m, sampler), k, i);
      } else {
        EmittedKept(m, sampler, inv, i, k);
      }
    }
    if i == j {
      ReducedIsLaplacian(m, inv, i, i);
      var f, g := RowOf(ReducedOf(m, inv), i), k => l.Entry(i, k);
      assert SumsToZero(l, i, n);
      SumUpdate(n, i, f, g);
    }
  }
}
