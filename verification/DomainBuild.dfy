/** Building every local domain of a design, and what the preconditioner built from them is
    (crates/within/src/domain/factor_pairs.rs:42-92, crates/within/src/domain/cross_tab.rs:25-38, 138-161,
    crates/within/src/operator/schwarz.rs:89-113, 231-271). */
module DomainBuilds {
  import opened Wrappers
  import opened Sums
  import opened Vectors
  import opened Csr
  import opened CrossTabs
  import opened Elimination
  import opened Sddm
  import opened DominanceScaling
  import opened Components
  import opened Connectivity
  import opened BlockElimSolver
  import opened Convert
  import opened ConvertComponent
  import opened SplitSubdomains
  import opened Accumulation
  import opened PairAssembly
  import opened Subdomains
  import opened PartitionOfUnity
  import opened Bidiagonal
  import opened NormalEquations
  import opened Krylov
  import opened DesignOperator
  import opened PairGrams
  import opened SchwarzOperators
  import opened SchwarzDesigns
  import opened ServedDomains
  import opened BuiltDomains

  // ---- Active levels -----------------------------------------------------------------------

  /** The level occurs among the first `k` observations. */
  predicate Occurs(levels: seq<nat>, k: nat, l: nat)
    requires k <= |levels|
  {
    exists i :: 0 <= i < k && levels[i] == l
  }

  /** The levels of each term that some observation has. */
  ghost predicate ActiveOf(d: Design, q: nat, flags: seq<bool>)
    requires q < |d.terms| && q < |d.levels|
  {
    |flags| == d.terms[q].nLevels && forall l: nat :: l < |flags| ==> (flags[l] <==> Occurs(d.levels[q], |d.levels[q]|, l))
  }

  /** The flags of all terms. */
  ghost predicate AllActive(d: Design, active: seq<seq<bool>>) {
    && d.Valid() && |active| == |d.terms|
    && forall q :: 0 <= q < |active| ==> ActiveOf(d, q, active[q])
  }

  /** One term's column of flags. */
  method ActiveLevelsOf(levels: seq<nat>, nLevels: nat) returns (flags: seq<bool>)
    requires forall i :: 0 <= i < |levels| ==> levels[i] < nLevels
    ensures |flags| == nLevels && forall l: nat :: l < nLevels ==> (flags[l] <==> Occurs(levels, |levels|, l))
  {
    flags := seq(nLevels, _ => false);
    for i := 0 to |levels|
      invariant |flags| == nLevels && forall l: nat :: l < nLevels ==> (flags[l] <==> Occurs(levels, i, l))
    {
      forall l: nat | l < nLevels ensures Occurs(levels, i + 1, l) <==> Occurs(levels, i, l) || levels[i] == l {}
      flags := flags[levels[i] := true];
    }
  }

  /** `find_all_active_levels` */
  method FindAllActiveLevels(d: Design) returns (active: seq<seq<bool>>)
    requires d.Valid()
    ensures AllActive(d, active)
  {
    hide ActiveOf;
    hide Occurs;
    active := [];
    for q := 0 to |d.terms|
      invariant |active| == q && forall p :: 0 <= p < q ==> ActiveOf(d, p, active[p])
    {
      assert d.TermValid(q);
      var flags := ActiveLevelsOf(d.levels[q], d.terms[q].nLevels);
      IsActive(d, q, flags);
      active := active + [flags];
    }
  }

  lemma IsActive(d: Design, q: nat, flags: seq<bool>)
    requires q < |d.terms| && q < |d.levels| && |flags| == d.terms[q].nLevels
    requires forall l: nat :: l < |flags| ==> (flags[l] <==> Occurs(d.levels[q], |d.levels[q]|, l))
    ensures ActiveOf(d, q, flags)
  {
  }

  // ---- Pairs of channels -------------------------------------------------------------------

  /** The channels of one term, intercept first. */
  function TermChannels(d: Design, q: nat): seq<Channel>
    requires q < |d.terms|
  {
    seq(|d.terms[q].columns|, c requires 0 <= c => Channel(q, c))
  }

  /** The channels of the first `k` terms. */
  function Channels(d: Design, k: nat): seq<Channel>
    requires k <= |d.terms|
  {
    if k == 0 then [] else Channels(d, k - 1) + TermChannels(d, k - 1)
  }

  /** `rows` with each later channel of another term. */
  function PairsWith(rows: Channel, later: seq<Channel>): seq<(Channel, Channel)> {
    if later == [] then []
    else (if later[0].term != rows.term then [(rows, later[0])] else []) + PairsWith(rows, later[1..])
  }

  function PairsAmong(channels: seq<Channel>): seq<(Channel, Channel)> {
    if channels == [] then [] else PairsWith(channels[0], channels[1..]) + PairsAmong(channels[1..])
  }

  lemma {:induction false} PairsWithExactly(rows: Channel, later: seq<Channel>, p: (Channel, Channel))
    ensures p in PairsWith(rows, later) <==> p.0 == rows && p.1 in later && p.1.term != rows.term
  {
    if later != [] {
      PairsWithExactly(rows, later[1..], p);
      assert later == [later[0]] + later[1..];
    }
  }

  /** Two places in the list, in order, of different terms. */
  ghost predicate ApartAt(channels: seq<Channel>, p: (Channel, Channel)) {
    p.0.term != p.1.term && exists a, b :: 0 <= a < b < |channels| && channels[a] == p.0 && channels[b] == p.1
  }

  lemma Later(channels: seq<Channel>, p: (Channel, Channel))
    requires channels != []
    ensures ApartAt(channels[1..], p) ==> ApartAt(channels, p)
    ensures p.0 == channels[0] && p.1 in channels[1..] && p.1.term != p.0.term ==> ApartAt(channels, p)
  {
    var rest := channels[1..];
    if ApartAt(rest, p) {
      var a, b :| 0 <= a < b < |rest| && rest[a] == p.0 && rest[b] == p.1;
      assert channels[a + 1] == p.0 && channels[b + 1] == p.1;
    }
    if p.0 == channels[0] && p.1 in rest {
      var b :| 0 <= b < |rest| && rest[b] == p.1;
      assert channels[b + 1] == p.1;
    }
  }

  lemma FirstOrLater(channels: seq<Channel>, p: (Channel, Channel))
    requires ApartAt(channels, p)
    ensures channels != [] && (ApartAt(channels[1..], p) || (p.0 == channels[0] && p.1 in channels[1..]))
  {
    var a, b :| 0 <= a < b < |channels| && channels[a] == p.0 && channels[b] == p.1;
    var rest := channels[1..];
    assert rest[b - 1] == p.1;
    if a > 0 { assert rest[a - 1] == p.0; }
  }

  lemma {:induction false} PairsAmongExactly(channels: seq<Channel>, p: (Channel, Channel))
    ensures p in PairsAmong(channels) <==> ApartAt(channels, p)
  {
    hide ApartAt;
    if channels == [] {
      if ApartAt(channels, p) { FirstOrLater(channels, p); }
    } else {
      PairsWithExactly(channels[0], channels[1..], p);
      PairsAmongExactly(channels[1..], p);
      Later(channels, p);
      if ApartAt(channels, p) {
        FirstOrLater(channels, p);
        Differs(channels, p);
      }
    }
  }

  lemma Differs(channels: seq<Channel>, p: (Channel, Channel))
    requires ApartAt(channels, p)
    ensures p.0.term != p.1.term
  {
  }

  ghost predicate TermsAscend(channels: seq<Channel>) {
    forall a, b :: 0 <= a < b < |channels| ==> channels[a].term <= channels[b].term
  }

  lemma InTermChannels(d: Design, q: nat, ch: Channel)
    requires q < |d.terms|
    ensures ch in TermChannels(d, q) <==> ch.term == q && ch.column < |d.terms[q].columns|
  {
    if ch.term == q && ch.column < |d.terms[q].columns| { assert TermChannels(d, q)[ch.column] == ch; }
  }

  /** The list holds the channels of its terms ... */
  lemma {:induction false} ChannelListed(d: Design, k: nat, ch: Channel)
    requires k <= |d.terms|
    ensures ch in Channels(d, k) <==> ch.term < k && ch.column < |d.terms[ch.term].columns|
  {
    if k > 0 {
      ChannelListed(d, k - 1, ch);
      InTermChannels(d, k - 1, ch);
    }
  }

  /** ... in the order of the terms. */
  lemma {:induction false} ChannelsAscend(d: Design, k: nat)
    requires k <= |d.terms|
    ensures TermsAscend(Channels(d, k))
  {
    if k > 0 {
      ChannelsAscend(d, k - 1);
      var first, own := Channels(d, k - 1), TermChannels(d, k - 1);
      forall a | 0 <= a < |first| ensures first[a].term < k - 1 { ChannelListed(d, k - 1, first[a]); }
      assert Channels(d, k) == first + own;
    }
  }

  /** The pairs the domains are built from. */
  function DesignPairs(d: Design): seq<(Channel, Channel)> { PairsAmong(Channels(d, |d.terms|)) }

  /** They are the pairs of channels of two different terms, the earlier term first. */
  lemma DesignPairsExactly(d: Design, p: (Channel, Channel))
    requires d.Valid()
    ensures p in DesignPairs(d) <==> InDesign(d, p.0) && InDesign(d, p.1) && p.0.term < p.1.term
  {
    hide ApartAt;
    hide Channels;
    hide PairsAmong;
    var chs := Channels(d, |d.terms|);
    PairsAmongExactly(chs, p);
    ChannelsAscend(d, |d.terms|);
    ChannelListed(d, |d.terms|, p.0);
    ChannelListed(d, |d.terms|, p.1);
    ApartInOrder(chs, p);
  }

  /** In a list that ascends by term, a pair of different terms stands in the order of the terms. */
  lemma ApartInOrder(chs: seq<Channel>, p: (Channel, Channel))
    requires TermsAscend(chs)
    ensures ApartAt(chs, p) <==> p.0 in chs && p.1 in chs && p.0.term < p.1.term
  {
    if p.0 in chs && p.1 in chs && p.0.term < p.1.term {
      var a :| 0 <= a < |chs| && chs[a] == p.0;
      var b :| 0 <= b < |chs| && chs[b] == p.1;
      assert a < b;
    }
  }

  // ---- One pair ----------------------------------------------------------------------------

  function LoadOf(d: Design, ch: Channel): Option<seq<real>>
    requires InDesign(d, ch)
  {
    assert d.TermValid(ch.term);
    match d.terms[ch.term].columns[ch.column]
    case Constant => None
    case Covariate(k) => Some(d.covariates[k])
  }

  ghost predicate SplitRefused(w: PairSplit, config: ScalingConfig, budget: (nat, real) -> real, sqrt: real -> real) {
    exists k :: 0 <= k < |w.parts| && RefusedAt(w.parts, w.cls, config, budget, sqrt, k)
  }

  lemma OccurringActive(d: Design, ch: Channel, active: seq<seq<bool>>)
    requires InDesign(d, ch) && AllActive(d, active)
    ensures |active[ch.term]| == d.terms[ch.term].nLevels && |d.levels[ch.term]| == d.nObs
    ensures forall i :: 0 <= i < d.nObs ==> d.levels[ch.term][i] < |active[ch.term]| && OccursActive(d, ch, active[ch.term], i)
    ensures d.nObs > 0 <==> exists l :: 0 <= l < |active[ch.term]| && active[ch.term][l]
  {
    var q := ch.term;
    assert d.TermValid(q) && ActiveOf(d, q, active[q]);
    forall i | 0 <= i < d.nObs ensures active[q][d.levels[q][i]] { assert Occurs(d.levels[q], |d.levels[q]|, d.levels[q][i]); }
    if d.nObs > 0 { assert active[q][d.levels[q][0]]; }
    if l :| 0 <= l < |active[q]| && active[q][l] { assert Occurs(d.levels[q], |d.levels[q]|, l); }
  }

  lemma SquaresNonnegative(scale: Option<seq<real>>, p: PairColumns, n: nat)
    requires WeighsAs(scale, p.weights, n)
    ensures WeightsNonnegative(p)
  {
    if p.weights.Some? {
      forall u | 0 <= u < |p.weights.value| ensures p.weights.value[u] >= 0.0 { SquareNonneg(scale.value[u], p.weights.value[u]); }
    }
  }

  lemma ColumnsOfPair(d: Design, scale: Option<seq<real>>, weights: Option<seq<real>>, rows: Channel, cols: Channel, p: PairColumns)
    requires InDesign(d, rows) && InDesign(d, cols) && Laid(d) && rows.term != cols.term && WeighsAs(scale, weights, d.nObs)
    requires p == PairColumns(d.levels[rows.term], d.levels[cols.term], LoadOf(d, rows), LoadOf(d, cols), weights)
    ensures PairOf(d, scale, rows, cols, p)
    ensures |p.rowLevels| == |p.colLevels| == d.nObs
    ensures (p.rowLoad.Some? ==> |p.rowLoad.value| == d.nObs) && (p.colLoad.Some? ==> |p.colLoad.value| == d.nObs)
    ensures p.weights.Some? ==> |p.weights.value| == d.nObs
  {
    assert d.TermValid(rows.term) && d.TermValid(cols.term);
  }

  /** One pair of channels: assembled, classified and split; nothing without observations. It
      fails exactly when a component of the pair is refused. */
  method DomainsOfPair(d: Design, ghost scale: Option<seq<real>>, weights: Option<seq<real>>, rows: Channel, cols: Channel,
                       active: seq<seq<bool>>, goSparse: bool, config: ScalingConfig, budget: (nat, real) -> real, sqrt: real -> real)
    returns (r: Result<seq<LocalDomain>, NotScalable>, warnings: seq<UncertifiedScaling>, ghost split: Option<PairSplit>)
    requires InDesign(d, rows) && InDesign(d, cols) && Laid(d) && rows.term != cols.term && WeighsAs(scale, weights, d.nObs)
    requires AllActive(d, active) && config.tolerance >= 0.0 && IsSqrt(sqrt)
    ensures split.None? <==> d.nObs == 0
    ensures split.None? ==> r == Ok([]) && warnings == []
    ensures split.Some? ==> CutSound(d, scale, split.value) && split.value.pair.rows == rows && split.value.pair.cols == cols
    ensures split.Some? ==> (r.Err? <==> SplitRefused(split.value, config, budget, sqrt))
    ensures split.Some? && r.Ok? ==>
              && SplitSound(d, scale, config, sqrt, split.value)
              && r.value == split.value.domains && warnings == Given(split.value.reports)
  {
    hide AllActive;
    hide Design.TermValid;
    hide Laid;
    hide Mapped;
    hide PairOf;
    hide PairSound;
    hide Accumulated;
    hide Partition;
    hide PartOf;
    hide Survivors;
    hide DomainsOf;
    hide RefusedAt;
    hide Given;
    hide CrossTab.Valid;
    hide CsrBlock.Nonnegative;
    hide CsrBlock.Nonzero;
    hide WeightsNonnegative;
    hide ExactLaplacian;
    hide ConnectedMatrix;
    hide Base;
    split := None;
    FlagsSized(d, active);
    OccurringActive(d, rows, active);
    OccurringActive(d, cols, active);
    var p := PairColumns(d.levels[rows.term], d.levels[cols.term], LoadOf(d, rows), LoadOf(d, cols), weights);
    ColumnsOfPair(d, scale, weights, rows, cols, p);
    SquaresNonnegative(scale, p, d.nObs);
    var built;
    ghost var levels;
    built, levels := BuildForPair(p, active[rows.term], active[cols.term], Base(d, rows), Base(d, cols), goSparse);
    if built.None? {
      return Ok([]), [], None;
    }
    var (x, rowDiag, colDiag, l2g) := built.value;
    var cls := if p.rowLoad.None? && p.colLoad.None? then KnownLaplacian else General;
    var comps;
    ghost var parts, alive, reports;
    r, warnings, comps, parts, alive, reports := SplitIntoSubdomains(x, rowDiag, colDiag, l2g, cls, config, budget, sqrt);
    ghost var pair := AssembledPair(rows, cols, p, active[rows.term], active[cols.term], levels, l2g, x, rowDiag, colDiag);
    split := Some(PairSplit(pair, cls, comps, parts, alive, if r.Ok? then r.value else [], reports));
    IsSound(d, scale, pair);
  }

  lemma FlagsSized(d: Design, active: seq<seq<bool>>)
    requires AllActive(d, active)
    ensures |active| == |d.terms| == |d.levels|
  {
  }

  lemma IsSound(d: Design, scale: Option<seq<real>>, q: AssembledPair)
    requires PairOf(d, scale, q.rows, q.cols, q.columns) && InDesign(d, q.rows) && InDesign(d, q.cols)
    requires |q.activeRows| == d.terms[q.rows.term].nLevels && |q.activeCols| == d.terms[q.cols.term].nLevels
    requires Mapped(q.activeRows, q.activeCols, Base(d, q.rows), Base(d, q.cols), q.active, q.l2g)
    requires forall i :: 0 <= i < d.nObs ==> OccursActive(d, q.rows, q.activeRows, i) && OccursActive(d, q.cols, q.activeCols, i)
    requires q.crossTab.Valid() && Accumulated(q.columns, q.active, q.crossTab.c, q.rowDiag, q.colDiag)
    ensures PairSound(d, scale, q)
  {
    hide Mapped;
    hide PairOf;
    hide Accumulated;
    hide CrossTab.Valid;
    hide OccursActive;
  }

  // ---- All pairs ---------------------------------------------------------------------------

  function AllDomains(splits: seq<PairSplit>): seq<LocalDomain> {
    if splits == [] then [] else AllDomains(splits[..|splits| - 1]) + splits[|splits| - 1].domains
  }

  function AllWarnings(splits: seq<PairSplit>): seq<UncertifiedScaling> {
    if splits == [] then [] else AllWarnings(splits[..|splits| - 1]) + Given(splits[|splits| - 1].reports)
  }

  lemma AllPush(splits: seq<PairSplit>, w: PairSplit)
    ensures AllDomains(splits + [w]) == AllDomains(splits) + w.domains
    ensures AllWarnings(splits + [w]) == AllWarnings(splits) + Given(w.reports)
  {
    hide Given;
    assert (splits + [w])[..|splits|] == splits;
  }

  /** One sound cut per pair, in order; none without observations. */
  ghost predicate CutsOf(d: Design, scale: Option<seq<real>>, pairs: seq<(Channel, Channel)>, splits: seq<PairSplit>) {
    && |splits| == (if d.nObs == 0 then 0 else |pairs|)
    && forall t :: 0 <= t < |splits| ==> CutSound(d, scale, splits[t]) && (splits[t].pair.rows, splits[t].pair.cols) == pairs[t]
  }

  ghost predicate AllSplit(d: Design, scale: Option<seq<real>>, config: ScalingConfig, sqrt: real -> real, splits: seq<PairSplit>) {
    forall t :: 0 <= t < |splits| ==> SplitSound(d, scale, config, sqrt, splits[t])
  }

  ghost predicate SomeRefused(splits: seq<PairSplit>, config: ScalingConfig, budget: (nat, real) -> real, sqrt: real -> real) {
    exists t :: 0 <= t < |splits| && SplitRefused(splits[t], config, budget, sqrt)
  }

  /** Some column of the design is a slope. */
  predicate HasSlope(d: Design) {
    exists q, c :: 0 <= q < |d.terms| && 0 <= c < |d.terms[q].columns| && d.terms[q].columns[c].Covariate?
  }

  function GlobalsOf(domains: seq<LocalDomain>): (ids: seq<seq<nat>>)
    ensures |ids| == |domains|
  {
    seq(|domains|, k requires 0 <= k < |domains| => domains[k].globals)
  }

  /** Uniform weights with a slope among the columns; otherwise the squared weights of every
      held coefficient add up to one. */
  ghost predicate Weighted(d: Design, domains: seq<LocalDomain>, weights: seq<PartitionWeights>) {
    var ids := GlobalsOf(domains);
    && |weights| == |domains|
    && (forall k :: 0 <= k < |domains| ==> weights[k].Len() == |ids[k]| && PositiveWeights(weights[k]))
    && if HasSlope(d) then forall k :: 0 <= k < |domains| ==> weights[k] == Uniform(|ids[k]|)
       else forall g: nat :: g < d.nDofs && Holders(ids, g, |ids|) > 0 ==> TotalAt(ids, weights, g, |ids|) == 1.0
  }

  /** `build_local_domains`: the domains of every pair of channels of two terms, in order, with
      their partition weights. It fails exactly when a component of some pair is refused. */
  method BuildLocalDomains(d: Design, ghost scale: Option<seq<real>>, weights: Option<seq<real>>, goSparse: (Channel, Channel) -> bool,
                           config: ScalingConfig, budget: (nat, real) -> real, sqrt: real -> real)
    returns (r: Result<(seq<LocalDomain>, seq<PartitionWeights>), NotScalable>, warnings: seq<UncertifiedScaling>, ghost splits: seq<PairSplit>)
    requires d.Valid() && Laid(d) && WeighsAs(scale, weights, d.nObs)
    requires config.tolerance >= 0.0 && IsSqrt(sqrt)
    ensures CutsOf(d, scale, DesignPairs(d), splits)
    ensures r.Err? <==> SomeRefused(splits, config, budget, sqrt)
    ensures r.Ok? ==> AllSplit(d, scale, config, sqrt, splits) && r.value.0 == AllDomains(splits) && warnings == AllWarnings(splits)
    ensures r.Ok? ==> Weighted(d, r.value.0, r.value.1)
  {
    hide CutsOf;
    hide AllSplit;
    hide SomeRefused;
    hide SplitRefused;
    hide CutSound;
    hide SplitSound;
    hide Design.Valid;
    hide Laid;
    hide WeighsAs;
    hide DesignPairs;
    hide AllDomains;
    hide AllWarnings;
    hide AllActive;
    hide Given;
    hide Weighted;
    var active := FindAllActiveLevels(d);
    var pairs := DesignPairs(d);
    var failed := false;
    var domains := [];
    warnings, splits := [], [];
    NoCuts(d, scale, pairs, config, budget, sqrt);
    for t := 0 to |pairs|
      invariant CutsOf(d, scale, pairs[..t], splits)
      invariant failed <==> SomeRefused(splits, config, budget, sqrt)
      invariant !failed ==> AllSplit(d, scale, config, sqrt, splits) && domains == AllDomains(splits) && warnings == AllWarnings(splits)
    {
      var (rows, cols) := pairs[t];
      DesignPairsExactly(d, pairs[t]);
      var one, given;
      ghost var split;
      one, given, split := DomainsOfPair(d, scale, weights, rows, cols, active, goSparse(rows, cols), config, budget, sqrt);
      if one.Err? { failed := true; } else { domains, warnings := domains + one.value, warnings + given; }
      if split.Some? {
        CutsPush(d, scale, pairs, t, splits, split.value);
        AllPush(splits, split.value);
        RefusedPush(splits, split.value, config, budget, sqrt);
        if one.Ok? && !failed { SplitPush(d, scale, config, sqrt, splits, split.value); }
        splits := splits + [split.value];
      } else {
        CutsIdle(d, scale, pairs, t, splits);
      }
    }
    assert pairs[..|pairs|] == pairs;
    if failed {
      return Err(NotScalable), warnings, splits;
    }
    var w := DomainPartition(d, scale, config, domains, sqrt, splits);
    r := Ok((domains, w));
  }

  lemma NoCuts(d: Design, scale: Option<seq<real>>, pairs: seq<(Channel, Channel)>, config: ScalingConfig, budget: (nat, real) -> real, sqrt: real -> real)
    ensures CutsOf(d, scale, pairs[..0], []) && !SomeRefused([], config, budget, sqrt)
    ensures AllSplit(d, scale, config, sqrt, []) && AllDomains([]) == [] && AllWarnings([]) == []
  {
  }

  lemma CutsIdle(d: Design, scale: Option<seq<real>>, pairs: seq<(Channel, Channel)>, t: nat, splits: seq<PairSplit>)
    requires t < |pairs| && d.nObs == 0 && CutsOf(d, scale, pairs[..t], splits)
    ensures CutsOf(d, scale, pairs[..t + 1], splits)
  {
    hide CutSound;
  }

  lemma SplitPush(d: Design, scale: Option<seq<real>>, config: ScalingConfig, sqrt: real -> real, splits: seq<PairSplit>, w: PairSplit)
    requires AllSplit(d, scale, config, sqrt, splits) && SplitSound(d, scale, config, sqrt, w)
    ensures AllSplit(d, scale, config, sqrt, splits + [w])
  {
    hide SplitSound;
  }

  lemma CutsPush(d: Design, scale: Option<seq<real>>, pairs: seq<(Channel, Channel)>, t: nat, splits: seq<PairSplit>, w: PairSplit)
    requires t < |pairs| && d.nObs > 0 && CutsOf(d, scale, pairs[..t], splits)
    requires CutSound(d, scale, w) && (w.pair.rows, w.pair.cols) == pairs[t]
    ensures CutsOf(d, scale, pairs[..t + 1], splits + [w])
  {
    hide CutSound;
  }

  lemma RefusedPush(splits: seq<PairSplit>, w: PairSplit, config: ScalingConfig, budget: (nat, real) -> real, sqrt: real -> real)
    ensures SomeRefused(splits + [w], config, budget, sqrt) <==> SomeRefused(splits, config, budget, sqrt) || SplitRefused(w, config, budget, sqrt)
  {
    hide SplitRefused;
    var more := splits + [w];
    if t :| 0 <= t < |splits| && SplitRefused(splits[t], config, budget, sqrt) { assert more[t] == splits[t]; }
    if SplitRefused(w, config, budget, sqrt) { assert more[|splits|] == w; }
  }

  /** The weights: uniform with a slope, shared counts otherwise. */
  method DomainPartition(d: Design, ghost scale: Option<seq<real>>, ghost config: ScalingConfig, domains: seq<LocalDomain>, sqrt: real -> real,
                         ghost splits: seq<PairSplit>)
    returns (weights: seq<PartitionWeights>)
    requires IsSqrt(sqrt) && AllSplit(d, scale, config, sqrt, splits) && domains == AllDomains(splits)
    ensures Weighted(d, domains, weights)
  {
    hide AllSplit;
    hide AllDomains;
    hide InDofs;
    var ids := GlobalsOf(domains);
    if HasSlope(d) {
      weights := seq(|domains|, k requires 0 <= k < |domains| => Uniform(|domains[k].globals|));
    } else {
      GlobalsInDofs(d, scale, config, sqrt, splits);
      weights := ComputePartitionWeights(ids, d.nDofs, sqrt);
    }
  }

  // ---- Ids ---------------------------------------------------------------------------------

  /** Every domain comes from some pair. */
  lemma {:induction false} SourceOf(splits: seq<PairSplit>, k: nat) returns (t: nat, u: nat)
    requires k < |AllDomains(splits)|
    ensures t < |splits| && u < |splits[t].domains| && AllDomains(splits)[k] == splits[t].domains[u]
  {
    var rest := splits[..|splits| - 1];
    if k < |AllDomains(rest)| {
      t, u := SourceOf(rest, k);
    } else {
      t, u := |splits| - 1, k - |AllDomains(rest)|;
    }
  }

  /** And every domain of a pair is among them. */
  lemma {:induction false} PlaceOf(splits: seq<PairSplit>, t: nat, u: nat) returns (k: nat)
    requires t < |splits| && u < |splits[t].domains|
    ensures k < |AllDomains(splits)| && AllDomains(splits)[k] == splits[t].domains[u]
  {
    var rest := splits[..|splits| - 1];
    if t < |rest| {
      k := PlaceOf(rest, t, u);
    } else {
      k := |AllDomains(rest)| + u;
    }
  }

  lemma GlobalsInDofs(d: Design, scale: Option<seq<real>>, config: ScalingConfig, sqrt: real -> real, splits: seq<PairSplit>)
    requires AllSplit(d, scale, config, sqrt, splits)
    ensures InDofs(GlobalsOf(AllDomains(splits)), d.nDofs)
  {
    hide SplitSound;
    hide AllDomains;
    var domains := AllDomains(splits);
    forall k, i | 0 <= k < |domains| && 0 <= i < |domains[k].globals| ensures domains[k].globals[i] < d.nDofs {
      var t, u := SourceOf(splits, k);
      DomainIds(d, scale, config, sqrt, splits[t], u, i);
    }
  }

  // ---- The preconditioner built from the domains -------------------------------------------

  /** A domain's entry: its weights and the solver built for its component, which succeeds. */
  ghost predicate BuiltEntry(e: SubdomainEntry, nDofs: nat, dom: LocalDomain, w: PartitionWeights, s: BlockElimSolver) {
    && SolverOf(s, dom.component) && e.Valid(nDofs) && e.indices == dom.globals && e.weights == w
    && forall r :: |r| == |e.indices| ==> SolvedBy(e, s, dom.component.matrix, r)
  }

  ghost predicate EntriesOf(nDofs: nat, domains: seq<LocalDomain>, weights: seq<PartitionWeights>, entries: seq<SubdomainEntry>, solvers: seq<BlockElimSolver>) {
    && |entries| == |solvers| == |domains| == |weights|
    && forall k :: 0 <= k < |entries| ==> BuiltEntry(entries[k], nDofs, domains[k], weights[k], solvers[k])
  }

  /** Everything `BuildLocalDomains` promises of a success, and the entries made of it. */
  ghost predicate Prepared(d: Design, scale: Option<seq<real>>, config: ScalingConfig, sqrt: real -> real, splits: seq<PairSplit>,
                           weights: seq<PartitionWeights>, entries: seq<SubdomainEntry>, solvers: seq<BlockElimSolver>) {
    && CutsOf(d, scale, DesignPairs(d), splits) && AllSplit(d, scale, config, sqrt, splits) && Weighted(d, AllDomains(splits), weights)
    && EntriesOf(d.nDofs, AllDomains(splits), weights, entries, solvers)
  }

  /** No general component taken as ungrounded lost anything in its conversion. */
  ghost predicate AllWhole(config: ScalingConfig, sqrt: real -> real, splits: seq<PairSplit>) {
    forall t, u :: 0 <= t < |splits| && 0 <= u < |splits[t].domains| ==> WholeAt(config, sqrt, splits[t], u)
  }

  ghost predicate WholeAt(config: ScalingConfig, sqrt: real -> real, w: PairSplit, u: int)
    requires 0 <= u < |w.domains|
  {
    u < |w.alive| && w.alive[u] < |w.parts| ==> KeptWhole(w.parts[w.alive[u]], w.cls, config, sqrt, w.domains[u])
  }

  lemma EntryAt(d: Design, scale: Option<seq<real>>, config: ScalingConfig, sqrt: real -> real, splits: seq<PairSplit>,
                weights: seq<PartitionWeights>, entries: seq<SubdomainEntry>, solvers: seq<BlockElimSolver>, k: nat) returns (t: nat, u: nat)
    requires Prepared(d, scale, config, sqrt, splits, weights, entries, solvers) && k < |entries|
    ensures |solvers| == |entries| && t < |splits| && u < |splits[t].domains| && SplitSound(d, scale, config, sqrt, splits[t])
    ensures SolverOf(solvers[k], splits[t].domains[u].component) && EntryOf(entries[k], d.nDofs, splits[t].domains[u], solvers[k])
  {
    hide CutsOf;
    hide SplitSound;
    hide SolverOf;
    hide SolvedBy;
    hide AllDomains;
    hide PositiveWeights;
    hide Weighted;
    t, u := SourceOf(splits, k);
    WeightsPositive(d, AllDomains(splits), weights, k);
    assert SplitSound(d, scale, config, sqrt, splits[t]);
    assert BuiltEntry(entries[k], d.nDofs, AllDomains(splits)[k], weights[k], solvers[k]);
  }

  lemma WeightsPositive(d: Design, domains: seq<LocalDomain>, weights: seq<PartitionWeights>, k: nat)
    requires Weighted(d, domains, weights) && k < |domains|
    ensures |weights| == |domains| && PositiveWeights(weights[k])
  {
    hide PositiveWeights;
    hide HasSlope;
  }

  /** Every entry runs a connected component's solver. */
  lemma BuiltRun(d: Design, scale: Option<seq<real>>, config: ScalingConfig, sqrt: real -> real, splits: seq<PairSplit>,
                 weights: seq<PartitionWeights>, entries: seq<SubdomainEntry>, solvers: seq<BlockElimSolver>)
    requires Prepared(d, scale, config, sqrt, splits, weights, entries, solvers) && RoundoffNonnegative(config)
    ensures RunningDomains(d.nDofs, entries)
  {
    hide Prepared;
    hide SplitSound;
    hide SolverOf;
    hide EntryOf;
    hide Running;
    hide PairSound;
    hide CutFrom;
    hide ClassFits;
    hide RoundoffNonnegative;
    forall k | 0 <= k < |entries| ensures RunningDomain(d.nDofs, entries[k]) {
      var t, u := EntryAt(d, scale, config, sqrt, splits, weights, entries, solvers, k);
      var w := splits[t];
      DomainCut(d, scale, config, sqrt, w, u);
      DomainRuns(d, scale, w.pair, w.comps[w.alive[u]], w.parts[w.alive[u]], w.cls, config, sqrt, w.domains[u], w.reports[u], solvers[k], entries[k]);
      assert Running(d.nDofs, entries[k], solvers[k], w.domains[u].component.matrix);
    }
  }

  /** Without loss every entry serves the design. */
  lemma BuiltServe(d: Design, scale: Option<seq<real>>, config: ScalingConfig, sqrt: real -> real, splits: seq<PairSplit>,
                   weights: seq<PartitionWeights>, entries: seq<SubdomainEntry>, solvers: seq<BlockElimSolver>)
    requires Prepared(d, scale, config, sqrt, splits, weights, entries, solvers) && RoundoffNonnegative(config) && AllWhole(config, sqrt, splits)
    ensures DesignDomains(d, scale, entries)
  {
    hide Prepared;
    hide SplitSound;
    hide SolverOf;
    hide EntryOf;
    hide Served;
    hide PairSound;
    hide CutFrom;
    hide ClassFits;
    hide KeptWhole;
    hide RoundoffNonnegative;
    forall k | 0 <= k < |entries| ensures DesignDomain(d, scale, entries[k]) {
      var t, u := EntryAt(d, scale, config, sqrt, splits, weights, entries, solvers, k);
      var w := splits[t];
      DomainCut(d, scale, config, sqrt, w, u);
      assert WholeAt(config, sqrt, w, u);
      DomainServes(d, scale, w.pair, w.comps[w.alive[u]], w.parts[w.alive[u]], w.cls, config, sqrt, w.domains[u], w.reports[u], solvers[k], entries[k]);
      assert Served(d, scale, entries[k], solvers[k], w.domains[u].component.matrix);
    }
  }

  /** Every term has a column, and there is more than one term. */
  ghost predicate SeveralTerms(d: Design) {
    |d.terms| >= 2 && forall q :: 0 <= q < |d.terms| ==> |d.terms[q].columns| > 0
  }

  /** A channel's pair with a channel of another term. */
  lemma PairWith(d: Design, ch: Channel) returns (t: nat)
    requires InDesign(d, ch) && SeveralTerms(d)
    ensures t < |DesignPairs(d)| && (DesignPairs(d)[t].0 == ch || DesignPairs(d)[t].1 == ch)
  {
    hide Design.Valid;
    hide DesignPairs;
    var other := Channel(if ch.term == 0 then 1 else 0, 0);
    var p := if ch.term == 0 then (ch, other) else (other, ch);
    DesignPairsExactly(d, p);
    t :| 0 <= t < |DesignPairs(d)| && DesignPairs(d)[t] == p;
  }

  lemma NonemptyHeld(d: Design, scale: Option<seq<real>>, config: ScalingConfig, sqrt: real -> real, splits: seq<PairSplit>, i: nat, j: nat)
    returns (t: nat, u: nat)
    requires CutsOf(d, scale, DesignPairs(d), splits) && AllSplit(d, scale, config, sqrt, splits) && d.Valid() && SeveralTerms(d)
    requires i < d.nObs && Matrix(d, scale)(i, j) != 0.0
    ensures t < |splits| && u < |splits[t].domains| && AmongIds(splits[t].domains[u], j)
  {
    hide DesignPairs;
    hide CutSound;
    hide SplitSound;
    hide AmongIds;
    hide Base;
    hide Design.Entry;
    hide SeveralTerms;
    ZeroScale(ScaleAt(scale, i), d.Entry(i)(j));
    assert Matrix(d, scale)(i, j) == ScaleAt(scale, i) * d.Entry(i)(j);
    var ch := EntryChannel(d, i, j);
    t := PairWith(d, ch);
    assert SplitSound(d, scale, config, sqrt, splits[t]);
    u := ColumnHeld(d, scale, config, sqrt, splits[t], ch, i, j);
  }

  lemma ZeroScale(a: real, b: real)
    ensures b == 0.0 ==> a * b == 0.0
  {
  }

  /** Every coefficient whose column is not empty is held by some entry. */
  lemma BuiltCover(d: Design, scale: Option<seq<real>>, config: ScalingConfig, sqrt: real -> real, splits: seq<PairSplit>,
                   weights: seq<PartitionWeights>, entries: seq<SubdomainEntry>, solvers: seq<BlockElimSolver>)
    requires Prepared(d, scale, config, sqrt, splits, weights, entries, solvers) && d.Valid() && SeveralTerms(d)
    ensures UncoveredEmpty(d, scale, entries)
  {
    hide CutsOf;
    hide AllSplit;
    hide Weighted;
    hide SeveralTerms;
    hide Design.Valid;
    hide AllDomains;
    hide SolverOf;
    hide SolvedBy;
    hide Matrix;
    forall j | 0 <= j < d.nDofs ensures Covered(entries, j) || EmptyColumn(d, scale, j) {
      if i :| 0 <= i < d.nObs && Matrix(d, scale)(i, j) != 0.0 {
        var t, u := NonemptyHeld(d, scale, config, sqrt, splits, i, j);
        var k := PlaceOf(splits, t, u);
        assert BuiltEntry(entries[k], d.nDofs, AllDomains(splits)[k], weights[k], solvers[k]);
        assert Holds(entries[k], j);
      }
    }
  }

  /** The preconditioner built for a design meets what the iterative solver asks of it; and when
      nothing was lost in converting the ungrounded components, it is definite on the gradients. */
  lemma BuiltPreconditioner(d: Design, scale: Option<seq<real>>, config: ScalingConfig, sqrt: real -> real, splits: seq<PairSplit>,
                            weights: seq<PartitionWeights>, entries: seq<SubdomainEntry>, solvers: seq<BlockElimSolver>, u: seq<real>)
    requires Prepared(d, scale, config, sqrt, splits, weights, entries, solvers) && RoundoffNonnegative(config)
    requires d.Valid() && |u| == d.nObs
    ensures Operators(SchwarzSystem(d, scale, entries))
    ensures AllWhole(config, sqrt, splits) && SeveralTerms(d) ==>
              var sys := SchwarzSystem(d, scale, entries);
              sys.precond(sys.adjoint(u)) == Zeros(d.nDofs) <==> sys.adjoint(u) == Zeros(d.nDofs)
  {
    hide Prepared;
    hide AllWhole;
    hide Operators;
    hide SoundEntries;
    hide RunningDomains;
    hide DesignDomains;
    hide UncoveredEmpty;
    hide RoundoffNonnegative;
    hide SeveralTerms;
    hide Design.Valid;
    BuiltRun(d, scale, config, sqrt, splits, weights, entries, solvers);
    SchwarzSystemOperators(d, scale, entries);
    if AllWhole(config, sqrt, splits) && SeveralTerms(d) {
      BuiltServe(d, scale, config, sqrt, splits, weights, entries, solvers);
      BuiltCover(d, scale, config, sqrt, splits, weights, entries, solvers);
      SchwarzDefinite(d, scale, entries, u);
    }
  }
}
