/** Scatter-add of one term: four strategies, one result
    (crates/within/src/operator/design/scatter.rs:76-242). */
module Scatter {
  import opened Wrappers
  import opened Sums
  import opened Subdomains
  import Atomic = AtomicBackend

  /** `c · L + level` */
  function Place(c: nat, nLevels: nat, level: nat): nat { c * nLevels + level }

  lemma PlaceBound(c: nat, columns: nat, nLevels: nat, level: nat)
    requires c < columns && level < nLevels
    ensures Place(c, nLevels, level) < columns * nLevels
  {
    assert (c + 1) * nLevels == c * nLevels + nLevels;
    assert (c + 1) * nLevels <= columns * nLevels;
  }

  /** Rows of one term: the level and the column values of every observation. */
  datatype TermRows = TermRows(columns: nat, nLevels: nat, levels: seq<nat>, values: seq<seq<real>>) {
    ghost predicate Valid() {
      && |values| == |levels|
      && (forall i :: 0 <= i < |levels| ==> levels[i] < nLevels)
      && (forall i :: 0 <= i < |values| ==> |values[i]| == columns)
    }

    ghost predicate Fits(block: seq<real>) { Valid() && |block| == columns * nLevels }
  }

  /** The first `n` additions of row `i`: value `c` goes to `c · L + level(i)`. */
  function RowAdds(t: TermRows, i: nat, n: nat): (a: seq<(nat, real)>)
    requires i < |t.levels| && i < |t.values| && n <= |t.values[i]|
  {
    if n == 0 then [] else RowAdds(t, i, n - 1) + [(Place(n - 1, t.nLevels, t.levels[i]), t.values[i][n - 1])]
  }

  /** What row `i` adds at `d`. */
  ghost function RowAt(t: TermRows, i: int, d: int): real {
    if 0 <= i < |t.levels| && i < |t.values| then AddedAt(RowAdds(t, i, |t.values[i]|), d) else 0.0
  }

  /** What rows `lo..hi` add at `d`. */
  ghost function RangeAt(t: TermRows, lo: nat, hi: nat, d: int): real
    requires lo <= hi
    decreases hi
  {
    if lo == hi then 0.0 else RangeAt(t, lo, hi - 1, d) + RowAt(t, hi - 1, d)
  }

  lemma {:induction false} RangeJoin(t: TermRows, lo: nat, mid: nat, hi: nat, d: int)
    requires lo <= mid <= hi
    ensures RangeAt(t, lo, hi, d) == RangeAt(t, lo, mid, d) + RangeAt(t, mid, hi, d)
    decreases hi
  {
    if mid < hi { RangeJoin(t, lo, mid, hi - 1, d); }
  }

  lemma {:induction false} RangeIsSum(t: TermRows, n: nat, d: int)
    ensures RangeAt(t, 0, n, d) == Sum(n, i => RowAt(t, i, d))
  {
    if n > 0 {
      RangeIsSum(t, n - 1, d);
      SumStep(n - 1, i => RowAt(t, i, d));
    }
  }

  /** The block after rows `lo..hi` have been added to `start`. */
  ghost predicate AddedRows(t: TermRows, start: seq<real>, block: seq<real>, lo: nat, hi: nat)
    requires lo <= hi
  {
    |block| == |start| && forall d :: 0 <= d < |block| ==> block[d] == start[d] + RangeAt(t, lo, hi, d)
  }

  /** Adding one row in place. */
  method AddRow(t: TermRows, block: seq<real>, i: nat) returns (r: seq<real>)
    requires t.Fits(block) && i < |t.levels|
    ensures |r| == |block| && forall d :: 0 <= d < |r| ==> r[d] == block[d] + RowAt(t, i, d)
  {
    hide AddedAt;
    hide Place;
    r := block;
    forall d ensures AddedAt([], d) == 0.0 { NothingAdded(d); }
    for c := 0 to |t.values[i]|
      invariant |r| == |block| && forall d :: 0 <= d < |r| ==> r[d] == block[d] + AddedAt(RowAdds(t, i, c), d)
    {
      var q := Place(c, t.nLevels, t.levels[i]);
      PlaceBound(c, t.columns, t.nLevels, t.levels[i]);
      ghost var next := c + 1;
      forall d | 0 <= d < |r| ensures AddedAt(RowAdds(t, i, next), d) == AddedAt(RowAdds(t, i, c), d) + if q == d then t.values[i][c] else 0.0 {
        AddedAtPush(RowAdds(t, i, c), (q, t.values[i][c]), d);
      }
      r := r[q := r[q] + t.values[i][c]];
    }
  }

  lemma NothingAdded(d: int)
    ensures AddedAt([], d) == 0.0
  {
  }

  /** Rows `lo..hi`, in order. */
  method AddRange(t: TermRows, block: seq<real>, lo: nat, hi: nat) returns (r: seq<real>)
    requires t.Fits(block) && lo <= hi <= |t.levels|
    ensures AddedRows(t, block, r, lo, hi)
  {
    hide RowAt;
    r := block;
    for i := lo to hi
      invariant AddedRows(t, block, r, lo, i)
    {
      r := AddRow(t, r, i);
    }
  }

  /** `scatter_sequential` */
  method ScatterSequential(t: TermRows, block: seq<real>) returns (r: seq<real>)
    requires t.Fits(block)
    ensures AddedRows(t, block, r, 0, |t.levels|)
  {
    r := AddRange(t, block, 0, |t.levels|);
  }

  // ---- Fold and reduce ---------------------------------------------------------------------

  /** How the scheduler splits a range of rows; any tree may occur. */
  datatype Split = Whole | Halves(mid: nat, left: Split, right: Split)

  predicate SplitFits(split: Split, lo: nat, hi: nat) {
    lo <= hi && match split
    case Whole => true
    case Halves(mid, left, right) => lo <= mid <= hi && SplitFits(left, lo, mid) && SplitFits(right, mid, hi)
  }

  /** Elementwise addition, as the reduction and the final add do it. */
  method AddInto(a: seq<real>, b: seq<real>) returns (r: seq<real>)
    requires |a| == |b|
    ensures |r| == |a| && forall d :: 0 <= d < |r| ==> r[d] == a[d] + b[d]
  {
    r := a;
    for d := 0 to |a|
      invariant |r| == |a| && (forall e :: 0 <= e < d ==> r[e] == a[e] + b[e]) && forall e :: d <= e < |r| ==> r[e] == a[e]
    {
      r := r[d := r[d] + b[d]];
    }
  }

  /** Local accumulators start at zero and are merged up the tree. */
  method FoldReduce(t: TermRows, split: Split, lo: nat, hi: nat) returns (acc: seq<real>)
    requires t.Valid() && SplitFits(split, lo, hi) && hi <= |t.levels|
    ensures |acc| == t.columns * t.nLevels && forall d :: 0 <= d < |acc| ==> acc[d] == RangeAt(t, lo, hi, d)
    decreases split
  {
    hide RangeAt;
    match split {
      case Whole =>
        acc := seq(t.columns * t.nLevels, _ => 0.0);
        acc := AddRange(t, acc, lo, hi);
      case Halves(mid, left, right) =>
        var a := FoldReduce(t, left, lo, mid);
        var b := FoldReduce(t, right, mid, hi);
        acc := AddInto(a, b);
        forall d | 0 <= d < |acc| ensures acc[d] == RangeAt(t, lo, hi, d) { RangeJoin(t, lo, mid, hi, d); }
    }
  }

  /** `scatter_fold` */
  method ScatterFold(t: TermRows, block: seq<real>, split: Split) returns (r: seq<real>)
    requires t.Fits(block) && SplitFits(split, 0, |t.levels|)
    ensures AddedRows(t, block, r, 0, |t.levels|)
  {
    hide RangeAt;
    var result := FoldReduce(t, split, 0, |t.levels|);
    r := AddInto(block, result);
  }

  // ---- Atomic additions --------------------------------------------------------------------

  /** The machine of concurrent tasks over seeded cells. */
  function Seeded(block: seq<real>, tasks: nat): Atomic.State {
    Atomic.State(block, seq(tasks, _ => Atomic.Task.Waiting))
  }

  /** Every task is planned, inside the block. */
  ghost predicate Planned(plan: Atomic.Plan, n: nat) {
    (forall k :: 0 <= k < |plan| ==> plan[k].Some?) && Atomic.PlanFits(plan, n)
  }

  /** The schedule lets every task finish. */
  predicate Finishes(plan: Atomic.Plan, block: seq<real>, schedule: seq<Atomic.Step>) {
    Atomic.AllFinished(Atomic.Run(plan, Seeded(block, |plan|), schedule))
  }

  /** Under every interleaving the cells end as the seed plus everything planned. */
  lemma AtomicTotal(plan: Atomic.Plan, block: seq<real>, schedule: seq<Atomic.Step>, d: nat)
    requires Planned(plan, |block|) && Finishes(plan, block, schedule) && d < |block|
    ensures var st := Atomic.Run(plan, Seeded(block, |plan|), schedule);
      |st.cells| == |block| && st.cells[d] == block[d] + SchwarzSum(plan, d)
  {
    hide Sum;
    hide Atomic.Run;
    var st := Seeded(block, |plan|);
    SumCong(|plan|, Atomic.Owed(plan, st.tasks, d), s => if 0 <= s < |plan| then PlannedAt(plan[s], d) else 0.0);
    Atomic.RunConserves(plan, st, schedule, d);
    Atomic.FinishedOwes(plan, Atomic.Run(plan, st, schedule), d);
  }

  /** Seeding overwrites whatever an earlier call left in the shared scratch. */
  method SeedScratch(scratch: array<real>, block: seq<real>)
    requires |block| <= scratch.Length
    modifies scratch
    ensures scratch[..|block|] == block
  {
    for d := 0 to |block|
      invariant scratch[..d] == block[..d]
    {
      scratch[d] := block[d];
    }
  }

  /** Seed, let the tasks run, read back. */
  method RunTasks(plan: Atomic.Plan, block: seq<real>, scratch: array<real>, schedule: seq<Atomic.Step>) returns (r: seq<real>)
    requires |block| <= scratch.Length && Planned(plan, |block|) && Finishes(plan, block, schedule)
    modifies scratch
    ensures |r| == |block| && forall d :: 0 <= d < |r| ==> r[d] == block[d] + SchwarzSum(plan, d)
  {
    hide Atomic.Run;
    hide Planned;
    SeedScratch(scratch, block);
    r := Atomic.Run(plan, Seeded(scratch[..|block|], |plan|), schedule).cells;
    NoCells(plan, block, schedule);
    forall d | 0 <= d < |block| ensures r[d] == block[d] + SchwarzSum(plan, d) { AtomicTotal(plan, block, schedule, d); }
  }

  lemma {:induction false} RunKeepsCells(plan: Atomic.Plan, st: Atomic.State, schedule: seq<Atomic.Step>)
    ensures |Atomic.Run(plan, st, schedule).cells| == |st.cells|
  {
    if schedule != [] { RunKeepsCells(plan, st, schedule[..|schedule| - 1]); }
  }

  lemma NoCells(plan: Atomic.Plan, block: seq<real>, schedule: seq<Atomic.Step>)
    ensures |Atomic.Run(plan, Seeded(block, |plan|), schedule).cells| == |block|
  {
    RunKeepsCells(plan, Seeded(block, |plan|), schedule);
  }

  /** One task per row. */
  function RowPlan(t: TermRows): (p: Atomic.Plan)
    requires |t.values| == |t.levels|
    ensures |p| == |t.levels|
  {
    seq(|t.levels|, i requires 0 <= i < |t.levels| && |t.values| == |t.levels| => Some(RowAdds(t, i, |t.values[i]|)))
  }

  lemma {:induction false} RowInCells(t: TermRows, i: nat, n: nat)
    requires t.Valid() && i < |t.levels| && n <= t.columns
    ensures Atomic.InCells(RowAdds(t, i, n), t.columns * t.nLevels)
  {
    hide Place;
    if n > 0 {
      RowInCells(t, i, n - 1);
      PlaceBound(n - 1, t.columns, t.nLevels, t.levels[i]);
    }
  }

  lemma RowPlanTotal(t: TermRows, d: int)
    requires t.Valid()
    ensures Planned(RowPlan(t), t.columns * t.nLevels)
    ensures SchwarzSum(RowPlan(t), d) == RangeAt(t, 0, |t.levels|, d)
  {
    hide Sum;
    hide AddedAt;
    var p := RowPlan(t);
    forall i | 0 <= i < |p| ensures Atomic.InCells(p[i].value, t.columns * t.nLevels) { RowInCells(t, i, t.columns); }
    RangeIsSum(t, |t.levels|, d);
    SumCong(|p|, s => if 0 <= s < |p| then PlannedAt(p[s], d) else 0.0, i => RowAt(t, i, d));
  }

  /** `scatter_atomic` */
  method ScatterAtomic(t: TermRows, block: seq<real>, scratch: array<real>, schedule: seq<Atomic.Step>) returns (r: seq<real>)
    requires t.Fits(block) && |block| <= scratch.Length && Finishes(RowPlan(t), block, schedule)
    modifies scratch
    ensures AddedRows(t, block, r, 0, |t.levels|)
  {
    hide RangeAt;
    hide Finishes;
    RowPlanTotal(t, 0);
    r := RunTasks(RowPlan(t), block, scratch, schedule);
    forall d | 0 <= d < |r| ensures r[d] == block[d] + RangeAt(t, 0, |t.levels|, d) { RowPlanTotal(t, d); }
  }

  // ---- Sorted and coalesced ----------------------------------------------------------------

  /** Committing a run: one addition per column, at the run's level. */
  function Commits(t: TermRows, level: nat, sums: seq<real>, n: nat): seq<(nat, real)>
    requires n <= |sums|
  {
    if n == 0 then [] else Commits(t, level, sums, n - 1) + [(Place(n - 1, t.nLevels, level), sums[n - 1])]
  }

  function AddSums(sums: seq<real>, vals: seq<real>): (r: seq<real>)
    requires |sums| == |vals|
    ensures |r| == |sums|
  {
    seq(|sums|, c requires 0 <= c < |sums| == |vals| => sums[c] + vals[c])
  }

  lemma {:induction false} CommitsOfRow(t: TermRows, i: nat, n: nat)
    requires i < |t.levels| && i < |t.values| && n <= |t.values[i]|
    ensures Commits(t, t.levels[i], t.values[i], n) == RowAdds(t, i, n)
  {
    if n > 0 { CommitsOfRow(t, i, n - 1); }
  }

  lemma {:induction false} CommitsOfZero(t: TermRows, level: nat, sums: seq<real>, n: nat, d: int)
    requires n <= |sums| && forall c :: 0 <= c < |sums| ==> sums[c] == 0.0
    ensures AddedAt(Commits(t, level, sums, n), d) == 0.0
  {
    hide Place;
    if n > 0 {
      CommitsOfZero(t, level, sums, n - 1, d);
      AddedAtPush(Commits(t, level, sums, n - 1), (Place(n - 1, t.nLevels, level), sums[n - 1]), d);
    }
  }

  /** Summing first and committing once is committing each row. */
  lemma {:induction false} CommitsAdd(t: TermRows, level: nat, sums: seq<real>, vals: seq<real>, n: nat, d: int)
    requires n <= |sums| == |vals|
    ensures AddedAt(Commits(t, level, AddSums(sums, vals), n), d) ==
            AddedAt(Commits(t, level, sums, n), d) + AddedAt(Commits(t, level, vals, n), d)
  {
    hide Place;
    if n == 0 {
      NothingAdded(d);
    } else {
      var q, s := Place(n - 1, t.nLevels, level), AddSums(sums, vals);
      CommitsAdd(t, level, sums, vals, n - 1, d);
      AddedAtPush(Commits(t, level, s, n - 1), (q, s[n - 1]), d);
      AddedAtPush(Commits(t, level, sums, n - 1), (q, sums[n - 1]), d);
      AddedAtPush(Commits(t, level, vals, n - 1), (q, vals[n - 1]), d);
    }
  }

  lemma {:induction false} AddedAtJoin(a: seq<(nat, real)>, b: seq<(nat, real)>, d: int)
    ensures AddedAt(a + b, d) == AddedAt(a, d) + AddedAt(b, d)
    decreases |b|
  {
    if b == [] {
      assert a + b == a;
    } else {
      AddedAtJoin(a, b[..|b| - 1], d);
      assert a + b == (a + b[..|b| - 1]) + [b[|b| - 1]] && b == b[..|b| - 1] + [b[|b| - 1]];
      AddedAtPush(a + b[..|b| - 1], b[|b| - 1], d);
      AddedAtPush(b[..|b| - 1], b[|b| - 1], d);
    }
  }

  lemma {:induction false} CommitsInCells(t: TermRows, level: nat, sums: seq<real>, n: nat)
    requires n <= |sums| == t.columns && level < t.nLevels
    ensures Atomic.InCells(Commits(t, level, sums, n), t.columns * t.nLevels)
  {
    hide Place;
    if n > 0 {
      CommitsInCells(t, level, sums, n - 1);
      PlaceBound(n - 1, t.columns, t.nLevels, level);
    }
  }

  /** What a chunk has committed and still carries accounts for the rows it has read. */
  ghost predicate Carrying(t: TermRows, adds: seq<(nat, real)>, level: nat, sums: seq<real>, start: nat, i: nat) {
    && start <= i && |sums| == t.columns && level < t.nLevels && Atomic.InCells(adds, t.columns * t.nLevels)
    && forall d {:trigger RangeAt(t, start, i, d)} :: AddedAt(adds, d) + AddedAt(Commits(t, level, sums, |sums|), d) == RangeAt(t, start, i, d)
  }

  lemma CarryFirst(t: TermRows, start: nat)
    requires t.Valid() && start < |t.levels|
    ensures Carrying(t, [], t.levels[start], t.values[start], start, start + 1)
  {
    hide AddedAt;
    CommitsOfRow(t, start, t.columns);
    forall d {:trigger RangeAt(t, start, start + 1, d)} ensures AddedAt([], d) + AddedAt(Commits(t, t.levels[start], t.values[start], t.columns), d) == RangeAt(t, start, start + 1, d) {
      NothingAdded(d);
      assert RangeAt(t, start, start + 1, d) == RangeAt(t, start, start, d) + RowAt(t, start, d);
    }
  }

  /** A new level: the run is committed and the sums start over. */
  lemma CarryCommit(t: TermRows, adds: seq<(nat, real)>, level: nat, sums: seq<real>, start: nat, i: nat, next: nat, zeros: seq<real>)
    requires Carrying(t, adds, level, sums, start, i) && next < t.nLevels && |zeros| == t.columns && forall c :: 0 <= c < |zeros| ==> zeros[c] == 0.0
    ensures Carrying(t, adds + Commits(t, level, sums, |sums|), next, zeros, start, i)
  {
    hide AddedAt;
    hide RangeAt;
    var cs := Commits(t, level, sums, |sums|);
    CommitsInCells(t, level, sums, |sums|);
    forall d {:trigger RangeAt(t, start, i, d)} ensures AddedAt(adds + cs, d) + AddedAt(Commits(t, next, zeros, |zeros|), d) == RangeAt(t, start, i, d) {
      AddedAtJoin(adds, cs, d);
      CommitsOfZero(t, next, zeros, |zeros|, d);
    }
  }

  lemma CarryRow(t: TermRows, adds: seq<(nat, real)>, level: nat, sums: seq<real>, start: nat, i: nat)
    requires t.Valid() && i < |t.levels| && t.levels[i] == level && Carrying(t, adds, level, sums, start, i)
    ensures Carrying(t, adds, level, AddSums(sums, t.values[i]), start, i + 1)
  {
    hide AddedAt;
    hide AddSums;
    var s, next := AddSums(sums, t.values[i]), i + 1;
    CommitsOfRow(t, i, t.columns);
    forall d {:trigger RangeAt(t, start, next, d)} ensures AddedAt(adds, d) + AddedAt(Commits(t, level, s, |s|), d) == RangeAt(t, start, next, d) {
      CommitsAdd(t, level, sums, t.values[i], t.columns, d);
      assert RangeAt(t, start, next, d) == RangeAt(t, start, i, d) + RowAt(t, i, d);
    }
  }

  lemma CarryEnd(t: TermRows, adds: seq<(nat, real)>, level: nat, sums: seq<real>, start: nat, end: nat)
    requires Carrying(t, adds, level, sums, start, end)
    ensures Atomic.InCells(adds + Commits(t, level, sums, |sums|), t.columns * t.nLevels)
    ensures forall d :: AddedAt(adds + Commits(t, level, sums, |sums|), d) == RangeAt(t, start, end, d)
  {
    hide AddedAt;
    hide RangeAt;
    CommitsInCells(t, level, sums, |sums|);
    forall d ensures AddedAt(adds + Commits(t, level, sums, |sums|), d) == RangeAt(t, start, end, d) {
      AddedAtJoin(adds, Commits(t, level, sums, |sums|), d);
    }
  }

  /** The additions one chunk makes: equal-level runs are summed and committed once. */
  method ChunkCommits(t: TermRows, start: nat, end: nat) returns (adds: seq<(nat, real)>)
    requires t.Valid() && start < end <= |t.levels|
    ensures Atomic.InCells(adds, t.columns * t.nLevels)
    ensures forall d :: AddedAt(adds, d) == RangeAt(t, start, end, d)
  {
    hide AddedAt;
    hide RangeAt;
    hide Carrying;
    hide AddSums;
    hide Commits;
    var level, sums := t.levels[start], t.values[start];
    adds := [];
    CarryFirst(t, start);
    for i := start + 1 to end
      invariant Carrying(t, adds, level, sums, start, i) && |sums| == t.columns
    {
      var li := t.levels[i];
      if li != level {
        var zeros := seq(t.columns, _ => 0.0);
        CarryCommit(t, adds, level, sums, start, i, li, zeros);
        adds := adds + Commits(t, level, sums, |sums|);
        level, sums := li, zeros;
      }
      CarryRow(t, adds, level, sums, start, i);
      sums := AddSums(sums, t.values[i]);
    }
    CarryEnd(t, adds, level, sums, start, end);
    adds := adds + Commits(t, level, sums, |sums|);
  }

  /** A chunk's share, wherever the chunk boundaries fall. */
  ghost predicate ChunkPlan(t: TermRows, plan: Atomic.Plan, done: nat) {
    && done <= |t.levels| && (forall k :: 0 <= k < |plan| ==> plan[k].Some?)
    && Atomic.PlanFits(plan, t.columns * t.nLevels)
    && forall d {:trigger RangeAt(t, 0, done, d)} :: SchwarzSum(plan, d) == RangeAt(t, 0, done, d)
  }

  lemma ChunkPlanStart(t: TermRows)
    ensures ChunkPlan(t, [], 0)
  {
    forall d {:trigger RangeAt(t, 0, 0, d)} ensures SchwarzSum([], d) == RangeAt(t, 0, 0, d) {}
  }

  lemma SchwarzPush(plan: Atomic.Plan, adds: seq<(nat, real)>, d: int)
    ensures SchwarzSum(plan + [Some(adds)], d) == SchwarzSum(plan, d) + AddedAt(adds, d)
  {
    hide Sum;
    var p := plan + [Some(adds)];
    var f, g := (s: int) => if 0 <= s < |plan| then PlannedAt(plan[s], d) else 0.0, (s: int) => if 0 <= s < |p| then PlannedAt(p[s], d) else 0.0;
    SumStep(|plan|, g);
    SumCong(|plan|, f, g);
  }

  lemma ChunkPlanNext(t: TermRows, plan: Atomic.Plan, done: nat, next: nat, adds: seq<(nat, real)>)
    requires ChunkPlan(t, plan, done) && done <= next <= |t.levels| && Atomic.InCells(adds, t.columns * t.nLevels)
    requires forall d :: AddedAt(adds, d) == RangeAt(t, done, next, d)
    ensures ChunkPlan(t, plan + [Some(adds)], next)
  {
    hide Sum;
    hide AddedAt;
    hide RangeAt;
    hide SchwarzSum;
    forall d {:trigger RangeAt(t, 0, next, d)} ensures SchwarzSum(plan + [Some(adds)], d) == RangeAt(t, 0, next, d) {
      SchwarzPush(plan, adds, d);
      RangeJoin(t, 0, done, next, d);
    }
  }

  /** All chunks; the last may be short. */
  method CoalescedPlan(t: TermRows, chunk: nat) returns (plan: Atomic.Plan)
    requires t.Valid() && chunk > 0
    ensures ChunkPlan(t, plan, |t.levels|)
  {
    hide ChunkPlan;
    plan := [];
    ChunkPlanStart(t);
    var done := 0;
    while done < |t.levels|
      invariant done <= |t.levels| && ChunkPlan(t, plan, done)
    {
      var end := if done + chunk < |t.levels| then done + chunk else |t.levels|;
      var adds := ChunkCommits(t, done, end);
      ChunkPlanNext(t, plan, done, end, adds);
      plan := plan + [Some(adds)];
      done := end;
    }
  }

  /** `scatter_sorted_coalesced`, for every chunk size and every interleaving of the chunks'
      additions; a level run split across chunks is committed by both. */
  method ScatterSortedCoalesced(t: TermRows, block: seq<real>, scratch: array<real>, chunk: nat, schedule: Atomic.Plan -> seq<Atomic.Step>)
    returns (r: seq<real>)
    requires t.Fits(block) && |block| <= scratch.Length && chunk > 0
    requires forall plan :: ChunkPlan(t, plan, |t.levels|) ==> Finishes(plan, block, schedule(plan))
    modifies scratch
    ensures AddedRows(t, block, r, 0, |t.levels|)
  {
    hide RangeAt;
    hide Finishes;
    hide SchwarzSum;
    var plan := CoalescedPlan(t, chunk);
    r := RunTasks(plan, block, scratch, schedule(plan));
  }
}
