/** The pool of scratch buffers and the executor around both backends
    (crates/schwarz-precond/src/schwarz/buffers.rs:19-71, 105-137, crates/schwarz-precond/src/schwarz/executor.rs:53-165). */
module SchwarzExecutor {
  import opened Wrappers
  import opened Sums
  import opened Subdomains
  import opened Vectors
  import Atomic = AtomicBackend
  import Reduction = ReductionBackend

  datatype Strategy = AtomicScatter | ParallelReduction

  /** Pooled buffers by strategy; local scratch is counted only, its contents never matter. */
  datatype Buffers = AtomicBuffers(accum: seq<real>, scratch: nat) | ReductionBuffers(pool: seq<seq<real>>) {
    function Strategy(): Strategy { if AtomicBuffers? then AtomicScatter else ParallelReduction }

    /** Ready for the next apply: every accumulator is zero. */
    ghost predicate Clean(n: nat) {
      match this
      case AtomicBuffers(accum, _) => accum == Zeros(n)
      case ReductionBuffers(pool) => Reduction.AllZero(pool, n)
    }
  }

  function NewBuffers(strategy: Strategy, n: nat): Buffers {
    match strategy
    case AtomicScatter => AtomicBuffers(Zeros(n), 0)
    case ParallelReduction => ReductionBuffers([Zeros(n)])
  }

  datatype SolveError = LocalSolveFailed

  const MAX_POOL_SIZE: nat := 4

  class BufferPool {
    const nDofs: nat
    var inner: seq<Buffers>

    /** Every pooled buffer is clean, and there are never more than the maximum. */
    ghost predicate Valid()
      reads this
    {
      |inner| <= MAX_POOL_SIZE && forall i :: 0 <= i < |inner| ==> inner[i].Clean(nDofs)
    }

    constructor (nDofs: nat)
      ensures Valid() && inner == [] && this.nDofs == nDofs
    {
      this.nDofs, inner := nDofs, [];
    }

    /** `swap_remove` of the first buffer of the strategy, or a fresh one. */
    method Take(strategy: Strategy) returns (b: Buffers)
      requires Valid()
      modifies this
      ensures Valid() && b.Clean(nDofs) && b.Strategy() == strategy
      ensures TakenFrom(old(inner), inner, b)
    {
      hide Buffers.Clean;
      hide TakenFrom;
      for i := 0 to |inner|
        invariant inner == old(inner) && forall k :: 0 <= k < i ==> inner[k].Strategy() != strategy
      {
        if inner[i].Strategy() == strategy {
          b := inner[i];
          var last := |inner| - 1;
          SwapRemoved(inner, i);
          inner := inner[i := inner[last]][..last];
          return;
        }
      }
      b := NewBuffers(strategy, nDofs);
      NewClean(strategy, nDofs);
      NothingTaken(inner, b);
    }

    /** Keeps a buffer only after success, and only while there is room. */
    method Put(b: Buffers, ok: bool)
      requires Valid() && (ok ==> b.Clean(nDofs))
      modifies this
      ensures Valid()
      ensures inner == if ok && |old(inner)| < MAX_POOL_SIZE then old(inner) + [b] else old(inner)
    {
      if !ok {
        return;
      }
      if |inner| < MAX_POOL_SIZE {
        inner := inner + [b];
      }
    }
  }

  /** `b` came out of the pool, or the pool held none of its strategy and is unchanged. */
  ghost predicate TakenFrom(before: seq<Buffers>, after: seq<Buffers>, b: Buffers) {
    if exists i :: 0 <= i < |before| && before[i].Strategy() == b.Strategy() then multiset(after) + multiset{b} == multiset(before)
    else after == before
  }

  lemma NothingTaken(inner: seq<Buffers>, b: Buffers)
    requires forall k :: 0 <= k < |inner| ==> inner[k].Strategy() != b.Strategy()
    ensures TakenFrom(inner, inner, b)
  {
  }

  lemma NewClean(strategy: Strategy, n: nat)
    ensures NewBuffers(strategy, n).Clean(n)
  {
  }

  lemma SwapRemoved(s: seq<Buffers>, i: nat)
    requires i < |s|
    ensures TakenFrom(s, s[i := s[|s| - 1]][..|s| - 1], s[i])
  {
    var last := |s| - 1;
    var r := s[i := s[last]];
    assert s == s[..last] + [s[last]];
    if i < last {
      assert r[..last] == s[..last][i := s[last]];
      assert multiset(s[..last][i := s[last]]) == multiset(s[..last]) - multiset{s[i]} + multiset{s[last]};
    } else {
      assert r[..last] == s[..last];
    }
  }

  // ---- The executor ------------------------------------------------------------------------

  /** An atomic schedule that runs to rest: everything started is finished, and unless some
      subdomain failed, everything was started. */
  ghost predicate AtomicRests(plan: Atomic.Plan, n: nat, schedule: seq<Atomic.Step>) {
    var st := Atomic.Run(plan, Atomic.Initial(n, |plan|), schedule);
    || Atomic.AllFinished(st)
    || exists t :: 0 <= t < |st.tasks| && st.tasks[t].Failed?
  }

  ghost predicate ReductionRests(plan: Reduction.Plan, pool: seq<seq<real>>, workers: nat, n: nat, schedule: seq<Reduction.Step>) {
    var st := Reduction.Run(plan, n, Reduction.Initial(pool, workers, |plan|), schedule);
    Reduction.Quiet(st) && (Reduction.AllDone(st) || exists t :: 0 <= t < |st.status| && st.status[t].Failed?)
  }

  /** The swap-zero readout. */
  method SwapReadout(cells: seq<real>, z: array<real>) returns (accum: seq<real>)
    requires |cells| == z.Length
    modifies z
    ensures z[..] == cells && accum == Zeros(z.Length)
  {
    accum := cells;
    for i := 0 to z.Length
      invariant |accum| == z.Length && forall k :: 0 <= k < z.Length ==> accum[k] == if k < i then 0.0 else cells[k]
      invariant forall k :: 0 <= k < i ==> z[k] == cells[k]
    {
      z[i] := accum[i];
      accum := accum[i := 0.0];
    }
  }

  /** `apply_atomic` under one schedule: on success `z` is the Schwarz sum and the accumulator
      is clean again; on failure the readout is skipped. */
  method ApplyAtomic(plan: Atomic.Plan, accum: seq<real>, schedule: seq<Atomic.Step>, z: array<real>)
    returns (r: Result<(), SolveError>, after: seq<real>)
    requires Atomic.PlanFits(plan, z.Length) && accum == Zeros(z.Length) && AtomicRests(plan, z.Length, schedule)
    modifies z
    ensures r.Ok? ==> (forall d :: 0 <= d < z.Length ==> z[d] == SchwarzSum(plan, d)) && after == Zeros(z.Length)
    ensures r.Err? ==> z[..] == old(z[..]) && exists t :: 0 <= t < |plan| && plan[t].None?
  {
    hide Sum;
    hide Atomic.Perform;
    var st := Atomic.State(accum, seq(|plan|, _ => Atomic.Waiting));
    ghost var s0 := Atomic.Initial(z.Length, |plan|);
    assert st.cells == s0.cells;
    for k := 0 to |schedule|
      invariant st == Atomic.Run(plan, s0, schedule[..k])
    {
      assert schedule[..k + 1][..k] == schedule[..k];
      st := Atomic.Perform(plan, st, schedule[k]);
    }
    assert schedule[..|schedule|] == schedule;
    AtomicEnds(plan, z.Length, schedule);
    after := st.cells;
    if Atomic.AllFinished(st) {
      forall d | 0 <= d < z.Length ensures st.cells[d] == SchwarzSum(plan, d) {
        Atomic.AtomicSum(plan, z.Length, schedule, d);
      }
      after := SwapReadout(st.cells, z);
      r := Ok(());
    } else {
      r := Err(LocalSolveFailed);
    }
  }

  lemma AtomicEnds(plan: Atomic.Plan, n: nat, schedule: seq<Atomic.Step>)
    requires Atomic.PlanFits(plan, n) && AtomicRests(plan, n, schedule)
    ensures var st := Atomic.Run(plan, Atomic.Initial(n, |plan|), schedule);
      |st.cells| == n && (!Atomic.AllFinished(st) ==> exists t :: 0 <= t < |plan| && plan[t].None?)
  {
    hide Atomic.Run;
    AtomicForm(plan, n, schedule);
  }

  lemma {:induction false} AtomicForm(plan: Atomic.Plan, n: nat, schedule: seq<Atomic.Step>)
    requires Atomic.PlanFits(plan, n)
    ensures var st := Atomic.Run(plan, Atomic.Initial(n, |plan|), schedule); Atomic.WellFormed(plan, st) && |st.cells| == n
  {
    hide Atomic.Perform;
    if schedule != [] {
      AtomicForm(plan, n, schedule[..|schedule| - 1]);
      var mid := Atomic.Run(plan, Atomic.Initial(n, |plan|), schedule[..|schedule| - 1]);
      Atomic.PerformKeepsForm(plan, mid, schedule[|schedule| - 1]);
    }
  }

  /** `apply_parallel_reduction` under one schedule. */
  method ApplyReduction(plan: Reduction.Plan, pool: seq<seq<real>>, workers: nat, schedule: seq<Reduction.Step>, z: array<real>)
    returns (r: Result<(), SolveError>, after: seq<seq<real>>)
    requires Reduction.AllZero(pool, z.Length) && ReductionRests(plan, pool, workers, z.Length, schedule)
    modifies z
    ensures r.Ok? ==> forall d :: 0 <= d < z.Length ==> z[d] == SchwarzSum(plan, d)
    ensures r.Err? ==> (forall d :: 0 <= d < z.Length ==> z[d] == 0.0) && exists t :: 0 <= t < |plan| && plan[t].None?
    ensures Reduction.AllZero(after, z.Length)
  {
    hide Sum;
    hide Reduction.Perform;
    hide Reduction.WellFormed;
    hide Reduction.BufferSum;
    hide Reduction.Gathered;
    var n := z.Length;
    var st := Reduction.Initial(pool, workers, |plan|);
    ghost var s0 := st;
    for k := 0 to |schedule|
      invariant st == Reduction.Run(plan, n, s0, schedule[..k])
    {
      assert schedule[..k + 1][..k] == schedule[..k];
      st := Reduction.Perform(plan, n, st, schedule[k]);
    }
    assert schedule[..|schedule|] == schedule;
    ReductionForm(plan, pool, workers, n, schedule);
    ReductionEnds(plan, n, st);
    var ok := Reduction.AllDone(st);
    after := Reduction.FinishRound(z, ok, st.shared, st.idle);
    if ok {
      forall d | 0 <= d < z.Length ensures z[d] == SchwarzSum(plan, d) {
        Reduction.ReductionSum(plan, pool, workers, n, schedule, d);
      }
      r := Ok(());
    } else {
      r := Err(LocalSolveFailed);
    }
  }

  lemma {:induction false} ReductionForm(plan: Reduction.Plan, pool: seq<seq<real>>, workers: nat, n: nat, schedule: seq<Reduction.Step>)
    requires Reduction.AllZero(pool, n)
    ensures Reduction.WellFormed(plan, n, Reduction.Run(plan, n, Reduction.Initial(pool, workers, |plan|), schedule))
  {
    hide Reduction.Perform;
    hide Reduction.WellFormed;
    if schedule == [] {
      Reduction.InitialBalance(plan, pool, workers, n, 0);
    } else {
      var k := |schedule| - 1;
      ReductionForm(plan, pool, workers, n, schedule[..k]);
      var mid := Reduction.Run(plan, n, Reduction.Initial(pool, workers, |plan|), schedule[..k]);
      match schedule[k]
      case Enter(w, t) => Reduction.EnterKeepsForm(plan, n, mid, w, t);
      case Exit(w) => Reduction.ExitKeepsForm(plan, n, mid, w);
    }
  }

  lemma ReductionEnds(plan: Reduction.Plan, n: nat, st: Reduction.State)
    requires Reduction.WellFormed(plan, n, st) && (Reduction.AllDone(st) || exists t :: 0 <= t < |st.status| && st.status[t].Failed?)
    ensures Reduction.AllSized(st.shared, n) && forall w :: 0 <= w < |st.idle| ==> Reduction.AllSized(st.idle[w], n)
    ensures !Reduction.AllDone(st) ==> exists t :: 0 <= t < |plan| && plan[t].None?
  {
  }

  /** What the scheduler does with one apply: either kind of schedule, and a worker count. */
  datatype Schedules = Schedules(atomic: seq<Atomic.Step>, workers: nat, reduction: seq<Reduction.Step>)

  /** Both schedules run to rest, whatever clean buffers they are given. */
  ghost predicate Rests(plan: Atomic.Plan, n: nat, s: Schedules) {
    && AtomicRests(plan, n, s.atomic)
    && forall pool :: Reduction.AllZero(pool, n) ==> ReductionRests(plan, pool, s.workers, n, s.reduction)
  }

  lemma PlansFit(entries: seq<SubdomainEntry>, r: seq<real>)
    requires forall s :: 0 <= s < |entries| ==> entries[s].Valid(|r|)
    ensures Atomic.PlanFits(Plans(entries, r), |r|)
  {
    var plans := Plans(entries, r);
    forall t | 0 <= t < |plans| && plans[t].Some? ensures Atomic.InCells(plans[t].value, |r|) {
      assert plans[t] == entries[t].Plan(r);
    }
  }

  /** `apply`: on success, under either strategy and every schedule, `z` is the Schwarz sum of
      `r`; after success or failure the pool holds only clean buffers, at most four. */
  method Apply(pool: BufferPool, strategy: Strategy, entries: seq<SubdomainEntry>, r: seq<real>, z: array<real>, s: Schedules)
    returns (result: Result<(), SolveError>)
    requires pool.Valid() && |r| == z.Length == pool.nDofs
    requires forall k :: 0 <= k < |entries| ==> entries[k].Valid(|r|)
    requires Rests(Plans(entries, r), |r|, s)
    modifies pool, z
    ensures pool.Valid()
    ensures result.Ok? ==> forall d :: 0 <= d < z.Length ==> z[d] == SchwarzSum(Plans(entries, r), d)
    ensures result.Err? ==> exists k :: 0 <= k < |entries| && entries[k].Plan(r).None?
    ensures result.Err? ==> z[..] == old(z[..]) || forall d :: 0 <= d < z.Length ==> z[d] == 0.0
  {
    hide Sum;
    hide AtomicRests;
    hide ReductionRests;
    hide Atomic.PlanFits;
    PlansFit(entries, r);
    var plan := seq(|entries|, k requires 0 <= k < |entries| && entries[k].Valid(|r|) => entries[k].Plan(r));
    assert plan == Plans(entries, r);
    var bufs := pool.Take(strategy);
    var after;
    match bufs {
      case AtomicBuffers(accum, scratch) =>
        var cells;
        result, cells := ApplyAtomic(plan, accum, s.atomic, z);
        after := AtomicBuffers(cells, scratch);
      case ReductionBuffers(buffers) =>
        var rest;
        result, rest := ApplyReduction(plan, buffers, s.workers, s.reduction, z);
        after := ReductionBuffers(rest);
    }
    if result.Err? {
      var k :| 0 <= k < |plan| && plan[k].None?;
      assert entries[k].Plan(r).None?;
    }
    pool.Put(after, result.Ok?);
  }
}
