/** Worker-local accumulators on re-entrant stacks, reduced at the end
    (crates/schwarz-precond/src/schwarz/buffers.rs:139-258, crates/schwarz-precond/src/schwarz/executor.rs:132-165). */
module ReductionBackend {
  import opened Wrappers
  import opened Sums
  import opened Subdomains
  import opened Vectors

  type Plan = seq<Option<seq<(nat, real)>>>

  type Buffer = seq<real>

  /** A subdomain being solved by a worker that holds `buffer` meanwhile. */
  datatype Frame = Frame(task: nat, buffer: Buffer)

  datatype Status = Waiting | Running | Done | Failed

  /** The shared pool, each worker's stack of idle buffers, and its stack of open frames: a
      worker may enter a further subdomain while one of its solves is still open. */
  datatype State = State(shared: seq<Buffer>, idle: seq<seq<Buffer>>, open: seq<seq<Frame>>, status: seq<Status>)

  datatype Step = Enter(worker: nat, task: nat) | Exit(worker: nat)

  /** A buffer after a list of additions. */
  function Accumulated(b: Buffer, adds: seq<(nat, real)>): (r: Buffer)
    ensures |r| == |b|
  {
    seq(|b|, d requires 0 <= d < |b| => b[d] + AddedAt(adds, d))
  }

  /** `with_buffer` takes the worker's own buffer first, then the pool's, then a fresh one;
      leaving pushes it onto the worker's stack. A step that is not enabled changes nothing. */
  function Perform(plan: Plan, n: nat, st: State, step: Step): State {
    match step
    case Enter(w, t) =>
      if w < |st.idle| && w < |st.open| && t < |st.status| && st.status[t].Waiting? then
        var status := st.status[t := Running];
        if st.idle[w] != [] then
          var k := |st.idle[w]| - 1;
          State(st.shared, st.idle[w := st.idle[w][..k]], st.open[w := st.open[w] + [Frame(t, st.idle[w][k])]], status)
        else if st.shared != [] then
          var k := |st.shared| - 1;
          State(st.shared[..k], st.idle, st.open[w := st.open[w] + [Frame(t, st.shared[k])]], status)
        else State(st.shared, st.idle, st.open[w := st.open[w] + [Frame(t, Zeros(n))]], status)
      else st
    case Exit(w) =>
      if w < |st.idle| && w < |st.open| && st.open[w] != [] then
        var k := |st.open[w]| - 1;
        var Frame(t, b) := st.open[w][k];
        if t < |st.status| && t < |plan| then
          var b' := if plan[t].Some? then Accumulated(b, plan[t].value) else b;
          State(st.shared, st.idle[w := st.idle[w] + [b']], st.open[w := st.open[w][..k]],
                st.status[t := if plan[t].Some? then Done else Failed])
        else st
      else st
  }

  function Run(plan: Plan, n: nat, st: State, schedule: seq<Step>): State {
    if schedule == [] then st
    else Perform(plan, n, Run(plan, n, st, schedule[..|schedule| - 1]), schedule[|schedule| - 1])
  }

  // ---- Totals ------------------------------------------------------------------------------

  /** Entry `d` of the sum of some buffers. */
  function BufferSum(bs: seq<Buffer>, d: int): real {
    if bs == [] then 0.0 else BufferSum(bs[..|bs| - 1], d) + At(bs[|bs| - 1])(d)
  }

  function Held(fs: seq<Frame>): (bs: seq<Buffer>)
    ensures |bs| == |fs|
  {
    seq(|fs|, i requires 0 <= i < |fs| => fs[i].buffer)
  }

  ghost function IdleAt(st: State, d: int): int -> real {
    w => if 0 <= w < |st.idle| then BufferSum(st.idle[w], d) else 0.0
  }

  ghost function HeldAt(st: State, d: int): int -> real {
    w => if 0 <= w < |st.open| then BufferSum(Held(st.open[w]), d) else 0.0
  }

  ghost function OwedAt(plan: Plan, st: State, d: int): int -> real {
    t => if 0 <= t < |st.status| && t < |plan| && (st.status[t].Waiting? || st.status[t].Running?) then PlannedAt(plan[t], d) else 0.0
  }

  /** Everything in any buffer, plus everything not yet added. */
  ghost function Balance(plan: Plan, st: State, d: int): real {
    BufferSum(st.shared, d) + Sum(|st.idle|, IdleAt(st, d)) + Sum(|st.open|, HeldAt(st, d))
    + Sum(|st.status|, OwedAt(plan, st, d))
  }

  /** Open frames are running subdomains, and all buffers have the global length. */
  ghost predicate WellFormed(plan: Plan, n: nat, st: State) {
    && |st.idle| == |st.open| && |st.status| == |plan|
    && (forall i :: 0 <= i < |st.shared| ==> |st.shared[i]| == n)
    && (forall w, i :: 0 <= w < |st.idle| && 0 <= i < |st.idle[w]| ==> |st.idle[w][i]| == n)
    && (forall w, i :: 0 <= w < |st.open| && 0 <= i < |st.open[w]| ==> FrameFits(plan, n, st, w, i))
    && (forall v, i, w, j :: 0 <= v < |st.open| && 0 <= i < |st.open[v]| && 0 <= w < |st.open| && 0 <= j < |st.open[w]| ==>
          st.open[v][i].task == st.open[w][j].task ==> v == w && i == j)
    && (forall t :: 0 <= t < |plan| && st.status[t].Failed? ==> plan[t].None?)
  }

  ghost predicate FrameFits(plan: Plan, n: nat, st: State, w: nat, i: nat)
    requires w < |st.open| && i < |st.open[w]|
  {
    var f := st.open[w][i];
    |f.buffer| == n && f.task < |st.status| && st.status[f.task].Running?
  }

  lemma BufferSumPush(bs: seq<Buffer>, b: Buffer, d: int)
    ensures BufferSum(bs + [b], d) == BufferSum(bs, d) + At(b)(d)
  {
    assert (bs + [b])[..|bs|] == bs;
  }

  lemma BufferSumPop(bs: seq<Buffer>, d: int)
    requires bs != []
    ensures BufferSum(bs, d) == BufferSum(bs[..|bs| - 1], d) + At(bs[|bs| - 1])(d)
  {
  }

  lemma HeldPush(fs: seq<Frame>, f: Frame, d: int)
    ensures BufferSum(Held(fs + [f]), d) == BufferSum(Held(fs), d) + At(f.buffer)(d)
  {
    assert Held(fs + [f]) == Held(fs) + [f.buffer];
    BufferSumPush(Held(fs), f.buffer, d);
  }

  lemma HeldPop(fs: seq<Frame>, d: int)
    requires fs != []
    ensures BufferSum(Held(fs), d) == BufferSum(Held(fs[..|fs| - 1]), d) + At(fs[|fs| - 1].buffer)(d)
  {
    assert fs == fs[..|fs| - 1] + [fs[|fs| - 1]];
    HeldPush(fs[..|fs| - 1], fs[|fs| - 1], d);
  }

  lemma IdleUpdate(st: State, st': State, w: nat, d: int)
    requires w < |st.idle| == |st'.idle| && forall k :: 0 <= k < |st.idle| && k != w ==> st'.idle[k] == st.idle[k]
    ensures Sum(|st'.idle|, IdleAt(st', d)) == Sum(|st.idle|, IdleAt(st, d)) + BufferSum(st'.idle[w], d) - BufferSum(st.idle[w], d)
  {
    SumUpdate(|st.idle|, w, IdleAt(st, d), IdleAt(st', d));
  }

  lemma OpenUpdate(st: State, st': State, w: nat, d: int)
    requires w < |st.open| == |st'.open| && forall k :: 0 <= k < |st.open| && k != w ==> st'.open[k] == st.open[k]
    ensures Sum(|st'.open|, HeldAt(st', d)) == Sum(|st.open|, HeldAt(st, d)) + BufferSum(Held(st'.open[w]), d) - BufferSum(Held(st.open[w]), d)
  {
    SumUpdate(|st.open|, w, HeldAt(st, d), HeldAt(st', d));
  }

  lemma OwedUpdate(plan: Plan, st: State, st': State, t: nat, d: int)
    requires t < |st.status| == |st'.status| == |plan| && forall k :: 0 <= k < |st.status| && k != t ==> st'.status[k] == st.status[k]
    ensures Sum(|st'.status|, OwedAt(plan, st', d)) == Sum(|st.status|, OwedAt(plan, st, d)) + OwedAt(plan, st', d)(t) - OwedAt(plan, st, d)(t)
  {
    SumUpdate(|st.status|, t, OwedAt(plan, st, d), OwedAt(plan, st', d));
  }

  lemma OpenApart(plan: Plan, n: nat, st: State, w: nat, t: nat)
    requires WellFormed(plan, n, st) && t < |st.status| && st.status[t].Waiting?
    ensures forall v, i :: 0 <= v < |st.open| && 0 <= i < |st.open[v]| ==> st.open[v][i].task != t
  {
    forall v, i | 0 <= v < |st.open| && 0 <= i < |st.open[v]| ensures st.open[v][i].task != t {
      assert FrameFits(plan, n, st, v, i);
    }
  }

  /** Handing a buffer over moves its contents; leaving adds exactly the planned contribution. */
  lemma EnterConserves(plan: Plan, n: nat, st: State, w: nat, t: nat, d: nat)
    requires WellFormed(plan, n, st) && d < n
    ensures Balance(plan, Perform(plan, n, st, Enter(w, t)), d) == Balance(plan, st, d)
  {
    hide Sum;
    hide BufferSum;
    var st' := Perform(plan, n, st, Enter(w, t));
    if st' != st {
      OwedUpdate(plan, st, st', t, d);
      OpenUpdate(st, st', w, d);
      HeldPush(st.open[w], st'.open[w][|st'.open[w]| - 1], d);
      if st.idle[w] != [] {
        BufferSumPop(st.idle[w], d);
        IdleUpdate(st, st', w, d);
      } else {
        IdleSame(st, st', d);
        if st.shared != [] { BufferSumPop(st.shared, d); }
      }
    }
  }

  lemma IdleSame(st: State, st': State, d: int)
    requires st'.idle == st.idle
    ensures Sum(|st'.idle|, IdleAt(st', d)) == Sum(|st.idle|, IdleAt(st, d))
  {
    SumCong(|st.idle|, IdleAt(st, d), IdleAt(st', d));
  }

  lemma ExitConserves(plan: Plan, n: nat, st: State, w: nat, d: nat)
    requires WellFormed(plan, n, st) && d < n
    ensures Balance(plan, Perform(plan, n, st, Exit(w)), d) == Balance(plan, st, d)
  {
    hide Sum;
    hide BufferSum;
    var st' := Perform(plan, n, st, Exit(w));
    if w < |st.idle| && w < |st.open| && st.open[w] != [] {
      var k := |st.open[w]| - 1;
      assert FrameFits(plan, n, st, w, k);
      var Frame(t, b) := st.open[w][k];
      OwedUpdate(plan, st, st', t, d);
      OpenUpdate(st, st', w, d);
      HeldPop(st.open[w], d);
      IdleUpdate(st, st', w, d);
      BufferSumPush(st.idle[w], st'.idle[w][|st'.idle[w]| - 1], d);
    }
  }

  lemma EnterKeepsForm(plan: Plan, n: nat, st: State, w: nat, t: nat)
    requires WellFormed(plan, n, st)
    ensures WellFormed(plan, n, Perform(plan, n, st, Enter(w, t)))
  {
    hide PlannedAt;
    var st' := Perform(plan, n, st, Enter(w, t));
    if st' != st {
      OpenApart(plan, n, st, w, t);
      forall v, i | 0 <= v < |st'.open| && 0 <= i < |st'.open[v]| ensures FrameFits(plan, n, st', v, i) {
        if v != w || i < |st.open[w]| { assert FrameFits(plan, n, st, v, i); }
      }
    }
  }

  lemma ExitKeepsForm(plan: Plan, n: nat, st: State, w: nat)
    requires WellFormed(plan, n, st)
    ensures WellFormed(plan, n, Perform(plan, n, st, Exit(w)))
  {
    hide PlannedAt;
    var st' := Perform(plan, n, st, Exit(w));
    if w < |st.idle| && w < |st.open| && st.open[w] != [] {
      var k := |st.open[w]| - 1;
      assert FrameFits(plan, n, st, w, k);
      forall v, i | 0 <= v < |st'.open| && 0 <= i < |st'.open[v]| ensures FrameFits(plan, n, st', v, i) {
        assert FrameFits(plan, n, st, v, i);
        assert st'.open[v][i] == st.open[v][i];
      }
    }
  }

  lemma {:induction false} RunConserves(plan: Plan, n: nat, st: State, schedule: seq<Step>, d: nat)
    requires WellFormed(plan, n, st) && d < n
    ensures WellFormed(plan, n, Run(plan, n, st, schedule))
    ensures Balance(plan, Run(plan, n, st, schedule), d) == Balance(plan, st, d)
  {
    hide Sum;
    hide BufferSum;
    hide WellFormed;
    hide Balance;
    hide Perform;
    if schedule != [] {
      var last := schedule[|schedule| - 1];
      var mid := Run(plan, n, st, schedule[..|schedule| - 1]);
      RunConserves(plan, n, st, schedule[..|schedule| - 1], d);
      match last
      case Enter(w, t) =>
        EnterConserves(plan, n, mid, w, t, d);
        EnterKeepsForm(plan, n, mid, w, t);
      case Exit(w) =>
        ExitConserves(plan, n, mid, w, d);
        ExitKeepsForm(plan, n, mid, w);
    }
  }

  // ---- A round -----------------------------------------------------------------------------

  function Initial(pool: seq<Buffer>, workers: nat, nTasks: nat): State {
    State(pool, seq(workers, _ => []), seq(workers, _ => []), seq(nTasks, _ => Waiting))
  }

  ghost predicate AllZero(bs: seq<Buffer>, n: nat) {
    forall i :: 0 <= i < |bs| ==> bs[i] == Zeros(n)
  }

  predicate Quiet(st: State) { forall w :: 0 <= w < |st.open| ==> st.open[w] == [] }

  predicate AllDone(st: State) { forall t :: 0 <= t < |st.status| ==> st.status[t].Done? }

  /** `into_pool`: the shared pool followed by every worker's stack. */
  function Gathered(shared: seq<Buffer>, idle: seq<seq<Buffer>>): seq<Buffer> {
    if idle == [] then shared else Gathered(shared, idle[..|idle| - 1]) + idle[|idle| - 1]
  }

  lemma {:induction false} BufferSumConcat(a: seq<Buffer>, b: seq<Buffer>, d: int)
    ensures BufferSum(a + b, d) == BufferSum(a, d) + BufferSum(b, d)
  {
    if b == [] {
      assert a + b == a;
    } else {
      assert (a + b)[..|a + b| - 1] == a + b[..|b| - 1];
      BufferSumConcat(a, b[..|b| - 1], d);
    }
  }

  lemma {:induction false} GatheredSum(st: State, k: nat, d: int)
    requires k <= |st.idle|
    ensures BufferSum(Gathered(st.shared, st.idle[..k]), d) == BufferSum(st.shared, d) + Sum(k, IdleAt(st, d))
  {
    if k > 0 {
      assert st.idle[..k][..k - 1] == st.idle[..k - 1];
      GatheredSum(st, k - 1, d);
      BufferSumConcat(Gathered(st.shared, st.idle[..k - 1]), st.idle[k - 1], d);
    }
  }

  lemma {:induction false} ZeroSum(bs: seq<Buffer>, n: nat, d: int)
    requires AllZero(bs, n)
    ensures BufferSum(bs, d) == 0.0
  {
    if bs != [] { ZeroSum(bs[..|bs| - 1], n, d); }
  }

  lemma InitialBalance(plan: Plan, pool: seq<Buffer>, workers: nat, n: nat, d: nat)
    requires AllZero(pool, n)
    ensures WellFormed(plan, n, Initial(pool, workers, |plan|))
    ensures Balance(plan, Initial(pool, workers, |plan|), d) == SchwarzSum(plan, d)
  {
    hide Sum;
    var st := Initial(pool, workers, |plan|);
    ZeroSum(pool, n, d);
    SumZero(|st.idle|, IdleAt(st, d));
    SumZero(|st.open|, HeldAt(st, d));
    SumCong(|plan|, OwedAt(plan, st, d), s => if 0 <= s < |plan| then PlannedAt(plan[s], d) else 0.0);
  }

  /** Whichever worker took which subdomain into which buffer, the gathered buffers sum to the
      Schwarz sum. */
  lemma ReductionSum(plan: Plan, pool: seq<Buffer>, workers: nat, n: nat, schedule: seq<Step>, d: nat)
    requires AllZero(pool, n) && d < n
    requires Quiet(Run(plan, n, Initial(pool, workers, |plan|), schedule)) && AllDone(Run(plan, n, Initial(pool, workers, |plan|), schedule))
    ensures var st := Run(plan, n, Initial(pool, workers, |plan|), schedule);
      BufferSum(Gathered(st.shared, st.idle), d) == SchwarzSum(plan, d)
  {
    hide Sum;
    hide BufferSum;
    hide Run;
    hide WellFormed;
    var st := Run(plan, n, Initial(pool, workers, |plan|), schedule);
    InitialBalance(plan, pool, workers, n, d);
    RunConserves(plan, n, Initial(pool, workers, |plan|), schedule, d);
    QuietHolds(st, d);
    DoneOwes(plan, st, d);
    assert st.idle[..|st.idle|] == st.idle;
    GatheredSum(st, |st.idle|, d);
  }

  lemma QuietHolds(st: State, d: int)
    requires Quiet(st)
    ensures Sum(|st.open|, HeldAt(st, d)) == 0.0
  {
    forall w | 0 <= w < |st.open| ensures HeldAt(st, d)(w) == 0.0 { assert Held(st.open[w]) == []; }
    SumZero(|st.open|, HeldAt(st, d));
  }

  lemma DoneOwes(plan: Plan, st: State, d: int)
    requires AllDone(st)
    ensures Sum(|st.status|, OwedAt(plan, st, d)) == 0.0
  {
    SumZero(|st.status|, OwedAt(plan, st, d));
  }

  ghost predicate AllSized(bs: seq<Buffer>, n: nat) { forall i :: 0 <= i < |bs| ==> |bs[i]| == n }

  lemma {:induction false} GatheredSized(shared: seq<Buffer>, idle: seq<seq<Buffer>>, n: nat)
    requires AllSized(shared, n) && forall w :: 0 <= w < |idle| ==> AllSized(idle[w], n)
    ensures AllSized(Gathered(shared, idle), n)
  {
    if idle != [] { GatheredSized(shared, idle[..|idle| - 1], n); }
  }

  /** `reduce_into` */
  method ReduceInto(z: array<real>, buffers: seq<Buffer>)
    requires AllSized(buffers, z.Length)
    modifies z
    ensures forall d :: 0 <= d < z.Length ==> z[d] == BufferSum(buffers, d)
  {
    for i := 0 to z.Length
      invariant forall d :: 0 <= d < i ==> z[d] == 0.0
    {
      z[i] := 0.0;
    }
    for k := 0 to |buffers|
      invariant forall d :: 0 <= d < z.Length ==> z[d] == BufferSum(buffers[..k], d)
    {
      assert buffers[..k + 1][..k] == buffers[..k];
      ghost var before := z[..];
      for i := 0 to z.Length
        invariant forall d :: 0 <= d < z.Length ==> z[d] == if d < i then BufferSum(buffers[..k + 1], d) else before[d]
      {
        BufferSumPop(buffers[..k + 1], i);
        z[i] := z[i] + buffers[k][i];
      }
    }
    assert buffers[..|buffers|] == buffers;
  }

  /** `finish_round`: on success `z` is the sum of all buffers, on failure all zero; either way
      every buffer comes back zeroed. */
  method FinishRound(z: array<real>, ok: bool, shared: seq<Buffer>, idle: seq<seq<Buffer>>) returns (pool: seq<Buffer>)
    requires AllSized(shared, z.Length) && forall w :: 0 <= w < |idle| ==> AllSized(idle[w], z.Length)
    modifies z
    ensures ok ==> forall d :: 0 <= d < z.Length ==> z[d] == BufferSum(Gathered(shared, idle), d)
    ensures !ok ==> forall d :: 0 <= d < z.Length ==> z[d] == 0.0
    ensures AllZero(pool, z.Length) && |pool| == |Gathered(shared, idle)|
  {
    GatheredSized(shared, idle, z.Length);
    if !ok {
      for i := 0 to z.Length
        invariant forall d :: 0 <= d < i ==> z[d] == 0.0
      {
        z[i] := 0.0;
      }
    }
    var buffers := Gathered(shared, idle);
    if ok {
      ReduceInto(z, buffers);
    }
    pool := seq(|buffers|, i requires 0 <= i < |buffers| => Zeros(z.Length));
  }
}
