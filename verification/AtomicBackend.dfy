/** The shared atomic accumulator: compare-and-swap additions under every interleaving
    (crates/schwarz-precond/src/domain.rs:47-61, crates/schwarz-precond/src/schwarz/executor.rs:77-130). */
module AtomicBackend {
  import opened Wrappers
  import opened Sums
  import opened Subdomains

  /** One subdomain's execution. Between its load and a successful exchange a pending addition
      remembers the value it saw; nothing is pending of a finished one. */
  datatype Task = Waiting | Adding(pending: seq<(nat, real)>, loaded: Option<real>) | Failed

  datatype State = State(cells: seq<real>, tasks: seq<Task>)

  /** The scheduler's choices. An exchange may fail spuriously. */
  datatype Step = Start(task: nat) | Load(task: nat) | Exchange(task: nat, spurious: bool)

  type Plan = seq<Option<seq<(nat, real)>>>

  /** Every pending addition falls on a cell. */
  ghost predicate WellFormed(plan: Plan, st: State) {
    && |st.tasks| == |plan|
    && (forall t :: 0 <= t < |plan| && plan[t].Some? ==> InCells(plan[t].value, |st.cells|))
    && (forall t :: 0 <= t < |st.tasks| && st.tasks[t].Adding? ==> InCells(st.tasks[t].pending, |st.cells|))
    && (forall t :: 0 <= t < |st.tasks| && st.tasks[t].Failed? ==> plan[t].None?)
    && (forall t :: 0 <= t < |st.tasks| && st.tasks[t].Adding? ==> plan[t].Some?)
  }

  ghost predicate InCells(adds: seq<(nat, real)>, n: nat) {
    forall i :: 0 <= i < |adds| ==> adds[i].0 < n
  }

  predicate Pending(st: State, t: nat) {
    t < |st.tasks| && st.tasks[t].Adding? && st.tasks[t].pending != [] && st.tasks[t].pending[0].0 < |st.cells|
  }

  /** One step; a step that is not enabled changes nothing. */
  function Perform(plan: Plan, st: State, step: Step): State {
    match step
    case Start(t) =>
      if t < |st.tasks| && t < |plan| && st.tasks[t].Waiting? then
        st.(tasks := st.tasks[t := if plan[t].Some? then Adding(plan[t].value, None) else Failed])
      else st
    case Load(t) =>
      if Pending(st, t) && st.tasks[t].loaded.None? then
        st.(tasks := st.tasks[t := st.tasks[t].(loaded := Some(st.cells[st.tasks[t].pending[0].0]))])
      else st
    case Exchange(t, spurious) =>
      if Pending(st, t) && st.tasks[t].loaded.Some? then
        var (cell, val) := st.tasks[t].pending[0];
        if st.cells[cell] == st.tasks[t].loaded.value && !spurious then
          State(st.cells[cell := st.tasks[t].loaded.value + val], st.tasks[t := Adding(st.tasks[t].pending[1..], None)])
        else st.(tasks := st.tasks[t := st.tasks[t].(loaded := Some(st.cells[cell]))])
      else st
  }

  function Run(plan: Plan, st: State, schedule: seq<Step>): State {
    if schedule == [] then st else Perform(plan, Run(plan, st, schedule[..|schedule| - 1]), schedule[|schedule| - 1])
  }

  function Initial(nDofs: nat, nTasks: nat): State {
    State(seq(nDofs, _ => 0.0), seq(nTasks, _ => Waiting))
  }

  /** What a task still owes cell `d`. */
  function Owed(plan: Plan, tasks: seq<Task>, d: int): int -> real {
    t =>
      if 0 <= t < |tasks| && t < |plan| then
        match tasks[t]
        case Waiting => PlannedAt(plan[t], d)
        case Adding(pending, _) => AddedAt(pending, d)
        case Failed => 0.0
      else 0.0
  }

  /** Each cell plus everything still owed to it. */
  function Balance(plan: Plan, st: State, d: nat): real
    requires d < |st.cells|
  {
    st.cells[d] + Sum(|st.tasks|, Owed(plan, st.tasks, d))
  }

  lemma PerformKeepsForm(plan: Plan, st: State, step: Step)
    requires WellFormed(plan, st)
    ensures WellFormed(plan, Perform(plan, st, step)) && |Perform(plan, st, step).cells| == |st.cells|
  {
    var st' := Perform(plan, st, step);
    forall t | 0 <= t < |st'.tasks| && st'.tasks[t].Adding? ensures InCells(st'.tasks[t].pending, |st.cells|) {
      if st.tasks[t].Adding? { assert InCells(st.tasks[t].pending, |st.cells|); }
    }
  }

  /** Replacing one task changes the debt by the difference. */
  lemma OwedUpdate(plan: Plan, tasks: seq<Task>, t: nat, task: Task, d: nat)
    requires t < |tasks| == |plan|
    ensures Sum(|tasks|, Owed(plan, tasks[t := task], d)) ==
            Sum(|tasks|, Owed(plan, tasks, d)) + Owed(plan, tasks[t := task], d)(t) - Owed(plan, tasks, d)(t)
  {
    SumUpdate(|tasks|, t, Owed(plan, tasks, d), Owed(plan, tasks[t := task], d));
  }

  lemma AddedAtHead(pending: seq<(nat, real)>, d: nat)
    requires pending != []
    ensures AddedAt(pending, d) == AddedAt(pending[1..], d) + if pending[0].0 == d then pending[0].1 else 0.0
  {
  }

  /** No step creates or loses mass, cell by cell: a failed exchange writes nothing, and a
      successful one adds to the very value it read. */
  lemma PerformConserves(plan: Plan, st: State, step: Step, d: nat)
    requires WellFormed(plan, st) && d < |st.cells|
    ensures |Perform(plan, st, step).cells| == |st.cells| && Balance(plan, Perform(plan, st, step), d) == Balance(plan, st, d)
  {
    hide Sum;
    hide AddedAt;
    PerformKeepsForm(plan, st, step);
    var t := step.task;
    if Perform(plan, st, step) != st {
      var task := Perform(plan, st, step).tasks[t];
      OwedUpdate(plan, st.tasks, t, task, d);
      assert Perform(plan, st, step).tasks == st.tasks[t := task];
      if step.Start? {
        EmptyAdds(d);
      } else {
        AddedAtHead(st.tasks[t].pending, d);
      }
    }
  }

  lemma EmptyAdds(d: nat)
    ensures AddedAt([], d) == 0.0
  {
  }

  /** Conservation over whole runs. */
  lemma {:induction false} RunConserves(plan: Plan, st: State, schedule: seq<Step>, d: nat)
    requires WellFormed(plan, st) && d < |st.cells|
    ensures WellFormed(plan, Run(plan, st, schedule)) && |Run(plan, st, schedule).cells| == |st.cells|
    ensures Balance(plan, Run(plan, st, schedule), d) == Balance(plan, st, d)
  {
    hide Sum;
    if schedule != [] {
      var p := schedule[..|schedule| - 1];
      RunConserves(plan, st, p, d);
      PerformKeepsForm(plan, Run(plan, st, p), schedule[|schedule| - 1]);
      PerformConserves(plan, Run(plan, st, p), schedule[|schedule| - 1], d);
    }
  }

  predicate Finished(task: Task) { task.Adding? && task.pending == [] }

  predicate AllFinished(st: State) { forall t :: 0 <= t < |st.tasks| ==> Finished(st.tasks[t]) }

  ghost predicate PlanFits(plan: Plan, nDofs: nat) {
    forall t :: 0 <= t < |plan| && plan[t].Some? ==> InCells(plan[t].value, nDofs)
  }

  lemma InitialOwed(plan: Plan, nDofs: nat, d: nat)
    requires PlanFits(plan, nDofs) && d < nDofs
    ensures WellFormed(plan, Initial(nDofs, |plan|))
    ensures Balance(plan, Initial(nDofs, |plan|), d) == SchwarzSum(plan, d)
  {
    var tasks := Initial(nDofs, |plan|).tasks;
    SumCong(|plan|, Owed(plan, tasks, d), s => if 0 <= s < |plan| then PlannedAt(plan[s], d) else 0.0);
  }

  lemma FinishedOwes(plan: Plan, st: State, d: nat)
    requires AllFinished(st)
    ensures Sum(|st.tasks|, Owed(plan, st.tasks, d)) == 0.0
  {
    forall t | 0 <= t < |st.tasks| ensures Owed(plan, st.tasks, d)(t) == 0.0 { assert Finished(st.tasks[t]); }
    SumZero(|st.tasks|, Owed(plan, st.tasks, d));
  }

  /** Whatever the interleaving, once every subdomain has finished the accumulator holds the
      Schwarz sum. */
  lemma AtomicSum(plan: Plan, nDofs: nat, schedule: seq<Step>, d: nat)
    requires PlanFits(plan, nDofs) && d < nDofs && AllFinished(Run(plan, Initial(nDofs, |plan|), schedule))
    ensures |Run(plan, Initial(nDofs, |plan|), schedule).cells| == nDofs
    ensures Run(plan, Initial(nDofs, |plan|), schedule).cells[d] == SchwarzSum(plan, d)
  {
    hide Run;
    hide Sum;
    InitialOwed(plan, nDofs, d);
    RunConserves(plan, Initial(nDofs, |plan|), schedule, d);
    FinishedOwes(plan, Run(plan, Initial(nDofs, |plan|), schedule), d);
  }

  // ---- Progress ----------------------------------------------------------------------------

  /** Steps a task still needs when nothing interferes. */
  function Effort(plan: Plan, task: Task, t: nat): nat {
    match task
    case Waiting => if t < |plan| && plan[t].Some? then 2 * |plan[t].value| + 1 else 1
    case Adding(pending, loaded) =>
      if loaded.Some? && pending != [] then 2 * |pending| - 1 else 2 * |pending|
    case Failed => 0
  }

  function Efforts(plan: Plan, tasks: seq<Task>, n: nat): nat
    requires n <= |tasks|
  {
    if n == 0 then 0 else Efforts(plan, tasks, n - 1) + Effort(plan, tasks[n - 1], n - 1)
  }

  lemma {:induction false} EffortsUpdate(plan: Plan, tasks: seq<Task>, t: nat, task: Task, n: nat)
    requires t < n <= |tasks|
    ensures Efforts(plan, tasks[t := task], n) == Efforts(plan, tasks, n) + Effort(plan, task, t) - Effort(plan, tasks[t], t)
  {
    if t < n - 1 {
      EffortsUpdate(plan, tasks, t, task, n - 1);
    } else {
      EffortsBelow(plan, tasks, t, task, n - 1);
    }
  }

  lemma {:induction false} EffortsBelow(plan: Plan, tasks: seq<Task>, t: nat, task: Task, n: nat)
    requires n <= t < |tasks|
    ensures Efforts(plan, tasks[t := task], n) == Efforts(plan, tasks, n)
  {
    if n > 0 { EffortsBelow(plan, tasks, t, task, n - 1); }
  }

  ghost predicate Settled(task: Task) { Finished(task) || task.Failed? }

  ghost predicate AllSettled(st: State) { forall t :: 0 <= t < |st.tasks| ==> Settled(st.tasks[t]) }

  /** The loaded value is current, so the next exchange can only fail spuriously. */
  predicate Current(st: State, t: nat) {
    Pending(st, t) && st.tasks[t].loaded == Some(st.cells[st.tasks[t].pending[0].0])
  }

  /** The step that advances task `t`. */
  function Advance(st: State, t: nat): Step {
    if t < |st.tasks| && st.tasks[t].Waiting? then Start(t)
    else if Current(st, t) then Exchange(t, false)
    else if Pending(st, t) && st.tasks[t].loaded.Some? then Exchange(t, true)
    else Load(t)
  }

  lemma AdvanceProgresses(plan: Plan, st: State, t: nat)
    requires WellFormed(plan, st) && t < |st.tasks| && !Settled(st.tasks[t]) && (st.tasks[t].Adding? && st.tasks[t].loaded.Some? ==> Current(st, t))
    ensures var st' := Perform(plan, st, Advance(st, t));
      |st'.tasks| == |st.tasks| && Efforts(plan, st'.tasks, |st'.tasks|) < Efforts(plan, st.tasks, |st.tasks|)
  {
    if st.tasks[t].Adding? { assert InCells(st.tasks[t].pending, |st.cells|); }
    var st' := Perform(plan, st, Advance(st, t));
    assert st'.tasks == st.tasks[t := st'.tasks[t]];
    EffortsUpdate(plan, st.tasks, t, st'.tasks[t], |st.tasks|);
  }

  /** Nothing can be stuck: from every state some continuation settles every subdomain. */
  lemma {:induction false} Completes(plan: Plan, st: State) returns (schedule: seq<Step>)
    requires WellFormed(plan, st)
    ensures AllSettled(Run(plan, st, schedule))
    decreases Efforts(plan, st.tasks, |st.tasks|), Stale(st)
  {
    if t: nat :| t < |st.tasks| && !Settled(st.tasks[t]) {
      var first := Advance(st, t);
      var st' := Perform(plan, st, first);
      PerformKeepsForm(plan, st, first);
      if st.tasks[t].Adding? && st.tasks[t].loaded.Some? && !Current(st, t) {
        RefreshLoads(plan, st, t);
      } else {
        AdvanceProgresses(plan, st, t);
      }
      var rest := Completes(plan, st');
      schedule := [first] + rest;
      RunAppend(plan, st, first, rest);
    } else {
      schedule := [];
      assert Run(plan, st, []) == st;
    }
  }

  /** How many loaded values have been overtaken. */
  function Stale(st: State): nat { StaleUpTo(st, |st.tasks|) }

  function StaleUpTo(st: State, n: nat): nat
    requires n <= |st.tasks|
  {
    if n == 0 then 0
    else StaleUpTo(st, n - 1) + if Pending(st, n - 1) && st.tasks[n - 1].loaded.Some? && !Current(st, n - 1) then 1 else 0
  }

  lemma {:induction false} StaleUpdate(st: State, st': State, t: nat, n: nat)
    requires n <= |st.tasks| == |st'.tasks| && st'.cells == st.cells && t < |st.tasks|
    requires Pending(st, t) && st.tasks[t].loaded.Some? && !Current(st, t) && Current(st', t)
    requires forall k :: 0 <= k < |st.tasks| && k != t ==> st'.tasks[k] == st.tasks[k]
    ensures StaleUpTo(st', n) == StaleUpTo(st, n) - if t < n then 1 else 0
  {
    if n > 0 { StaleUpdate(st, st', t, n - 1); }
  }

  lemma RefreshLoads(plan: Plan, st: State, t: nat)
    requires WellFormed(plan, st) && t < |st.tasks| && st.tasks[t].Adding? && st.tasks[t].loaded.Some?
    requires !Settled(st.tasks[t]) && !Current(st, t)
    ensures var st' := Perform(plan, st, Advance(st, t));
      Efforts(plan, st'.tasks, |st'.tasks|) == Efforts(plan, st.tasks, |st.tasks|) && Stale(st') < Stale(st)
  {
    assert InCells(st.tasks[t].pending, |st.cells|);
    var st' := Perform(plan, st, Advance(st, t));
    assert st'.tasks == st.tasks[t := st'.tasks[t]];
    EffortsUpdate(plan, st.tasks, t, st'.tasks[t], |st.tasks|);
    StaleUpdate(st, st', t, |st.tasks|);
  }

  lemma {:induction false} RunAppend(plan: Plan, st: State, first: Step, rest: seq<Step>)
    ensures Run(plan, st, [first] + rest) == Run(plan, Perform(plan, st, first), rest)
  {
    var s := [first] + rest;
    if rest == [] {
      assert s == [first] && s[..0] == [];
      assert Run(plan, st, []) == st;
    } else {
      var n := |rest| - 1;
      RunAppend(plan, st, first, rest[..n]);
      assert s[..|s| - 1] == [first] + rest[..n];
    }
  }
}
