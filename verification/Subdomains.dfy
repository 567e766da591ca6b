/** Restriction, weighting and prolongation of one subdomain, and the Schwarz sum
    (crates/schwarz-precond/src/domain.rs:47-189, crates/schwarz-precond/src/local_solve.rs:91-147). */
module Subdomains {
  import opened Wrappers
  import opened Sums

  datatype PartitionWeights = Uniform(n: nat) | NonUniform(w: seq<real>) {
    function Len(): nat { if Uniform? then n else |w| }

    function Get(i: nat): real
      requires i < Len()
    {
      if Uniform? then 1.0 else w[i]
    }
  }

  /** `solve` is the local solver: a function of the restricted right-hand side alone. */
  datatype SubdomainEntry = SubdomainEntry(indices: seq<nat>, weights: PartitionWeights, scratchSize: nat,
                                           solve: seq<real> -> Option<seq<real>>) {
    function NLocal(): nat { |indices| }

    ghost predicate Valid(nDofs: nat) {
      && weights.Len() == |indices| <= scratchSize
      && (forall i :: 0 <= i < |indices| ==> indices[i] < nDofs)
      && (forall b :: |b| == |indices| && solve(b).Some? ==> |solve(b).value| == |indices|)
    }

    /** D R r */
    function Restricted(r: seq<real>): (s: seq<real>)
      requires weights.Len() == |indices| && forall i :: 0 <= i < |indices| ==> indices[i] < |r|
      ensures |s| == |indices|
    {
      seq(|indices|, i requires 0 <= i < |indices| && weights.Len() == |indices| && indices[i] < |r| =>
        r[indices[i]] * weights.Get(i))
    }

    /** The additions that prolongate a local solution, in index order. */
    function Adds(sol: seq<real>): (a: seq<(nat, real)>)
      requires weights.Len() == |indices| == |sol|
      ensures |a| == |indices|
    {
      seq(|indices|, i requires 0 <= i < |indices| && weights.Len() == |indices| == |sol| =>
        (indices[i], sol[i] * weights.Get(i)))
    }

    /** What the subdomain adds for `r`; `None` when its local solve fails. */
    function Plan(r: seq<real>): Option<seq<(nat, real)>>
      requires weights.Len() == |indices| && forall i :: 0 <= i < |indices| ==> indices[i] < |r|
    {
      if indices == [] then Some([])
      else match solve(Restricted(r))
        case None => None
        case Some(sol) => if |sol| == |indices| then Some(Adds(sol)) else None
    }
  }

  /** What a list of additions contributes at `d`. */
  function AddedAt(adds: seq<(nat, real)>, d: int): real {
    if adds == [] then 0.0
    else AddedAt(adds[1..], d) + if adds[0].0 == d then adds[0].1 else 0.0
  }

  lemma {:induction false} AddedAtPush(adds: seq<(nat, real)>, a: (nat, real), d: int)
    ensures AddedAt(adds + [a], d) == AddedAt(adds, d) + if a.0 == d then a.1 else 0.0
  {
    if adds == [] {
      assert adds + [a] == [a];
    } else {
      AddedAtPush(adds[1..], a, d);
      assert (adds + [a])[1..] == adds[1..] + [a];
    }
  }

  /** A plan for every subdomain. */
  ghost function Plans(entries: seq<SubdomainEntry>, r: seq<real>): (p: seq<Option<seq<(nat, real)>>>)
    requires forall s :: 0 <= s < |entries| ==> entries[s].Valid(|r|)
    ensures |p| == |entries|
  {
    seq(|entries|, s requires 0 <= s < |entries| && entries[s].Valid(|r|) => entries[s].Plan(r))
  }

  /** Entry `d` of one planned contribution. */
  function PlannedAt(plan: Option<seq<(nat, real)>>, d: int): real {
    if plan.Some? then AddedAt(plan.value, d) else 0.0
  }

  /** Entry `d` of `sum_s R_s^T D_s A_s^-1 D_s R_s r`. */
  ghost function SchwarzSum(plans: seq<Option<seq<(nat, real)>>>, d: int): real {
    Sum(|plans|, s => if 0 <= s < |plans| then PlannedAt(plans[s], d) else 0.0)
  }

  // ---- The loops ---------------------------------------------------------------------------

  method RestrictWeighted(e: SubdomainEntry, global: seq<real>, local: array<real>)
    requires e.Valid(|global|) && e.NLocal() <= local.Length
    modifies local
    ensures local[..e.NLocal()] == e.Restricted(global) && local[e.NLocal()..] == old(local[e.NLocal()..])
  {
    for i := 0 to e.NLocal()
      invariant forall k :: 0 <= k < i ==> local[k] == e.Restricted(global)[k]
      invariant local[e.NLocal()..] == old(local[e.NLocal()..])
    {
      match e.weights
      case Uniform(_) => local[i] := global[e.indices[i]];
      case NonUniform(w) => local[i] := global[e.indices[i]] * w[i];
    }
  }

  ghost predicate AddedUpTo(g0: seq<real>, g: seq<real>, adds: seq<(nat, real)>) {
    |g| == |g0| && forall d :: 0 <= d < |g| ==> g[d] == g0[d] + AddedAt(adds, d)
  }

  lemma NothingAddedTo(g: seq<real>)
    ensures AddedUpTo(g, g, [])
  {
  }

  lemma AddOne(g0: seq<real>, g: seq<real>, adds: seq<(nat, real)>, a: (nat, real))
    requires AddedUpTo(g0, g, adds) && a.0 < |g|
    ensures AddedUpTo(g0, g[a.0 := g[a.0] + a.1], adds + [a])
  {
    forall d | 0 <= d < |g| ensures g[a.0 := g[a.0] + a.1][d] == g0[d] + AddedAt(adds + [a], d) {
      AddedAtPush(adds, a, d);
    }
  }

  method ProlongateWeightedAdd(e: SubdomainEntry, local: array<real>, global: array<real>)
    requires e.Valid(global.Length) && e.NLocal() <= local.Length && local != global
    modifies global
    ensures AddedUpTo(old(global[..]), global[..], e.Adds(local[..e.NLocal()]))
  {
    hide AddedUpTo;
    ghost var g0, l0 := global[..], local[..e.NLocal()];
    ghost var adds := e.Adds(l0);
    NothingAddedTo(g0);
    assert adds[..0] == [];
    for i := 0 to e.NLocal()
      invariant |global[..]| == |g0| && AddedUpTo(g0, global[..], adds[..i])
      invariant local[..e.NLocal()] == l0
    {
      ghost var g := global[..];
      AddOne(g0, g, adds[..i], adds[i]);
      assert adds[..i + 1] == adds[..i] + [adds[i]];
      assert l0[i] == local[..e.NLocal()][i] == local[i];
      assert adds[i].0 == e.indices[i] && adds[i].1 == l0[i] * e.weights.Get(i);
      match e.weights {
        case Uniform(_) => global[e.indices[i]] := global[e.indices[i]] + local[i];
        case NonUniform(w) => global[e.indices[i]] := global[e.indices[i]] + local[i] * w[i];
      }
      assert global[e.indices[i]] == g[e.indices[i]] + adds[i].1;
      assert global[..] == g[e.indices[i] := g[e.indices[i]] + adds[i].1];
    }
    assert adds[..|adds|] == adds;
  }

  /** `apply_weighted_into_with_scratch`, over whatever the scratch buffers held before. */
  method ApplyWeightedInto(e: SubdomainEntry, r: seq<real>, out: array<real>, rScratch: array<real>, zScratch: array<real>)
    returns (ok: bool)
    requires e.Valid(|r|) && out.Length == |r| && rScratch.Length >= e.scratchSize && zScratch.Length >= e.scratchSize
    requires out != rScratch && out != zScratch && rScratch != zScratch
    modifies out, rScratch, zScratch
    ensures ok <==> e.Plan(r).Some?
    ensures ok ==> AddedUpTo(old(out[..]), out[..], e.Plan(r).value)
    ensures !ok ==> out[..] == old(out[..])
  {
    if e.indices == [] {
      return true;
    }
    RestrictWeighted(e, r, rScratch);
    match e.solve(rScratch[..e.NLocal()]) {
      case None => ok := false;
      case Some(sol) =>
        for i := 0 to e.NLocal()
          invariant out[..] == old(out[..]) && zScratch[..i] == sol[..i]
        {
          zScratch[i] := sol[i];
        }
        assert zScratch[..e.NLocal()] == sol;
        ProlongateWeightedAdd(e, zScratch, out);
        ok := true;
    }
  }
}
