/** Escalation on stalled contraction (crates/schwarz-precond/src/lsmr.rs:104-172). */
module StalenessRuns {
  import opened Wrappers

  datatype StalenessError = ZeroWindow | InvalidThreshold(threshold: real)

  datatype Staleness = Staleness(window: nat, threshold: real)

  function TryNew(window: nat, threshold: real): (r: Result<Staleness, StalenessError>)
    ensures r.Ok? <==> window > 0 && 0.0 <= threshold < 1.0
    ensures r.Ok? ==> r.value == Staleness(window, threshold)
    ensures r == Err(ZeroWindow) <==> window == 0
    ensures r == Err(InvalidThreshold(threshold)) <==> window > 0 && (threshold < 0.0 || threshold >= 1.0)
  {
    if window == 0 then Err(ZeroWindow)
    else if !(0.0 <= threshold < 1.0) then Err(InvalidThreshold(threshold))
    else Ok(Staleness(window, threshold))
  }

  /** The step from `x` to `y` contracted by less than the threshold; nothing is said of a
      step from zero, which neither extends nor breaks a stall. */
  predicate Stalls(threshold: real, x: real, y: real) { x > 0.0 && y / x > threshold }

  /** How many steps the trailing stall of `s` is long. */
  function Trailing(threshold: real, s: seq<real>): nat {
    if |s| < 2 then 0
    else if s[|s| - 2] <= 0.0 then Trailing(threshold, s[..|s| - 1])
    else if Stalls(threshold, s[|s| - 2], s[|s| - 1]) then Trailing(threshold, s[..|s| - 1]) + 1
    else 0
  }

  class StalenessRun {
    const policy: Staleness
    var previous: Option<real>
    var stalled: nat
    ghost var observed: seq<real>

    ghost predicate Valid()
      reads this
    {
      && previous == (if observed == [] then None else Some(observed[|observed| - 1]))
      && stalled == Trailing(policy.threshold, observed)
    }

    constructor (policy: Staleness)
      ensures Valid() && observed == [] && this.policy == policy
    {
      this.policy := policy;
      previous, stalled, observed := None, 0, [];
    }

    /** Escalates exactly when the trailing stall is at least the window. */
    method ShouldEscalate(current: real) returns (r: bool)
      requires Valid()
      modifies this
      ensures Valid() && observed == old(observed) + [current]
      ensures r <==> Trailing(policy.threshold, observed) >= policy.window
    {
      if previous.Some? && previous.value > 0.0 {
        if current / previous.value > policy.threshold {
          stalled := stalled + 1;
        } else {
          stalled := 0;
        }
      }
      previous := Some(current);
      assert (observed + [current])[..|observed|] == observed;
      observed := observed + [current];
      r := stalled >= policy.window;
    }
  }

  /** Over positive residuals, escalation says that the last `window` ratios all exceeded the
      threshold, and conversely. */
  lemma {:induction false} TrailingMeansRatios(threshold: real, s: seq<real>, k: nat)
    requires forall i :: 0 <= i < |s| ==> s[i] > 0.0
    ensures Trailing(threshold, s) >= k <==>
            k == 0 || (k < |s| && forall i :: |s| - 1 - k <= i < |s| - 1 ==> Stalls(threshold, s[i], s[i + 1]))
  {
    if k > 0 && |s| >= 2 {
      var p := s[..|s| - 1];
      TrailingMeansRatios(threshold, p, k - 1);
      assert forall i :: 0 <= i < |p| ==> p[i] == s[i];
      if k < |s| && forall i :: |s| - 1 - k <= i < |s| - 1 ==> Stalls(threshold, s[i], s[i + 1]) {
        forall i | |p| - 1 - (k - 1) <= i < |p| - 1 ensures Stalls(threshold, p[i], p[i + 1]) {
          assert Stalls(threshold, s[i], s[i + 1]);
        }
        assert Stalls(threshold, s[|s| - 2], s[|s| - 2 + 1]);
      }
      if Trailing(threshold, s) >= k {
        forall i | |s| - 1 - k <= i < |s| - 1 ensures Stalls(threshold, s[i], s[i + 1]) {
          if i < |s| - 2 { assert Stalls(threshold, p[i], p[i + 1]); }
        }
      }
    }
  }
}
