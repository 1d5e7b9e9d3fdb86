/** Runs of one WorkloadDependency: any finite sequence of reconciles, with anything at all happening in between. */
module Runs {
  import opened Types
  import opened Machine

  /** states[k] is the stored status before reconcile k, decisions[k] what it decides; inputs are unconstrained. */
  datatype Run = Run(inputs: seq<Input>, decisions: seq<Decision>, states: seq<Status>) {
    ghost predicate Shaped() {
      |inputs| == |decisions| && |states| == |inputs| + 1
    }

    ghost predicate Valid() {
      && Shaped()
      && Initial(states[0])
      && forall k: nat :: k < |inputs| ==> Follows(k)
    }

    /** A stretch of a run, from whatever status it starts with. */
    ghost predicate Connected() {
      && Shaped()
      && forall k: nat :: k < |inputs| ==> Follows(k)
    }

    ghost predicate Follows(k: nat)
      requires Shaped() && k < |inputs|
    {
      decisions[k] == Decide(states[k], inputs[k]) && states[k + 1] == Step(states[k], inputs[k])
    }

    ghost predicate EntersSuspended(k: nat)
      requires Shaped() && k < |inputs|
    {
      states[k].phase != Suspended && states[k + 1].phase == Suspended
    }

    /** Reconcile k gives up on a suspension because it lasted too long. */
    ghost predicate Releases(k: nat)
      requires Shaped() && k < |inputs|
    {
      states[k].phase == Suspended && states[k + 1].phase == Released
    }

    /** Reconcile k ends a suspension because the dependencies recovered. */
    ghost predicate Recovers(k: nat)
      requires Shaped() && k < |inputs|
    {
      states[k].phase == Suspended && Active(inputs[k]) && states[k + 1].phase == Healthy
    }

    /** Reconcile k + 1 is not earlier than reconcile k and not later than reconcile k asked for. */
    ghost predicate OnTime(k: nat)
      requires Shaped() && k + 1 < |inputs|
    {
      && decisions[k].requeue.After?
      && inputs[k].now <= inputs[k + 1].now <= inputs[k].now + decisions[k].requeue.delay
    }

    ghost predicate Punctual(a: nat, b: nat)
      requires Shaped() && a <= b < |inputs|
    {
      forall k: nat :: a <= k < b ==> OnTime(k)
    }
  }

  /** The status when the finalizer has just been added: fresh, or Unknown from an earlier cycle report. */
  predicate Initial(s: Status) {
    s.phase in {NoPhase, Unknown} && s.saved.None? && s.degradedSince.None? && s.suspendedAt.None?
      && s.healthySince.None?
  }

  /** What every reachable status satisfies, whatever the run did. */
  predicate WellFormed(s: Status) {
    && (s.suspendedAt.Some? <==> s.phase == Suspended)
    && !(s.degradedSince.Some? && s.healthySince.Some?)
    && s.saved != Some(0)
    && (s.phase == Released ==> s.saved.None?)
  }

  lemma StepKeepsWellFormed(s: Status, i: Input)
    requires WellFormed(s)
    ensures WellFormed(Step(s, i))
  {
  }

  lemma {:induction false} ReachableWellFormed(r: Run, k: nat)
    requires r.Valid() && k < |r.states|
    ensures WellFormed(r.states[k])
    decreases k
  {
    if k > 0 {
      ReachableWellFormed(r, k - 1);
      assert r.Follows(k - 1);
      StepKeepsWellFormed(r.states[k - 1], r.inputs[k - 1]);
    }
  }

  /** Every sequence of inputs has a run, so statements about runs cover every input sequence. */
  lemma {:induction false} EveryInputSequenceRuns(inputs: seq<Input>, first: Status) returns (r: Run)
    requires Initial(first)
    ensures r.Valid() && r.inputs == inputs && r.states[0] == first
    decreases |inputs|
  {
    if inputs == [] {
      r := Run(inputs, [], [first]);
    } else {
      var n := |inputs| - 1;
      var before := EveryInputSequenceRuns(inputs[..n], first);
      var last := before.states[n];
      r := Run(inputs, before.decisions + [Decide(last, inputs[n])], before.states + [Step(last, inputs[n])]);
      forall k: nat | k < |inputs| ensures r.Follows(k) {
        if k < n { assert before.Follows(k) && before.inputs[k] == inputs[k]; }
      }
    }
  }
}
