/** Runs that show why the theorems carry the conditions they carry. */
module Counterexamples {
  import opened Types
  import opened Workloads
  import opened Machine
  import opened Runs
  import opened Hysteresis
  import opened Conservation
  import opened StatusWrites

  const SPEC := Spec(
    WorkloadRef("Deployment", "web", ""),
    [DependsOnEntry("Deployment", "db", "", HealthCondition(100, 0, 0))],
    0, Strict)

  /** A reconcile at the given second, of a dependent with the given count, with windows of 30 and 60 seconds. */
  function At(second: int, verdict: Verdict, count: int): Input {
    Input(SPEC, false, Found(Deployment(Some(count), count)), verdict, true, second * SECOND)
  }

  function PausedAt(second: int, count: int): Input {
    At(second, NotOk, count).(paused := true)
  }

  lemma Windows()
    ensures DegradedWindow(SPEC.dependsOn) == 30 * SECOND && RecoveryWindow(SPEC.dependsOn) == 60 * SECOND
  {
    assert SPEC.dependsOn[1..] == [];
  }

  const DEGRADED := Status(Degraded, None, Some(0), None, None)
  const SUSPENDED := Status(Suspended, Some(3), Some(0), Some(30 * SECOND), None)

  /** All runs below begin like this: unhealthy at second 0, suspended with three replicas saved at second 30. */
  lemma Beginning()
    ensures Decide(FRESH, At(0, NotOk, 3)).write == NoWrite && Step(FRESH, At(0, NotOk, 3)) == DEGRADED
    ensures Decide(DEGRADED, At(30, NotOk, 3)).write == Scale(0) && Step(DEGRADED, At(30, NotOk, 3)) == SUSPENDED
  {
    Windows();
  }

  const WAITING := Status(Suspended, Some(3), None, Some(30 * SECOND), Some(40 * SECOND))

  lemma WaitingStep()
    ensures Step(SUSPENDED, At(40, AllOk, 0)) == WAITING && Step(WAITING, At(99, NotOk, 0)) == WAITING
    ensures Decide(WAITING, At(100, AllOk, 0)).write == Scale(3) && Step(WAITING, At(100, AllOk, 0)).phase == Healthy
  {
    Windows();
  }

  /** Recovery is not required to be continuous: the dependency is unhealthy at second 99, yet the workload comes back
      at second 100, because it was seen healthy once at second 40. */
  lemma RecoveryIsNotContinuous() returns (r: Run)
    ensures r.Valid() && AllPlain(r, 0, |r.inputs|) && |r.inputs| == 5
    ensures r.Recovers(4) && r.decisions[4].write == Scale(3) && SeesUnhealthy(r.inputs[3])
    ensures r.inputs[4].now - r.inputs[3].now < RecoveryWindow(r.inputs[4].spec.dependsOn)
  {
    Windows();
    Beginning();
    WaitingStep();
    r := EveryInputSequenceRuns(
      [At(0, NotOk, 3), At(30, NotOk, 3), At(40, AllOk, 0), At(99, NotOk, 0), At(100, AllOk, 0)], FRESH);
    assert r.Follows(0) && r.states[1] == DEGRADED;
    assert r.Follows(1) && r.states[2] == SUSPENDED;
    assert r.Follows(2) && r.states[3] == WAITING;
    assert r.Follows(3) && r.states[4] == WAITING;
    assert r.Follows(4);
  }

  /** An observation made in gate mode does not reset the window: health was reported at second 10, yet the first
      unhealthy strict reconcile after it suspends at once. */
  lemma GateObservationDoesNotReset() returns (r: Run)
    ensures r.Valid() && |r.inputs| == 3
    ensures r.EntersSuspended(2) && r.inputs[1].verdict == AllOk && r.states[2].phase == Healthy
    ensures r.inputs[2].now - r.inputs[1].now < DegradedWindow(r.inputs[2].spec.dependsOn)
  {
    Windows();
    var gate := At(10, AllOk, 3).(spec := SPEC.(mode := Gate));
    r := EveryInputSequenceRuns([At(0, NotOk, 3), gate, At(30, NotOk, 3)], FRESH);
    assert r.Follows(0) && r.Follows(1) && r.Follows(2);
  }

  function CappedAt(second: int): Input {
    At(second, NotOk, 0).(spec := SPEC.(maxSuspendDuration := 30 * SECOND))
  }

  lemma FlapSteps()
    ensures Step(SUSPENDED, CappedAt(60)) == DEGRADED.(phase := Released)
    ensures Step(DEGRADED.(phase := Released), PausedAt(61, 3)) == DEGRADED.(phase := Paused)
    ensures Step(DEGRADED.(phase := Paused), At(62, NotOk, 3)).phase == Suspended
  {
    Windows();
  }

  /** A pause undoes Released: the workload is force-restored at second 60 and, after a pause, suspended again at second
      62 without any healthy observation in between. */
  lemma PauseLetsReleasedFlap() returns (r: Run)
    ensures r.Valid() && |r.inputs| == 5
    ensures r.Releases(2) && r.EntersSuspended(4) && NoneHealthy(r, 0, 5)
    ensures r.inputs[4].now - r.inputs[2].now == 2 * SECOND
  {
    Windows();
    Beginning();
    FlapSteps();
    r := EveryInputSequenceRuns(
      [At(0, NotOk, 3), At(30, NotOk, 3), CappedAt(60), PausedAt(61, 3), At(62, NotOk, 3)], FRESH);
    assert r.Follows(0) && r.states[1] == DEGRADED;
    assert r.Follows(1) && r.states[2] == SUSPENDED;
    assert r.Follows(2) && r.states[3] == DEGRADED.(phase := Released);
    assert r.Follows(3) && r.states[4] == DEGRADED.(phase := Paused);
    assert r.Follows(4);
  }

  /** A pause can strand a workload: suspended at second 30, paused at second 31, and deleted, it stays at zero although
      three replicas are owed. */
  lemma PauseStrandsOnDeletion() returns (r: Run)
    ensures r.Valid() && |r.inputs| == 3 && ReplicaKind(r)
    ensures LatestWrite(r, 3) == Scale(0) && Owed(r, 3) == Some(3)
    ensures DeletionWrite(r.states[3], Found(Deployment(Some(0), 0))) == NoWrite
  {
    Windows();
    Beginning();
    r := EveryInputSequenceRuns([At(0, NotOk, 3), At(30, NotOk, 3), PausedAt(31, 0)], FRESH);
    assert r.Follows(0) && r.states[1] == DEGRADED;
    assert r.Follows(1) && r.states[2] == SUSPENDED;
    assert r.Follows(2);
    assert r.decisions[0].write == NoWrite && r.decisions[1].write == Scale(0) && r.decisions[2].write == NoWrite;
    assert Owed(r, 2) == Some(3) && LatestWrite(r, 2) == Scale(0);
  }

  function RolloutAt(second: int, phase: string): Input {
    At(second, NotOk, 3).(dependent := Found(Rollout(Some(3), phase)))
  }

  /** No window runs while a Rollout is progressing: the phase says Degraded from second 0 on, but the first reconcile
      after the rollout, at second 40, finds no DegradedSince and only now starts the window. */
  lemma ProgressingStartsNoWindow() returns (r: Run)
    ensures r.Valid() && |r.inputs| == 2 && NoneHealthy(r, 0, 2)
    ensures r.states[1].phase == Degraded && r.states[1].degradedSince.None?
    ensures r.inputs[1].now - r.inputs[0].now >= DegradedWindow(r.inputs[1].spec.dependsOn)
    ensures SeesUnhealthy(r.inputs[1]) && !r.EntersSuspended(1) && r.states[2].degradedSince == Some(r.inputs[1].now)
  {
    Windows();
    r := EveryInputSequenceRuns([RolloutAt(0, "Progressing"), RolloutAt(40, "Degraded")], FRESH);
    assert r.Follows(0) && r.Follows(1);
  }

  /** A cap switches strict mode off: somebody scales the suspended workload to five at second 40, dependencies are
      unhealthy, and the reconcile leaves it at five. */
  lemma CapDefeatsStrict() returns (r: Run)
    ensures r.Valid() && |r.inputs| == 3
    ensures r.states[2].phase == Suspended && SeesUnhealthy(r.inputs[2]) && r.inputs[2].spec.mode == Strict
    ensures r.inputs[2].dependent == Found(Deployment(Some(5), 5)) && r.decisions[2].write == NoWrite
  {
    Windows();
    Beginning();
    var capped := At(40, NotOk, 5).(spec := SPEC.(maxSuspendDuration := 3600 * SECOND));
    r := EveryInputSequenceRuns([At(0, NotOk, 3), At(30, NotOk, 3), capped], FRESH);
    assert r.Follows(0) && r.states[1] == DEGRADED;
    assert r.Follows(1) && r.states[2] == SUSPENDED;
    assert r.Follows(2);
  }

  function Holding(status: Status): WD {
    WD(SPEC, false, false, true, 1, status, [])
  }

  /** A lost clear defeats the degrade window: health seen at second 10 clears DegradedSince, but the status update
      meets one conflict, with an object that still carries it, and the unhealthy reconcile at second 30 suspends at
      once. */
  lemma LostClearDefeatsWindow(wd: WD)
    requires wd == Holding(DEGRADED)
    ensures
      var d := Decide(DEGRADED, At(10, AllOk, 3));
      && d.put.Some? && d.put.value.phase == Healthy && d.put.value.local.degradedSince.None?
      && var turns := [Conflict(wd.(generation := 2))];
         var (after, result) := WriteStatus(wd, wd.(status := d.put.value.local), Healthy, 10 * SECOND, turns);
         && result == Written && after.status.phase == Healthy && after.status.degradedSince == Some(0)
         && Decide(after.status, At(30, NotOk, 3)).write == Scale(0)
         && Step(after.status, At(30, NotOk, 3)).phase == Suspended
  {
    Windows();
    var local := DEGRADED.(degradedSince := None, healthySince := None);
    var turns := [Conflict(wd.(generation := 2))];
    assert Conflicts(turns, 0, MAX_RETRIES) == 1;
    WriteFromClosed(wd, wd.(status := local), local, Healthy, 10 * SECOND, turns, 0, MAX_RETRIES);
  }

  /** A lost clear brings back a saved count: after a restore the count is on the server and in the status at once. */
  lemma LostClearKeepsCount(wd: WD)
    requires wd == Holding(WAITING)
    ensures
      var d := Decide(WAITING, At(100, AllOk, 0));
      && d.write == Scale(3) && d.put.Some? && d.put.value.local.saved.None?
      && var turns := [Conflict(wd.(generation := 2))];
         var (after, result) := WriteStatus(wd, wd.(status := d.put.value.local), Healthy, 100 * SECOND, turns);
         result == Written && after.status.phase == Healthy && after.status.saved == Some(3)
  {
    Windows();
    var local := WAITING.(degradedSince := None, saved := None, healthySince := None);
    var turns := [Conflict(wd.(generation := 2))];
    assert Conflicts(turns, 0, MAX_RETRIES) == 1;
    WriteFromClosed(wd, wd.(status := local), local, Healthy, 100 * SECOND, turns, 0, MAX_RETRIES);
  }

  function CronJobAt(second: int): Input {
    At(second, NotOk, 3).(dependent := Found(CronJob(Some(false))))
  }

  /** A CronJob stays suspended: klink suspends it at second 30, and deleting the WorkloadDependency does not resume it.
      */
  lemma DeletionLeavesCronJobSuspended() returns (r: Run)
    ensures r.Valid() && |r.inputs| == 2 && CronJobRun(r) && r.inputs[1].dependent == Found(CronJob(Some(false)))
    ensures r.decisions[1].write == Suspend(true) && r.states[2].phase == Suspended
    ensures Apply(CronJob(Some(false)), Suspend(true)) == CronJob(Some(true))
    ensures DeletionWrite(r.states[2], Found(CronJob(Some(true)))) == NoWrite
  {
    Windows();
    r := EveryInputSequenceRuns([CronJobAt(0), CronJobAt(30)], FRESH);
    assert r.Follows(0) && r.states[1] == DEGRADED;
    assert r.Follows(1);
  }
}
