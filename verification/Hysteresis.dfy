/** When klink may act: nothing is suspended before a full window of unhealth, nothing restored before the recovery
    window. */
module Hysteresis {
  import opened Types
  import opened Machine
  import opened Runs

  /** No reconcile in a..b looked at healthy dependencies in an enforcing mode. */
  ghost predicate NoneHealthy(r: Run, a: nat, b: nat)
    requires b <= |r.inputs|
  {
    forall x :: a <= x < b ==> !SeesHealthy(r.inputs[x])
  }

  ghost predicate NoInterruption(r: Run, a: nat, b: nat)
    requires b <= |r.inputs|
  {
    forall x :: a <= x < b ==> !Interrupts(r.inputs[x])
  }

  /** Every reconcile in a..b that could read everything saw unhealth in an enforcing mode. */
  ghost predicate AllUnhealthy(r: Run, a: nat, b: nat)
    requires b <= |r.inputs|
  {
    forall x :: a <= x < b ==> SeesUnhealthy(r.inputs[x]) || ReadFails(r.inputs[x])
  }

  lemma NeitherHealthyNorInterrupted(r: Run, a: nat, b: nat)
    requires b <= |r.inputs| && NoneHealthy(r, a, b) && NoInterruption(r, a, b)
    ensures AllUnhealthy(r, a, b)
  {
    forall x | a <= x < b ensures SeesUnhealthy(r.inputs[x]) || ReadFails(r.inputs[x]) {
      FourOutcomes(r.inputs[x]);
    }
  }

  ghost predicate AllPlain(r: Run, a: nat, b: nat)
    requires b <= |r.inputs|
  {
    forall x :: a <= x < b ==> Plain(r.inputs[x])
  }

  /** Reconcile j saw unhealth a full degraded window before reconcile k, by the window k works with. */
  ghost predicate WindowBefore(r: Run, j: nat, k: nat)
    requires j < |r.inputs| && k < |r.inputs|
  {
    && SeesUnhealthy(r.inputs[j])
    && r.inputs[j].now + DegradedWindow(r.inputs[k].spec.dependsOn) <= r.inputs[k].now
  }

  /** A reconcile keeps DegradedSince, starts it now, or clears it on seeing health. */
  lemma StepDegradedSince(s: Status, i: Input)
    requires WellFormed(s) && Step(s, i).degradedSince.Some?
    ensures !SeesHealthy(i)
    ensures Step(s, i).degradedSince == s.degradedSince || (Step(s, i).degradedSince == Some(i.now) && SeesUnhealthy(i))
  {
  }

  /** Within a suspension HealthySince is set by a healthy observation and kept by everything else. */
  lemma StepHealthySince(s: Status, i: Input)
    requires WellFormed(s) && Step(s, i).phase == Suspended
    ensures s.phase == Suspended && s.healthySince.Some? ==> Step(s, i).healthySince == s.healthySince
    ensures s.phase == Suspended && s.healthySince.None? && SeesHealthy(i) ==> Step(s, i).healthySince == Some(i.now)
    ensures Step(s, i).healthySince.Some? ==> s.phase == Suspended
    ensures Step(s, i).healthySince.Some? && s.healthySince.None? ==>
      SeesHealthy(i) && Step(s, i).healthySince == Some(i.now)
  {
  }

  /** DegradedSince is the time of a reconcile that saw unhealth, and no enforcing reconcile has seen health since. */
  lemma {:induction false} DegradedSinceWitness(r: Run, k: nat) returns (j: nat)
    requires r.Valid() && k < |r.states| && r.states[k].degradedSince.Some?
    ensures j < k && r.inputs[j].now == r.states[k].degradedSince.value
    ensures SeesUnhealthy(r.inputs[j]) && NoneHealthy(r, j, k)
    decreases k
  {
    ReachableWellFormed(r, k - 1);
    assert r.Follows(k - 1);
    StepDegradedSince(r.states[k - 1], r.inputs[k - 1]);
    if r.states[k - 1].degradedSince == r.states[k].degradedSince {
      j := DegradedSinceWitness(r, k - 1);
    } else {
      j := k - 1;
    }
  }

  /** Degrade hysteresis, for every run: the reconcile that enters Suspended comes at least one full window after
      a reconcile that saw unhealth, and no enforcing reconcile from there on saw every dependency healthy. */
  lemma SuspensionNeedsFullWindow(r: Run, k: nat)
    requires r.Valid() && k < |r.inputs| && r.EntersSuspended(k)
    ensures SeesUnhealthy(r.inputs[k])
    ensures exists j: nat :: j < k && WindowBefore(r, j, k) && NoneHealthy(r, j, k + 1)
  {
    ReachableWellFormed(r, k);
    assert r.Follows(k);
    var j := DegradedSinceWitness(r, k);
    assert WindowBefore(r, j, k) && NoneHealthy(r, j, k + 1);
  }

  /** The same without interruptions: in that window every reconcile that could read everything saw unhealth. */
  lemma UninterruptedSuspensionNeedsFullWindow(r: Run, k: nat)
    requires r.Valid() && k < |r.inputs| && r.EntersSuspended(k) && NoInterruption(r, 0, k + 1)
    ensures exists j: nat :: j < k && WindowBefore(r, j, k) && AllUnhealthy(r, j, k + 1)
  {
    SuspensionNeedsFullWindow(r, k);
    var j: nat :| j < k && WindowBefore(r, j, k) && NoneHealthy(r, j, k + 1);
    NeitherHealthyNorInterrupted(r, j, k + 1);
  }

  /** Exactly when a running window is reset: by an enforcing reconcile that sees every dependency healthy, and by
      nothing else. An observation in gate or observe mode does not count. */
  lemma WindowResetsExactlyWhen(r: Run, k: nat)
    requires r.Valid() && k < |r.inputs| && r.states[k].degradedSince.Some?
    ensures r.states[k + 1].degradedSince.None? <==> SeesHealthy(r.inputs[k])
    ensures !SeesHealthy(r.inputs[k]) ==> r.states[k + 1].degradedSince == r.states[k].degradedSince
  {
    ReachableWellFormed(r, k);
    assert r.Follows(k);
  }

  /** Exactly when a window starts: at an enforcing reconcile that sees unhealth while the workload is neither suspended
      nor released, and not while a Progressing Rollout is deferred to. */
  lemma WindowStartsExactlyWhen(r: Run, k: nat)
    requires r.Valid() && k < |r.inputs| && r.states[k].degradedSince.None?
    ensures r.states[k + 1].degradedSince.Some? <==>
      SeesUnhealthy(r.inputs[k]) && r.states[k].phase !in {Suspended, Released}
    ensures r.states[k + 1].degradedSince.Some? ==> r.states[k + 1].degradedSince == Some(r.inputs[k].now)
  {
    assert r.Follows(k);
  }

  /** Over any stretch: a window that was running before it is still running after it, from the same start, if and only
      if no reconcile of the stretch saw health in an enforcing mode. */
  lemma {:induction false} WindowRunsOnExactlyWhen(r: Run, j: nat, k: nat)
    requires r.Valid() && j <= k < |r.states| && r.states[j].degradedSince.Some?
    ensures (forall x :: j <= x <= k ==> r.states[x].degradedSince == r.states[j].degradedSince) <==>
      NoneHealthy(r, j, k)
    decreases k
  {
    if j < k {
      WindowRunsOnExactlyWhen(r, j, k - 1);
      if NoneHealthy(r, j, k - 1) {
        WindowResetsExactlyWhen(r, k - 1);
      }
    }
  }

  ghost predicate SuspendedThroughout(r: Run, a: nat, b: nat)
    requires b < |r.states|
  {
    forall x :: a <= x <= b ==> r.states[x].phase == Suspended
  }

  /** Reconcile h saw health a full recovery window before reconcile k. */
  ghost predicate RecoveryWindowBefore(r: Run, h: nat, k: nat)
    requires h < |r.inputs| && k < |r.inputs|
  {
    && SeesHealthy(r.inputs[h])
    && r.inputs[h].now + RecoveryWindow(r.inputs[k].spec.dependsOn) <= r.inputs[k].now
  }

  /** While Suspended, HealthySince is the time of the first healthy observation of this suspension. */
  lemma {:induction false} HealthySinceWitness(r: Run, k: nat) returns (h: nat)
    requires r.Valid() && k < |r.states|
    requires r.states[k].phase == Suspended && r.states[k].healthySince.Some?
    ensures h < k && r.inputs[h].now == r.states[k].healthySince.value && SeesHealthy(r.inputs[h])
    ensures SuspendedThroughout(r, h, k) && r.states[h].healthySince.None?
    decreases k
  {
    ReachableWellFormed(r, k - 1);
    assert r.Follows(k - 1);
    StepHealthySince(r.states[k - 1], r.inputs[k - 1]);
    if r.states[k - 1].healthySince.Some? {
      h := HealthySinceWitness(r, k - 1);
    } else {
      h := k - 1;
    }
  }

  /** Recovery hysteresis, for every run: a recovery restore comes at least one recovery window after a healthy
      observation made during the same suspension, and sees health itself. */
  lemma RecoveryNeedsFullWindow(r: Run, k: nat)
    requires r.Valid() && k < |r.inputs| && r.Recovers(k)
    ensures SeesHealthy(r.inputs[k])
    ensures exists h: nat :: h < k && RecoveryWindowBefore(r, h, k) && SuspendedThroughout(r, h, k)
  {
    assert r.Follows(k);
    var h := HealthySinceWitness(r, k);
    assert RecoveryWindowBefore(r, h, k);
  }

  lemma StepRecovers(s: Status, i: Input)
    requires s.phase == Suspended && s.healthySince.Some? && SeesHealthy(i) && i.patchOk
    ensures Step(s, i).phase == Healthy <==> i.now - s.healthySince.value >= RecoveryWindow(i.spec.dependsOn)
  {
  }

  /** Health need not be continuous. Exactly when a healthy reconcile restores: once the recovery window has passed
      since the first healthy observation of this suspension, whatever was seen in between. */
  lemma RecoveryExactlyWhen(r: Run, h: nat, k: nat)
    requires r.Valid() && h < k < |r.inputs|
    requires SuspendedThroughout(r, h, k) && r.states[h].healthySince.None?
    requires SeesHealthy(r.inputs[h]) && SeesHealthy(r.inputs[k]) && r.inputs[k].patchOk
    ensures r.Recovers(k) <==> r.inputs[k].now - r.inputs[h].now >= RecoveryWindow(r.inputs[k].spec.dependsOn)
  {
    ReachableWellFormed(r, h);
    assert r.Follows(h);
    StepHealthySince(r.states[h], r.inputs[h]);
    HealthySincePersists(r, h + 1, k);
    assert r.Follows(k);
    StepRecovers(r.states[k], r.inputs[k]);
  }

  lemma {:induction false} HealthySincePersists(r: Run, a: nat, b: nat)
    requires r.Valid() && a <= b < |r.states|
    requires SuspendedThroughout(r, a, b) && r.states[a].healthySince.Some?
    ensures r.states[b].healthySince == r.states[a].healthySince
    decreases b
  {
    if a < b {
      HealthySincePersists(r, a, b - 1);
      ReachableWellFormed(r, b - 1);
      assert r.Follows(b - 1);
      StepHealthySince(r.states[b - 1], r.inputs[b - 1]);
    }
  }

  /** The cap on a suspension: SuspendedAt is the time of the reconcile that entered it, for as long as it lasts. */
  lemma {:induction false} SuspendedAtIsEntryTime(r: Run, e: nat, k: nat)
    requires r.Valid() && e < k < |r.states|
    requires r.EntersSuspended(e) && SuspendedThroughout(r, e + 1, k)
    ensures r.states[k].suspendedAt == Some(r.inputs[e].now)
    decreases k
  {
    assert r.Follows(e);
    ReachableWellFormed(r, e);
    if e + 1 < k {
      SuspendedAtIsEntryTime(r, e, k - 1);
      assert r.Follows(k - 1);
    }
  }

  lemma {:induction false} SuspensionHasEntry(r: Run, k: nat) returns (e: nat)
    requires r.Valid() && k < |r.states| && r.states[k].phase == Suspended
    ensures e < k && r.EntersSuspended(e) && SuspendedThroughout(r, e + 1, k)
    decreases k
  {
    if r.states[k - 1].phase == Suspended {
      e := SuspensionHasEntry(r, k - 1);
    } else {
      e := k - 1;
    }
  }

  /** No suspension is given up before it has lasted maxSuspendDuration, in any run. */
  lemma ReleaseNeedsFullDuration(r: Run, k: nat)
    requires r.Valid() && k < |r.inputs| && r.Releases(k)
    ensures r.inputs[k].spec.maxSuspendDuration > 0 && SeesUnhealthy(r.inputs[k])
    ensures exists e: nat ::
              && e < k && r.EntersSuspended(e) && SuspendedThroughout(r, e + 1, k)
              && r.inputs[e].now + r.inputs[k].spec.maxSuspendDuration <= r.inputs[k].now
  {
    assert r.Follows(k);
    var e := SuspensionHasEntry(r, k);
    SuspendedAtIsEntryTime(r, e, k);
  }

  lemma StepReleased(s: Status, i: Input)
    requires s.phase == Released && !SeesHealthy(i)
    ensures Step(s, i).phase == Released <==> !Interrupts(i)
  {
  }

  /** Released lasts exactly until something interrupts it: while no enforcing reconcile sees health, the phase stays
      Released if and only if no reconcile is paused, misses the dependent, defers to a rollout or runs in gate or
      observe mode. */
  lemma {:induction false} ReleasedStaysExactlyWhen(r: Run, f: nat, k: nat)
    requires r.Valid() && f < k < |r.states| && r.Releases(f) && NoneHealthy(r, f + 1, k)
    ensures (forall x :: f < x <= k ==> r.states[x].phase == Released) <==> NoInterruption(r, f + 1, k)
    decreases k
  {
    if f + 1 < k {
      ReleasedStaysExactlyWhen(r, f, k - 1);
      if NoInterruption(r, f + 1, k - 1) {
        assert r.Follows(k - 1);
        assert !SeesHealthy(r.inputs[k - 1]);
        StepReleased(r.states[k - 1], r.inputs[k - 1]);
      }
    }
  }

  /** Released never flaps: in a stretch without interruptions after a forced restore, whatever reads and patches fail,
      the next suspension is preceded by a healthy observation and then by a full window in which every reconcile that
      could read everything saw unhealth. */
  lemma ReleasedNeverFlaps(r: Run, f: nat, k: nat)
    requires r.Valid() && f < k < |r.inputs|
    requires r.Releases(f) && NoInterruption(r, f + 1, k + 1) && r.EntersSuspended(k)
    ensures exists h: nat, j: nat ::
              && f < h < j < k && SeesHealthy(r.inputs[h])
              && WindowBefore(r, j, k) && AllUnhealthy(r, j, k + 1)
  {
    SuspensionNeedsFullWindow(r, k);
    assert r.Follows(k);
    if NoneHealthy(r, f + 1, k) {
      ReleasedStaysExactlyWhen(r, f, k);
    }
    var h :| f < h < k && SeesHealthy(r.inputs[h]);
    var j: nat :| j < k && WindowBefore(r, j, k) && NoneHealthy(r, j, k + 1);
    assert h < j;
    NeitherHealthyNorInterrupted(r, j, k + 1);
  }
}
