/** The saved replica count is never lost, never invented and never zero. */
module Conservation {
  import opened Types
  import opened Workloads
  import opened Machine
  import opened Runs
  import opened Hysteresis

  /** Whenever the dependent was found it was of a kind with replicas. */
  ghost predicate ReplicaKind(r: Run) {
    forall k :: 0 <= k < |r.inputs| && r.inputs[k].dependent.Found? ==> !r.inputs[k].dependent.w.CronJob?
  }

  /** History: the last non-zero count klink overwrote and has not put back since. */
  ghost function Owed(r: Run, k: nat): Option<int>
    requires r.Shaped() && k <= |r.inputs|
  {
    if k == 0 then None
    else if r.decisions[k - 1].write == Scale(0) && r.inputs[k - 1].dependent.Found? then
      Some(r.inputs[k - 1].dependent.w.GetReplicas())
    else if r.decisions[k - 1].write.Scale? then None
    else Owed(r, k - 1)
  }

  lemma StepSaved(s: Status, i: Input)
    requires WellFormed(s)
    requires i.dependent.Found? ==> !i.dependent.w.CronJob?
    ensures
      var write := Decide(s, i).write;
      && !write.Suspend?
      && (write == Scale(0) ==>
            && i.dependent.Found? && i.dependent.w.GetReplicas() != 0
            && Step(s, i).saved == Some(i.dependent.w.GetReplicas()))
      && (write.Scale? && write.n != 0 ==> s.saved == Some(write.n) && Step(s, i).saved.None?)
      && (write == NoWrite ==> Step(s, i).saved == s.saved)
  {
  }

  /** Saved-count conservation in every run, interrupted or not: the saved count is exactly what is owed, it is never
      zero, and a restore writes exactly what is owed. */
  lemma {:induction false} SavedIsOwed(r: Run, k: nat)
    requires r.Valid() && k <= |r.inputs| && ReplicaKind(r)
    ensures r.states[k].saved == Owed(r, k) != Some(0)
    ensures k < |r.inputs| && r.decisions[k].write.Scale? && r.decisions[k].write.n != 0 ==>
      Owed(r, k) == Some(r.decisions[k].write.n)
    decreases k
  {
    ReachableWellFormed(r, k);
    if k < |r.inputs| {
      assert r.Follows(k);
      StepSaved(r.states[k], r.inputs[k]);
    }
    if k > 0 {
      SavedIsOwed(r, k - 1);
      assert r.Follows(k - 1);
      ReachableWellFormed(r, k - 1);
      StepSaved(r.states[k - 1], r.inputs[k - 1]);
    }
  }

  // ---- the count on the server, when only klink scales the dependent

  function CountAfter(count: int, write: Write): int {
    if write.Scale? then write.n else count
  }

  /** counts[k] is the dependent's desired count before reconcile k; nobody but klink changes it. */
  ghost predicate OnlyKlinkScales(r: Run, counts: seq<int>)
    requires r.Shaped()
  {
    && |counts| == |r.states|
    && forall k: nat :: k < |r.inputs| ==> CountStep(r, counts, k)
  }

  ghost predicate CountStep(r: Run, counts: seq<int>, k: nat)
    requires r.Shaped() && |counts| == |r.states| && k < |r.inputs|
  {
    && (r.inputs[k].dependent.Found? ==> r.inputs[k].dependent.w.GetReplicas() == counts[k])
    && counts[k + 1] == CountAfter(counts[k], r.decisions[k].write)
  }

  /** Conservation of the count: in every run where only klink scales the dependent, the count is either intact on the
      server, or the server holds zero and the status holds exactly the original count. */
  lemma {:induction false} CountIsConserved(r: Run, counts: seq<int>, k: nat)
    requires r.Valid() && ReplicaKind(r) && OnlyKlinkScales(r, counts) && k < |counts| && counts[0] != 0
    ensures
      if r.states[k].saved.Some? then counts[k] == 0 && r.states[k].saved.value == counts[0]
      else counts[k] == counts[0]
    decreases k
  {
    if k > 0 {
      CountIsConserved(r, counts, k - 1);
      assert r.Follows(k - 1) && CountStep(r, counts, k - 1);
      ReachableWellFormed(r, k - 1);
      StepSaved(r.states[k - 1], r.inputs[k - 1]);
    }
  }

  /** Deleting the WorkloadDependency after any such run brings the original count back exactly unless it is deleted
      while a count is saved but the phase is no longer Suspended. */
  lemma DeletionGivesBackExactlyWhen(r: Run, counts: seq<int>, w: Workload)
    requires r.Valid() && ReplicaKind(r) && OnlyKlinkScales(r, counts) && counts[0] > 0
    requires !w.CronJob? && w.GetReplicas() == counts[|r.inputs|]
    ensures
      var last := r.states[|r.inputs|];
      CountAfter(w.GetReplicas(), DeletionWrite(last, Found(w))) == counts[0] <==>
        (last.saved.None? || last.phase == Suspended)
  {
    CountIsConserved(r, counts, |r.inputs|);
  }

  // ---- nothing is stranded without interruptions

  /** History: klink's latest write to the dependent before reconcile k. */
  ghost function LatestWrite(r: Run, k: nat): Write
    requires r.Shaped() && k <= |r.inputs|
  {
    if k == 0 then NoWrite
    else if r.decisions[k - 1].write != NoWrite then r.decisions[k - 1].write
    else LatestWrite(r, k - 1)
  }

  /** Exactly when a suspension is abandoned: a reconcile leaves Suspended while still holding a saved count if and only
      if it is paused, misses the dependent, defers to a rollout in flight or runs in gate or observe mode. */
  lemma AbandonsExactlyWhenInterrupted(s: Status, i: Input)
    requires WellFormed(s) && s.phase == Suspended && s.saved.Some?
    ensures Step(s, i).phase != Suspended && Step(s, i).saved.Some? <==> Interrupts(i)
    ensures Interrupts(i) ==> Decide(s, i).write == NoWrite && Step(s, i).saved == s.saved
  {
  }

  lemma StepHolds(s: Status, i: Input)
    requires WellFormed(s) && !Interrupts(i)
    requires (i.dependent.Found? ==> !i.dependent.w.CronJob? && i.dependent.w.Valid())
    ensures
      var write := Decide(s, i).write;
      && (write == Scale(0) ==> Step(s, i).phase == Suspended && Step(s, i).saved.Some? && Step(s, i).saved.value > 0)
      && (write == NoWrite && s.phase == Suspended && s.saved.Some? ==>
            Step(s, i).phase == Suspended && Step(s, i).saved == s.saved)
  {
  }

  /** The API server stores no negative replica count. */
  ghost predicate ValidCounts(r: Run) {
    forall x :: 0 <= x < |r.inputs| && r.inputs[x].dependent.Found? ==> r.inputs[x].dependent.w.Valid()
  }

  /** Nothing stranded: in a run without interruptions, whatever reads and patches fail, as long as klink's latest write
      took the dependent to zero, the phase is Suspended and a positive count is saved. */
  lemma {:induction false} NothingStranded(r: Run, k: nat)
    requires r.Valid() && k <= |r.inputs| && ReplicaKind(r) && ValidCounts(r) && NoInterruption(r, 0, |r.inputs|)
    ensures LatestWrite(r, k) == Scale(0) ==>
      r.states[k].phase == Suspended && r.states[k].saved.Some? && r.states[k].saved.value > 0
    decreases k
  {
    if k > 0 {
      NothingStranded(r, k - 1);
      assert r.Follows(k - 1);
      ReachableWellFormed(r, k - 1);
      assert !Interrupts(r.inputs[k - 1]);
      StepHolds(r.states[k - 1], r.inputs[k - 1]);
    }
  }

  /** Hence deletion after such a run either finds the dependent gone, or puts back what is owed, or klink's latest
      write was not a zero. */
  lemma DeletionStrandsNothing(r: Run, dependent: Fetch)
    requires r.Valid() && ReplicaKind(r) && ValidCounts(r) && NoInterruption(r, 0, |r.inputs|)
    requires dependent.Found? ==> !dependent.w.CronJob?
    ensures
      var n := |r.inputs|;
      || !dependent.Found?
      || LatestWrite(r, n) != Scale(0)
      || (Owed(r, n).Some? && Owed(r, n).value > 0 && DeletionWrite(r.states[n], dependent) == Scale(Owed(r, n).value))
  {
    NothingStranded(r, |r.inputs|);
    SavedIsOwed(r, |r.inputs|);
  }

  // ---- CronJobs

  ghost predicate CronJobRun(r: Run) {
    forall k :: 0 <= k < |r.inputs| && r.inputs[k].dependent.Found? ==> r.inputs[k].dependent.w.CronJob?
  }

  /** No count is ever saved for a CronJob, so deleting its WorkloadDependency never resumes it. */
  lemma {:induction false} DeletionNeverResumesCronJob(r: Run, k: nat, dependent: Fetch)
    requires r.Valid() && k < |r.states| && CronJobRun(r)
    ensures r.states[k].saved.None? && DeletionWrite(r.states[k], dependent) == NoWrite
    decreases k
  {
    if k > 0 {
      DeletionNeverResumesCronJob(r, k - 1, dependent);
      assert r.Follows(k - 1);
      assert r.inputs[k - 1].dependent.Found? ==> r.inputs[k - 1].dependent.w.CronJob?;
    }
  }
}
