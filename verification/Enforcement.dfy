/** Which writes klink may make at all, and what each enforcement mode promises. */
module Enforcement {
  import opened Types
  import opened Workloads
  import opened Machine
  import opened Runs
  import opened Hysteresis
  import opened Clusters

  /** What justifies a write that takes a workload to rest in a given stored status: the degraded window has run out, or
      strict mode re-enforces a suspension that has no cap. */
  predicate Justified(s: Status, i: Input) {
    if s.phase == Suspended then i.spec.mode == Strict && i.spec.maxSuspendDuration <= 0
    else
      && s.phase != Released && s.degradedSince.Some?
      && i.now - s.degradedSince.value >= DegradedWindow(i.spec.dependsOn)
  }

  lemma StepZeroWrite(s: Status, i: Input)
    requires ZeroWrite(Decide(s, i).write) && s.saved != Some(0) && (s.suspendedAt.Some? <==> s.phase == Suspended)
    ensures SeesUnhealthy(i) && i.patchOk && !i.dependent.w.AtRest() && Justified(s, i)
    ensures Decide(s, i).write == SuspendWrite(i.dependent.w) && Step(s, i).phase == Suspended
  {
  }

  /** Every write that takes a workload to rest is justified, in every run: it is made by an enforcing reconcile that
      saw unhealth, on a running dependent that is not a rollout in flight, after a full degraded window or as strict
      re-enforcement; it does bring the workload to rest, and leaves the status Suspended. */
  lemma ZeroWritesAreJustified(r: Run, k: nat)
    requires r.Valid() && k < |r.inputs| && ZeroWrite(r.decisions[k].write)
    ensures SeesUnhealthy(r.inputs[k]) && !r.inputs[k].dependent.w.AtRest() && Justified(r.states[k], r.inputs[k])
    ensures Apply(r.inputs[k].dependent.w, r.decisions[k].write).AtRest() && r.states[k + 1].phase == Suspended
  {
    assert r.Follows(k);
    ReachableWellFormed(r, k);
    StepZeroWrite(r.states[k], r.inputs[k]);
  }

  lemma StepRestore(s: Status, i: Input)
    requires Decide(s, i).write != NoWrite && !ZeroWrite(Decide(s, i).write)
    ensures s.phase == Suspended && Active(i) && i.patchOk
    ensures Step(s, i).phase == if i.verdict == AllOk then Healthy else Released
    ensures Step(s, i).saved.None? && Step(s, i).healthySince.None?
  {
  }

  /** Every other write is a restore: it ends a suspension, a full recovery window after a healthy observation made
      during it, or because its cap ran out; it puts back the saved count and leaves none behind. */
  lemma RestoresAreJustified(r: Run, k: nat)
    requires r.Valid() && k < |r.inputs| && r.decisions[k].write != NoWrite && !ZeroWrite(r.decisions[k].write)
    ensures r.states[k + 1].saved.None? && (r.Recovers(k) || r.Releases(k))
    ensures r.Recovers(k) ==> exists h: nat :: h < k && RecoveryWindowBefore(r, h, k) && SuspendedThroughout(r, h, k)
    ensures r.decisions[k].write.Scale? ==> r.states[k].saved == Some(r.decisions[k].write.n)
  {
    assert r.Follows(k);
    StepRestore(r.states[k], r.inputs[k]);
    if r.Recovers(k) { RecoveryNeedsFullWindow(r, k); }
  }

  // ---- on the cluster

  /** On the cluster, whatever fails meanwhile: a reconcile that takes a running workload to rest found some dependency
      of that WorkloadDependency missing, or unhealthy and not itself suspended by klink. */
  lemma ZeroWriteHasCulprit(c: Cluster, id: NamespacedName, now: int, f: Faults)
    requires
      && id in c.wds
      && var key := DependentKey(c.wds[id].spec, id.namespace);
         key in c.workloads && !c.workloads[key].AtRest() && Reconcile(c, id, now, f).0.workloads[key].AtRest()
    requires c.wds[id].status.saved.Some? ==> 0 < c.wds[id].status.saved.value < 0x8000_0000
    requires c.wds[id].status.suspendedAt.Some? <==> c.wds[id].status.phase == Suspended
    ensures !c.wds[id].deleting && c.wds[id].finalizer && !c.wds[id].paused && c.wds[id].spec.mode in {Strict, Soft}
    ensures Justified(c.wds[id].status, InputFor(c, id, now, f))
    ensures exists dep :: dep in c.wds[id].spec.dependsOn && !DependencyOk(c, dep, id.namespace)
  {
    var wd := c.wds[id];
    var key := DependentKey(wd.spec, id.namespace);
    var i := InputFor(c, id, now, f);
    if wd.deleting {
      RestoreDoesNotRest(wd.status, c.workloads[key]);
    } else if wd.finalizer {
      RestoreDoesNotRest(wd.status, c.workloads[key]);
      DecideWrites(wd.status, i);
      StepZeroWrite(wd.status, i);
    }
  }

  lemma RestoreDoesNotRest(s: Status, w: Workload)
    requires s.saved.Some? ==> 0 < s.saved.value < 0x8000_0000
    ensures !w.AtRest() ==> !Apply(w, RestoreWrite(s, w)).AtRest()
  {
  }

  lemma DecideWrites(s: Status, i: Input)
    requires s.saved != Some(0)
    ensures Decide(s, i).write != NoWrite ==> i.dependent.Found?
    ensures Decide(s, i).write != NoWrite && !ZeroWrite(Decide(s, i).write) ==>
      Decide(s, i).write == RestoreWrite(s, i.dependent.w)
  {
  }

  /** What a recorded phase says about the reconcile that recorded it: Paused and Unknown exactly when paused or missing
      the dependent, Observed exactly for unhealth in observe mode, Healthy only for healthy dependencies, and Degraded,
      Released and a newly entered Suspended only for unhealthy ones. */
  ghost predicate RecordedTruly(r: Run, k: nat)
    requires r.Shaped() && k < |r.inputs|
  {
    var i, phase := r.inputs[k], r.states[k + 1].phase;
    && (phase == Paused <==> i.paused)
    && (phase == Unknown <==> !i.paused && i.dependent.NotFound?)
    && (phase == Observed <==>
        && !i.paused && i.dependent.Found? && i.verdict == NotOk
        && !i.dependent.w.IsProgressing() && i.spec.mode == Observe)
    && (phase == Healthy ==> i.verdict == AllOk)
    && (!i.paused && i.dependent.Found? && i.verdict == NotOk && i.spec.mode == Gate ==> phase == Degraded)
    && (!i.paused && i.dependent.Found? && i.verdict == AllOk ==>
          phase == Healthy || (phase == Suspended && r.states[k].phase == Suspended))
    && (phase in {Degraded, Released} ==> i.verdict == NotOk)
    && (r.EntersSuspended(k) ==> i.verdict == NotOk)
  }

  /** A reconcile that learns nothing new: it is not interrupted, and a read or a patch failed or a window is still
      open. */
  predicate Undecided(i: Input, d: Decision) {
    !Interrupts(i) && d.put.None? && d.write == NoWrite && (d.requeue.OnError? || d.requeue.After?)
  }

  /** The phase tells the truth at all times: at any point of any run it is the phase of the first status, or it was
      recorded truly by an earlier reconcile, and no reconcile since was paused, missed the dependent or ran in another
      mode. */
  lemma {:induction false} PhaseTellsTruth(r: Run, k: nat)
    requires r.Valid() && k < |r.states|
    ensures (r.states[k] == r.states[0] && forall x: nat :: x < k ==> Undecided(r.inputs[x], r.decisions[x]))
      || exists j: nat ::
           && j < k && r.states[k] == r.states[j + 1] && RecordedTruly(r, j)
           && forall x: nat :: j < x < k ==> Undecided(r.inputs[x], r.decisions[x])
    decreases k
  {
    if k > 0 {
      PhaseTellsTruth(r, k - 1);
      assert r.Follows(k - 1);
      if r.decisions[k - 1].put.Some? {
        assert RecordedTruly(r, k - 1);
      } else {
        assert Undecided(r.inputs[k - 1], r.decisions[k - 1]);
      }
    }
  }

  ghost predicate HandsOff(r: Run) {
    forall k :: 0 <= k < |r.inputs| ==> r.inputs[k].spec.mode in {Gate, Observe}
  }

  /** Gate and observe modes never touch a workload, deletion included. */
  lemma {:induction false} HandsOffNeverWrites(r: Run, k: nat, dependent: Fetch)
    requires r.Valid() && k < |r.states| && HandsOff(r)
    ensures r.states[k].phase !in {Suspended, Released} && DeletionWrite(r.states[k], dependent) == NoWrite
    ensures k < |r.inputs| ==> r.decisions[k].write == NoWrite
    decreases k
  {
    if k < |r.inputs| {
      assert r.Follows(k);
      assert r.inputs[k].spec.mode in {Gate, Observe};
    }
    if k > 0 {
      HandsOffNeverWrites(r, k - 1, dependent);
      assert r.Follows(k - 1);
      assert r.inputs[k - 1].spec.mode in {Gate, Observe};
    }
  }

  /** Soft mode takes a workload to rest at most once per suspension: two such writes are separated by a state that is
      not Suspended. */
  lemma SoftActsOncePerSuspension(r: Run, a: nat, b: nat)
    requires r.Valid() && a < b < |r.inputs|
    requires ZeroWrite(r.decisions[a].write) && ZeroWrite(r.decisions[b].write) && r.inputs[b].spec.mode == Soft
    ensures r.states[a + 1].phase == Suspended && !SuspendedThroughout(r, a + 1, b)
  {
    ZeroWritesAreJustified(r, a);
    ZeroWritesAreJustified(r, b);
  }

  /** Strict mode wins over manual scaling exactly when no cap is set: an unhealthy reconcile of a suspended, running
      workload takes it back to rest if and only if maxSuspendDuration is not positive. */
  lemma StrictReenforcesExactlyWhenUncapped(r: Run, k: nat)
    requires r.Valid() && k < |r.inputs| && r.states[k].phase == Suspended
    requires Plain(r.inputs[k]) && SeesUnhealthy(r.inputs[k]) && r.inputs[k].spec.mode == Strict
    requires !r.inputs[k].dependent.w.AtRest()
    ensures ZeroWrite(r.decisions[k].write) <==> r.inputs[k].spec.maxSuspendDuration <= 0
  {
    assert r.Follows(k);
    ReachableWellFormed(r, k);
  }
}
