/** From the cluster to one WorkloadDependency: what the runs of a single machine say about a cluster in which many
    reconcile. */
module Projection {
  import opened Types
  import opened Workloads
  import opened Machine
  import opened Runs
  import opened StatusWrites
  import opened Clusters

  /** The object is there, admitted and not being deleted. */
  predicate Live(c: Cluster, id: NamespacedName) {
    id in c.wds && c.wds[id].finalizer && !c.wds[id].deleting
  }

  /** Steps that leave the status of id to klink; everything else may change. The status writes of id itself meet no
      conflict, those of the others may. */
  ghost predicate StepAround(c: Cluster, e: Event, c': Cluster, id: NamespacedName)
    requires Live(c, id) && Live(c', id)
  {
    match e
    case Klink(x, now, f) => (x == id ==> Reliable(f)) && c' == Reconcile(c, x, now, f).0
    case Environment => c'.wds[id].status == c.wds[id].status
  }

  ghost predicate RunAround(cs: seq<Cluster>, events: seq<Event>, id: NamespacedName) {
    && |cs| == |events| + 1
    && (forall k :: 0 <= k < |cs| ==> Live(cs[k], id))
    && (forall k: nat :: k < |events| ==> AroundAt(cs, events, id, k))
  }

  ghost predicate AroundAt(cs: seq<Cluster>, events: seq<Event>, id: NamespacedName, k: nat)
    requires |cs| == |events| + 1 && k < |events|
  {
    Live(cs[k], id) && Live(cs[k + 1], id) && StepAround(cs[k], events[k], cs[k + 1], id)
  }

  /** What the reconciles of id read, in order. */
  ghost function InputsOf(cs: seq<Cluster>, events: seq<Event>, id: NamespacedName, k: nat): seq<Input>
    requires RunAround(cs, events, id) && k <= |events|
  {
    if k == 0 then []
    else
      var before := InputsOf(cs, events, id, k - 1);
      if events[k - 1].Klink? && events[k - 1].id == id
      then assert Live(cs[k - 1], id); before + [InputFor(cs[k - 1], id, events[k - 1].now, events[k - 1].faults)]
      else before
  }

  ghost function Extend(r: Run, i: Input): Run
    requires r.Shaped()
  {
    var last := r.states[|r.inputs|];
    Run(r.inputs + [i], r.decisions + [Decide(last, i)], r.states + [Step(last, i)])
  }

  lemma ExtendIsConnected(r: Run, i: Input)
    requires r.Connected()
    ensures Extend(r, i).Connected()
  {
    var r' := Extend(r, i);
    forall k: nat | k < |r'.inputs| ensures r'.Follows(k) {
      if k < |r.inputs| { assert r.Follows(k); }
    }
  }

  /** Every such run of a cluster, seen from one WorkloadDependency, is a run of its machine: the theorems about single
      runs hold for each member of any cluster, whatever the others do. */
  lemma {:induction false} ClusterRunProjects(cs: seq<Cluster>, events: seq<Event>, id: NamespacedName, k: nat)
      returns (r: Run)
    requires RunAround(cs, events, id) && k <= |events|
    ensures r.Connected() && r.inputs == InputsOf(cs, events, id, k)
    ensures Live(cs[0], id) && r.states[0] == cs[0].wds[id].status
    ensures Live(cs[k], id) && r.states[|r.inputs|] == cs[k].wds[id].status
    ensures Initial(cs[0].wds[id].status) ==> r.Valid()
    decreases k
  {
    assert Live(cs[0], id) && Live(cs[k], id);
    if k == 0 {
      r := Run([], [], [cs[0].wds[id].status]);
    } else {
      r := ClusterRunProjects(cs, events, id, k - 1);
      var c := cs[k - 1];
      assert AroundAt(cs, events, id, k - 1);
      match events[k - 1]
      case Environment =>
      case Klink(x, now, f) =>
        if x == id {
          ReconcileIsStep(c, id, now, f);
          ExtendIsConnected(r, InputFor(c, id, now, f));
          r := Extend(r, InputFor(c, id, now, f));
        } else {
          ReconcileFrames(c, x, now, f, id);
        }
    }
  }

  // ---- the replica count on the cluster

  /** The dependent of id has its original count, or it is at zero and the status of id holds the original count. */
  predicate Accounted(c: Cluster, id: NamespacedName, key: WorkloadKey, original: int) {
    && id in c.wds && key in c.workloads && !c.workloads[key].CronJob?
    && if c.wds[id].status.saved.Some?
       then c.wds[id].status.saved.value == original && c.workloads[key].GetReplicas() == 0
       else c.workloads[key].GetReplicas() == original
  }

  /** id alone manages the workload `key`. */
  ghost predicate Manages(c: Cluster, id: NamespacedName, key: WorkloadKey) {
    && Live(c, id) && DependentKey(c.wds[id].spec, id.namespace) == key
    && forall other :: other in c.wds && other != id ==> DependentKey(c.wds[other].spec, other.namespace) != key
  }

  /** Others may do anything that does not touch the status of id or the desired count of its dependent. */
  ghost predicate LeavesCount(c: Cluster, c': Cluster, id: NamespacedName, key: WorkloadKey) {
    && id in c.wds && id in c'.wds && c'.wds[id].status == c.wds[id].status
    && key in c.workloads && key in c'.workloads
    && (c'.workloads[key].CronJob? <==> c.workloads[key].CronJob?)
    && c'.workloads[key].GetReplicas() == c.workloads[key].GetReplicas()
  }

  /** What a decision does to the saved count of a dependent with replicas, before the status is written. */
  lemma DecideSaved(s: Status, i: Input)
    requires s.saved != Some(0) && (i.dependent.Found? ==> !i.dependent.w.CronJob?)
    ensures
      var d := Decide(s, i);
      && (d.write == NoWrite && d.put.Some? ==> d.put.value.local.saved == s.saved)
      && (d.write != NoWrite ==> d.write.Scale? && d.put.Some? && i.dependent.Found?)
      && (d.write == Scale(0) ==>
            i.dependent.w.GetReplicas() != 0 && d.put.value.local.saved == Some(i.dependent.w.GetReplicas()))
      && (d.write.Scale? && d.write.n != 0 ==> s.saved == Some(d.write.n) && d.put.value.local.saved.None?)
  {
  }

  lemma ScaleSetsCount(w: Workload, n: int)
    requires !w.CronJob? && -0x8000_0000 <= n < 0x8000_0000
    ensures !Apply(w, Scale(n)).CronJob? && Apply(w, Scale(n)).GetReplicas() == n
  {
  }

  /** The other writers that a conflicting status update runs into leave the saved count and the dependent alone. */
  ghost predicate OthersKeepSaved(wd: WD, turns: seq<Turn>) {
    forall k: nat :: k < MAX_RETRIES ==>
      match TurnAt(turns, k)
      case Conflict(other) => other.status.saved == wd.status.saved
      case ConflictUnreadable(other) => other.status.saved == wd.status.saved
      case _ => true
  }

  /** The API server ends up accepting the status update: fewer than three conflicts, then success. */
  predicate GoesThrough(turns: seq<Turn>) {
    var n := Conflicts(turns, 0, MAX_RETRIES);
    n < MAX_RETRIES && TurnAt(turns, n) == Accepted
  }

  lemma SavedAfterWrite(stored: WD, local: Status, phase: Phase, now: int, turns: seq<Turn>)
    requires OthersKeepSaved(stored, turns)
    ensures
      WriteStatus(stored, stored.(status := local), phase, now, turns).0.status.saved ==
        if !GoesThrough(turns) then stored.status.saved
        else if Conflicts(turns, 0, MAX_RETRIES) == 0 then local.saved
        else Keep(local.saved, stored.status.saved)
  {
    WriteFromClosed(stored, stored.(status := local), local, phase, now, turns, 0, MAX_RETRIES);
    var n := Conflicts(turns, 0, MAX_RETRIES);
    if n > 0 { assert TurnAt(turns, n - 1).Conflict?; }
  }

  /** No workload write, or fewer than three conflicts before the status update is accepted and, after a restore, none.
      */
  predicate AnswersKeepCount(write: Write, turns: seq<Turn>) {
    write == NoWrite || (GoesThrough(turns) && (write == Scale(0) || Conflicts(turns, 0, MAX_RETRIES) == 0))
  }

  /** Under every fault of the API server: a reconcile keeps the count accounted for exactly when it makes no workload
      write, or when fewer than three conflicts precede the accepted status update and, if the write was a restore, none
      does. */
  lemma CountSurvivesExactlyWhen(c: Cluster, id: NamespacedName, key: WorkloadKey, original: int, now: int, f: Faults)
    requires Manages(c, id, key) && Accounted(c, id, key, original) && original != 0
    requires -0x8000_0000 <= original < 0x8000_0000
    requires OthersKeepSaved(c.wds[id], f.turns)
    ensures
      Accounted(Reconcile(c, id, now, f).0, id, key, original) <==>
        AnswersKeepCount(Decide(c.wds[id].status, InputFor(c, id, now, f)).write, f.turns)
  {
    var i := InputFor(c, id, now, f);
    var s := c.wds[id].status;
    var d := Decide(s, i);
    DecideSaved(s, i);
    if d.put.Some? {
      SavedAfterWrite(c.wds[id], d.put.value.local, d.put.value.phase, now, f.turns);
    }
    if d.write.Scale? && -0x8000_0000 <= d.write.n < 0x8000_0000 { ScaleSetsCount(c.workloads[key], d.write.n); }
  }

  /** Reconciles of others may meet any fault. Those of id may too, as long as the answers to their status updates keep
      the count. */
  ghost predicate CountStep(c: Cluster, e: Event, c': Cluster, id: NamespacedName, key: WorkloadKey) {
    match e
    case Klink(x, now, f) =>
      && c' == Reconcile(c, x, now, f).0
      && (x == id && id in c.wds ==>
            && OthersKeepSaved(c.wds[id], f.turns)
            && AnswersKeepCount(Decide(c.wds[id].status, InputFor(c, id, now, f)).write, f.turns))
    case Environment => LeavesCount(c, c', id, key)
  }

  ghost predicate CountRun(cs: seq<Cluster>, events: seq<Event>, id: NamespacedName, key: WorkloadKey) {
    && |cs| == |events| + 1
    && (forall k :: 0 <= k < |cs| ==> Manages(cs[k], id, key))
    && (forall k: nat :: k < |events| ==> CountStep(cs[k], events[k], cs[k + 1], id, key))
  }

  /** Conservation on the cluster: over every run of a cluster in which only klink scales the dependent of id, its
      original count is either on the server or saved, and never both, with pauses, faulty reads, failed patches, status
      conflicts and mode changes, except for the answers that CountSurvivesExactlyWhen rules out. */
  lemma {:induction false} CountIsConservedOnCluster(
      cs: seq<Cluster>, events: seq<Event>, id: NamespacedName, key: WorkloadKey, original: int, k: nat)
    requires CountRun(cs, events, id, key) && k < |cs| && 0 < original < 0x8000_0000
    requires Accounted(cs[0], id, key, original)
    ensures Accounted(cs[k], id, key, original)
    decreases k
  {
    if k > 0 {
      CountIsConservedOnCluster(cs, events, id, key, original, k - 1);
      var c := cs[k - 1];
      assert Manages(c, id, key) && CountStep(c, events[k - 1], cs[k], id, key);
      match events[k - 1]
      case Environment =>
      case Klink(x, now, f) =>
        if x == id {
          CountSurvivesExactlyWhen(c, id, key, original, now, f);
        } else {
          ReconcileFrames(c, x, now, f, id);
          OtherReconcileLeavesWorkload(c, x, now, f, key);
        }
    }
  }

  lemma OtherReconcileLeavesWorkload(c: Cluster, id: NamespacedName, now: int, f: Faults, key: WorkloadKey)
    requires id in c.wds ==> DependentKey(c.wds[id].spec, id.namespace) != key
    ensures key in Reconcile(c, id, now, f).0.workloads <==> key in c.workloads
    ensures key in c.workloads ==> Reconcile(c, id, now, f).0.workloads[key] == c.workloads[key]
  {
  }

  // ---- deletion

  /** Whatever fails: a WorkloadDependency that is Suspended with a saved count goes away only when its dependent is
      missing or has just been given exactly that count. */
  lemma GoneOnlyAfterRestore(c: Cluster, id: NamespacedName, now: int, f: Faults)
    requires id in c.wds && c.wds[id].deleting
    requires c.wds[id].status.phase == Suspended && c.wds[id].status.saved.Some?
    requires 0 < c.wds[id].status.saved.value < 0x8000_0000
    ensures
      var key := DependentKey(c.wds[id].spec, id.namespace);
      var after := Reconcile(c, id, now, f).0;
      id !in after.wds && key in c.workloads && !c.workloads[key].CronJob? ==>
        key in after.workloads && after.workloads[key].GetReplicas() == c.wds[id].status.saved.value
  {
    var key := DependentKey(c.wds[id].spec, id.namespace);
    if key in c.workloads && !c.workloads[key].CronJob? {
      ScaleSetsCount(c.workloads[key], c.wds[id].status.saved.value);
    }
  }

  /** Deletion on the cluster returns the original count if and only if none is saved or the phase is still Suspended.
      */
  lemma DeletionReturnsCountExactlyWhen(c: Cluster, id: NamespacedName, key: WorkloadKey, original: int, now: int,
                                        f: Faults)
    requires id in c.wds && c.wds[id].deleting && DependentKey(c.wds[id].spec, id.namespace) == key
    requires Accounted(c, id, key, original) && 0 < original < 0x8000_0000 && Reliable(f) && !f.dependent && !f.patch
    ensures
      var after := Reconcile(c, id, now, f).0;
      id !in after.wds && key in after.workloads
      && (after.workloads[key].GetReplicas() == original <==>
            (c.wds[id].status.saved.None? || c.wds[id].status.phase == Suspended))
  {
    ScaleSetsCount(c.workloads[key], original);
  }
}
