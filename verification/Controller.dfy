/** The reconciler as it runs: objects in memory that are changed field by field, an API server that stores them, and
    the order of reads and writes of the controller. Each method is proved against the cluster functions. */
module Controller {
  import opened Types
  import opened Workloads
  import opened Machine
  import opened Conditions
  import opened StatusWrites
  import opened Clusters
  import Readiness
  import Index
  import Cycles
  import Admission

  /** A workload read into memory, behind the accessor interface. */
  class WorkloadObject {
    const kind: Kind
    var replicas: Option<int>
    var ready: int
    var suspend: Option<bool>
    var rolloutPhase: string

    function Value(): Workload
      reads this
    {
      match kind
      case DeploymentKind => Deployment(replicas, ready)
      case StatefulSetKind => StatefulSet(replicas, ready)
      case CronJobKind => CronJob(suspend)
      case RolloutKind => Rollout(replicas, rolloutPhase)
    }

    constructor (w: Workload)
      ensures Value() == w
    {
      kind := w.Kind();
      replicas := if w.CronJob? then None else w.replicas;
      ready := if w.Deployment? || w.StatefulSet? then w.ready else 0;
      suspend := if w.CronJob? then w.suspend else None;
      rolloutPhase := if w.Rollout? then w.phase else "";
    }

    /** The getters of the four accessors, on the fields. */
    function GetReplicas(): (n: int)
      reads this
      ensures n == Value().GetReplicas()
      ensures kind == CronJobKind ==> n == -1
      ensures kind != CronJobKind && replicas.None? ==> n == 1
    {
      if kind == CronJobKind then -1
      else if replicas.None? then 1
      else if kind == RolloutKind then ToInt32(replicas.value)
      else replicas.value
    }

    function IsSuspended(): (b: bool)
      reads this
      ensures b == Value().IsSuspended()
    {
      kind == CronJobKind && suspend == Some(true)
    }

    /** No effect on a CronJob. */
    method SetReplicas(n: int)
      modifies this`replicas
      ensures Value() == Apply(old(Value()), Scale(n))
    {
      if kind != CronJobKind {
        replicas := Some(n);
      }
    }

    /** Only a CronJob can be suspended. */
    method SetSuspend(b: bool)
      modifies this`suspend
      ensures Value() == Apply(old(Value()), Suspend(b))
    {
      if kind == CronJobKind {
        suspend := Some(b);
      }
    }
  }

  /** A WorkloadDependency read into memory. */
  class WDObject {
    var spec: Spec
    var paused: bool
    var deleting: bool
    var finalizer: bool
    var generation: int
    var phase: Phase
    var saved: Option<int>
    var degradedSince: Option<int>
    var suspendedAt: Option<int>
    var healthySince: Option<int>
    var conditions: seq<Condition>

    function Fields(): Status
      reads this
    {
      Status(phase, saved, degradedSince, suspendedAt, healthySince)
    }

    function Value(): WD
      reads this
    {
      WD(spec, paused, deleting, finalizer, generation, Fields(), conditions)
    }

    constructor (wd: WD)
      ensures Value() == wd
    {
      spec, paused, deleting, finalizer, generation := wd.spec, wd.paused, wd.deleting, wd.finalizer, wd.generation;
      phase, saved, degradedSince := wd.status.phase, wd.status.saved, wd.status.degradedSince;
      suspendedAt, healthySince, conditions := wd.status.suspendedAt, wd.status.healthySince, wd.conditions;
    }

    /** Re-reading replaces every field. */
    method Load(wd: WD)
      modifies this
      ensures Value() == wd
    {
      spec, paused, deleting, finalizer, generation := wd.spec, wd.paused, wd.deleting, wd.finalizer, wd.generation;
      phase, saved, degradedSince := wd.status.phase, wd.status.saved, wd.status.degradedSince;
      suspendedAt, healthySince, conditions := wd.status.suspendedAt, wd.status.healthySince, wd.conditions;
    }

    /** SuspendedAt is set once on the way into Suspended and cleared on the way out. */
    method EnterPhase(newPhase: Phase, now: int)
      modifies this`phase, this`suspendedAt
      ensures Fields() == Enter(old(Fields()), newPhase, now)
    {
      if newPhase == Suspended {
        if suspendedAt.None? {
          suspendedAt := Some(now);
        }
      } else {
        suspendedAt := None;
      }
      phase := newPhase;
    }

    /** Puts back the fields that were set in `entry`. */
    method PutBackFields(entry: Status)
      modifies this`saved, this`degradedSince, this`healthySince
      ensures Fields() == old(Fields()).(
                saved := Keep(entry.saved, old(saved)),
                degradedSince := Keep(entry.degradedSince, old(degradedSince)),
                healthySince := Keep(entry.healthySince, old(healthySince)))
    {
      if entry.saved.Some? {
        saved := entry.saved;
      }
      if entry.degradedSince.Some? {
        degradedSince := entry.degradedSince;
      }
      if entry.healthySince.Some? {
        healthySince := entry.healthySince;
      }
    }

    /** The closure applyFields of setStatus; `entry` holds the three fields captured when setStatus was entered. */
    method PutBack(entry: Status, newPhase: Phase, now: int)
      modifies this
      ensures Value() == ApplyFields(old(Value()), entry, newPhase, now)
    {
      EnterPhase(newPhase, now);
      PutBackFields(entry);
      conditions := SetCondition(conditions, newPhase, generation, now);
    }
  }

  /** A merge patch carries only what differs between the object as read and as modified. */
  function MergePatch(stored: Workload, base: Workload, modified: Workload): Workload {
    match (stored, base, modified)
    case (Deployment(r, ready), Deployment(b, _), Deployment(m, _)) => Deployment(if m != b then m else r, ready)
    case (StatefulSet(r, ready), StatefulSet(b, _), StatefulSet(m, _)) => StatefulSet(if m != b then m else r, ready)
    case (Rollout(r, phase), Rollout(b, _), Rollout(m, _)) => Rollout(if m != b then m else r, phase)
    case (CronJob(s), CronJob(b), CronJob(m)) => CronJob(if m != b then m else s)
    case _ => stored
  }

  datatype UpdateResult = UpdateOk | UpdateConflict | UpdateError

  class ApiServer {
    var wds: map<NamespacedName, WD>
    var workloads: map<WorkloadKey, Workload>
    ghost var statusUpdates: nat  // how many status updates have been sent

    function State(): Cluster
      reads this
    {
      Cluster(wds, workloads)
    }

    method Patch(key: WorkloadKey, base: Workload, modified: Workload, fails: bool) returns (ok: bool)
      requires key in workloads
      modifies this`workloads
      ensures ok <==> !fails
      ensures workloads == if fails then old(workloads)
        else old(workloads)[key := MergePatch(old(workloads)[key], base, modified)]
    {
      if !fails {
        workloads := workloads[key := MergePatch(workloads[key], base, modified)];
      }
      ok := !fails;
    }

    /** One attempt to store a status, met by the given answer. */
    method UpdateStatus(id: NamespacedName, held: WD, turn: Turn) returns (result: UpdateResult)
      requires id in wds
      modifies this`wds, this`statusUpdates
      ensures statusUpdates == old(statusUpdates) + 1
      ensures match turn
        case Accepted => result == UpdateOk && wds == old(wds)[id := StoreStatus(old(wds)[id], held)]
        case Conflict(other) => result == UpdateConflict && wds == old(wds)[id := other]
        case ConflictUnreadable(other) => result == UpdateConflict && wds == old(wds)[id := other]
        case Rejected => result == UpdateError && wds == old(wds)
    {
      statusUpdates := statusUpdates + 1;
      match turn
      case Accepted => wds := wds[id := StoreStatus(wds[id], held)]; result := UpdateOk;
      case Conflict(other) => wds := wds[id := other]; result := UpdateConflict;
      case ConflictUnreadable(other) => wds := wds[id := other]; result := UpdateConflict;
      case Rejected => result := UpdateError;
    }

    /** Lists a namespace in whatever order the objects come. */
    method ListNamespace(namespace: string) returns (items: seq<Item>)
      ensures Admission.IsListing(State(), namespace, items)
    {
      items := [];
      var rest := wds.Keys;
      while rest != {}
        invariant rest <= wds.Keys
        invariant forall k :: 0 <= k < |items| ==>
          items[k].id in wds && items[k].id.namespace == namespace && items[k].spec == wds[items[k].id].spec
        invariant forall id :: id in wds && id !in rest && id.namespace == namespace ==> Item(id, wds[id].spec) in items
        decreases rest
      {
        var id :| id in rest;
        rest := rest - {id};
        if id.namespace == namespace {
          items := items + [Item(id, wds[id].spec)];
        }
      }
    }

    /** Lists through the index of dependents. */
    method ListByDependent(key: string) returns (ids: seq<NamespacedName>)
      ensures Index.ListsDependents(State(), key, ids)
    {
      ids := [];
      var rest := wds.Keys;
      while rest != {}
        invariant rest <= wds.Keys && Index.NoDuplicates(ids)
        invariant forall id :: id in ids <==>
          id in wds && id !in rest && key in Index.DependentIndex(wds[id].spec, id.namespace)
        decreases rest
      {
        var id :| id in rest;
        rest := rest - {id};
        if key in Index.DependentIndex(wds[id].spec, id.namespace) {
          ids := ids + [id];
        }
      }
    }
  }

  lemma PatchAppliesWrite(w: Workload, write: Write)
    ensures MergePatch(w, w, Apply(w, write)) == Apply(w, write)
  {
  }

  class Reconciler {
    const server: ApiServer

    constructor (server: ApiServer)
      ensures this.server == server
    {
      this.server := server;
    }

    /** The object in memory is what the server stores, up to the status fields a handler has already changed. */
    ghost predicate Holds(id: NamespacedName, wd: WDObject)
      reads server, wd
    {
      id in server.wds && wd.Value() == server.wds[id].(status := wd.Fields())
    }

    /** The dependent in memory is what the server stores. */
    ghost predicate HoldsDependent(id: NamespacedName, wd: WDObject, w: WorkloadObject)
      reads server, wd, w
    {
      var key := DependentKey(wd.spec, id.namespace);
      key in server.workloads && server.workloads[key] == w.Value()
    }

    /** setStatus: apply the fields, try the update up to three times, re-reading and re-applying after a conflict. */
    method SetStatus(id: NamespacedName, wd: WDObject, phase: Phase, result: Requeue, now: int, turns: seq<Turn>)
        returns (r: Requeue)
      requires Holds(id, wd)
      modifies wd, server`wds, server`statusUpdates
      ensures (server.State(), r) ==
        PutStatus(old(server.State()), id, Put(old(wd.Fields()), phase), result, now, turns)
      ensures server.statusUpdates == old(server.statusUpdates) + Attempts(turns)
    {
      var entry := wd.Fields();
      ghost var held := wd.Value();
      ghost var goal := WriteStatus(server.wds[id], held, phase, now, turns);
      wd.PutBack(entry, phase, now);
      var i := 0;
      while i < MAX_RETRIES
        invariant 0 <= i <= MAX_RETRIES
        invariant wd.Value() == ApplyFields(held, entry, phase, now)
        invariant id in server.wds && server.wds == old(server.wds)[id := server.wds[id]]
        invariant WriteFrom(server.wds[id], held, entry, phase, now, turns, i, MAX_RETRIES) == goal
        invariant server.statusUpdates == old(server.statusUpdates) + i
        invariant Conflicts(turns, 0, MAX_RETRIES) == i + Conflicts(turns, i, MAX_RETRIES)
      {
        var turn := TurnAt(turns, i);
        OneAttempt(server.wds[id], held, entry, phase, now, turns, i);
        var updated := server.UpdateStatus(id, wd.Value(), turn);
        if updated == UpdateOk {
          assert goal == (server.wds[id], Written);
          assert server.wds == old(server.wds)[id := server.wds[id]];
          return result;
        }
        if updated == UpdateError || turn.ConflictUnreadable? {
          assert goal == (server.wds[id], Failed);
          assert server.wds == old(server.wds)[id := server.wds[id]];
          return OnError;
        }
        wd.Load(server.wds[id]);
        held := wd.Value();
        wd.PutBack(entry, phase, now);
        i := i + 1;
      }
      assert goal == (server.wds[id], Exhausted);
      return AtOnce;
    }

    /** suspendWorkload: the count is remembered in memory before the patch is attempted. */
    method SuspendWorkload(id: NamespacedName, wd: WDObject, w: WorkloadObject, fails: bool) returns (ok: bool)
      requires HoldsDependent(id, wd, w)
      modifies wd`saved, w, server`workloads
      ensures wd.Fields() == Remember(old(wd.Fields()), old(w.Value()))
      ensures ok <==> (SuspendWrite(old(w.Value())) == NoWrite || !fails)
      ensures server.State() ==
        if ok then WriteWorkload(old(server.State()), DependentKey(wd.spec, id.namespace), SuspendWrite(old(w.Value())))
        else old(server.State())
    {
      var key := DependentKey(wd.spec, id.namespace);
      var base := w.Value();
      if w.kind == CronJobKind {
        if w.IsSuspended() {
          return true;
        }
        w.SetSuspend(true);
        PatchAppliesWrite(base, Suspend(true));
      } else {
        var replicas := w.GetReplicas();
        if replicas == 0 {
          return true;
        }
        wd.saved := Some(replicas);
        w.SetReplicas(0);
        PatchAppliesWrite(base, Scale(0));
      }
      ok := server.Patch(key, base, w.Value(), fails);
    }

    /** restoreWorkload. */
    method RestoreWorkload(id: NamespacedName, wd: WDObject, w: WorkloadObject, fails: bool) returns (ok: bool)
      requires HoldsDependent(id, wd, w)
      modifies w, server`workloads
      ensures ok <==> (RestoreWrite(wd.Fields(), old(w.Value())) == NoWrite || !fails)
      ensures server.State() ==
        if ok then
          WriteWorkload(old(server.State()), DependentKey(wd.spec, id.namespace),
                        RestoreWrite(wd.Fields(), old(w.Value())))
        else old(server.State())
    {
      var key := DependentKey(wd.spec, id.namespace);
      var base := w.Value();
      if w.kind == CronJobKind {
        if !w.IsSuspended() {
          return true;
        }
        w.SetSuspend(false);
        PatchAppliesWrite(base, Suspend(false));
      } else {
        if wd.saved.None? || wd.saved.value == 0 {
          return true;
        }
        w.SetReplicas(wd.saved.value);
        PatchAppliesWrite(base, Scale(wd.saved.value));
      }
      ok := server.Patch(key, base, w.Value(), fails);
    }

    /** Suspend the workload and enter Suspended; a failed patch ends the reconcile before the status is written. */
    method SuspendThenRecord(id: NamespacedName, wd: WDObject, w: WorkloadObject, now: int, f: Faults)
        returns (r: Requeue)
      requires Holds(id, wd) && HoldsDependent(id, wd, w)
      modifies wd, w, server
      ensures
        var (s, v) := (old(wd.Fields()), old(w.Value()));
        var d := WriteThen(SuspendWrite(v), Remember(s, v), Suspended, DEFAULT_REQUEUE, !f.patch);
        (server.State(), r) == Perform(old(server.State()), id, d, now, f.turns)
    {
      var ok := SuspendWorkload(id, wd, w, f.patch);
      if !ok {
        return OnError;
      }
      r := SetStatus(id, wd, Suspended, After(15 * SECOND), now, f.turns);
    }

    /** Restore the workload, forget the saved count and the recovery time, and enter the given phase. */
    method RestoreThenRecord(id: NamespacedName, wd: WDObject, w: WorkloadObject, phase: Phase, now: int, f: Faults)
        returns (r: Requeue)
      requires Holds(id, wd) && HoldsDependent(id, wd, w)
      modifies wd, w, server
      ensures
        var (s, v) := (old(wd.Fields()), old(w.Value()));
        var d := WriteThen(RestoreWrite(s, v), s.(saved := None, healthySince := None), phase,
                           DEFAULT_REQUEUE, !f.patch);
        (server.State(), r) == Perform(old(server.State()), id, d, now, f.turns)
    {
      var ok := RestoreWorkload(id, wd, w, f.patch);
      if !ok {
        return OnError;
      }
      wd.saved := None;
      wd.healthySince := None;
      r := SetStatus(id, wd, phase, After(15 * SECOND), now, f.turns);
    }

    method HandleDegraded(id: NamespacedName, wd: WDObject, w: WorkloadObject, ghost i: Input, now: int, f: Faults)
        returns (r: Requeue)
      requires Holds(id, wd) && HoldsDependent(id, wd, w)
      requires i.spec == wd.spec && i.now == now && i.patchOk == !f.patch
      modifies wd, w, server
      ensures (server.State(), r) ==
        Perform(old(server.State()), id, OnDegraded(old(wd.Fields()), old(w.Value()), i), now, f.turns)
    {
      if wd.degradedSince.None? {
        wd.degradedSince := Some(now);
        wd.healthySince := None;
        r := SetStatus(id, wd, Degraded, After(DegradedWindow(wd.spec.dependsOn)), now, f.turns);
        return;
      }
      var window := DegradedWindow(wd.spec.dependsOn);
      if now - wd.degradedSince.value < window {
        var remaining := window - (now - wd.degradedSince.value);
        return After(remaining + SECOND);
      }
      r := SuspendThenRecord(id, wd, w, now, f);
    }

    /** The cap on a suspension: force the restore when it has lasted too long, otherwise come back when it will have.
        */
    method HandleCap(id: NamespacedName, wd: WDObject, w: WorkloadObject, ghost i: Input, now: int, f: Faults)
        returns (r: Requeue)
      requires Holds(id, wd) && HoldsDependent(id, wd, w)
      requires i.spec == wd.spec && i.now == now && i.patchOk == !f.patch
      requires wd.spec.maxSuspendDuration > 0 && wd.suspendedAt.Some?
      modifies wd, w, server
      ensures (server.State(), r) ==
        Perform(old(server.State()), id, OnSuspended(old(wd.Fields()), old(w.Value()), i), now, f.turns)
    {
      var maxDur := wd.spec.maxSuspendDuration;
      var elapsed := now - wd.suspendedAt.value;
      if elapsed >= maxDur {
        r := RestoreThenRecord(id, wd, w, Released, now, f);
        return;
      }
      return After(maxDur - elapsed + SECOND);
    }

    /** handleSuspended: strict mode takes the workload back to rest. */
    method HandleSuspended(id: NamespacedName, wd: WDObject, w: WorkloadObject, ghost i: Input, now: int, f: Faults)
        returns (r: Requeue)
      requires Holds(id, wd) && HoldsDependent(id, wd, w)
      requires i.spec == wd.spec && i.now == now && i.patchOk == !f.patch
      requires !(wd.spec.maxSuspendDuration > 0 && wd.suspendedAt.Some?)
      modifies wd, w, server
      ensures (server.State(), r) ==
        Perform(old(server.State()), id, OnSuspended(old(wd.Fields()), old(w.Value()), i), now, f.turns)
    {
      if wd.spec.mode == Strict {
        var needsEnforce := if w.kind == CronJobKind then !w.IsSuspended() else w.GetReplicas() > 0;
        if needsEnforce {
          r := SuspendThenRecord(id, wd, w, now, f);
          return;
        }
      }
      r := SetStatus(id, wd, Suspended, After(15 * SECOND), now, f.turns);
    }

    method HandleHealthy(id: NamespacedName, wd: WDObject, w: WorkloadObject, ghost i: Input, now: int, f: Faults)
        returns (r: Requeue)
      requires Holds(id, wd) && HoldsDependent(id, wd, w)
      requires i.spec == wd.spec && i.now == now && i.patchOk == !f.patch
      modifies wd, w, server
      ensures (server.State(), r) ==
        Perform(old(server.State()), id, OnHealthy(old(wd.Fields()), old(w.Value()), i), now, f.turns)
    {
      wd.degradedSince := None;
      if wd.phase != Suspended {
        wd.healthySince := None;
        r := SetStatus(id, wd, Healthy, After(15 * SECOND), now, f.turns);
        return;
      }
      var window := RecoveryWindow(wd.spec.dependsOn);
      if wd.healthySince.None? {
        wd.healthySince := Some(now);
        r := SetStatus(id, wd, Suspended, After(window), now, f.turns);
        return;
      }
      if now - wd.healthySince.value < window {
        var remaining := window - (now - wd.healthySince.value);
        return After(remaining + SECOND);
      }
      r := RestoreThenRecord(id, wd, w, Healthy, now, f);
    }

    method IsSuspendedByKlink(name: NamespacedName) returns (suspended: bool)
      requires Index.WellNamed(server.State()) && Index.SlashFree(name.namespace)
      ensures suspended <==> SuspendedByKlink(server.State(), name)
    {
      var ids := server.ListByDependent(Index.IndexKey(name));
      suspended := Index.IsSuspendedByKlink(server.State(), name, ids);
    }

    /** depStatus: who suspended a workload is looked up only for one that is at rest. */
    method DependencyStatus(w: Workload, condition: HealthCondition, name: NamespacedName) returns (health: DepHealth)
      requires Index.WellNamed(server.State()) && Index.SlashFree(name.namespace)
      ensures health == DepStatus(w, condition, SuspendedByKlink(server.State(), name))
    {
      var suspended := false;
      if w.Rollout? {
        if w.RolloutServes() {
          return DepHealthy;
        }
        suspended := IsSuspendedByKlink(name);
        return if suspended then DepCoSuspended else DepUnhealthy;
      }
      if w.CronJob? {
        if !w.IsSuspended() {
          return DepHealthy;
        }
        suspended := IsSuspendedByKlink(name);
        return if suspended then DepCoSuspended else DepUnhealthy;
      }
      var replicas := w.GetReplicas();
      if replicas == 0 {
        suspended := IsSuspendedByKlink(name);
        return if suspended then DepCoSuspended else DepUnhealthy;
      }
      var minPercent := if condition.minReadyPercent == 0 then 100 else condition.minReadyPercent;
      return if Readiness.Percent(w.ready, replicas) >= minPercent then DepHealthy else DepUnhealthy;
    }

    /** The loop over spec.dependsOn: it stops at the first missing dependency and otherwise looks at all of them. */
    method EvaluateDependencies(id: NamespacedName, deps: seq<DependsOnEntry>, failing: Option<nat>)
        returns (verdict: Verdict)
      requires Index.WellNamed(server.State()) && Index.SlashFree(id.namespace)
      requires forall dep :: dep in deps ==> Index.SlashFree(dep.namespace)
      ensures verdict == Evaluate(server.State(), deps, id.namespace, failing)
    {
      var allOk := true;
      for i := 0 to |deps|
        invariant failing.Some? ==> i <= failing.value
        invariant forall j :: 0 <= j < i ==> DependencyKey(deps[j], id.namespace) in server.workloads
        invariant allOk <==> forall j :: 0 <= j < i ==> DependencyOk(server.State(), deps[j], id.namespace)
      {
        if failing == Some(i) {
          return EvalError;
        }
        var key := DependencyKey(deps[i], id.namespace);
        if key !in server.workloads {
          assert deps[i] in deps && !DependencyOk(server.State(), deps[i], id.namespace);
          return NotOk;
        }
        assert deps[i] in deps;
        var health := DependencyStatus(server.workloads[key], deps[i].condition,
          NamespacedName(key.namespace, key.name));
        if health == DepUnhealthy {
          allOk := false;
        }
      }
      return if allOk then AllOk else NotOk;
    }

    /** handleDeletion: the finalizer is given up only after the restore went through or turned out unnecessary. */
    method HandleDeletion(id: NamespacedName, wd: WDObject, f: Faults) returns (r: Requeue)
      requires id in server.wds && wd.Value() == server.wds[id]
      modifies wd, server
      ensures (server.State(), r) == ReconcileDeletion(old(server.State()), id, f)
    {
      if wd.phase == Suspended && wd.saved.Some? && wd.saved.value > 0 {
        var key := DependentKey(wd.spec, id.namespace);
        if f.dependent {
          return After(5 * SECOND);
        }
        if key in server.workloads {
          var w := new WorkloadObject(server.workloads[key]);
          var ok := RestoreWorkload(id, wd, w, f.patch);
          if !ok {
            return After(5 * SECOND);
          }
        }
      }
      wd.finalizer := false;
      if f.update {
        return OnError;
      }
      server.wds := server.wds - {id};
      return Stop;
    }

    /** First admission: the cycle check, then the finalizer. */
    method Admit(id: NamespacedName, wd: WDObject, now: int, f: Faults) returns (r: Requeue)
      requires id in server.wds && wd.Value() == server.wds[id]
      modifies wd, server
      ensures (server.State(), r) == ReconcileAdmission(old(server.State()), id, now, f)
    {
      var listing: Option<seq<Item>> := None;
      if !f.list {
        var items := server.ListNamespace(id.namespace);
        Admission.ListingGivesOtherEdges(server.State(), id, items);
        listing := Some(items);
      }
      var check := Cycles.DetectCycle(listing, Item(id, wd.spec));
      if check.CycleFound? {
        r := SetStatus(id, wd, Unknown, Stop, now, f.turns);
        return;
      }
      wd.finalizer := true;
      if f.update {
        return OnError;
      }
      server.wds := server.wds[id := wd.Value()];
      return AtOnce;
    }

    /** Reconcile: the whole decision in the order in which the controller makes it, proved equal to the cluster
        function. */
    method Reconcile(id: NamespacedName, now: int, f: Faults) returns (r: Requeue)
      requires Index.WellNamed(server.State())
      modifies server
      ensures (server.State(), r) == Clusters.Reconcile(old(server.State()), id, now, f)
    {
      if id !in server.wds {
        return Stop;
      }
      var wd := new WDObject(server.wds[id]);
      if wd.deleting {
        r := HandleDeletion(id, wd, f);
        return;
      }
      if !wd.finalizer {
        r := Admit(id, wd, now, f);
        return;
      }
      if wd.paused {
        r := SetStatus(id, wd, Paused, After(15 * SECOND), now, f.turns);
        return;
      }
      if f.dependent {
        return OnError;
      }
      var key := DependentKey(wd.spec, id.namespace);
      if key !in server.workloads {
        r := SetStatus(id, wd, Unknown, After(15 * SECOND), now, f.turns);
        return;
      }
      var w := new WorkloadObject(server.workloads[key]);
      var verdict := EvaluateDependencies(id, wd.spec.dependsOn, f.evaluate);
      if verdict == EvalError {
        return OnError;
      }
      r := Act(id, wd, w, verdict == AllOk, now, f);
    }

    /** The second half of Reconcile, after everything has been read. */
    method Act(id: NamespacedName, wd: WDObject, w: WorkloadObject, allOk: bool, now: int, f: Faults)
        returns (r: Requeue)
      requires id in server.wds && wd.Value() == server.wds[id] && HoldsDependent(id, wd, w)
      requires !wd.paused && !f.dependent
      modifies wd, w, server
      ensures
        var i := Input(old(wd.spec), false, Found(old(w.Value())), if allOk then AllOk else NotOk, !f.patch, now);
        (server.State(), r) == Perform(old(server.State()), id, Decide(old(wd.Fields()), i), now, f.turns)
    {
      ghost var i := Input(wd.spec, false, Found(w.Value()), if allOk then AllOk else NotOk, !f.patch, now);
      if !allOk && w.kind == RolloutKind && w.rolloutPhase == "Progressing" {
        r := SetStatus(id, wd, Degraded, After(15 * SECOND), now, f.turns);
        return;
      }
      if wd.spec.mode == Observe {
        r := SetStatus(id, wd, if allOk then Healthy else Observed, After(15 * SECOND), now, f.turns);
        return;
      }
      if wd.spec.mode == Gate {
        r := SetStatus(id, wd, if allOk then Healthy else Degraded, After(15 * SECOND), now, f.turns);
        return;
      }
      if wd.phase == Released {
        if allOk {
          r := HandleHealthy(id, wd, w, i, now, f);
          return;
        }
        r := SetStatus(id, wd, Released, After(30 * SECOND), now, f.turns);
        return;
      }
      if !allOk && wd.phase == Suspended {
        if wd.spec.maxSuspendDuration > 0 && wd.suspendedAt.Some? {
          r := HandleCap(id, wd, w, i, now, f);
          return;
        }
        r := HandleSuspended(id, wd, w, i, now, f);
        return;
      }
      if allOk {
        r := HandleHealthy(id, wd, w, i, now, f);
        return;
      }
      r := HandleDegraded(id, wd, w, i, now, f);
    }
  }
}
