/** Many WorkloadDependencies over shared workloads: how one reconcile reads and changes the cluster. */
module Clusters {
  import opened Types
  import opened Workloads
  import opened Readiness
  import opened Machine
  import opened StatusWrites
  import opened Graphs

  /** A workload object on the API server. */
  datatype WorkloadKey = WorkloadKey(kind: Kind, namespace: string, name: string)

  datatype Cluster = Cluster(wds: map<NamespacedName, WD>, workloads: map<WorkloadKey, Workload>)

  datatype DepHealth = DepHealthy | DepCoSuspended | DepUnhealthy

  function DependentKey(spec: Spec, namespace: string): WorkloadKey {
    WorkloadKey(KindOf(spec.dependent.kind), ResolveNamespace(spec.dependent.namespace, namespace), spec.dependent.name)
  }

  function DependencyKey(dep: DependsOnEntry, namespace: string): WorkloadKey {
    WorkloadKey(KindOf(dep.kind), ResolveNamespace(dep.namespace, namespace), dep.name)
  }

  /** The namespace and name of the dependent; the kind plays no part in the lookup that uses it. */
  function DependentName(spec: Spec, namespace: string): NamespacedName {
    NamespacedName(ResolveNamespace(spec.dependent.namespace, namespace), spec.dependent.name)
  }

  /** Some Suspended WorkloadDependency has a dependent of this name. */
  ghost predicate SuspendedByKlink(c: Cluster, name: NamespacedName) {
    exists id :: id in c.wds && c.wds[id].status.phase == Suspended
      && DependentName(c.wds[id].spec, id.namespace) == name
  }

  /** 0 means the default of 100. */
  function Threshold(condition: HealthCondition): int {
    if condition.minReadyPercent == 0 then 100 else condition.minReadyPercent
  }

  /** depStatus: the health of one dependency that was found. */
  function DepStatus(w: Workload, condition: HealthCondition, suspendedByKlink: bool): DepHealth {
    var atRest := if suspendedByKlink then DepCoSuspended else DepUnhealthy;
    match w
    case Rollout(_, _) => if w.RolloutServes() then DepHealthy else atRest
    case CronJob(_) => if w.IsSuspended() then atRest else DepHealthy
    case _ =>
      if w.GetReplicas() == 0 then atRest
      else if Percent(w.ready, w.GetReplicas()) >= Threshold(condition) then DepHealthy
      else DepUnhealthy
  }

  /** A dependency stands in nobody's way: it exists and is healthy, or klink itself put it to rest. */
  ghost predicate DependencyOk(c: Cluster, dep: DependsOnEntry, namespace: string) {
    var key := DependencyKey(dep, namespace);
    key in c.workloads
    && var suspended := SuspendedByKlink(c, NamespacedName(key.namespace, key.name));
       DepStatus(c.workloads[key], dep.condition, suspended) != DepUnhealthy
  }

  /** Faults of the API server during one reconcile. */
  datatype Faults = Faults(
    list: bool,              // listing for the cycle check fails
    dependent: bool,         // reading the dependent fails
    evaluate: Option<nat>,   // reading this dependency fails
    patch: bool,             // patching the workload fails
    update: bool,            // updating the object (finalizer) fails
    turns: seq<Turn>)        // answers to the status update attempts

  const CALM := Faults(false, false, None, false, false, [])

  /** The result of the dependency loop. It stops at the first missing dependency, so a read that would fail later is
      not made. */
  ghost function Evaluate(c: Cluster, deps: seq<DependsOnEntry>, namespace: string, failing: Option<nat>): Verdict {
    if failing.Some? && failing.value < |deps|
       && (forall j :: 0 <= j < failing.value ==> DependencyKey(deps[j], namespace) in c.workloads)
    then EvalError
    else if forall dep :: dep in deps ==> DependencyOk(c, dep, namespace) then AllOk
    else NotOk
  }

  function FetchDependent(c: Cluster, wd: WD, namespace: string, fails: bool): Fetch {
    var key := DependentKey(wd.spec, namespace);
    if fails then FetchError else if key in c.workloads then Found(c.workloads[key]) else NotFound
  }

  ghost function InputFor(c: Cluster, id: NamespacedName, now: int, f: Faults): Input
    requires id in c.wds
  {
    var wd := c.wds[id];
    Input(wd.spec, wd.paused, FetchDependent(c, wd, id.namespace, f.dependent),
          Evaluate(c, wd.spec.dependsOn, id.namespace, f.evaluate), !f.patch, now)
  }

  function WriteWorkload(c: Cluster, key: WorkloadKey, write: Write): Cluster {
    if write == NoWrite || key !in c.workloads then c
    else c.(workloads := c.workloads[key := Apply(c.workloads[key], write)])
  }

  function PutStatus(c: Cluster, id: NamespacedName, put: Put, requeue: Requeue, now: int, turns: seq<Turn>)
    : (Cluster, Requeue)
    requires id in c.wds
  {
    var held := c.wds[id].(status := put.local);
    var (stored, result) := WriteStatus(c.wds[id], held, put.phase, now, turns);
    (c.(wds := c.wds[id := stored]),
     match result
     case Written => requeue
     case Exhausted => AtOnce
     case Failed => OnError)
  }

  /** handleDeletion: restore first, then give up the finalizer, whereupon the object is gone. */
  function ReconcileDeletion(c: Cluster, id: NamespacedName, f: Faults): (Cluster, Requeue)
    requires id in c.wds
  {
    var wd := c.wds[id];
    var restores := wd.status.phase == Suspended && wd.status.saved.Some? && wd.status.saved.value > 0;
    var dependent := FetchDependent(c, wd, id.namespace, f.dependent);
    var write := DeletionWrite(wd.status, dependent);
    if restores && (dependent.FetchError? || (write != NoWrite && f.patch)) then (c, After(5 * SECOND))
    else
      var written := WriteWorkload(c, DependentKey(wd.spec, id.namespace), write);
      if f.update then (written, OnError)
      else (written.(wds := written.wds - {id}), Stop)
  }

  /** The edges of all other WorkloadDependencies of a namespace, admitted or not. */
  ghost function OtherEdges(c: Cluster, id: NamespacedName): set<Edge> {
    set other, e | other in c.wds && other.namespace == id.namespace && other != id
      && e in EdgesOf(c.wds[other].spec, other.namespace) :: e
  }

  /** The first reconcile of a new object: report a cycle, or add the finalizer. A failed listing is not held against
      it. */
  ghost function ReconcileAdmission(c: Cluster, id: NamespacedName, now: int, f: Faults): (Cluster, Requeue)
    requires id in c.wds
  {
    var wd := c.wds[id];
    if !f.list && ClosesCycle(OtherEdges(c, id), wd.spec, id.namespace) then
      PutStatus(c, id, Put(wd.status, Unknown), Stop, now, f.turns)
    else if f.update then (c, OnError)
    else (c.(wds := c.wds[id := wd.(finalizer := true)]), AtOnce)
  }

  /** Carries out a decision: first the workload write, then the status write. */
  function Perform(c: Cluster, id: NamespacedName, d: Decision, now: int, turns: seq<Turn>): (Cluster, Requeue)
    requires id in c.wds
  {
    var written := WriteWorkload(c, DependentKey(c.wds[id].spec, id.namespace), d.write);
    if d.put.None? then (written, d.requeue)
    else PutStatus(written, id, d.put.value, d.requeue, now, turns)
  }

  ghost function ReconcileAdmitted(c: Cluster, id: NamespacedName, now: int, f: Faults): (Cluster, Requeue)
    requires id in c.wds
  {
    Perform(c, id, Decide(c.wds[id].status, InputFor(c, id, now, f)), now, f.turns)
  }

  /** One reconcile of the WorkloadDependency called id. */
  ghost function Reconcile(c: Cluster, id: NamespacedName, now: int, f: Faults): (Cluster, Requeue) {
    if id !in c.wds then (c, Stop)
    else if c.wds[id].deleting then ReconcileDeletion(c, id, f)
    else if !c.wds[id].finalizer then ReconcileAdmission(c, id, now, f)
    else ReconcileAdmitted(c, id, now, f)
  }

  /** What happens in a cluster: klink reconciles one object, or somebody else changes something. */
  datatype Event = Klink(id: NamespacedName, now: int, faults: Faults) | Environment

  /** The writes that follow a workload patch go through: no status conflict and no failed finalizer update.
      Reads, listings and patches may still fail. */
  predicate Reliable(f: Faults) {
    TurnAt(f.turns, 0) == Accepted && !f.update
  }

  /** On the cluster, a reliable reconcile of an admitted object is exactly one step of its machine: its status steps,
      its dependent takes the decided write, and no other object changes. */
  lemma ReconcileIsStep(c: Cluster, id: NamespacedName, now: int, f: Faults)
    requires id in c.wds && !c.wds[id].deleting && c.wds[id].finalizer && Reliable(f)
    ensures
      var wd := c.wds[id];
      var i := InputFor(c, id, now, f);
      var (after, requeue) := Reconcile(c, id, now, f);
      && after.wds.Keys == c.wds.Keys
      && after.wds[id] == wd.(status := Step(wd.status, i), conditions := after.wds[id].conditions)
      && (forall other :: other in c.wds && other != id ==> after.wds[other] == c.wds[other])
      && after.workloads == WriteWorkload(c, DependentKey(wd.spec, id.namespace), Decide(wd.status, i).write).workloads
      && requeue == Decide(wd.status, i).requeue
  {
    var wd := c.wds[id];
    var d := Decide(wd.status, InputFor(c, id, now, f));
    if d.put.Some? {
      UncontendedWriteIsExact(wd, wd.(status := d.put.value.local), d.put.value.phase, now, f.turns);
    }
  }

  /** A reconcile changes no WorkloadDependency but its own. */
  lemma ReconcileFrames(c: Cluster, id: NamespacedName, now: int, f: Faults, other: NamespacedName)
    requires other != id
    ensures other in Reconcile(c, id, now, f).0.wds <==> other in c.wds
    ensures other in c.wds ==> Reconcile(c, id, now, f).0.wds[other] == c.wds[other]
  {
  }
}
