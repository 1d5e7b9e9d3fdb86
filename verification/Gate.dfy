/** The admission webhook of gate mode: which scale-ups are refused, and how its idea of health compares to the
    controller's. */
module Gate {
  import opened Types
  import opened Workloads
  import opened Readiness
  import opened Clusters
  import opened Graphs

  /** An admission request, with the replica counts already extracted. newReplicas is None when the object is
      unreadable. */
  datatype Request = Request(
    create: bool, kind: string, name: string, namespace: string, newReplicas: Option<int>, oldReplicas: int)

  type Store = map<WorkloadKey, Workload>

  datatype Check = CheckError | GateHealthy | GateUnhealthy

  /** The webhook reads every kind it does not know, CronJob included, as a Deployment. */
  function GateKind(kind: string): Kind {
    if kind == "Rollout" then RolloutKind else if kind == "StatefulSet" then StatefulSetKind else DeploymentKind
  }

  /** So it looks at the same kind of object as the controller for everything but a CronJob. */
  lemma GateReadsSameKindExactlyWhen(kind: string)
    ensures GateKind(kind) == KindOf(kind) <==> kind != "CronJob"
  {
    assert |"CronJob"| != |"Rollout"| || "CronJob"[0] != "Rollout"[0];
    assert |"CronJob"| != |"StatefulSet"|;
  }

  /** checkReplicaHealth: an absent or zero desired count is unhealthy. */
  predicate ReplicasHealthy(desired: Option<int>, ready: int, condition: HealthCondition) {
    desired.Some? && desired.value != 0 && Percent(ready, desired.value) >= Threshold(condition)
  }

  function WorkloadCheck(w: Workload, condition: HealthCondition): Check {
    match w
    case Rollout(_, phase) => if phase in {"Healthy", "Progressing", "Paused"} then GateHealthy else GateUnhealthy
    case Deployment(desired, ready) => if ReplicasHealthy(desired, ready, condition) then GateHealthy else GateUnhealthy
    case StatefulSet(desired, ready) =>
      if ReplicasHealthy(desired, ready, condition) then GateHealthy else GateUnhealthy
    case CronJob(_) => CheckError
  }

  /** isDependencyHealthy: a dependency that cannot be read, missing or not, is an error and never blocks. */
  function DependencyCheck(workloads: Store, unreadable: set<WorkloadKey>, dep: DependsOnEntry, namespace: string)
    : Check
  {
    var key := WorkloadKey(GateKind(dep.kind), ResolveNamespace(dep.namespace, namespace), dep.name);
    if key in unreadable || key !in workloads then CheckError else WorkloadCheck(workloads[key], dep.condition)
  }

  /** The tests of the outer loop that let a WorkloadDependency be skipped, negated. */
  predicate Applies(item: Item, req: Request) {
    && item.spec.mode == Mode.Gate
    && item.spec.dependent.kind == req.kind
    && item.spec.dependent.name == req.name
    && ResolveNamespace(item.spec.dependent.namespace, item.id.namespace) == req.namespace
  }

  /** The inner loop: some dependency in the list was read and is unhealthy. */
  predicate AnyUnhealthy(workloads: Store, unreadable: set<WorkloadKey>, deps: seq<DependsOnEntry>,
                         namespace: string): (b: bool)
    ensures b <==> exists i :: 0 <= i < |deps| && UnhealthyDependency(workloads, unreadable, deps[i], namespace)
  {
    if deps == [] then false
    else if DependencyCheck(workloads, unreadable, deps[0], namespace) == GateUnhealthy then true
    else
      assert forall i :: 1 <= i < |deps| ==> deps[1..][i - 1] == deps[i];
      AnyUnhealthy(workloads, unreadable, deps[1..], namespace)
  }

  /** The dependency exists, could be read, and is unhealthy. */
  ghost predicate UnhealthyDependency(workloads: Store, unreadable: set<WorkloadKey>, dep: DependsOnEntry,
                                      namespace: string) {
    exists key ::
      && key in workloads && key !in unreadable
      && key.kind == GateKind(dep.kind) && key.name == dep.name
      && key.namespace == ResolveNamespace(dep.namespace, namespace)
      && WorkloadCheck(workloads[key], dep.condition) == GateUnhealthy
  }

  /** A gate-mode WorkloadDependency whose dependent is the workload of the request, with a dependency that was read and
      is unhealthy. */
  ghost predicate Blocks(workloads: Store, unreadable: set<WorkloadKey>, item: Item, req: Request) {
    && item.spec.mode == Mode.Gate
    && ResolveKey(item.spec.dependent, item.id.namespace) == Key(req.kind, req.namespace, req.name)
    && exists i ::
         && 0 <= i < |item.spec.dependsOn|
         && UnhealthyDependency(workloads, unreadable, item.spec.dependsOn[i], item.id.namespace)
  }

  /** The outer loop over the listed WorkloadDependencies. */
  predicate AnyBlocks(workloads: Store, unreadable: set<WorkloadKey>, items: seq<Item>, req: Request): (b: bool)
    ensures b <==> exists i :: 0 <= i < |items| && Blocks(workloads, unreadable, items[i], req)
  {
    if items == [] then false
    else if Applies(items[0], req)
            && AnyUnhealthy(workloads, unreadable, items[0].spec.dependsOn, items[0].id.namespace) then
      assert Blocks(workloads, unreadable, items[0], req);
      true
    else
      assert !Blocks(workloads, unreadable, items[0], req);
      assert forall i :: 1 <= i < |items| ==> items[1..][i - 1] == items[i];
      AnyBlocks(workloads, unreadable, items[1..], req)
  }

  /** validate: the verdict is exact. It denies if and only if the request is a readable scale-up of an existing object,
      the listing succeeded, and some gate-mode WorkloadDependency of that workload has a dependency that was read and
      is unhealthy. */
  predicate Denies(workloads: Store, unreadable: set<WorkloadKey>, listing: Option<seq<Item>>,
                   req: Request): (denied: bool)
    ensures denied <==>
      && !req.create && req.newReplicas.Some? && req.newReplicas.value > req.oldReplicas
      && listing.Some? && exists i :: 0 <= i < |listing.value| && Blocks(workloads, unreadable, listing.value[i], req)
  {
    if req.create then false
    else if req.newReplicas.None? then false
    else if req.newReplicas.value <= req.oldReplicas then false
    else if listing.None? then false
    else AnyBlocks(workloads, unreadable, listing.value, req)
  }

  /** Gate and controller read the same object for every kind but CronJob, and agree about its health except when the
      desired count is left to its default and the one replica is ready enough: then, and only then, the controller
      calls it healthy and the gate does not. */
  lemma GateAgreesExactlyWhen(workloads: Store, dep: DependsOnEntry, namespace: string, suspendedByKlink: bool)
    requires dep.kind != "CronJob" && DependencyKey(dep, namespace) in workloads
    requires workloads[DependencyKey(dep, namespace)].Kind() == KindOf(dep.kind)
    ensures
      var w := workloads[DependencyKey(dep, namespace)];
      var gate := DependencyCheck(workloads, {}, dep, namespace) == GateHealthy;
      var controller := DepStatus(w, dep.condition, suspendedByKlink) == DepHealthy;
      && (gate ==> controller)
      && (controller && !gate <==> (!w.Rollout? && w.replicas.None? && Percent(w.ready, 1) >= Threshold(dep.condition)))
  {
    GateReadsSameKindExactlyWhen(dep.kind);
  }

  /** Such an input: one ready replica and no desired count. The controller lets dependents run, the gate blocks them.
      */
  lemma DefaultedCountDivides()
    ensures DepStatus(Deployment(None, 1), HealthCondition(0, 0, 0), false) == DepHealthy
    ensures WorkloadCheck(Deployment(None, 1), HealthCondition(0, 0, 0)) == GateUnhealthy
  {
    FullReadinessIsHundred(1);
  }

  /** Both verdicts are sound: a replica workload either of them calls healthy has the required share of replicas ready.
      */
  lemma HealthyMeansReady(w: Workload, condition: HealthCondition, suspendedByKlink: bool)
    requires w.Deployment? || w.StatefulSet?
    requires 0 <= w.ready < 0x8000_0000 && 0 <= w.GetReplicas() < 0x8000_0000
    requires DepStatus(w, condition, suspendedByKlink) == DepHealthy
    ensures 100 * w.ready >= Threshold(condition) * w.GetReplicas() && w.GetReplicas() > 0
  {
    ThresholdMeaning(w.ready, w.GetReplicas(), Threshold(condition));
  }

  /** Conversely, a replica workload that has more than the required share ready is healthy to the controller. */
  lemma ReadyMeansHealthy(w: Workload, condition: HealthCondition, suspendedByKlink: bool)
    requires w.Deployment? || w.StatefulSet?
    requires 0 <= w.ready < 0x8000_0000 && 0 < w.GetReplicas() < 0x8000_0000
    requires 100 * w.ready > Threshold(condition) * w.GetReplicas()
    ensures DepStatus(w, condition, suspendedByKlink) == DepHealthy
  {
    ThresholdMeaning(w.ready, w.GetReplicas(), Threshold(condition));
  }

  /** Exactly when the controller calls a replica workload healthy: it wants replicas and has the required share of them
      ready, except that exactly 29, 57 or 58 percent do not count as reached. */
  lemma HealthyExactlyWhen(w: Workload, condition: HealthCondition, suspendedByKlink: bool)
    requires (w.Deployment? || w.StatefulSet?) && Threshold(condition) <= 100
    requires 0 <= w.ready < 0x8000_0000 && 0 <= w.GetReplicas() < 0x8000_0000
    ensures
      var share, required := 100 * w.ready, Threshold(condition) * w.GetReplicas();
      DepStatus(w, condition, suspendedByKlink) == DepHealthy <==>
        && w.GetReplicas() > 0 && share >= required
        && !(Threshold(condition) in {29, 57, 58} && share == required)
  {
    if w.GetReplicas() > 0 { ThresholdExactlyWhen(w.ready, w.GetReplicas(), Threshold(condition)); }
  }
}
