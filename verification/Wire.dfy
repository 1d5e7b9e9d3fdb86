/** What klink's decisions mean on the stored objects: which fields it looks at, which values it writes, and when it
    asks to be called again. Everything here is said of the fields themselves. */
module Wire {
  import opened Types
  import opened Workloads
  import opened Machine
  import opened Runs
  import opened Conditions
  import opened StatusWrites
  import opened Clusters
  import opened Graphs
  import Readiness
  import Deadlock

  // ---- reconciles that change no workload

  /** Reconcile k writes no workload and asks to be called again after so many nanoseconds. */
  ghost predicate NoWriteAndBack(r: Run, k: nat, delay: int)
    requires r.Shaped() && k < |r.inputs|
  {
    r.decisions[k].write == NoWrite && r.decisions[k].requeue == After(delay)
  }

  /** It stores the status `after`. */
  ghost predicate Leaves(r: Run, k: nat, after: Status, delay: int)
    requires r.Shaped() && k < |r.inputs|
  {
    NoWriteAndBack(r, k, delay) && r.decisions[k].put.Some? && r.states[k + 1] == after
  }

  /** It does not touch the stored object at all. */
  ghost predicate Waits(r: Run, k: nat, delay: int)
    requires r.Shaped() && k < |r.inputs|
  {
    NoWriteAndBack(r, k, delay) && r.decisions[k].put.None? && r.states[k + 1] == r.states[k]
  }

  /** Reconcile k records a phase other than Suspended and nothing else, and asks to be called again after 15 seconds.
      */
  ghost predicate Notes(r: Run, k: nat, phase: Phase)
    requires r.Shaped() && k < |r.inputs|
  {
    Leaves(r, k, r.states[k].(phase := phase, suspendedAt := None), 15_000_000_000)
  }

  /** Everything that needs no enforcement, in the order in which it is looked at: a pause, a failed read of the
      dependent, a missing dependent, a failed read of a dependency, a rollout in flight, observe mode, gate mode. */
  lemma HandsOffInFull(r: Run, k: nat)
    requires r.Valid() && k < |r.inputs|
    ensures
      var i := r.inputs[k];
      var d := r.decisions[k];
      var nothing := d.write == NoWrite && r.states[k + 1] == r.states[k] && d.requeue == OnError;
      if i.paused then Notes(r, k, Paused)
      else if i.dependent.FetchError? then nothing
      else if i.dependent.NotFound? then Notes(r, k, Unknown)
      else if i.verdict == EvalError then nothing
      else if i.verdict == NotOk && i.dependent.w.Rollout? && i.dependent.w.phase == "Progressing" then
        Notes(r, k, Degraded)
      else if i.spec.mode == Observe then Notes(r, k, if i.verdict == AllOk then Healthy else Observed)
      else i.spec.mode == Gate ==> Notes(r, k, if i.verdict == AllOk then Healthy else Degraded)
  {
    assert r.Follows(k);
    ReachableWellFormed(r, k);
  }

  /** Enforcing, and every dependency is fine. Outside a suspension the windows are cleared. In a suspension the
      recovery window starts, or is waited for, or is over; then the reconcile fails with its patch, or is a recovery.
      */
  lemma HealthyInFull(r: Run, k: nat)
    requires r.Valid() && k < |r.inputs|
    requires
      var i := r.inputs[k];
      !i.paused && i.dependent.Found? && i.verdict == AllOk && i.spec.mode in {Strict, Soft}
    ensures
      var s, now := r.states[k], r.inputs[k].now;
      var window := RecoveryWindow(r.inputs[k].spec.dependsOn);
      if s.phase != Suspended then Leaves(r, k, Status(Healthy, s.saved, None, None, None), 15_000_000_000)
      else if s.healthySince.None? then Leaves(r, k, s.(degradedSince := None, healthySince := Some(now)), window)
      else if now < s.healthySince.value + window then
        Waits(r, k, s.healthySince.value + window - now + 1_000_000_000)
      else
        || (r.Recovers(k) && r.decisions[k].requeue == After(15_000_000_000))
        || (!r.inputs[k].patchOk && r.states[k + 1] == s && r.decisions[k].requeue == OnError)
  {
    assert r.Follows(k);
    ReachableWellFormed(r, k);
  }

  /** Enforcing, a dependency is not fine, and no rollout is in flight. After a forced restore nothing happens. A capped
      suspension is waited for or released. Outside a suspension the degraded window starts, or is waited for, or is
      over. */
  lemma UnhealthyInFull(r: Run, k: nat)
    requires r.Valid() && k < |r.inputs|
    requires
      var i := r.inputs[k];
      && !i.paused && i.dependent.Found? && i.verdict == NotOk && i.spec.mode in {Strict, Soft}
      && !(i.dependent.w.Rollout? && i.dependent.w.phase == "Progressing")
    ensures r.states[k].phase == Suspended ==> r.states[k].suspendedAt.Some?
    ensures
      var s, now := r.states[k], r.inputs[k].now;
      var window, cap := DegradedWindow(r.inputs[k].spec.dependsOn), r.inputs[k].spec.maxSuspendDuration;
      var failed := !r.inputs[k].patchOk && r.states[k + 1] == s && r.decisions[k].requeue == OnError;
      if s.phase == Released then Leaves(r, k, s, 30_000_000_000)
      else if s.phase == Suspended && cap > 0 then
        if now < s.suspendedAt.value + cap then Waits(r, k, s.suspendedAt.value + cap - now + 1_000_000_000)
        else failed || (r.Releases(k) && r.decisions[k].requeue == After(15_000_000_000)
                        && r.states[k + 1] == Status(Released, None, s.degradedSince, None, None))
      else if s.phase == Suspended then
        failed || (r.states[k + 1].phase == Suspended && r.decisions[k].requeue == After(15_000_000_000))
      else if s.degradedSince.None? then Leaves(r, k, Status(Degraded, s.saved, Some(now), None, None), window)
      else if now < s.degradedSince.value + window then
        Waits(r, k, s.degradedSince.value + window - now + 1_000_000_000)
      else
        failed || (r.EntersSuspended(k) && r.decisions[k].requeue == After(15_000_000_000))
  {
    assert r.Follows(k);
    ReachableWellFormed(r, k);
  }

  /** A failed patch loses nothing: the reconcile that would have written the workload leaves it and the status alone.
      */
  lemma FailedPatchChangesNothing(r: Run, k: nat)
    requires r.Valid() && k < |r.inputs| && !r.inputs[k].patchOk
    ensures r.decisions[k].write == NoWrite
    ensures Decide(r.states[k], r.inputs[k].(patchOk := true)).write != NoWrite ==>
      r.states[k + 1] == r.states[k] && r.decisions[k].requeue == OnError
  {
    assert r.Follows(k);
  }

  /** In soft mode a suspension is only recorded again, whatever was done to the workload. */
  lemma SoftLeavesOverrides(r: Run, k: nat)
    requires r.Valid() && k < |r.inputs| && r.states[k].phase == Suspended
    requires
      var i := r.inputs[k];
      && !i.paused && i.dependent.Found? && i.verdict == NotOk && i.spec.mode == Soft && i.spec.maxSuspendDuration <= 0
      && !(i.dependent.w.Rollout? && i.dependent.w.phase == "Progressing")
    ensures Leaves(r, k, r.states[k], 15_000_000_000)
  {
    assert r.Follows(k);
    ReachableWellFormed(r, k);
  }

  // ---- taking a workload to rest

  /** An enforcing reconcile that saw unhealth, outside Suspended and Released, whose degraded window has run out. */
  predicate DueToSuspend(s: Status, i: Input) {
    && !i.paused && i.dependent.Found? && i.verdict == NotOk && i.spec.mode in {Strict, Soft} && i.patchOk
    && s.phase !in {Suspended, Released} && s.degradedSince.Some?
    && i.now >= s.degradedSince.value + DegradedWindow(i.spec.dependsOn)
  }

  predicate InInt32(n: int) { -0x8000_0000 <= n < 0x8000_0000 }

  /** The desired count of a replica workload with this field: one when the field is absent. */
  predicate Wants(replicas: Option<int>, n: int) {
    (replicas.None? && n == 1) || replicas == Some(n)
  }

  /** The same for a Rollout, whose field is a 64-bit integer of which klink looks at the low 32 bits. */
  predicate WantsLow(replicas: Option<int>, n: int) {
    InInt32(n) && if replicas.None? then n == 1 else (replicas.value - n) % 0x1_0000_0000 == 0
  }

  lemma LowBits(x: int, n: int)
    requires InInt32(n) && (x - n) % 0x1_0000_0000 == 0
    ensures ToInt32(x) == n
  {
    var d := ToInt32(x) - n;
    assert d % 0x1_0000_0000 == 0 by {
      assert d == (x - n) - (x - ToInt32(x));
    }
  }

  /** A due suspension, field by field. A Rollout whose phase is Progressing is left alone and the phase is Degraded.
      Every other replica workload ends with a desired count of 0, and the count it wanted before is saved unless it was
      0. A CronJob ends with suspend set, and nothing is saved. Nothing else of the workload changes. The count of a
      Rollout is the low 32 bits of its field. */
  lemma SuspendsOnTheWire(r: Run, k: nat, n: int)
    requires r.Valid() && k < |r.inputs| && DueToSuspend(r.states[k], r.inputs[k])
    ensures
      var s, w := r.states[k], r.inputs[k].dependent.w;
      var s', w' := r.states[k + 1], Apply(w, r.decisions[k].write);
      var suspended := s.(phase := Suspended, suspendedAt := Some(r.inputs[k].now));
      var counted := suspended.(saved := if n == 0 then s.saved else Some(n));
      match w
      case Deployment(replicas, ready) => Wants(replicas, n) ==> w' == Deployment(Some(0), ready) && s' == counted
      case StatefulSet(replicas, ready) => Wants(replicas, n) ==> w' == StatefulSet(Some(0), ready) && s' == counted
      case CronJob(_) => w' == CronJob(Some(true)) && s' == suspended
      case Rollout(replicas, phase) =>
        if phase == "Progressing" then w' == w && s' == s.(phase := Degraded, suspendedAt := None)
        else WantsLow(replicas, n) ==> w' == (if n == 0 then w else Rollout(Some(0), phase)) && s' == counted
  {
    var w := r.inputs[k].dependent.w;
    if w.Rollout? && w.replicas.Some? && WantsLow(w.replicas, n) { LowBits(w.replicas.value, n); }
    assert r.Follows(k);
    ReachableWellFormed(r, k);
  }

  /** Hence a due suspension scales a running Rollout to zero exactly when no rollout is in flight. */
  lemma RolloutIsScaledExactlyWhen(r: Run, k: nat, n: int, phase: string)
    requires r.Valid() && k < |r.inputs| && DueToSuspend(r.states[k], r.inputs[k])
    requires r.inputs[k].dependent == Found(Rollout(Some(n), phase)) && n != 0 && InInt32(n)
    ensures r.decisions[k].write == Scale(0) <==> phase != "Progressing"
    ensures r.states[k + 1].phase == if phase == "Progressing" then Degraded else Suspended
  {
    SuspendsOnTheWire(r, k, n);
    assert r.Follows(k);
  }

  // ---- keeping it at rest

  /** Uncapped strict mode during a suspension, field by field: whatever was done to the workload, it ends at rest, and
      a count that somebody set meanwhile replaces the saved one. */
  lemma ReenforcesOnTheWire(r: Run, k: nat, n: int)
    requires r.Valid() && k < |r.inputs| && r.states[k].phase == Suspended
    requires
      var i := r.inputs[k];
      && !i.paused && i.dependent.Found? && i.verdict == NotOk && i.patchOk
      && i.spec.mode == Strict && i.spec.maxSuspendDuration <= 0
    ensures
      var s, w := r.states[k], r.inputs[k].dependent.w;
      var s', w' := r.states[k + 1], Apply(w, r.decisions[k].write);
      var counted := s.(saved := if n == 0 then s.saved else Some(n));
      match w
      case Deployment(replicas, ready) =>
        Wants(replicas, n) && n >= 0 ==> w' == Deployment(Some(0), ready) && s' == counted
      case StatefulSet(replicas, ready) =>
        Wants(replicas, n) && n >= 0 ==> w' == StatefulSet(Some(0), ready) && s' == counted
      case CronJob(_) => w' == CronJob(Some(true)) && s' == s
      case Rollout(replicas, phase) =>
        phase != "Progressing" && Wants(replicas, n) && 0 <= n < 0x8000_0000 ==>
          w' == Rollout(Some(0), phase) && s' == counted
  {
    assert r.Follows(k);
    ReachableWellFormed(r, k);
  }

  // ---- bringing it back

  /** However a suspension ends, by recovery or by its cap, the workload is back, and the status is as if there had been
      none. */
  lemma EveryEndBringsBack(r: Run, k: nat)
    requires r.Valid() && k < |r.inputs| && (r.Recovers(k) || r.Releases(k))
    ensures r.inputs[k].dependent.Found?
    ensures
      var w := r.inputs[k].dependent.w;
      BroughtBack(r.states[k].saved, w, Apply(w, r.decisions[k].write))
    ensures
      var s' := r.states[k + 1];
      s'.saved.None? && s'.suspendedAt.None? && s'.healthySince.None? && (r.Recovers(k) ==> s'.degradedSince.None?)
  {
    assert r.Follows(k);
    ReachableWellFormed(r, k);
  }

  /** A suspended CronJob is never left behind: after either end it is not suspended. */
  lemma CronJobIsResumed(r: Run, k: nat)
    requires r.Valid() && k < |r.inputs| && (r.Recovers(k) || r.Releases(k))
    requires r.inputs[k].dependent.Found? && r.inputs[k].dependent.w.CronJob?
    ensures Apply(r.inputs[k].dependent.w, r.decisions[k].write).suspend != Some(true)
  {
    EveryEndBringsBack(r, k);
  }

  // ---- what a dependency looks like

  /** Some Suspended WorkloadDependency names this workload as its dependent. */
  ghost predicate HeldByKlink(c: Cluster, namespace: string, name: string) {
    exists id ::
      && id in c.wds && c.wds[id].status.phase == Suspended && c.wds[id].spec.dependent.name == name
      && Means(c.wds[id].spec.dependent.namespace, id.namespace, namespace)
  }

  /** At least the required share is ready, where 0 stands for all and exactly 29, 57 or 58 percent do not count. */
  predicate EnoughReady(ready: int, replicas: int, minReadyPercent: int) {
    var required := if minReadyPercent == 0 then 100 else minReadyPercent;
    100 * ready >= required * replicas && !(required in {29, 57, 58} && 100 * ready == required * replicas)
  }

  predicate ReplicasFine(replicas: int, ready: int, minReadyPercent: int, held: bool) {
    if replicas == 0 then held else EnoughReady(ready, replicas, minReadyPercent)
  }

  /** What the API server guarantees of counts and thresholds. */
  predicate Sensible(w: Workload, minReadyPercent: int) {
    0 <= minReadyPercent <= 100
    && (w.Deployment? || w.StatefulSet? ==> w.Valid() && 0 <= w.ready < 0x8000_0000)
  }

  /** When a stored workload of the right kind counts as fine, field by field. */
  predicate FineByFields(w: Workload, minReadyPercent: int, held: bool) {
    match w
    case Deployment(replicas, ready) =>
      ReplicasFine(if replicas.None? then 1 else replicas.value, ready, minReadyPercent, held)
    case StatefulSet(replicas, ready) =>
      ReplicasFine(if replicas.None? then 1 else replicas.value, ready, minReadyPercent, held)
    case CronJob(suspend) => suspend != Some(true) || held
    case Rollout(_, phase) => phase in {"Healthy", "Progressing", "Paused"} || held
  }

  lemma DepStatusByFields(w: Workload, condition: HealthCondition, held: bool)
    requires Sensible(w, condition.minReadyPercent)
    ensures DepStatus(w, condition, held) != DepUnhealthy <==> FineByFields(w, condition.minReadyPercent, held)
  {
    if (w.Deployment? || w.StatefulSet?) && w.GetReplicas() != 0 {
      Readiness.ThresholdExactlyWhen(w.ready, w.GetReplicas(), Threshold(condition));
    }
  }

  /** The kind of object a kind string means; everything unknown means a Deployment. */
  predicate KindMeans(kind: string, k: Kind) {
    match k
    case StatefulSetKind => kind == "StatefulSet"
    case CronJobKind => kind == "CronJob"
    case RolloutKind => kind == "Rollout"
    case DeploymentKind => kind !in {"StatefulSet", "CronJob", "Rollout"}
  }

  lemma KindOfMeans(kind: string)
    ensures KindMeans(kind, KindOf(kind))
    ensures forall k :: KindMeans(kind, k) ==> k == KindOf(kind)
  {
    assert |"StatefulSet"| == 11 && |"CronJob"| == 7 && |"Rollout"| == 7;
    assert "CronJob"[0] != "Rollout"[0];
  }

  /** When a dependency stands in nobody's way, said of the cluster's fields alone: there is an object of the kind,
      namespace and name it means, and that object is fine. */
  lemma DependencyOkByFields(c: Cluster, dep: DependsOnEntry, own: string, key: WorkloadKey)
    requires KindMeans(dep.kind, key.kind) && Means(dep.namespace, own, key.namespace) && key.name == dep.name
    requires key in c.workloads ==> Sensible(c.workloads[key], dep.condition.minReadyPercent)
    ensures DependencyOk(c, dep, own) <==>
      && key in c.workloads
      && FineByFields(c.workloads[key], dep.condition.minReadyPercent, HeldByKlink(c, key.namespace, key.name))
  {
    KindOfMeans(dep.kind);
    assert key == DependencyKey(dep, own);
    HeldIsSuspendedByKlink(c, NamespacedName(key.namespace, key.name));
    if key in c.workloads {
      DepStatusByFields(c.workloads[key], dep.condition, HeldByKlink(c, key.namespace, key.name));
    }
  }

  lemma HeldIsSuspendedByKlink(c: Cluster, name: NamespacedName)
    ensures HeldByKlink(c, name.namespace, name.name) <==> SuspendedByKlink(c, name)
  {
    if HeldByKlink(c, name.namespace, name.name) {
      var id :|
        && id in c.wds && c.wds[id].status.phase == Suspended && c.wds[id].spec.dependent.name == name.name
        && Means(c.wds[id].spec.dependent.namespace, id.namespace, name.namespace);
      assert DependentName(c.wds[id].spec, id.namespace) == name;
    }
  }

  /** The dependencies looked at one after the other, from index k on: a read that fails is an error, a missing object
      ends it, and otherwise all of them have to be fine. */
  ghost function LookedAt(c: Cluster, deps: seq<DependsOnEntry>, own: string, failing: Option<nat>, k: nat, fine: bool)
    : Verdict
    requires k <= |deps|
    decreases |deps| - k
  {
    if k == |deps| then (if fine then AllOk else NotOk)
    else if failing == Some(k) then EvalError
    else if DependencyKey(deps[k], own) !in c.workloads then NotOk
    else LookedAt(c, deps, own, failing, k + 1, fine && DependencyOk(c, deps[k], own))
  }

  lemma {:induction false} LookedAtFrom(c: Cluster, deps: seq<DependsOnEntry>, own: string, failing: Option<nat>,
                                        k: nat,
                                        fine: bool)
    requires k <= |deps| && (failing.Some? ==> k <= failing.value)
    requires forall j :: 0 <= j < k ==> DependencyKey(deps[j], own) in c.workloads
    requires fine <==> forall j :: 0 <= j < k ==> DependencyOk(c, deps[j], own)
    ensures LookedAt(c, deps, own, failing, k, fine) == Evaluate(c, deps, own, failing)
    decreases |deps| - k
  {
    if k == |deps| {
      assert fine <==> forall dep :: dep in deps ==> DependencyOk(c, dep, own);
    } else if failing == Some(k) {
    } else if DependencyKey(deps[k], own) !in c.workloads {
      assert deps[k] in deps && !DependencyOk(c, deps[k], own);
    } else {
      LookedAtFrom(c, deps, own, failing, k + 1, fine && DependencyOk(c, deps[k], own));
    }
  }

  /** The verdict is that of looking at the dependencies in order: a read fails the reconcile exactly when it is made,
      that is, when no earlier dependency is missing. */
  lemma EvaluatesInOrder(c: Cluster, deps: seq<DependsOnEntry>, own: string, failing: Option<nat>)
    ensures Evaluate(c, deps, own, failing) == LookedAt(c, deps, own, failing, 0, true)
  {
    LookedAtFrom(c, deps, own, failing, 0, true);
  }

  // ---- what a reconcile touches

  /** key is the object that the WorkloadDependency means by its dependent. */
  predicate IsDependent(wd: WD, own: string, key: WorkloadKey) {
    && KindMeans(wd.spec.dependent.kind, key.kind) && Means(wd.spec.dependent.namespace, own, key.namespace)
    && key.name == wd.spec.dependent.name
  }

  /** Under every fault, a reconcile creates and deletes no workload, and changes none but the one of the kind,
      namespace and name that its WorkloadDependency means by its dependent. */
  lemma TouchesOnlyItsDependent(c: Cluster, id: NamespacedName, now: int, f: Faults, key: WorkloadKey)
    ensures key in Reconcile(c, id, now, f).0.workloads <==> key in c.workloads
    ensures key in c.workloads && Reconcile(c, id, now, f).0.workloads[key] != c.workloads[key] ==>
      id in c.wds && IsDependent(c.wds[id], id.namespace, key)
  {
    if id in c.wds { KindOfMeans(c.wds[id].spec.dependent.kind); }
  }

  /** An object that is gone is forgotten. */
  lemma GoneIsForgotten(c: Cluster, id: NamespacedName, now: int, f: Faults)
    requires id !in c.wds
    ensures Reconcile(c, id, now, f) == (c, Stop)
  {
  }

  /** What a reconcile reads of its dependent is the object of that kind, namespace and name. */
  lemma ReadsItsDependent(c: Cluster, id: NamespacedName, now: int, f: Faults, key: WorkloadKey)
    requires id in c.wds && !f.dependent && IsDependent(c.wds[id], id.namespace, key)
    ensures InputFor(c, id, now, f).dependent == if key in c.workloads then Found(c.workloads[key]) else NotFound
  {
    KindOfMeans(c.wds[id].spec.dependent.kind);
  }

  // ---- the status update

  /** setStatus sends at most three updates: success at the first, second or third attempt stores the phase; three
      conflicts exhaust it; anything else ends it at once. */
  lemma AtMostThreeUpdates(stored: WD, held: WD, phase: Phase, now: int, turns: seq<Turn>)
    ensures Attempts(turns) <= 3
    ensures
      var (after, result) := WriteStatus(stored, held, phase, now, turns);
      var first, second, third := TurnAt(turns, 0), TurnAt(turns, 1), TurnAt(turns, 2);
      if first == Accepted then result == Written && after.status.phase == phase && Attempts(turns) == 1
      else if !first.Conflict? then result == Failed && Attempts(turns) == 1
      else if second == Accepted then result == Written && after.status.phase == phase && Attempts(turns) == 2
      else if !second.Conflict? then result == Failed && Attempts(turns) == 2
      else if third == Accepted then result == Written && after.status.phase == phase && Attempts(turns) == 3
      else if !third.Conflict? then result == Failed && Attempts(turns) == 3
      else result == Exhausted && after == third.stored && Attempts(turns) == 3
  {
    WriteFromClosed(stored, held, held.status, phase, now, turns, 0, MAX_RETRIES);
    ConflictsUpToThree(turns);
  }

  lemma ConflictsUpToThree(turns: seq<Turn>)
    ensures
      var n := Conflicts(turns, 0, MAX_RETRIES);
      if !TurnAt(turns, 0).Conflict? then n == 0
      else if !TurnAt(turns, 1).Conflict? then n == 1
      else if !TurnAt(turns, 2).Conflict? then n == 2
      else n == 3 && MAX_RETRIES == 3
  {
    assert Conflicts(turns, 3, MAX_RETRIES) == 0;
    assert Conflicts(turns, 2, MAX_RETRIES) <= 1;
  }

  /** What a reconcile answers after its status update: its own requeue on success, at once after three conflicts, an
      error otherwise. */
  lemma AnswerAfterUpdate(c: Cluster, id: NamespacedName, put: Put, requeue: Requeue, now: int, turns: seq<Turn>)
    requires id in c.wds
    ensures
      var answer := PutStatus(c, id, put, requeue, now, turns).1;
      if TurnAt(turns, 0).Conflict? && TurnAt(turns, 1).Conflict? && TurnAt(turns, 2).Conflict? then answer == AtOnce
      else if TurnAt(turns, 0) == Accepted then answer == requeue
      else if TurnAt(turns, 0).Conflict? && TurnAt(turns, 1) == Accepted then answer == requeue
      else if TurnAt(turns, 0).Conflict? && TurnAt(turns, 1).Conflict? && TurnAt(turns, 2) == Accepted then
        answer == requeue
      else answer == OnError
  {
    AtMostThreeUpdates(c.wds[id], c.wds[id].(status := put.local), put.phase, now, turns);
  }

  // ---- admission and deletion

  /** The first reconcile of a new object, in full. A spec that closes a cycle is reported as Unknown, its Ready
      condition says the same, it stays without finalizer and is not called again. Every other gets the finalizer and is
      called again at once, unless the update fails. */
  lemma AdmissionInFull(c: Cluster, id: NamespacedName, now: int, f: Faults)
    requires id in c.wds && !c.wds[id].deleting && !c.wds[id].finalizer && TurnAt(f.turns, 0) == Accepted
    ensures
      var (after, requeue) := Reconcile(c, id, now, f);
      var wd := c.wds[id];
      if !f.list && ClosesCycle(OtherEdges(c, id), wd.spec, id.namespace) then
        && requeue == Stop
        && after == c.(wds := c.wds[id := wd.(
             status := wd.status.(phase := Unknown, suspendedAt := None),
             conditions := WithCondition(wd.conditions, Unknown, wd.generation, now))])
      else if f.update then requeue == OnError && after == c
      else requeue == AtOnce && after == c.(wds := c.wds[id := wd.(finalizer := true)])
  {
    UncontendedWriteIsExact(c.wds[id], c.wds[id], Unknown, now, f.turns);
  }

  /** The reconcile of an object that is being deleted, in full. A restore is due in phase Suspended with a positive
      saved count. When it is due and cannot be made, nothing changes and it is tried again after five seconds; when it
      is made, the workload is back. Then the object is gone, unless updating it fails. */
  lemma DeletionInFull(c: Cluster, id: NamespacedName, now: int, f: Faults, key: WorkloadKey)
    requires id in c.wds && c.wds[id].deleting && IsDependent(c.wds[id], id.namespace, key)
    ensures
      var s := c.wds[id].status;
      var (after, requeue) := Reconcile(c, id, now, f);
      var due := s.phase == Suspended && s.saved.Some? && s.saved.value > 0;
      var atRest := key in c.workloads && (c.workloads[key].CronJob? ==> c.workloads[key].suspend == Some(true));
      if due && (f.dependent || (f.patch && atRest)) then after == c && requeue == After(5 * SECOND)
      else
        && (if f.update then after.wds == c.wds && requeue == OnError else after.wds == c.wds - {id} && requeue == Stop)
        && (if due && key in c.workloads
            then key in after.workloads && BroughtBack(s.saved, c.workloads[key], after.workloads[key])
            else after.workloads == c.workloads)
  {
    KindOfMeans(c.wds[id].spec.dependent.kind);
    assert key == DependentKey(c.wds[id].spec, id.namespace);
  }
}
