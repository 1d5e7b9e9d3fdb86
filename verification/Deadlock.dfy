/** Mutual dependencies and the phase Suspended: a group of WorkloadDependencies that only depend on one another's
    dependents is never Suspended as a whole. What that means for the workloads is the subject of module Mutual. */
module Deadlock {
  import opened Types
  import opened Workloads
  import opened Machine
  import opened StatusWrites
  import opened Clusters

  /** What is fixed about the members of a group: their dependent and what it depends on. */
  type Group = map<NamespacedName, Spec>

  function MemberKey(g: Group, id: NamespacedName): WorkloadKey
    requires id in g
  {
    DependentKey(g[id], id.namespace)
  }

  /** Members have distinct dependents, and every dependency of a member is the dependent of another member. */
  ghost predicate ClosedGroup(g: Group) {
    && g.Keys != {}
    && (forall a, b :: a in g && b in g && MemberKey(g, a) == MemberKey(g, b) ==> a == b)
    && (forall a, dep :: a in g && dep in g[a].dependsOn ==> ProvidedByOther(g, a, dep))
  }

  ghost predicate ProvidedByOther(g: Group, a: NamespacedName, dep: DependsOnEntry) {
    exists b :: b in g && b != a && MemberKey(g, b) == DependencyKey(dep, a.namespace)
  }

  predicate SuspendedIn(c: Cluster, id: NamespacedName) {
    id in c.wds && c.wds[id].status.phase == Suspended
  }

  ghost predicate AllSuspended(c: Cluster, g: Group) {
    forall id :: id in g ==> SuspendedIn(c, id)
  }

  /** The cluster carries the group: members keep their dependent and dependencies, and nobody else manages those
      dependents. */
  ghost predicate Carries(c: Cluster, g: Group) {
    && (forall id :: id in g && id in c.wds ==>
          c.wds[id].spec.dependent == g[id].dependent && c.wds[id].spec.dependsOn == g[id].dependsOn)
    && (forall id, other :: id in g && other in c.wds && other !in g ==>
          DependentKey(c.wds[other].spec, other.namespace) != MemberKey(g, id))
  }

  /** A workload that klink took to rest and that still exists. Only replica counts can be raised behind klink's back.
      */
  predicate Held(c: Cluster, key: WorkloadKey) {
    key in c.workloads && c.workloads[key].Kind() == key.kind
    && (key.kind in {DeploymentKind, StatefulSetKind} ==> c.workloads[key].GetReplicas() == 0)
  }

  predicate Typed(c: Cluster) {
    forall key :: key in c.workloads ==> c.workloads[key].Kind() == key.kind
  }

  ghost predicate SuspendedAreHeld(c: Cluster, g: Group) {
    forall id :: id in g && SuspendedIn(c, id) ==> Held(c, MemberKey(g, id))
  }

  /** What holds in every reachable cluster. */
  ghost predicate Safe(c: Cluster, g: Group) {
    Typed(c) && Carries(c, g) && SuspendedAreHeld(c, g) && !AllSuspended(c, g)
  }

  /** What everybody else may do between reconciles: anything, except that klink alone writes the phase Suspended, and
      that a workload held for a Suspended member is neither deleted nor scaled up. */
  ghost predicate EnvironmentStep(c: Cluster, c': Cluster, g: Group) {
    && Typed(c') && Carries(c', g)
    && forall id :: id in g && SuspendedIn(c', id) ==>
         SuspendedIn(c, id) && (Held(c, MemberKey(g, id)) ==> Held(c', MemberKey(g, id)))
  }

  /** A dependency that another Suspended member holds at rest does not count as unhealthy. */
  lemma HeldDependencyIsOk(c: Cluster, g: Group, a: NamespacedName, dep: DependsOnEntry, b: NamespacedName)
    requires Carries(c, g) && a in g && b in g && MemberKey(g, b) == DependencyKey(dep, a.namespace)
    requires SuspendedIn(c, b) && Held(c, MemberKey(g, b))
    ensures DependencyOk(c, dep, a.namespace)
  {
    var key := DependencyKey(dep, a.namespace);
    assert DependentName(c.wds[b].spec, b.namespace) == NamespacedName(key.namespace, key.name);
    assert SuspendedByKlink(c, NamespacedName(key.namespace, key.name));
  }

  /** When every other member is Suspended, a member sees all its dependencies as fine. */
  lemma OthersSuspendedMeansOk(c: Cluster, g: Group, a: NamespacedName)
    requires ClosedGroup(g) && Carries(c, g) && SuspendedAreHeld(c, g) && a in g && a in c.wds
    requires forall b :: b in g && b != a ==> SuspendedIn(c, b)
    ensures forall dep :: dep in c.wds[a].spec.dependsOn ==> DependencyOk(c, dep, a.namespace)
  {
    forall dep | dep in c.wds[a].spec.dependsOn ensures DependencyOk(c, dep, a.namespace) {
      assert ProvidedByOther(g, a, dep);
      var b :| b in g && b != a && MemberKey(g, b) == DependencyKey(dep, a.namespace);
      HeldDependencyIsOk(c, g, a, dep, b);
    }
  }

  lemma StepIntoSuspended(s: Status, i: Input)
    requires Step(s, i).phase == Suspended
    ensures s.phase == Suspended
      || (i.verdict == NotOk && i.dependent.Found? && Apply(i.dependent.w, Decide(s, i).write).AtRest())
    ensures s.phase == Suspended && i.dependent.Found? && i.dependent.w.AtRest() ==>
      Apply(i.dependent.w, Decide(s, i).write).AtRest()
    ensures s.phase == Suspended && !i.dependent.Found? ==> Decide(s, i).write == NoWrite
  {
  }

  lemma ApplyKeepsKind(w: Workload, write: Write)
    ensures Apply(w, write).Kind() == w.Kind()
  {
  }

  /** c' differs from c only in the status of id and in a write to its dependent. */
  ghost predicate ChangesOnly(c: Cluster, c': Cluster, id: NamespacedName, write: Write) {
    && id in c.wds && c'.wds.Keys == c.wds.Keys
    && c'.wds[id].spec == c.wds[id].spec
    && (forall other :: other in c.wds && other != id ==> c'.wds[other] == c.wds[other])
    && c'.workloads == WriteWorkload(c, DependentKey(c.wds[id].spec, id.namespace), write).workloads
  }

  lemma ChangesKeepCarried(c: Cluster, c': Cluster, g: Group, id: NamespacedName, write: Write)
    requires Typed(c) && Carries(c, g) && ChangesOnly(c, c', id, write)
    ensures Typed(c') && Carries(c', g)
  {
    var key := DependentKey(c.wds[id].spec, id.namespace);
    if key in c.workloads { ApplyKeepsKind(c.workloads[key], write); }
  }

  /** If the member's own dependent is held whenever it ends up Suspended, all held workloads stay held. */
  lemma ChangesKeepHeld(c: Cluster, c': Cluster, g: Group, id: NamespacedName, write: Write)
    requires ClosedGroup(g) && Safe(c, g) && id in g && ChangesOnly(c, c', id, write)
    requires SuspendedIn(c', id) ==> Held(c', MemberKey(g, id))
    ensures SuspendedAreHeld(c', g)
  {
    forall m | m in g && SuspendedIn(c', m) ensures Held(c', MemberKey(g, m)) {
      if m != id {
        assert SuspendedIn(c, m) && Held(c, MemberKey(g, m));
        assert MemberKey(g, m) != MemberKey(g, id);
      }
    }
  }

  /** A member whose reconcile ends Suspended has its dependent held. */
  lemma MemberEndsHeld(c: Cluster, c': Cluster, g: Group, id: NamespacedName, i: Input)
    requires Safe(c, g) && id in g && id in c.wds && ChangesOnly(c, c', id, Decide(c.wds[id].status, i).write)
    requires i.dependent == FetchDependent(c, c.wds[id], id.namespace, i.dependent.FetchError?)
    requires c'.wds[id].status == Step(c.wds[id].status, i) && SuspendedIn(c', id)
    ensures Held(c', MemberKey(g, id))
  {
    StepIntoSuspended(c.wds[id].status, i);
    if i.dependent.Found? { ApplyKeepsKind(i.dependent.w, Decide(c.wds[id].status, i).write); }
    if SuspendedIn(c, id) { assert Held(c, MemberKey(g, id)); }
  }

  /** A step of one member does not make the group wholly Suspended: the last one would see all its dependencies as
      fine. */
  lemma LastStaysOut(c: Cluster, c': Cluster, g: Group, id: NamespacedName, now: int, f: Faults)
    requires ClosedGroup(g) && Safe(c, g) && id in g && id in c.wds && id in c'.wds
    requires c'.wds[id].status == Step(c.wds[id].status, InputFor(c, id, now, f))
    requires forall other :: other in c.wds && other != id ==> other in c'.wds && c'.wds[other] == c.wds[other]
    requires forall other :: other in c'.wds ==> other in c.wds
    ensures !AllSuspended(c', g)
  {
    var missing :| missing in g && !SuspendedIn(c, missing);
    if forall b :: b in g && b != id ==> SuspendedIn(c, b) {
      OthersSuspendedMeansOk(c, g, id);
      if SuspendedIn(c', id) { StepIntoSuspended(c.wds[id].status, InputFor(c, id, now, f)); }
      assert !SuspendedIn(c', id);
    } else {
      var b :| b in g && b != id && !SuspendedIn(c, b);
      assert !SuspendedIn(c', b);
    }
  }

  /** A reconcile of an admitted member keeps the cluster safe. */
  lemma MemberReconcileIsSafe(c: Cluster, g: Group, id: NamespacedName, now: int, f: Faults)
    requires ClosedGroup(g) && Safe(c, g) && id in g && Reliable(f)
    requires id in c.wds && !c.wds[id].deleting && c.wds[id].finalizer
    ensures Safe(Reconcile(c, id, now, f).0, g)
  {
    var c' := Reconcile(c, id, now, f).0;
    var i := InputFor(c, id, now, f);
    var write := Decide(c.wds[id].status, i).write;
    ReconcileIsStep(c, id, now, f);
    assert ChangesOnly(c, c', id, write);
    ChangesKeepCarried(c, c', g, id, write);
    if SuspendedIn(c', id) { MemberEndsHeld(c, c', g, id, i); }
    ChangesKeepHeld(c, c', g, id, write);
    LastStaysOut(c, c', g, id, now, f);
  }

  /** So does every other reconcile: of a member that is new or being deleted, or of an object outside the group. */
  lemma ReconcileIsSafe(c: Cluster, g: Group, id: NamespacedName, now: int, f: Faults)
    requires ClosedGroup(g) && Safe(c, g) && Reliable(f)
    ensures Safe(Reconcile(c, id, now, f).0, g)
  {
    var c' := Reconcile(c, id, now, f).0;
    if id in c.wds {
      var wd := c.wds[id];
      if wd.deleting {
        DeletionIsSafe(c, g, id, f);
      } else if !wd.finalizer {
        AdmissionIsSafe(c, g, id, now, f);
      } else if id in g {
        MemberReconcileIsSafe(c, g, id, now, f);
      } else {
        OutsiderReconcileIsSafe(c, g, id, now, f);
      }
    }
  }

  lemma OutsiderReconcileIsSafe(c: Cluster, g: Group, id: NamespacedName, now: int, f: Faults)
    requires Safe(c, g) && id !in g && id in c.wds && !c.wds[id].deleting && c.wds[id].finalizer && Reliable(f)
    ensures Safe(Reconcile(c, id, now, f).0, g)
  {
    var c' := Reconcile(c, id, now, f).0;
    var write := Decide(c.wds[id].status, InputFor(c, id, now, f)).write;
    ReconcileIsStep(c, id, now, f);
    assert ChangesOnly(c, c', id, write);
    ChangesKeepCarried(c, c', g, id, write);
    forall m | m in g ensures SuspendedIn(c', m) <==> SuspendedIn(c, m) { }
    forall m | m in g && SuspendedIn(c', m) ensures Held(c', MemberKey(g, m)) {
      assert Held(c, MemberKey(g, m));
    }
  }

  lemma DeletionIsSafe(c: Cluster, g: Group, id: NamespacedName, f: Faults)
    requires ClosedGroup(g) && Safe(c, g) && id in c.wds && c.wds[id].deleting && Reliable(f)
    ensures Safe(ReconcileDeletion(c, id, f).0, g)
  {
    var c' := ReconcileDeletion(c, id, f).0;
    if c' != c {
      var key := DependentKey(c.wds[id].spec, id.namespace);
      var write := DeletionWrite(c.wds[id].status, FetchDependent(c, c.wds[id], id.namespace, f.dependent));
      assert c' == Cluster(c.wds - {id}, WriteWorkload(c, key, write).workloads);
      RemovalIsSafe(c, g, id, write);
    }
  }

  /** Removing an object while writing its dependent is safe: it holds nothing any more. */
  lemma RemovalIsSafe(c: Cluster, g: Group, id: NamespacedName, write: Write)
    requires ClosedGroup(g) && Safe(c, g) && id in c.wds
    ensures
      var key := DependentKey(c.wds[id].spec, id.namespace);
      Safe(Cluster(c.wds - {id}, WriteWorkload(c, key, write).workloads), g)
  {
    var key := DependentKey(c.wds[id].spec, id.namespace);
    var c' := Cluster(c.wds - {id}, WriteWorkload(c, key, write).workloads);
    if key in c.workloads { ApplyKeepsKind(c.workloads[key], write); }
    forall m | m in g && SuspendedIn(c', m) ensures SuspendedIn(c, m) && Held(c', MemberKey(g, m)) {
      assert m != id && SuspendedIn(c, m);
      assert Held(c, MemberKey(g, m));
      assert MemberKey(g, m) != key;
    }
    var missing :| missing in g && !SuspendedIn(c, missing);
    assert !SuspendedIn(c', missing);
  }

  lemma AdmissionIsSafe(c: Cluster, g: Group, id: NamespacedName, now: int, f: Faults)
    requires Safe(c, g) && id in c.wds && Reliable(f)
    ensures Safe(ReconcileAdmission(c, id, now, f).0, g)
  {
    var c' := ReconcileAdmission(c, id, now, f).0;
    UncontendedWriteIsExact(c.wds[id], c.wds[id].(status := c.wds[id].status), Unknown, now, f.turns);
    forall m | m in g && SuspendedIn(c', m) ensures SuspendedIn(c, m) { }
  }

  // ---- runs

  /** A run of the cluster: klink reconciles in any order, interleaved with environment steps. */
  ghost predicate IsRun(cs: seq<Cluster>, events: seq<Event>, g: Group) {
    && |cs| == |events| + 1
    && forall k: nat :: k < |events| ==> IsStep(cs[k], events[k], cs[k + 1], g)
  }

  ghost predicate IsStep(c: Cluster, e: Event, c': Cluster, g: Group) {
    match e
    case Klink(id, now, f) => Reliable(f) && c' == Reconcile(c, id, now, f).0
    case Environment => EnvironmentStep(c, c', g)
  }

  /** No interleaving, in any mode and with pauses and deletions at will, reaches a cluster in which every member of a
      closed group is Suspended. This speaks of phases: a paused member is not Suspended and may still be held at zero.
      */
  lemma {:induction false} NeverAllSuspended(cs: seq<Cluster>, events: seq<Event>, g: Group, k: nat)
    requires ClosedGroup(g) && IsRun(cs, events, g) && k < |cs|
    requires Typed(cs[0]) && Carries(cs[0], g) && forall id :: id in g ==> !SuspendedIn(cs[0], id)
    ensures Safe(cs[k], g) && !AllSuspended(cs[k], g)
    decreases k
  {
    if k == 0 {
      var id :| id in g;
      assert !SuspendedIn(cs[0], id);
    } else {
      NeverAllSuspended(cs, events, g, k - 1);
      assert IsStep(cs[k - 1], events[k - 1], cs[k], g);
      match events[k - 1]
      case Klink(id, now, f) => ReconcileIsSafe(cs[k - 1], g, id, now, f);
      case Environment =>
        var id :| id in g && !SuspendedIn(cs[k - 1], id);
        assert !SuspendedIn(cs[k], id);
    }
  }

  // ---- rings

  /** ring[i] depends on exactly the dependent of ring[i + 1], the last one on that of the first. */
  ghost predicate IsRing(ring: seq<NamespacedName>, g: Group) {
    && |ring| >= 2
    && g.Keys == (set i | 0 <= i < |ring| :: ring[i])
    && (forall i, j :: 0 <= i < j < |ring| ==> ring[i] != ring[j])
    && (forall a, b :: a in g && b in g && MemberKey(g, a) == MemberKey(g, b) ==> a == b)
    && (forall i :: 0 <= i < |ring| ==> RingLink(ring, g, i))
  }

  ghost predicate RingLink(ring: seq<NamespacedName>, g: Group, i: nat)
    requires i < |ring|
  {
    var next := if i + 1 < |ring| then ring[i + 1] else ring[0];
    && ring[i] in g && next in g
    && |g[ring[i]].dependsOn| == 1
    && DependencyKey(g[ring[i]].dependsOn[0], ring[i].namespace) == MemberKey(g, next)
  }

  /** A ring of any length, in particular a mutual pair, is a closed group. */
  lemma RingIsClosedGroup(ring: seq<NamespacedName>, g: Group)
    requires IsRing(ring, g)
    ensures ClosedGroup(g)
  {
    assert ring[0] in g;
    forall a, dep | a in g && dep in g[a].dependsOn ensures ProvidedByOther(g, a, dep) {
      var i :| 0 <= i < |ring| && ring[i] == a;
      assert RingLink(ring, g, i);
      var next := if i + 1 < |ring| then ring[i + 1] else ring[0];
      assert next != a;
    }
  }
}
