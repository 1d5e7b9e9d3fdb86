/** What the cycle check at admission achieves over the life of a cluster. */
module Admission {
  import opened Types
  import opened Machine
  import opened StatusWrites
  import opened Graphs
  import opened Clusters
  import Cycles

  /** The edges of the admitted WorkloadDependencies of one namespace: those that carry the finalizer. */
  ghost function AdmittedEdges(c: Cluster, namespace: string): set<Edge> {
    set id, e | id in c.wds && id.namespace == namespace && c.wds[id].finalizer
      && e in EdgesOf(c.wds[id].spec, namespace) :: e
  }

  ghost predicate AdmittedAcyclic(c: Cluster) {
    forall namespace :: Acyclic(AdmittedEdges(c, namespace))
  }

  /** What others may do: create and delete objects, change anything that is not admitted, but neither set the finalizer
      nor change an admitted spec. */
  ghost predicate EnvironmentStep(c: Cluster, c': Cluster) {
    forall id :: id in c'.wds && c'.wds[id].finalizer ==>
      id in c.wds && c.wds[id].finalizer && c'.wds[id].spec == c.wds[id].spec
  }

  lemma FewerAdmitted(c: Cluster, c': Cluster)
    requires EnvironmentStep(c, c') && AdmittedAcyclic(c)
    ensures AdmittedAcyclic(c')
  {
    forall namespace ensures Acyclic(AdmittedEdges(c', namespace)) {
      assert AdmittedEdges(c', namespace) <= AdmittedEdges(c, namespace);
      forall p ensures !IsCycle(AdmittedEdges(c', namespace), p) {
        if IsCycle(AdmittedEdges(c', namespace), p) {
          SubgraphCycle(AdmittedEdges(c', namespace), AdmittedEdges(c, namespace), p);
        }
      }
    }
  }

  lemma AdmittingAdds(c: Cluster, id: NamespacedName, namespace: string, e: Edge)
    requires id in c.wds && !c.wds[id].finalizer
    ensures
      var c' := c.(wds := c.wds[id := c.wds[id].(finalizer := true)]);
      e in AdmittedEdges(c', namespace) <==>
        e in AdmittedEdges(c, namespace) || (namespace == id.namespace && e in EdgesOf(c.wds[id].spec, namespace))
  {
    var c' := c.(wds := c.wds[id := c.wds[id].(finalizer := true)]);
    if e in AdmittedEdges(c, namespace) {
      var other :| other in c.wds && other.namespace == namespace && c.wds[other].finalizer
        && e in EdgesOf(c.wds[other].spec, namespace);
      assert c'.wds[other] == c.wds[other];
    }
    if namespace == id.namespace && e in EdgesOf(c.wds[id].spec, namespace) {
      assert c'.wds[id].finalizer && c'.wds[id].spec == c.wds[id].spec;
    }
    if e in AdmittedEdges(c', namespace) {
      var other :|
        other in c'.wds && other.namespace == namespace && c'.wds[other].finalizer
          && e in EdgesOf(c'.wds[other].spec, namespace);
      if other != id { assert c'.wds[other] == c.wds[other]; }
    }
  }

  /** Adding the finalizer after a clean check keeps every namespace acyclic. The check may look at more than the
      admitted edges, so it can only refuse more. */
  lemma AdmittingKeepsAcyclic(c: Cluster, id: NamespacedName, checked: set<Edge>)
    requires AdmittedAcyclic(c) && id in c.wds && !c.wds[id].finalizer
    requires AdmittedEdges(c, id.namespace) <= checked && !ClosesCycle(checked, c.wds[id].spec, id.namespace)
    ensures AdmittedAcyclic(c.(wds := c.wds[id := c.wds[id].(finalizer := true)]))
  {
    var c' := c.(wds := c.wds[id := c.wds[id].(finalizer := true)]);
    forall namespace ensures Acyclic(AdmittedEdges(c', namespace)) {
      AdmittingGives(c, id, namespace);
      if namespace == id.namespace {
        AddingKeepsAcyclic(AdmittedEdges(c, namespace), checked, c.wds[id].spec, namespace);
      } else {
        assert AdmittedEdges(c', namespace) == AdmittedEdges(c, namespace);
      }
    }
  }

  lemma AdmittingGives(c: Cluster, id: NamespacedName, namespace: string)
    requires id in c.wds && !c.wds[id].finalizer
    ensures
      AdmittedEdges(c.(wds := c.wds[id := c.wds[id].(finalizer := true)]), namespace) ==
        AdmittedEdges(c, namespace) + if namespace == id.namespace then EdgesOf(c.wds[id].spec, namespace) else {}
  {
    forall e { AdmittingAdds(c, id, namespace, e); }
  }

  /** Exactly when admitting a spec is harmless: if and only if it closes no cycle with the admitted edges. Skipping the
      check after a failed listing is therefore safe in just those cases. */
  lemma HarmlessExactlyWhen(admitted: set<Edge>, spec: Spec, namespace: string)
    requires Acyclic(admitted)
    ensures Acyclic(admitted + EdgesOf(spec, namespace)) <==> !ClosesCycle(admitted, spec, namespace)
  {
    if !ClosesCycle(admitted, spec, namespace) {
      AddingKeepsAcyclic(admitted, admitted, spec, namespace);
    }
  }

  /** The edges of the admitted WorkloadDependencies of all namespaces. */
  ghost function EveryAdmittedEdge(c: Cluster): set<Edge> {
    set id, e | id in c.wds && c.wds[id].finalizer && e in EdgesOf(c.wds[id].spec, id.namespace) :: e
  }

  lemma AdmittingAddsEverywhere(c: Cluster, id: NamespacedName)
    requires id in c.wds && !c.wds[id].finalizer
    ensures
      EveryAdmittedEdge(c.(wds := c.wds[id := c.wds[id].(finalizer := true)])) ==
        EveryAdmittedEdge(c) + EdgesOf(c.wds[id].spec, id.namespace)
  {
    var c' := c.(wds := c.wds[id := c.wds[id].(finalizer := true)]);
    forall e ensures e in EveryAdmittedEdge(c') <==> e in EveryAdmittedEdge(c) + EdgesOf(c.wds[id].spec, id.namespace) {
      if e in EveryAdmittedEdge(c) {
        var x :| x in c.wds && c.wds[x].finalizer && e in EdgesOf(c.wds[x].spec, x.namespace);
        assert c'.wds[x] == c.wds[x];
      }
      if e in EdgesOf(c.wds[id].spec, id.namespace) { assert c'.wds[id].finalizer; }
      if e in EveryAdmittedEdge(c') {
        var x :| x in c'.wds && c'.wds[x].finalizer && e in EdgesOf(c'.wds[x].spec, x.namespace);
        if x != id { assert c'.wds[x] == c.wds[x]; }
      }
    }
  }

  /** Exactly when admitting an object keeps the admitted objects of all namespaces together free of cycles: if and only
      if its spec closes none with their edges, wherever they are. */
  lemma HarmlessEverywhereExactlyWhen(c: Cluster, id: NamespacedName)
    requires id in c.wds && !c.wds[id].finalizer && Acyclic(EveryAdmittedEdge(c))
    ensures
      Acyclic(EveryAdmittedEdge(c.(wds := c.wds[id := c.wds[id].(finalizer := true)]))) <==>
        !ClosesCycle(EveryAdmittedEdge(c), c.wds[id].spec, id.namespace)
  {
    AdmittingAddsEverywhere(c, id);
    HarmlessExactlyWhen(EveryAdmittedEdge(c), c.wds[id].spec, id.namespace);
  }

  /** The object is admitted without a check because the listing failed. */
  predicate Unchecked(c: Cluster, id: NamespacedName, f: Faults) {
    id in c.wds && !c.wds[id].deleting && !c.wds[id].finalizer && f.list && !f.update
  }

  /** The writers that a status update runs into neither set the finalizer nor change an admitted spec. */
  ghost predicate OthersRespectAdmission(wd: WD, turns: seq<Turn>) {
    forall k: nat :: k < MAX_RETRIES ==>
      match TurnAt(turns, k)
      case Conflict(other) => other.finalizer ==> wd.finalizer && other.spec == wd.spec
      case ConflictUnreadable(other) => other.finalizer ==> wd.finalizer && other.spec == wd.spec
      case _ => true
  }

  lemma WriteRespectsAdmission(stored: WD, local: Status, phase: Phase, now: int, turns: seq<Turn>)
    requires OthersRespectAdmission(stored, turns)
    ensures
      var after := WriteStatus(stored, stored.(status := local), phase, now, turns).0;
      after.finalizer ==> stored.finalizer && after.spec == stored.spec
  {
    WriteFromClosed(stored, stored.(status := local), local, phase, now, turns, 0, MAX_RETRIES);
    var n := Conflicts(turns, 0, MAX_RETRIES);
    if n > 0 { assert TurnAt(turns, n - 1).Conflict?; }
  }

  lemma PutStatusRespectsAdmission(c: Cluster, id: NamespacedName, put: Put, requeue: Requeue, now: int,
                                   turns: seq<Turn>)
    requires id in c.wds && OthersRespectAdmission(c.wds[id], turns)
    ensures EnvironmentStep(c, PutStatus(c, id, put, requeue, now, turns).0)
  {
    WriteRespectsAdmission(c.wds[id], put.local, put.phase, now, turns);
  }

  /** Exactly when a reconcile keeps the admitted objects acyclic: unless it admits, without a check, a spec that closes
      a cycle with the admitted edges. */
  lemma ReconcileKeepsAcyclicExactlyWhen(c: Cluster, id: NamespacedName, now: int, f: Faults)
    requires AdmittedAcyclic(c) && (id in c.wds ==> OthersRespectAdmission(c.wds[id], f.turns))
    ensures AdmittedAcyclic(Reconcile(c, id, now, f).0) <==>
      (Unchecked(c, id, f) ==> !ClosesCycle(AdmittedEdges(c, id.namespace), c.wds[id].spec, id.namespace))
  {
    var c' := Reconcile(c, id, now, f).0;
    if id in c.wds && !c.wds[id].deleting && !c.wds[id].finalizer {
      var spec := c.wds[id].spec;
      if !f.list && ClosesCycle(OtherEdges(c, id), spec, id.namespace) {
        PutStatusRespectsAdmission(c, id, Put(c.wds[id].status, Unknown), Stop, now, f.turns);
        FewerAdmitted(c, c');
      } else if !f.update {
        AdmittingGives(c, id, id.namespace);
        HarmlessExactlyWhen(AdmittedEdges(c, id.namespace), spec, id.namespace);
        if !f.list {
          AdmittingKeepsAcyclic(c, id, OtherEdges(c, id));
        } else if !ClosesCycle(AdmittedEdges(c, id.namespace), spec, id.namespace) {
          AdmittingKeepsAcyclic(c, id, AdmittedEdges(c, id.namespace));
        }
      }
    } else if id in c.wds && !c.wds[id].deleting {
      AdmittedReconcileRespects(c, id, now, f);
      FewerAdmitted(c, c');
    } else {
      FewerAdmitted(c, c');
    }
  }

  lemma AdmittedReconcileRespects(c: Cluster, id: NamespacedName, now: int, f: Faults)
    requires id in c.wds && OthersRespectAdmission(c.wds[id], f.turns)
    ensures EnvironmentStep(c, ReconcileAdmitted(c, id, now, f).0)
  {
    var d := Decide(c.wds[id].status, InputFor(c, id, now, f));
    var written := WriteWorkload(c, DependentKey(c.wds[id].spec, id.namespace), d.write);
    if d.put.Some? { PutStatusRespectsAdmission(written, id, d.put.value, d.requeue, now, f.turns); }
  }

  ghost predicate IsStep(c: Cluster, e: Event, c': Cluster) {
    match e
    case Klink(id, now, f) =>
      && c' == Reconcile(c, id, now, f).0
      && (id in c.wds ==> OthersRespectAdmission(c.wds[id], f.turns))
      && (Unchecked(c, id, f) ==> !ClosesCycle(AdmittedEdges(c, id.namespace), c.wds[id].spec, id.namespace))
    case Environment => EnvironmentStep(c, c')
  }

  ghost predicate IsRun(cs: seq<Cluster>, events: seq<Event>) {
    && |cs| == |events| + 1
    && forall k: nat :: k < |events| ==> IsStep(cs[k], events[k], cs[k + 1])
  }

  /** The admission invariant: over every sequence of creations, deletions and reconciles that starts with nothing
      admitted, with any faults and conflicts, the admitted WorkloadDependencies of a namespace never form a cycle of
      three or more workloads, provided that a failed listing never lets in a spec that closes one. */
  lemma {:induction false} AdmittedNeverCyclic(cs: seq<Cluster>, events: seq<Event>, k: nat)
    requires IsRun(cs, events) && k < |cs| && forall id :: id in cs[0].wds ==> !cs[0].wds[id].finalizer
    ensures AdmittedAcyclic(cs[k])
    decreases k
  {
    if k == 0 {
      forall namespace ensures Acyclic(AdmittedEdges(cs[0], namespace)) {
        var none := AdmittedEdges(cs[0], namespace);
        assert none == {};
        forall p ensures !IsCycle(none, p) {
          if |p| >= 4 { assert (p[0], p[1]) !in none; }
        }
      }
    } else {
      AdmittedNeverCyclic(cs, events, k - 1);
      assert IsStep(cs[k - 1], events[k - 1], cs[k]);
      match events[k - 1]
      case Klink(id, now, f) => ReconcileKeepsAcyclicExactlyWhen(cs[k - 1], id, now, f);
      case Environment => FewerAdmitted(cs[k - 1], cs[k]);
    }
  }

  // ---- the listing the check works on

  /** The listing of a namespace: every object in it once, in any order. */
  ghost predicate IsListing(c: Cluster, namespace: string, items: seq<Item>) {
    && (forall k :: 0 <= k < |items| ==>
          items[k].id in c.wds && items[k].id.namespace == namespace && items[k].spec == c.wds[items[k].id].spec)
    && (forall id :: id in c.wds && id.namespace == namespace ==> Item(id, c.wds[id].spec) in items)
  }

  lemma {:induction false} EdgesOfOthersMember(items: seq<Item>, self: NamespacedName, e: Edge)
    ensures e in Cycles.EdgesOfOthers(items, self) <==>
      exists k :: 0 <= k < |items| && items[k].id != self && e in EdgesOf(items[k].spec, items[k].id.namespace)
    decreases |items|
  {
    if items != [] {
      var n := |items| - 1;
      EdgesOfOthersMember(items[..n], self, e);
      if e in Cycles.EdgesOfOthers(items[..n], self) {
        var k :| 0 <= k < |items[..n]| && items[..n][k].id != self
          && e in EdgesOf(items[..n][k].spec, items[..n][k].id.namespace);
        assert items[k].id != self;
      }
      forall k | 0 <= k < |items| && items[k].id != self && e in EdgesOf(items[k].spec, items[k].id.namespace)
        ensures e in Cycles.EdgesOfOthers(items, self)
      {
        if k < n { assert items[..n][k] == items[k]; }
      }
    }
  }

  /** Whatever order the server lists in, the check sees the same edges. */
  lemma ListingGivesOtherEdges(c: Cluster, id: NamespacedName, items: seq<Item>)
    requires IsListing(c, id.namespace, items)
    ensures Cycles.EdgesOfOthers(items, id) == OtherEdges(c, id)
  {
    forall e ensures e in Cycles.EdgesOfOthers(items, id) <==> e in OtherEdges(c, id) {
      EdgesOfOthersMember(items, id, e);
      if e in OtherEdges(c, id) {
        var other :| other in c.wds && other.namespace == id.namespace && other != id
          && e in EdgesOf(c.wds[other].spec, other.namespace);
        var k :| 0 <= k < |items| && items[k] == Item(other, c.wds[other].spec);
        assert items[k].id != id;
      }
    }
  }
}
