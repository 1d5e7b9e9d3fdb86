/** Leaving the namespace out of a reference and writing the namespace of the WorkloadDependency are the same thing, to
    every part of klink. */
module Namespaces {
  import opened Types
  import opened Workloads
  import opened Machine
  import opened StatusWrites
  import opened Graphs
  import opened Clusters
  import Gate
  import Index

  // ---- writing namespaces out

  function RefOut(ref: WorkloadRef, own: string): WorkloadRef {
    if ref.namespace == "" then ref.(namespace := own) else ref
  }

  function DepOut(dep: DependsOnEntry, own: string): DependsOnEntry {
    if dep.namespace == "" then dep.(namespace := own) else dep
  }

  function DepsOut(deps: seq<DependsOnEntry>, own: string): (out: seq<DependsOnEntry>)
    ensures |out| == |deps| && forall i :: 0 <= i < |deps| ==> out[i] == DepOut(deps[i], own)
  {
    seq(|deps|, i requires 0 <= i < |deps| => DepOut(deps[i], own))
  }

  function SpecOut(spec: Spec, own: string): Spec {
    spec.(dependent := RefOut(spec.dependent, own), dependsOn := DepsOut(spec.dependsOn, own))
  }

  function WDOut(wd: WD, own: string): WD {
    wd.(spec := SpecOut(wd.spec, own))
  }

  /** The cluster with every namespace written out. */
  function ClusterOut(c: Cluster): Cluster {
    c.(wds := map id | id in c.wds :: WDOut(c.wds[id], id.namespace))
  }

  function TurnOut(turn: Turn, own: string): Turn {
    match turn
    case Conflict(stored) => Conflict(WDOut(stored, own))
    case ConflictUnreadable(stored) => ConflictUnreadable(WDOut(stored, own))
    case _ => turn
  }

  function TurnsOut(turns: seq<Turn>, own: string): seq<Turn> {
    seq(|turns|, i requires 0 <= i < |turns| => TurnOut(turns[i], own))
  }

  // ---- keys, windows and edges

  lemma KeysOut(spec: Spec, own: string)
    ensures DependentKey(SpecOut(spec, own), own) == DependentKey(spec, own)
    ensures DependentName(SpecOut(spec, own), own) == DependentName(spec, own)
  {
  }

  lemma DependencyKeyOut(dep: DependsOnEntry, own: string)
    ensures DependencyKey(DepOut(dep, own), own) == DependencyKey(dep, own)
    ensures DepOut(dep, own).condition == dep.condition
  {
  }

  lemma {:induction false} WindowsOut(deps: seq<DependsOnEntry>, own: string)
    ensures DegradedWindow(DepsOut(deps, own)) == DegradedWindow(deps)
    ensures RecoveryWindow(DepsOut(deps, own)) == RecoveryWindow(deps)
    decreases |deps|
  {
    if deps != [] {
      assert DepsOut(deps, own)[1..] == DepsOut(deps[1..], own);
      WindowsOut(deps[1..], own);
    }
  }

  lemma DecideOut(s: Status, i: Input, own: string)
    ensures Decide(s, i.(spec := SpecOut(i.spec, own))) == Decide(s, i)
  {
    WindowsOut(i.spec.dependsOn, own);
  }

  /** The edges for the cycle check are the same. */
  lemma EdgesOut(spec: Spec, own: string)
    ensures EdgesOf(SpecOut(spec, own), own) == EdgesOf(spec, own)
  {
    var out := SpecOut(spec, own);
    forall e ensures e in EdgesOf(out, own) <==> e in EdgesOf(spec, own) {
      if e in EdgesOf(spec, own) {
        var i :| 0 <= i < |spec.dependsOn|
          && e == (ResolveKey(spec.dependent, own), ResolveDependsOnKey(spec.dependsOn[i], own));
        assert out.dependsOn[i] in out.dependsOn;
      }
      if e in EdgesOf(out, own) {
        var i :| 0 <= i < |out.dependsOn|
          && e == (ResolveKey(out.dependent, own), ResolveDependsOnKey(out.dependsOn[i], own));
        assert spec.dependsOn[i] in spec.dependsOn;
      }
    }
  }

  lemma OtherEdgesOut(c: Cluster, id: NamespacedName)
    ensures OtherEdges(ClusterOut(c), id) == OtherEdges(c, id)
  {
    forall x | x in c.wds
      ensures EdgesOf(ClusterOut(c).wds[x].spec, x.namespace) == EdgesOf(c.wds[x].spec, x.namespace)
    {
      EdgesOut(c.wds[x].spec, x.namespace);
    }
  }

  lemma ClosesCycleOut(es: set<Edge>, spec: Spec, own: string)
    ensures ClosesCycle(es, SpecOut(spec, own), own) <==> ClosesCycle(es, spec, own)
  {
    EdgesOut(spec, own);
    forall p ensures IsCycleThrough(es + EdgesOf(spec, own), SpecOut(spec, own), own, p)
                     <==> IsCycleThrough(es + EdgesOf(spec, own), spec, own, p) { }
  }

  /** Both field indexes hold the same keys. */
  lemma IndexesOut(spec: Spec, own: string)
    ensures Index.DependentIndex(SpecOut(spec, own), own) == Index.DependentIndex(spec, own)
    ensures Index.DependsOnIndex(SpecOut(spec, own), own) == Index.DependsOnIndex(spec, own)
  {
    KeysOut(spec, own);
    forall i | 0 <= i < |spec.dependsOn|
      ensures Index.DependencyName(SpecOut(spec, own).dependsOn[i], own) == Index.DependencyName(spec.dependsOn[i], own)
    {
    }
  }

  // ---- what a reconcile reads

  lemma SuspendedByKlinkOut(c: Cluster, name: NamespacedName)
    ensures SuspendedByKlink(ClusterOut(c), name) <==> SuspendedByKlink(c, name)
  {
    forall id | id in c.wds
      ensures DependentName(ClusterOut(c).wds[id].spec, id.namespace) == DependentName(c.wds[id].spec, id.namespace)
    {
      KeysOut(c.wds[id].spec, id.namespace);
    }
    if SuspendedByKlink(c, name) {
      var id :|
        id in c.wds && c.wds[id].status.phase == Suspended && DependentName(c.wds[id].spec, id.namespace) == name;
      assert id in ClusterOut(c).wds;
    }
  }

  lemma DependencyOkOut(c: Cluster, dep: DependsOnEntry, own: string)
    ensures DependencyOk(ClusterOut(c), DepOut(dep, own), own) <==> DependencyOk(c, dep, own)
  {
    DependencyKeyOut(dep, own);
    var key := DependencyKey(dep, own);
    SuspendedByKlinkOut(c, NamespacedName(key.namespace, key.name));
  }

  lemma EvaluateOut(c: Cluster, deps: seq<DependsOnEntry>, own: string, failing: Option<nat>)
    ensures Evaluate(ClusterOut(c), DepsOut(deps, own), own, failing) == Evaluate(c, deps, own, failing)
  {
    var out := DepsOut(deps, own);
    forall j | 0 <= j < |deps|
      ensures DependencyKey(out[j], own) == DependencyKey(deps[j], own)
      ensures DependencyOk(ClusterOut(c), out[j], own) <==> DependencyOk(c, deps[j], own)
    {
      DependencyKeyOut(deps[j], own);
      DependencyOkOut(c, deps[j], own);
    }
    AllOkOut(c, deps, own);
  }

  lemma AllOkOut(c: Cluster, deps: seq<DependsOnEntry>, own: string)
    requires forall j :: 0 <= j < |deps| ==>
      (DependencyOk(ClusterOut(c), DepsOut(deps, own)[j], own) <==> DependencyOk(c, deps[j], own))
    ensures (forall dep :: dep in DepsOut(deps, own) ==> DependencyOk(ClusterOut(c), dep, own)) <==>
      (forall dep :: dep in deps ==> DependencyOk(c, dep, own))
  {
    var out := DepsOut(deps, own);
    if forall dep :: dep in out ==> DependencyOk(ClusterOut(c), dep, own) {
      forall j | 0 <= j < |deps| ensures DependencyOk(c, deps[j], own) { assert out[j] in out; }
    }
  }

  lemma InputOut(c: Cluster, id: NamespacedName, now: int, f: Faults, f': Faults)
    requires id in c.wds && f' == f.(turns := f'.turns)
    ensures InputFor(ClusterOut(c), id, now, f') ==
      InputFor(c, id, now, f).(spec := SpecOut(c.wds[id].spec, id.namespace))
  {
    KeysOut(c.wds[id].spec, id.namespace);
    EvaluateOut(c, c.wds[id].spec.dependsOn, id.namespace, f.evaluate);
  }

  // ---- what a reconcile does

  lemma {:induction false} WriteFromOut(stored: WD, held: WD, entry: Status, phase: Phase, now: int,
                                        turns: seq<Turn>, attempt: nat, limit: nat, own: string)
    requires attempt <= limit
    ensures
      var (after, result) := WriteFrom(stored, held, entry, phase, now, turns, attempt, limit);
      WriteFrom(WDOut(stored, own), WDOut(held, own), entry, phase, now, TurnsOut(turns, own), attempt, limit)
        == (WDOut(after, own), result)
    decreases limit - attempt
  {
    if attempt < limit {
      assert TurnAt(TurnsOut(turns, own), attempt) == TurnOut(TurnAt(turns, attempt), own);
      if TurnAt(turns, attempt).Conflict? {
        var other := TurnAt(turns, attempt).stored;
        WriteFromOut(other, other, entry, phase, now, turns, attempt + 1, limit, own);
      }
    }
  }

  lemma UpdateOut(c: Cluster, id: NamespacedName, wd: WD)
    ensures ClusterOut(c.(wds := c.wds[id := wd])) ==
      ClusterOut(c).(wds := ClusterOut(c).wds[id := WDOut(wd, id.namespace)])
  {
  }

  lemma PutStatusOut(c: Cluster, id: NamespacedName, put: Put, requeue: Requeue, now: int, turns: seq<Turn>)
    requires id in c.wds
    ensures
      var (after, answer) := PutStatus(c, id, put, requeue, now, turns);
      PutStatus(ClusterOut(c), id, put, requeue, now, TurnsOut(turns, id.namespace)) == (ClusterOut(after), answer)
  {
    var held := c.wds[id].(status := put.local);
    assert WDOut(c.wds[id], id.namespace).(status := put.local) == WDOut(held, id.namespace);
    WriteFromOut(c.wds[id], held, put.local, put.phase, now, turns, 0, MAX_RETRIES, id.namespace);
    UpdateOut(c, id, WriteStatus(c.wds[id], held, put.phase, now, turns).0);
  }

  lemma WriteWorkloadOut(c: Cluster, key: WorkloadKey, write: Write)
    ensures WriteWorkload(ClusterOut(c), key, write) == ClusterOut(WriteWorkload(c, key, write))
  {
  }

  function FaultsOut(f: Faults, own: string): Faults {
    f.(turns := TurnsOut(f.turns, own))
  }

  lemma AdmittedOut(c: Cluster, id: NamespacedName, now: int, f: Faults)
    requires id in c.wds
    ensures
      var (after, answer) := ReconcileAdmitted(c, id, now, f);
      ReconcileAdmitted(ClusterOut(c), id, now, FaultsOut(f, id.namespace)) == (ClusterOut(after), answer)
  {
    var i := InputFor(c, id, now, f);
    InputOut(c, id, now, f, FaultsOut(f, id.namespace));
    DecideOut(c.wds[id].status, i, id.namespace);
    var d := Decide(c.wds[id].status, i);
    KeysOut(c.wds[id].spec, id.namespace);
    var key := DependentKey(c.wds[id].spec, id.namespace);
    WriteWorkloadOut(c, key, d.write);
    if d.put.Some? {
      PutStatusOut(WriteWorkload(c, key, d.write), id, d.put.value, d.requeue, now, f.turns);
    }
  }

  lemma DeletionOut(c: Cluster, id: NamespacedName, f: Faults)
    requires id in c.wds
    ensures
      var (after, answer) := ReconcileDeletion(c, id, f);
      ReconcileDeletion(ClusterOut(c), id, FaultsOut(f, id.namespace)) == (ClusterOut(after), answer)
  {
    KeysOut(c.wds[id].spec, id.namespace);
    var key := DependentKey(c.wds[id].spec, id.namespace);
    var write := DeletionWrite(c.wds[id].status, FetchDependent(c, c.wds[id], id.namespace, f.dependent));
    WriteWorkloadOut(c, key, write);
    var written := WriteWorkload(c, key, write);
    assert ClusterOut(written).wds - {id} == ClusterOut(written.(wds := written.wds - {id})).wds;
  }

  lemma AdmissionOut(c: Cluster, id: NamespacedName, now: int, f: Faults)
    requires id in c.wds
    ensures
      var (after, answer) := ReconcileAdmission(c, id, now, f);
      ReconcileAdmission(ClusterOut(c), id, now, FaultsOut(f, id.namespace)) == (ClusterOut(after), answer)
  {
    OtherEdgesOut(c, id);
    ClosesCycleOut(OtherEdges(c, id), c.wds[id].spec, id.namespace);
    PutStatusOut(c, id, Put(c.wds[id].status, Unknown), Stop, now, f.turns);
    UpdateOut(c, id, c.wds[id].(finalizer := true));
  }

  /** Under every fault, reconciling in the cluster with all namespaces written out is reconciling and then writing them
      out: same workload writes, same statuses, same answer. */
  lemma ReconcileOut(c: Cluster, id: NamespacedName, now: int, f: Faults)
    ensures
      var (after, answer) := Reconcile(c, id, now, f);
      Reconcile(ClusterOut(c), id, now, FaultsOut(f, id.namespace)) == (ClusterOut(after), answer)
  {
    if id in c.wds {
      if c.wds[id].deleting {
        DeletionOut(c, id, f);
      } else if !c.wds[id].finalizer {
        AdmissionOut(c, id, now, f);
      } else {
        AdmittedOut(c, id, now, f);
      }
    }
  }

  // ---- the webhook

  function ItemOut(item: Item): Item {
    item.(spec := SpecOut(item.spec, item.id.namespace))
  }

  function ItemsOut(items: seq<Item>): seq<Item> {
    seq(|items|, i requires 0 <= i < |items| => ItemOut(items[i]))
  }

  lemma BlocksOut(workloads: Gate.Store, unreadable: set<WorkloadKey>, item: Item, req: Gate.Request)
    ensures Gate.Blocks(workloads, unreadable, ItemOut(item), req) <==> Gate.Blocks(workloads, unreadable, item, req)
  {
    var out := ItemOut(item);
    forall i | 0 <= i < |item.spec.dependsOn|
      ensures Gate.UnhealthyDependency(workloads, unreadable, out.spec.dependsOn[i], item.id.namespace)
              <==> Gate.UnhealthyDependency(workloads, unreadable, item.spec.dependsOn[i], item.id.namespace)
    {
    }
  }

  /** The gate denies the same requests. */
  lemma DeniesOut(workloads: Gate.Store, unreadable: set<WorkloadKey>, listing: Option<seq<Item>>, req: Gate.Request)
    ensures
      var out := if listing.None? then None else Some(ItemsOut(listing.value));
      Gate.Denies(workloads, unreadable, out, req) == Gate.Denies(workloads, unreadable, listing, req)
  {
    if listing.Some? {
      forall i | 0 <= i < |listing.value|
        ensures Gate.Blocks(workloads, unreadable, ItemsOut(listing.value)[i], req)
                <==> Gate.Blocks(workloads, unreadable, listing.value[i], req)
      {
        BlocksOut(workloads, unreadable, listing.value[i], req);
      }
    }
  }
}
