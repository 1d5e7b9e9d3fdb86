/** The two field indexes over WorkloadDependencies, and what looking things up through them amounts to. */
module Index {
  import opened Types
  import opened StatusWrites
  import opened Clusters
  import Graphs

  function IndexKey(n: NamespacedName): string {
    n.namespace + "/" + n.name
  }

  predicate SlashFree(s: string) {
    '/' !in s
  }

  /** "namespace/name" keys identify namespace and name, as long as namespaces contain no slash. */
  lemma IndexKeyInjective(a: NamespacedName, b: NamespacedName)
    requires SlashFree(a.namespace) && SlashFree(b.namespace)
    ensures IndexKey(a) == IndexKey(b) <==> a == b
  {
    if IndexKey(a) == IndexKey(b) {
      Graphs.SplitAtSlash(a.namespace, a.name, b.namespace, b.name);
    }
  }

  /** Without that, two different workloads can share a key: the condition of IndexKeyInjective is needed. */
  lemma SlashMakesKeysCollide()
    ensures IndexKey(NamespacedName("a/b", "c")) == IndexKey(NamespacedName("a", "b/c"))
  {
    assert "a/b" + "/" + "c" == "a" + "/" + "b/c";
  }

  function DependencyName(dep: DependsOnEntry, namespace: string): NamespacedName {
    NamespacedName(ResolveNamespace(dep.namespace, namespace), dep.name)
  }

  /** The indexer of spec.dependent: one key. */
  function DependentIndex(spec: Spec, namespace: string): seq<string> {
    [IndexKey(DependentName(spec, namespace))]
  }

  /** The indexer of spec.dependsOn: one key per entry. */
  function DependsOnIndex(spec: Spec, namespace: string): (keys: seq<string>)
    ensures |keys| == |spec.dependsOn|
    ensures forall i :: 0 <= i < |keys| ==> keys[i] == IndexKey(DependencyName(spec.dependsOn[i], namespace))
  {
    seq(|spec.dependsOn|, i requires 0 <= i < |spec.dependsOn| =>
      IndexKey(DependencyName(spec.dependsOn[i], namespace)))
  }

  predicate NoDuplicates<T(==)>(s: seq<T>) {
    forall i, j :: 0 <= i < j < |s| ==> s[i] != s[j]
  }

  /** What a listing by the dependent index returns: every object indexed under the key, once, in any order. */
  ghost predicate ListsDependents(c: Cluster, key: string, ids: seq<NamespacedName>) {
    NoDuplicates(ids) && forall id :: id in ids <==> id in c.wds && key in DependentIndex(c.wds[id].spec, id.namespace)
  }

  ghost predicate ListsDependsOn(c: Cluster, key: string, ids: seq<NamespacedName>) {
    NoDuplicates(ids) && forall id :: id in ids <==> id in c.wds && key in DependsOnIndex(c.wds[id].spec, id.namespace)
  }

  /** No namespace in the cluster contains a slash; Kubernetes guarantees it of every namespace name. */
  ghost predicate WellNamed(c: Cluster) {
    forall id :: id in c.wds ==>
      && SlashFree(id.namespace)
      && SlashFree(c.wds[id].spec.dependent.namespace)
      && forall dep :: dep in c.wds[id].spec.dependsOn ==> SlashFree(dep.namespace)
  }

  /** isSuspendedByKlink through the index is the full scan over all WorkloadDependencies. */
  method IsSuspendedByKlink(c: Cluster, name: NamespacedName, ids: seq<NamespacedName>) returns (suspended: bool)
    requires WellNamed(c) && SlashFree(name.namespace) && ListsDependents(c, IndexKey(name), ids)
    ensures suspended <==> SuspendedByKlink(c, name)
  {
    for i := 0 to |ids|
      invariant forall j :: 0 <= j < i ==> c.wds[ids[j]].status.phase != Suspended
    {
      var id := ids[i];
      assert id in ids;
      if c.wds[id].status.phase == Suspended {
        IndexKeyInjective(DependentName(c.wds[id].spec, id.namespace), name);
        return true;
      }
    }
    forall id | id in c.wds && DependentName(c.wds[id].spec, id.namespace) == name
      ensures c.wds[id].status.phase != Suspended
    {
      assert id in ids;
    }
    return false;
  }

  /** The WorkloadDependency mentions a workload of this name, as dependent or as dependency. Kinds play no part. */
  ghost predicate References(wd: WD, namespace: string, name: NamespacedName) {
    || (wd.spec.dependent.name == name.name && Means(wd.spec.dependent.namespace, namespace, name.namespace))
    || exists i ::
         && 0 <= i < |wd.spec.dependsOn| && wd.spec.dependsOn[i].name == name.name
         && Means(wd.spec.dependsOn[i].namespace, namespace, name.namespace)
  }

  lemma ReferencesByKey(c: Cluster, id: NamespacedName, name: NamespacedName)
    requires WellNamed(c) && SlashFree(name.namespace) && id in c.wds
    ensures References(c.wds[id], id.namespace, name) <==>
      IndexKey(name) in DependsOnIndex(c.wds[id].spec, id.namespace)
        || IndexKey(name) in DependentIndex(c.wds[id].spec, id.namespace)
  {
    var spec := c.wds[id].spec;
    IndexKeyInjective(DependentName(spec, id.namespace), name);
    forall i | 0 <= i < |spec.dependsOn|
      ensures DependsOnIndex(spec, id.namespace)[i] == IndexKey(name) <==>
        DependencyName(spec.dependsOn[i], id.namespace) == name
    {
      assert spec.dependsOn[i] in spec.dependsOn;
      IndexKeyInjective(DependencyName(spec.dependsOn[i], id.namespace), name);
    }
  }

  /** The closure `enqueue` of findWDsForWorkload, run over one listing. */
  method Enqueue(ids: seq<NamespacedName>, seen: set<NamespacedName>, requests: seq<NamespacedName>)
    returns (seen': set<NamespacedName>, requests': seq<NamespacedName>)
    requires NoDuplicates(requests) && seen == set id | id in requests
    ensures NoDuplicates(requests') && seen' == set id | id in requests'
    ensures forall id :: id in requests' <==> id in requests || id in ids
  {
    seen', requests' := seen, requests;
    for i := 0 to |ids|
      invariant NoDuplicates(requests') && seen' == set id | id in requests'
      invariant forall id :: id in requests' <==> id in requests || id in ids[..i]
    {
      assert ids[..i + 1] == ids[..i] + [ids[i]];
      if ids[i] !in seen' {
        seen' := seen' + {ids[i]};
        requests' := requests' + [ids[i]];
      }
    }
    assert ids[..|ids|] == ids;
  }

  /** findWDsForWorkload: every WorkloadDependency that references the changed workload is enqueued exactly once, and no
      other; a listing that fails contributes nothing. */
  method FindWDsForWorkload(c: Cluster, name: NamespacedName,
                            byDependsOn: Option<seq<NamespacedName>>, byDependent: Option<seq<NamespacedName>>)
    returns (requests: seq<NamespacedName>)
    requires WellNamed(c) && SlashFree(name.namespace)
    requires byDependsOn.Some? ==> ListsDependsOn(c, IndexKey(name), byDependsOn.value)
    requires byDependent.Some? ==> ListsDependents(c, IndexKey(name), byDependent.value)
    ensures NoDuplicates(requests)
    ensures byDependsOn.Some? && byDependent.Some? ==>
      forall id :: id in requests <==> id in c.wds && References(c.wds[id], id.namespace, name)
    ensures forall id :: id in requests ==> id in c.wds && References(c.wds[id], id.namespace, name)
  {
    requests := [];
    var seen := {};
    if byDependsOn.Some? {
      seen, requests := Enqueue(byDependsOn.value, seen, requests);
    }
    if byDependent.Some? {
      seen, requests := Enqueue(byDependent.value, seen, requests);
    }
    forall id | id in c.wds
      ensures References(c.wds[id], id.namespace, name) <==>
        IndexKey(name) in DependsOnIndex(c.wds[id].spec, id.namespace)
          || IndexKey(name) in DependentIndex(c.wds[id].spec, id.namespace)
    {
      ReferencesByKey(c, id, name);
    }
  }
}
