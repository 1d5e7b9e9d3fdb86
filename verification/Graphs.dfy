/** Dependency graphs: the edges that WorkloadDependencies contribute, paths, and the cycles klink refuses. */
module Graphs {
  import opened Types

  /** A workload as the cycle check names it: by the kind string written in the spec. */
  datatype Key = Key(kind: string, namespace: string, name: string) {
    function ToString(): string {
      kind + "/" + namespace + "/" + name
    }
  }

  /** The first slash splits a string in only one way. */
  lemma SplitAtSlash(a: string, restA: string, b: string, restB: string)
    requires '/' !in a && '/' !in b && a + "/" + restA == b + "/" + restB
    ensures a == b && restA == restB
  {
    var s, t := a + "/" + restA, b + "/" + restB;
    assert s[|a|] == '/' && t[|b|] == '/';
    assert forall k :: 0 <= k < |a| ==> s[k] == a[k];
    assert forall k :: 0 <= k < |b| ==> t[k] == b[k];
    assert |a| == |b|;
    assert s[..|a|] == a && t[..|b|] == b;
    assert s[|a| + 1..] == restA && t[|b| + 1..] == restB;
  }

  /** "kind/namespace/name" identifies the workload, as long as kind and namespace contain no slash. */
  lemma KeyStringInjective(a: Key, b: Key)
    requires '/' !in a.kind && '/' !in a.namespace && '/' !in b.kind && '/' !in b.namespace
    ensures a.ToString() == b.ToString() <==> a == b
  {
    if a.ToString() == b.ToString() {
      var restA, restB := a.namespace + "/" + a.name, b.namespace + "/" + b.name;
      assert a.ToString() == a.kind + "/" + restA && b.ToString() == b.kind + "/" + restB;
      SplitAtSlash(a.kind, restA, b.kind, restB);
      SplitAtSlash(a.namespace, a.name, b.namespace, b.name);
    }
  }

  type Edge = (Key, Key)

  function ResolveKey(ref: WorkloadRef, default: string): Key {
    Key(ref.kind, ResolveNamespace(ref.namespace, default), ref.name)
  }

  function ResolveDependsOnKey(dep: DependsOnEntry, default: string): Key {
    Key(dep.kind, ResolveNamespace(dep.namespace, default), dep.name)
  }

  /** The edges of one WorkloadDependency: its dependent needs each of its dependencies. */
  ghost function EdgesOf(spec: Spec, namespace: string): set<Edge> {
    set dep | dep in spec.dependsOn :: (ResolveKey(spec.dependent, namespace), ResolveDependsOnKey(dep, namespace))
  }

  ghost predicate IsPath(es: set<Edge>, p: seq<Key>) {
    forall i :: 0 <= i < |p| - 1 ==> (p[i], p[i + 1]) in es
  }

  predicate Distinct(p: seq<Key>) {
    forall i, j :: 0 <= i < j < |p| ==> p[i] != p[j]
  }

  /** A simple cycle through three or more workloads, written with its first workload repeated at the end. */
  ghost predicate IsCycle(es: set<Edge>, p: seq<Key>) {
    |p| >= 4 && p[0] == p[|p| - 1] && Distinct(p[..|p| - 1]) && IsPath(es, p)
  }

  ghost predicate Acyclic(es: set<Edge>) {
    forall p :: !IsCycle(es, p)
  }

  /** p is a cycle that starts at the dependent of `spec` and leaves it along one of the edges of `spec`. */
  ghost predicate IsCycleThrough(es: set<Edge>, spec: Spec, namespace: string, p: seq<Key>) {
    IsCycle(es, p) && (p[0], p[1]) in EdgesOf(spec, namespace)
  }

  /** Together with the edges `es` already there, the given spec closes a cycle. */
  ghost predicate ClosesCycle(es: set<Edge>, spec: Spec, namespace: string) {
    exists p :: IsCycleThrough(es + EdgesOf(spec, namespace), spec, namespace, p)
  }

  /** The same cycle, started at its i-th workload. */
  ghost function Rotate(p: seq<Key>, i: nat): seq<Key>
    requires i < |p| - 1
  {
    p[i..|p| - 1] + p[..i + 1]
  }

  lemma RotateIsCycle(es: set<Edge>, p: seq<Key>, i: nat)
    requires IsCycle(es, p) && i < |p| - 1
    ensures IsCycle(es, Rotate(p, i)) && Rotate(p, i)[0] == p[i] && Rotate(p, i)[1] == p[i + 1]
  {
    var n := |p| - 1;
    var q := Rotate(p, i);
    assert forall k :: 0 <= k <= n ==> q[k] == if i + k < n then p[i + k] else p[i + k - n];
    forall a, b | 0 <= a < b < n ensures q[..n][a] != q[..n][b] {
      var x := if i + a < n then i + a else i + a - n;
      var y := if i + b < n then i + b else i + b - n;
      assert p[..n][x] == p[x] && p[..n][y] == p[y] && x != y;
    }
  }

  lemma SubgraphCycle(small: set<Edge>, big: set<Edge>, p: seq<Key>)
    requires small <= big && IsCycle(small, p)
    ensures IsCycle(big, p)
  {
  }

  /** Checking only the cycles through the new edges is enough: if the admitted edges have no cycle and the new spec
      closes none with any larger set of edges, then the admitted edges together with the new ones have none. */
  lemma AddingKeepsAcyclic(admitted: set<Edge>, seen: set<Edge>, spec: Spec, namespace: string)
    requires Acyclic(admitted) && admitted <= seen && !ClosesCycle(seen, spec, namespace)
    ensures Acyclic(admitted + EdgesOf(spec, namespace))
  {
    var own := EdgesOf(spec, namespace);
    forall p ensures !IsCycle(admitted + own, p) {
      if IsCycle(admitted + own, p) {
        assert !IsCycle(admitted, p);
        var i :| 0 <= i < |p| - 1 && (p[i], p[i + 1]) !in admitted;
        assert (p[i], p[i + 1]) in own;
        SubgraphCycle(admitted + own, seen + own, p);
        RotateIsCycle(seen + own, p, i);
        assert IsCycleThrough(seen + own, spec, namespace, Rotate(p, i));
      }
    }
  }
}
