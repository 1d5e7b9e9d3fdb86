/** The cycle check made when a WorkloadDependency is first admitted: a depth-first search over a graph it builds. */
module Cycles {
  import opened Types
  import opened Graphs

  type Graph = map<Key, seq<Key>>

  /** The outcome reported to the reconciler. */
  datatype CycleCheck = ListFailed | NoCycle | CycleFound(path: seq<string>)

  /** The edges of all listed items except the one being checked. */
  ghost function EdgesOfOthers(items: seq<Item>, self: NamespacedName): set<Edge> {
    if items == [] then {}
    else
      var last := items[|items| - 1];
      EdgesOfOthers(items[..|items| - 1], self) + if last.id == self then {} else EdgesOf(last.spec, last.id.namespace)
  }

  ghost predicate Represents(graph: Graph, es: set<Edge>) {
    forall a, b :: (a, b) in es <==> a in graph && b in graph[a]
  }

  method AddEdges(graph: Graph, spec: Spec, namespace: string, ghost es: set<Edge>) returns (extended: Graph)
    requires Represents(graph, es)
    ensures Represents(extended, es + EdgesOf(spec, namespace))
  {
    extended := graph;
    var source := ResolveKey(spec.dependent, namespace);
    for i := 0 to |spec.dependsOn|
      invariant Represents(extended, es + EdgesOf(spec.(dependsOn := spec.dependsOn[..i]), namespace))
    {
      var target := ResolveDependsOnKey(spec.dependsOn[i], namespace);
      var out := if source in extended then extended[source] else [];
      extended := extended[source := out + [target]];
      assert spec.dependsOn[..i + 1] == spec.dependsOn[..i] + [spec.dependsOn[i]];
      assert EdgesOf(spec.(dependsOn := spec.dependsOn[..i + 1]), namespace)
          == EdgesOf(spec.(dependsOn := spec.dependsOn[..i]), namespace) + {(source, target)};
    }
    assert spec.dependsOn[..|spec.dependsOn|] == spec.dependsOn;
  }

  method BuildGraph(items: seq<Item>, self: NamespacedName) returns (graph: Graph)
    ensures Represents(graph, EdgesOfOthers(items, self))
  {
    graph := map[];
    for i := 0 to |items|
      invariant Represents(graph, EdgesOfOthers(items[..i], self))
    {
      assert items[..i + 1][..i] == items[..i];
      if items[i].id != self {
        graph := AddEdges(graph, items[i].spec, items[i].id.namespace, EdgesOfOthers(items[..i], self));
      }
    }
    assert items[..|items|] == items;
  }

  /** q leads from node to target: its edges exist, it repeats no workload, and everything before the target is new. */
  ghost predicate LeadsTo(es: set<Edge>, node: Key, q: seq<Key>, target: Key, avoid: set<Key>) {
    && q != [] && q[|q| - 1] == target
    && IsPath(es, [node] + q)
    && Distinct([node] + q[..|q| - 1])
    && forall i :: 0 <= i < |q| ==> ([node] + q)[i] !in avoid && ([node] + q)[i] != target
  }

  /** Every edge out of `from` stays within `within` and misses the target. */
  ghost predicate Closed(es: set<Edge>, from: set<Key>, within: set<Key>, target: Key) {
    forall a, b :: (a, b) in es && a in from ==> b in within && b != target
  }

  /** Every workload the graph mentions: the search visits nothing else, which is why it ends. */
  ghost function Universe(graph: Graph): set<Key> {
    graph.Keys + set a, b | a in graph && b in graph[a] :: b
  }

  /** One search: the graph and the map of visited workloads that all recursive calls share. */
  class Search {
    const graph: Graph
    const target: Key
    ghost const edges: set<Edge>
    var visited: set<Key>

    constructor (graph: Graph, target: Key, first: Key, ghost edges: set<Edge>)
      requires Represents(graph, edges)
      ensures this.graph == graph && this.target == target && this.edges == edges && visited == {first}
    {
      this.graph := graph;
      this.target := target;
      this.edges := edges;
      this.visited := {first};
    }

    function Neighbors(node: Key): seq<Key> {
      if node in graph then graph[node] else []
    }

    method Dfs(node: Key, path: seq<Key>) returns (cycle: Option<seq<Key>>)
      requires Represents(graph, edges) && node in Universe(graph) && node != target
      modifies this`visited
      ensures old(visited) <= visited
      ensures cycle.Some? ==> path <= cycle.value && LeadsTo(edges, node, cycle.value[|path|..], target, old(visited))
      ensures cycle.None? ==> node in visited && Closed(edges, visited - old(visited), visited, target)
      decreases Universe(graph) - visited
    {
      if node in visited {
        return None;
      }
      ghost var before := visited;
      visited := visited + {node};
      var neighbors := Neighbors(node);
      for i := 0 to |neighbors|
        invariant before + {node} <= visited
        invariant forall j :: 0 <= j < i ==> neighbors[j] in visited && neighbors[j] != target
        invariant Closed(edges, visited - before - {node}, visited, target)
      {
        var neighbor := neighbors[i];
        var newPath := path + [neighbor];
        assert (node, neighbor) in edges;
        if neighbor == target {
          assert newPath[|path|..] == [neighbor];
          return Some(newPath);
        }
        ghost var here := visited;
        cycle := Dfs(neighbor, newPath);
        if cycle.Some? {
          ExtendLeadsTo(edges, node, neighbor, cycle.value[|newPath|..], target, before, here);
          assert cycle.value[|path|..] == [neighbor] + cycle.value[|newPath|..];
          return;
        }
      }
      cycle := None;
    }
  }

  lemma ExtendLeadsTo(es: set<Edge>, node: Key, next: Key, q: seq<Key>, target: Key, before: set<Key>, here: set<Key>)
    requires LeadsTo(es, next, q, target, here) && (node, next) in es
    requires before + {node} <= here && node !in before && node != target
    ensures LeadsTo(es, node, [next] + q, target, before)
  {
    var longer := [next] + q;
    assert longer[..|longer| - 1] == [next] + q[..|q| - 1];
    var interior := [next] + q[..|q| - 1];
    forall i | 0 <= i < |interior| ensures interior[i] !in here && interior[i] != target {
      assert interior[i] == ([next] + q)[i];
    }
    assert Distinct([node] + interior);
    forall i | 0 <= i < |longer| ensures ([node] + longer)[i] !in before && ([node] + longer)[i] != target {
      if i > 0 { assert ([node] + longer)[i] == interior[i - 1]; }
    }
    forall i | 0 <= i < |[node] + longer| - 1 ensures (([node] + longer)[i], ([node] + longer)[i + 1]) in es {
      if i > 0 { assert (([next] + q)[i - 1], ([next] + q)[i]) in es; }
    }
  }

  /** A path found by the search, closed up through the new dependent and the first hop, is a cycle. */
  lemma FoundIsCycle(es: set<Edge>, target: Key, start: Key, next: Key, q: seq<Key>, avoid: set<Key>)
    requires (target, start) in es && (start, next) in es && start != target
    requires start in avoid && LeadsTo(es, next, q, target, avoid)
    ensures IsCycle(es, [target, start, next] + q)
  {
    var p := [target, start, next] + q;
    var interior := [next] + q[..|q| - 1];
    forall i | 0 <= i < |interior| ensures interior[i] !in avoid && interior[i] != target {
      assert interior[i] == ([next] + q)[i];
    }
    assert p[..|p| - 1] == [target, start] + interior;
    forall i | 0 <= i < |p| - 1 ensures (p[i], p[i + 1]) in es {
      if i >= 2 { assert (([next] + q)[i - 2], ([next] + q)[i - 1]) in es; }
    }
  }

  /** Once the search has come back empty, no cycle leaves the target through this first hop. */
  lemma {:induction false} StaysInClosed(es: set<Edge>, start: Key, target: Key, visited: set<Key>, p: seq<Key>, k: nat)
    requires IsCycle(es, p) && p[0] == target && p[1] == start && 2 <= k < |p| - 1
    requires Closed(es, visited - {start}, visited, target)
    requires forall b :: (start, b) in es && b != target ==> b in visited
    ensures p[k] in visited - {start}
    decreases k
  {
    var n := |p| - 1;
    assert p[..n][0] == p[0] && p[..n][1] == p[1] && p[..n][k] == p[k];
    assert (p[k - 1], p[k]) in es;
    if k > 2 {
      StaysInClosed(es, start, target, visited, p, k - 1);
    }
  }

  lemma NoCycleVia(es: set<Edge>, start: Key, target: Key, visited: set<Key>, p: seq<Key>)
    requires Closed(es, visited - {start}, visited, target)
    requires forall b :: (start, b) in es && b != target ==> b in visited
    ensures !(IsCycle(es, p) && p[0] == target && p[1] == start)
  {
    if IsCycle(es, p) && p[0] == target && p[1] == start {
      assert (p[|p| - 2], p[|p| - 1]) in es;
      StaysInClosed(es, start, target, visited, p, |p| - 2);
    }
  }

  ghost function AllEdges(items: seq<Item>, self: Item): set<Edge> {
    EdgesOfOthers(items, self.id) + EdgesOf(self.spec, self.id.namespace)
  }

  /** The search from one first hop: it finds a cycle through that hop exactly when there is one. */
  method SearchFrom(graph: Graph, ghost es: set<Edge>, target: Key, start: Key) returns (cycle: Option<seq<Key>>)
    requires Represents(graph, es) && (target, start) in es && start != target
    ensures cycle.Some? ==> IsCycle(es, cycle.value) && cycle.value[0] == target && cycle.value[1] == start
    ensures cycle.None? ==> forall p :: IsCycle(es, p) && p[0] == target ==> p[1] != start
  {
    var search := new Search(graph, target, start, es);
    var neighbors := search.Neighbors(start);
    for i := 0 to |neighbors|
      invariant start in search.visited
      invariant search.graph == graph && search.target == target && search.edges == es
      invariant forall j :: 0 <= j < i && neighbors[j] != target ==> neighbors[j] in search.visited
      invariant Closed(es, search.visited - {start}, search.visited, target)
    {
      var neighbor := neighbors[i];
      if neighbor != target {
        var path := [target, start, neighbor];
        ghost var before := search.visited;
        assert (start, neighbor) in es;
        cycle := search.Dfs(neighbor, path);
        if cycle.Some? {
          FoundIsCycle(es, target, start, neighbor, cycle.value[3..], before);
          assert cycle.value == path + cycle.value[3..];
          return;
        }
      }
    }
    forall p ensures !(IsCycle(es, p) && p[0] == target && p[1] == start) {
      NoCycleVia(es, start, target, search.visited, p);
    }
    cycle := None;
  }

  /** DetectCycle on workload keys is exact: it returns a simple cycle of three or more workloads that leaves the new
      dependent along one of the new edges, and it returns none only when there is none. */
  method FindCycle(items: seq<Item>, self: Item) returns (cycle: Option<seq<Key>>)
    ensures cycle.Some? ==> IsCycleThrough(AllEdges(items, self), self.spec, self.id.namespace, cycle.value)
    ensures cycle.None? <==> !ClosesCycle(EdgesOfOthers(items, self.id), self.spec, self.id.namespace)
  {
    ghost var es := AllEdges(items, self);
    var namespace := self.id.namespace;
    var others := BuildGraph(items, self.id);
    var graph := AddEdges(others, self.spec, namespace, EdgesOfOthers(items, self.id));
    var target := ResolveKey(self.spec.dependent, namespace);
    for i := 0 to |self.spec.dependsOn|
      invariant forall p, j :: IsCycle(es, p) && p[0] == target && 0 <= j < i ==>
                  p[1] != ResolveDependsOnKey(self.spec.dependsOn[j], namespace)
    {
      var start := ResolveDependsOnKey(self.spec.dependsOn[i], namespace);
      assert (target, start) in EdgesOf(self.spec, namespace);
      if start == target {
        forall p | IsCycle(es, p) && p[0] == target ensures p[1] != start {
          assert p[..|p| - 1][0] == p[0] && p[..|p| - 1][1] == p[1];
        }
      } else {
        cycle := SearchFrom(graph, es, target, start);
        if cycle.Some? {
          assert IsCycleThrough(es, self.spec, namespace, cycle.value);
          return;
        }
      }
    }
    cycle := None;
  }

  function Strings(path: seq<Key>): seq<string> {
    seq(|path|, i requires 0 <= i < |path| => path[i].ToString())
  }

  /** The check the reconciler calls: a failed listing is reported as such, a cycle as the printed path. */
  method DetectCycle(listing: Option<seq<Item>>, self: Item) returns (check: CycleCheck)
    ensures check.ListFailed? <==> listing.None?
    ensures listing.Some? ==>
      (check.CycleFound? <==> ClosesCycle(EdgesOfOthers(listing.value, self.id), self.spec, self.id.namespace))
    ensures check.CycleFound? ==>
      exists p :: IsCycleThrough(AllEdges(listing.value, self), self.spec, self.id.namespace, p)
        && check.path == Strings(p)
  {
    if listing.None? {
      return ListFailed;
    }
    var cycle := FindCycle(listing.value, self);
    if cycle.None? {
      return NoCycle;
    }
    var strs := [];
    for i := 0 to |cycle.value|
      invariant strs == Strings(cycle.value[..i])
    {
      strs := strs + [cycle.value[i].ToString()];
    }
    assert cycle.value[..|cycle.value|] == cycle.value;
    return CycleFound(strs);
  }
}
