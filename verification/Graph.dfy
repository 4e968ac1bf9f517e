// Module dependency validation (cli/graph.py): unknown and self references, and a
// depth-first search for cycles.
module Graph {
  import opened Sequences

  datatype Graph = Graph(ids: set<string>, deps: map<string, seq<string>>)

  function DepsOf(g: Graph, a: string): seq<string> {
    if a in g.deps then g.deps[a] else []
  }

  /** An edge of the graph restricted to known module ids. */
  predicate Edge(g: Graph, a: string, b: string) {
    a in g.ids && b in g.ids && b in DepsOf(g, a)
  }

  ghost predicate Walk(g: Graph, p: seq<string>) {
    forall i :: 0 <= i < |p| - 1 ==> Edge(g, p[i], p[i + 1])
  }

  ghost predicate Cycle(g: Graph, p: seq<string>) {
    |p| >= 2 && Walk(g, p) && p[0] == p[|p| - 1]
  }

  ghost predicate Cyclic(g: Graph) {
    exists p :: Cycle(g, p)
  }

  /** Every listed node comes after all it depends on. */
  ghost predicate DepsFirst(g: Graph, order: seq<string>) {
    && Distinct(order)
    && forall i, b :: 0 <= i < |order| && Edge(g, order[i], b) ==> b in order[..i]
  }

  ghost predicate TopologicalOrder(g: Graph, order: seq<string>) {
    DepsFirst(g, order) && forall a :: a in order <==> a in g.ids
  }

  // ---------------------------------------------------------------------------
  // Acyclic graphs are the ones with a topological order
  // ---------------------------------------------------------------------------

  lemma OrderMeansAcyclic(g: Graph, order: seq<string>)
    requires TopologicalOrder(g, order)
    ensures !Cyclic(g)
  {
    forall p | |p| >= 2 && Walk(g, p) ensures p[0] != p[|p| - 1] {
      var i, j := WalkDescends(g, order, p);
    }
  }

  lemma {:induction false} WalkDescends(g: Graph, order: seq<string>, p: seq<string>) returns (i: nat, j: nat)
    requires TopologicalOrder(g, order) && |p| >= 2 && Walk(g, p)
    ensures j < i < |order| && order[i] == p[0] && order[j] == p[|p| - 1]
  {
    assert Edge(g, p[0], p[1]);
    i :| 0 <= i < |order| && order[i] == p[0];
    if |p| == 2 {
      j :| 0 <= j < i && order[j] == p[1];
    } else {
      forall k | 0 <= k < |p[1..]| - 1 ensures Edge(g, p[1..][k], p[1..][k + 1]) {
        assert Edge(g, p[k + 1], p[k + 2]);
      }
      var i';
      i', j := WalkDescends(g, order, p[1..]);
      assert p[1] in order[..i];
    }
  }

  lemma {:induction false} DistinctFits(p: seq<string>, s: set<string>)
    requires Distinct(p) && forall a :: a in p ==> a in s
    ensures |p| <= |s|
  {
    if p == [] {
    } else {
      var last := p[|p| - 1];
      DistinctFits(p[..|p| - 1], s - {last});
    }
  }

  lemma ClosesCycle(g: Graph, p: seq<string>, i: nat, b: string)
    requires Walk(g, p) && i < |p| && p[i] == b && Edge(g, p[|p| - 1], b)
    ensures Cycle(g, p[i..] + [b])
  {
    var c := p[i..] + [b];
    forall k | 0 <= k < |c| - 1 ensures Edge(g, c[k], c[k + 1]) {
      if k < |c| - 2 { assert Edge(g, p[i + k], p[i + k + 1]); }
    }
  }

  /** Walking inside a set either gets stuck at a node or closes a cycle. */
  lemma {:induction false} StuckOrCyclic(g: Graph, s: set<string>, p: seq<string>) returns (sink: string)
    requires p != [] && Distinct(p) && Walk(g, p) && forall a :: a in p ==> a in s
    ensures Cyclic(g) || (sink in s && forall b :: b in s ==> !Edge(g, sink, b))
    decreases |s| - |p|
  {
    var last := p[|p| - 1];
    DistinctFits(p, s);
    if b :| b in s && Edge(g, last, b) {
      if b in p {
        var i :| 0 <= i < |p| && p[i] == b;
        ClosesCycle(g, p, i, b);
        sink := last;
      } else {
        forall k | 0 <= k < |p + [b]| - 1 ensures Edge(g, (p + [b])[k], (p + [b])[k + 1]) {
          if k < |p| - 1 { assert Edge(g, p[k], p[k + 1]); }
        }
        DistinctFits(p + [b], s);
        sink := StuckOrCyclic(g, s, p + [b]);
      }
    } else {
      sink := last;
    }
  }

  lemma {:induction false} OrderRest(g: Graph, done: seq<string>, rest: set<string>) returns (order: seq<string>)
    requires !Cyclic(g) && DepsFirst(g, done)
    requires rest == g.ids - set a | a in done
    requires forall a :: a in done ==> a in g.ids
    ensures TopologicalOrder(g, order)
    decreases |rest|
  {
    if rest == {} {
      order := done;
    } else {
      var a :| a in rest;
      var sink := StuckOrCyclic(g, rest, [a]);
      FinishedNode(g, done, sink, true);
      order := OrderRest(g, done + [sink], rest - {sink});
    }
  }

  lemma AcyclicIffOrdered(g: Graph)
    ensures !Cyclic(g) <==> exists order :: TopologicalOrder(g, order)
  {
    if !Cyclic(g) {
      var order := OrderRest(g, [], g.ids);
    }
    forall order | TopologicalOrder(g, order) ensures !Cyclic(g) {
      OrderMeansAcyclic(g, order);
    }
  }

  // ---------------------------------------------------------------------------
  // The check
  // ---------------------------------------------------------------------------

  /** All reported under code E040. */
  datatype Diagnostic =
    | UnknownDependency(id: string, dep: string)
    | SelfDependency(id: string)
    | DependencyCycle(node: string)

  class CycleSearch {
    const graph: Graph
    var visiting: set<string>
    var visited: set<string>
    var diagnostics: seq<Diagnostic>
    ghost var stack: seq<string>
    ghost var finished: seq<string>

    ghost predicate Valid()
      reads this
    {
      && visiting == (set a | a in stack) && Distinct(stack) && Walk(graph, stack)
      && visited == (set a | a in finished) && Distinct(finished)
      && visiting !! visited && visiting <= graph.ids && visited <= graph.ids
      && (diagnostics != [] ==> Cyclic(graph))
      && (diagnostics == [] ==> DepsFirst(graph, finished))
      && (forall d :: d in diagnostics ==> d.DependencyCycle?)
    }

    constructor (graph: Graph)
      ensures Valid() && this.graph == graph && stack == [] && finished == [] && diagnostics == []
    {
      this.graph := graph;
      visiting, visited, diagnostics, stack, finished := {}, {}, [], [], [];
    }

    method Dfs(node: string)
      requires Valid() && node in graph.ids && Walk(graph, stack + [node])
      modifies this
      ensures Valid() && stack == old(stack) && old(finished) <= finished
      ensures old(visited) <= visited && old(diagnostics) <= diagnostics
      ensures diagnostics == [] ==> node in visited
      decreases graph.ids - visiting - visited
    {
      if node in visiting {
        ghost var i :| 0 <= i < |stack| && stack[i] == node;
        assert Edge(graph, (stack + [node])[|stack| - 1], (stack + [node])[|stack|]);
        ClosesCycle(graph, stack, i, node);
        diagnostics := diagnostics + [DependencyCycle(node)];
        return;
      }
      if node in visited {
        return;
      }
      visiting, stack := visiting + {node}, stack + [node];
      var deps := DepsOf(graph, node);
      for i := 0 to |deps|
        invariant Valid() && stack == old(stack) + [node] && old(finished) <= finished
        invariant visiting == old(visiting) + {node} && old(visited) <= visited && old(diagnostics) <= diagnostics
        invariant diagnostics == [] ==> forall j :: 0 <= j < i && deps[j] in graph.ids ==> deps[j] in visited
      {
        if deps[i] in graph.ids {
          assert Edge(graph, node, deps[i]);
          ghost var p := stack + [deps[i]];
          assert forall k :: 0 <= k < |p| - 1 ==> Edge(graph, p[k], p[k + 1]) by {
            forall k | 0 <= k < |p| - 1 ensures Edge(graph, p[k], p[k + 1]) {
              if k < |stack| - 1 { assert Edge(graph, stack[k], stack[k + 1]); }
            }
          }
          assert node in old(graph.ids - visiting - visited) && node !in graph.ids - visiting - visited;
          Dfs(deps[i]);
        }
      }
      ghost var order := finished;
      visiting, visited, stack, finished := visiting - {node}, visited + {node}, old(stack), finished + [node];
      FinishedNode(graph, order, node, diagnostics == []);
    }
  }

  lemma FinishedNode(g: Graph, order: seq<string>, node: string, clean: bool)
    requires clean ==> DepsFirst(g, order) && node !in order && forall b :: Edge(g, node, b) ==> b in order
    ensures clean ==> DepsFirst(g, order + [node])
  {
    if clean {
      var next := order + [node];
      forall i, b | 0 <= i < |next| && Edge(g, next[i], b) ensures b in next[..i] {
        if i < |order| {
          assert b in order[..i] && next[..i] == order[..i];
        } else {
          assert next[..i] == order;
        }
      }
    }
  }

  /** No reference to an unknown module, and none to the module itself. */
  ghost predicate ReferencesSound(g: Graph) {
    forall a, b :: a in g.deps && b in g.deps[a] ==> SoundReference(g, a, b)
  }

  predicate SoundReference(g: Graph, a: string, b: string) {
    b in g.ids && b != a
  }

  /** The references of one module. */
  method CheckModule(g: Graph, id: string, deps: seq<string>) returns (found: seq<Diagnostic>)
    ensures forall d :: d in found <==>
              || (d.UnknownDependency? && d.id == id && d.dep in deps && d.dep !in g.ids)
              || (d == SelfDependency(id) && id in deps)
  {
    found := [];
    for i := 0 to |deps|
      invariant forall d :: d in found <==>
                  || (d.UnknownDependency? && d.id == id && d.dep in deps[..i] && d.dep !in g.ids)
                  || (d == SelfDependency(id) && id in deps[..i])
    {
      assert deps[..i + 1] == deps[..i] + [deps[i]];
      if deps[i] !in g.ids {
        found := found + [UnknownDependency(id, deps[i])];
      }
      if deps[i] == id {
        found := found + [SelfDependency(id)];
      }
    }
    assert deps[..|deps|] == deps;
  }

  method CheckReferences(g: Graph) returns (diagnostics: seq<Diagnostic>)
    ensures diagnostics == [] <==> ReferencesSound(g)
    ensures forall d :: d in diagnostics ==> !d.DependencyCycle?
    ensures forall a, b :: a in g.deps && b in g.deps[a] && b !in g.ids <==> UnknownDependency(a, b) in diagnostics
    ensures forall a :: a in g.deps && a in g.deps[a] <==> SelfDependency(a) in diagnostics
  {
    diagnostics := [];
    var todo := g.deps.Keys;
    while todo != {}
      invariant todo <= g.deps.Keys
      invariant forall d :: d in diagnostics ==> !d.DependencyCycle?
      invariant forall a, b :: UnknownDependency(a, b) in diagnostics <==>
                  a in g.deps.Keys - todo && b in DepsOf(g, a) && b !in g.ids
      invariant forall a :: SelfDependency(a) in diagnostics <==> a in g.deps.Keys - todo && a in DepsOf(g, a)
    {
      var id :| id in todo;
      var found := CheckModule(g, id, g.deps[id]);
      diagnostics := diagnostics + found;
      todo := todo - {id};
    }
    assert diagnostics != [] ==> !ReferencesSound(g) by {
      if diagnostics != [] {
        var d := diagnostics[0];
        assert d in diagnostics && !d.DependencyCycle?;
        if d.UnknownDependency? {
          assert UnknownDependency(d.id, d.dep) in diagnostics;
          assert d.dep in g.deps[d.id] && !SoundReference(g, d.id, d.dep);
        } else {
          assert SelfDependency(d.id) in diagnostics;
          assert d.id in g.deps[d.id] && !SoundReference(g, d.id, d.id);
        }
      }
    }
    if diagnostics == [] {
      forall a, b | a in g.deps && b in g.deps[a] ensures SoundReference(g, a, b) {
        assert UnknownDependency(a, b) !in diagnostics && SelfDependency(a) !in diagnostics;
        assert b in DepsOf(g, a);
      }
    }
  }

  /** The whole check: clean exactly when references are sound and nothing cycles. */
  method ValidateDependencyGraph(g: Graph) returns (diagnostics: seq<Diagnostic>, ghost order: seq<string>)
    ensures diagnostics == [] <==> ReferencesSound(g) && !Cyclic(g)
    ensures (exists d :: d in diagnostics && d.DependencyCycle?) <==> Cyclic(g)
    ensures !Cyclic(g) ==> TopologicalOrder(g, order)
  {
    var references := CheckReferences(g);
    var search := new CycleSearch(g);
    var todo := g.ids;
    while todo != {}
      invariant todo <= g.ids && search.graph == g && search.Valid() && search.stack == []
      invariant search.diagnostics == [] ==> forall a :: a in g.ids - todo ==> a in search.visited
    {
      var id :| id in todo;
      assert Walk(g, search.stack + [id]);
      search.Dfs(id);
      todo := todo - {id};
    }
    diagnostics, order := references + search.diagnostics, search.finished;
    if search.diagnostics == [] {
      assert forall a :: a in order <==> a in search.visited;
      OrderMeansAcyclic(g, order);
    } else {
      assert search.diagnostics[0] in diagnostics;
    }
  }
}
