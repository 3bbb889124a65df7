/** The depth-first search that rejects composition definitions which contain themselves. */
module DefinitionCycles {
  import Expansion

  type Key = Expansion.Key

  /** An instance of the definition `key`, at a place in the template that nests it. */
  datatype Edge = Edge(key: Key, place: seq<nat>)

  /** The nested instances of every known definition. */
  type Graph = map<Key, seq<Edge>>

  predicate HasEdge(graph: Graph, source: Key, target: Key) {
    source in graph && exists n :: 0 <= n < |graph[source]| && graph[source][n].key == target
  }

  /** A closed walk through known definitions. */
  predicate IsCycle(graph: Graph, walk: seq<Key>) {
    && walk != []
    && (forall i :: 0 <= i < |walk| ==> walk[i] in graph)
    && (forall i :: 0 <= i < |walk| - 1 ==> HasEdge(graph, walk[i], walk[i + 1]))
    && HasEdge(graph, walk[|walk| - 1], walk[0])
  }

  ghost predicate OnCycle(graph: Graph, key: Key) {
    exists walk :: IsCycle(graph, walk) && walk[0] == key
  }

  ghost predicate Cyclic(graph: Graph) {
    exists walk :: IsCycle(graph, walk)
  }

  predicate Distinct(keys: seq<Key>) {
    forall i, j :: 0 <= i < j < |keys| ==> keys[i] != keys[j]
  }

  /** Every known target of a finished definition finished before it. */
  ghost predicate Ordered(graph: Graph, finished: seq<Key>) {
    && Distinct(finished)
    && (forall i :: 0 <= i < |finished| ==> finished[i] in graph)
    && (forall i, target :: 0 <= i < |finished| && target in graph && HasEdge(graph, finished[i], target) ==>
          target in finished[..i])
  }

  function Position(finished: seq<Key>, key: Key): (i: nat)
    requires key in finished
    ensures i < |finished| && finished[i] == key
  {
    if finished[0] == key then 0 else 1 + Position(finished[1..], key)
  }

  lemma EdgeGoesBack(graph: Graph, finished: seq<Key>, source: Key, target: Key)
    requires Ordered(graph, finished) && source in finished && target in finished && target in graph
    requires HasEdge(graph, source, target)
    ensures Position(finished, target) < Position(finished, source)
  {
    var i := Position(finished, source);
    assert target in finished[..i];
    var j :| 0 <= j < i && finished[j] == target;
    assert Position(finished, target) == j;
  }

  lemma {:induction false} WalkGoesBack(graph: Graph, finished: seq<Key>, walk: seq<Key>, n: nat)
    requires Ordered(graph, finished) && IsCycle(graph, walk) && n < |walk|
    requires forall i :: 0 <= i < |walk| ==> walk[i] in finished
    ensures Position(finished, walk[n]) <= Position(finished, walk[0])
  {
    if n > 0 {
      WalkGoesBack(graph, finished, walk, n - 1);
      assert HasEdge(graph, walk[n - 1], walk[n - 1 + 1]);
      EdgeGoesBack(graph, finished, walk[n - 1], walk[n]);
    }
  }

  /** A finishing order of the whole graph leaves no room for a cycle. */
  lemma OrderedIsAcyclic(graph: Graph, finished: seq<Key>)
    requires Ordered(graph, finished) && forall key :: key in graph ==> key in finished
    ensures !Cyclic(graph)
  {
    forall walk ensures !IsCycle(graph, walk) {
      if IsCycle(graph, walk) {
        var last := |walk| - 1;
        WalkGoesBack(graph, finished, walk, last);
        EdgeGoesBack(graph, finished, walk[last], walk[0]);
      }
    }
  }

  class GraphState {
    const graph: Graph
    var diagnostics: seq<Edge>
    var visited: set<Key>
    var visiting: set<Key>
    ghost var stack: seq<Key>
    ghost var finished: seq<Key>

    constructor (graph: Graph)
      ensures Valid() && this.graph == graph && stack == [] && finished == [] && diagnostics == []
    {
      this.graph := graph;
      diagnostics, visited, visiting := [], {}, {};
      stack, finished := [], [];
    }

    /** The definitions being visited form a path; the finished ones are ordered unless something was reported, and
        whatever was reported closes a cycle. */
    ghost predicate Valid()
      reads this
    {
      && (forall key :: key in visiting <==> key in stack)
      && (forall i :: 0 <= i < |stack| ==> stack[i] in graph)
      && (forall i :: 0 <= i < |stack| - 1 ==> HasEdge(graph, stack[i], stack[i + 1]))
      && Distinct(finished) && (forall key :: key in visited <==> key in finished)
      && (forall key :: key in finished ==> key in graph && key !in stack)
      && (diagnostics == [] ==> Ordered(graph, finished))
      && (forall n :: 0 <= n < |diagnostics| ==> OnCycle(graph, diagnostics[n].key))
    }

    method VisitDefinition(key: Key)
      requires Valid() && key in graph && key !in stack
      requires stack != [] ==> HasEdge(graph, stack[|stack| - 1], key)
      modifies this
      ensures Valid() && stack == old(stack) && visiting == old(visiting)
      ensures key in visited && old(visited) <= visited && old(diagnostics) <= diagnostics
      decreases graph.Keys - visiting, 1
    {
      if key in visited {
        return;
      }
      Enter(key);
      var edges := graph[key];
      for n := 0 to |edges|
        invariant Valid() && stack == old(stack) + [key] && visiting == old(visiting) + {key}
        invariant old(visited) <= visited && key !in visited && old(diagnostics) <= diagnostics
        invariant diagnostics == [] ==> forall m :: 0 <= m < n && edges[m].key in graph ==> edges[m].key in visited
      {
        assert HasEdge(graph, key, edges[n].key);
        VisitDefinitionEdge(key, edges[n]);
      }
      Finish(key, old(stack));
    }

    /** A new definition goes on top of the stack. */
    method Enter(key: Key)
      requires Valid() && key in graph && key !in stack && key !in visited
      requires stack != [] ==> HasEdge(graph, stack[|stack| - 1], key)
      modifies this`visiting, this`stack
      ensures Valid() && stack == old(stack) + [key] && visiting == old(visiting) + {key}
    {
      visiting := visiting + {key};
      stack := stack + [key];
    }

    /** The top of the stack is done. */
    method Finish(key: Key, ghost below: seq<Key>)
      requires Valid() && key in graph && stack == below + [key] && key !in below && key !in visited
      requires diagnostics == [] ==> forall m :: 0 <= m < |graph[key]| && graph[key][m].key in graph ==> graph[key][m].key in visited
      modifies this
      ensures Valid() && stack == below && visiting == old(visiting) - {key}
      ensures visited == old(visited) + {key} && diagnostics == old(diagnostics)
    {
      assert below == stack[..|stack| - 1] && key in stack;
      if diagnostics == [] {
        FinishKeepsOrder(graph, finished, key);
      }
      visiting := visiting - {key};
      visited := visited + {key};
      stack := below;
      finished := finished + [key];
    }

    method VisitDefinitionEdge(source: Key, edge: Edge)
      requires Valid() && stack != [] && stack[|stack| - 1] == source && HasEdge(graph, source, edge.key)
      requires source !in visited
      modifies this
      ensures Valid() && stack == old(stack) && visiting == old(visiting)
      ensures old(visited) <= visited && source !in visited && old(diagnostics) <= diagnostics
      ensures diagnostics == [] && edge.key in graph ==> edge.key in visited
      decreases graph.Keys - visiting, 2
    {
      if edge.key in visiting {
        ghost var i :| 0 <= i < |stack| && stack[i] == edge.key;
        assert IsCycle(graph, stack[i..]) by {
          assert stack[i..][|stack[i..]| - 1] == source;
        }
        diagnostics := diagnostics + [edge];
      } else if edge.key in graph {
        VisitDefinition(edge.key);
      }
    }
  }

  lemma FinishKeepsOrder(graph: Graph, finished: seq<Key>, key: Key)
    requires Ordered(graph, finished) && key in graph && key !in finished
    requires forall m :: 0 <= m < |graph[key]| && graph[key][m].key in graph ==> graph[key][m].key in finished
    ensures Ordered(graph, finished + [key])
  {
    var longer := finished + [key];
    forall i, target | 0 <= i < |longer| && target in graph && HasEdge(graph, longer[i], target)
      ensures target in longer[..i]
    {
      if i < |finished| {
        assert longer[..i] == finished[..i];
      } else {
        assert longer[..i] == finished;
      }
    }
  }

  /** Visits the definitions in registration order. Something is reported exactly when a definition can reach itself
      through known definitions, and every reported edge leads to a definition on such a cycle. */
  method DetectDefinitionCycles(graph: Graph, order: seq<Key>) returns (diagnostics: seq<Edge>)
    requires forall key :: key in order <==> key in graph
    ensures diagnostics != [] <==> Cyclic(graph)
    ensures forall n :: 0 <= n < |diagnostics| ==> OnCycle(graph, diagnostics[n].key)
  {
    var state := new GraphState(graph);
    for n := 0 to |order|
      invariant fresh(state) && state.graph == graph && state.Valid() && state.stack == []
      invariant forall m :: 0 <= m < n ==> order[m] in state.visited
    {
      state.VisitDefinition(order[n]);
    }
    diagnostics := state.diagnostics;
    if diagnostics == [] {
      OrderedIsAcyclic(graph, state.finished);
    } else {
      assert OnCycle(graph, diagnostics[0].key);
    }
  }
}
