/** The two recursive depth-first cycle checks: the admission gate on `supersedes` and
    `depends_on`, which stops at the first cycle, and the `duplicate_of` visitor of the
    pressure registry, which reports and goes on. */
module Cycles {
  import opened Order

  type Edges = map<string, set<string>>

  function Successors(e: Edges, n: string): set<string> {
    if n in e then e[n] else {}
  }

  ghost predicate Path(e: Edges, p: seq<string>) {
    |p| > 0 && forall i :: 0 < i < |p| ==> p[i] in Successors(e, p[i - 1])
  }

  ghost predicate CycleAt(e: Edges, p: seq<string>) {
    Path(e, p) && |p| > 1 && p[0] == p[|p| - 1]
  }

  /** Some non-empty path leads from a node back to itself. */
  ghost predicate Cyclic(e: Edges) {
    exists p :: CycleAt(e, p)
  }

  /** Nothing leaves the set, and no cycle starts in it. */
  ghost predicate Done(e: Edges, visited: set<string>) {
    && (forall n :: n in visited ==> Successors(e, n) <= visited)
    && (forall p :: CycleAt(e, p) ==> p[0] !in visited)
  }

  ghost predicate Closed(e: Edges, universe: set<string>) {
    forall n :: n in universe ==> Successors(e, n) <= universe
  }

  /** The stack of a depth-first search: the nodes being visited, in the order entered, ready
      to step to `node`. */
  ghost predicate Stack(e: Edges, visiting: set<string>, path: seq<string>, node: string) {
    Path(e, path + [node]) && visiting == set n | n in path
  }

  lemma {:induction false} StaysIn(e: Edges, s: set<string>, p: seq<string>, i: nat, j: nat)
    requires Closed(e, s) && Path(e, p) && i <= j < |p| && p[i] in s
    ensures p[j] in s
    decreases j
  {
    if i < j { StaysIn(e, s, p, i, j - 1); }
  }

  /** A node whose successors are all done, and which they cannot reach, is done too. */
  lemma DoneGrows(e: Edges, visited: set<string>, n: string)
    requires Done(e, visited) && n !in visited && Successors(e, n) <= visited
    ensures Done(e, visited + {n})
  {
    forall p | CycleAt(e, p) ensures p[0] != n {
      if p[0] == n {
        StaysIn(e, visited, p, 1, |p| - 1);
        assert false;
      }
    }
  }

  /** Meeting a node that is on the stack closes a cycle. */
  lemma StackCycle(e: Edges, visiting: set<string>, path: seq<string>, node: string)
    requires Stack(e, visiting, path, node) && node in visiting
    ensures Cyclic(e)
  {
    var i :| 0 <= i < |path| && path[i] == node;
    var whole := path + [node];
    var p := whole[i..];
    assert forall k :: 0 <= k < |p| ==> p[k] == whole[i + k];
    assert CycleAt(e, p);
  }

  lemma StackGrows(e: Edges, visiting: set<string>, path: seq<string>, node: string, next: string)
    requires Stack(e, visiting, path, node) && next in Successors(e, node)
    ensures Stack(e, visiting + {node}, path + [node], next)
  {
    var p := path + [node] + [next];
    assert forall k :: 0 <= k <= |path| ==> p[k] == (path + [node])[k];
  }

  lemma StackStarts(e: Edges, node: string)
    ensures Stack(e, {}, [], node)
  {}

  lemma CycleStartsAtKey(e: Edges, p: seq<string>)
    requires CycleAt(e, p)
    ensures p[0] in e.Keys
  {
    assert p[1] in Successors(e, p[0]);
  }

  /** When every node with successors is done, there is no cycle. */
  lemma AllDone(e: Edges, visited: set<string>)
    requires Done(e, visited) && e.Keys <= visited
    ensures !Cyclic(e)
  {
    if Cyclic(e) {
      var p :| CycleAt(e, p);
      CycleStartsAtKey(e, p);
      assert false;
    }
  }

  function Universe(e: Edges): set<string> {
    e.Keys + set n, t | n in e && t in e[n] :: t
  }

  // ---------------------------------------------------------------- the admission gate

  /** The mutable state that `_has_cycle`'s nested visitor captures. */
  class CycleGate {
    const edges: Edges
    var visiting: set<string>
    var visited: set<string>

    constructor (edges: Edges)
      ensures this.edges == edges && visiting == {} && visited == {}
    {
      this.edges := edges;
      visiting, visited := {}, {};
    }

    method Visit(node: string, ghost path: seq<string>) returns (found: bool)
      requires node in Universe(edges) && visiting <= Universe(edges)
      requires Stack(edges, visiting, path, node) && Done(edges, visited) && visiting !! visited
      modifies this
      ensures found ==> Cyclic(edges)
      ensures !found ==>
                && visiting == old(visiting) && visiting !! visited
                && old(visited) + {node} <= visited && Done(edges, visited)
      decreases Universe(edges) - visiting
    {
      if node in visiting {
        StackCycle(edges, visiting, path, node);
        return true;
      }
      if node in visited { return false; }
      visiting := visiting + {node};
      var rest := Successors(edges, node);
      while rest != {}
        invariant rest <= Successors(edges, node) <= rest + visited
        invariant visiting == old(visiting) + {node} && visiting !! visited && old(visited) <= visited
        invariant Done(edges, visited)
        decreases rest
      {
        var target :| target in rest;
        StackGrows(edges, old(visiting), path, node, target);
        assert target in Universe(edges);
        found := Visit(target, path + [node]);
        if found { return true; }
        rest := rest - {target};
      }
      visiting := visiting - {node};
      DoneGrows(edges, visited, node);
      visited := visited + {node};
      return false;
    }
  }

  /** `_has_cycle` is sound and complete. */
  method HasCycle(edges: Edges) returns (found: bool)
    ensures found <==> Cyclic(edges)
  {
    var gate := new CycleGate(edges);
    var rest := edges.Keys;
    while rest != {}
      invariant rest <= edges.Keys <= rest + gate.visited
      invariant gate.edges == edges && gate.visiting == {} && Done(edges, gate.visited)
      decreases rest
    {
      var node :| node in rest;
      StackStarts(edges, node);
      found := gate.Visit(node, []);
      if found { return true; }
      rest := rest - {node};
    }
    AllDone(edges, gate.visited);
    return false;
  }

  // ---------------------------------------------------------------- the duplicate visitor

  /** The state captured by the visitor inside `validate`; it counts `DUPLICATE_CYCLE` reports. */
  class DuplicateVisitor {
    const graph: Edges
    var visiting: set<string>
    var visited: set<string>
    var reports: nat

    constructor (graph: Edges)
      ensures this.graph == graph && visiting == {} && visited == {} && reports == 0
    {
      this.graph := graph;
      visiting, visited, reports := {}, {}, 0;
    }

    /** Every report is a cycle; with none, what was visited is done. */
    ghost predicate Honest()
      reads this
    {
      && visiting !! visited
      && if reports == 0 then Done(graph, visited) else Cyclic(graph)
    }

    method Visit(node: string, ghost path: seq<string>)
      requires node in Universe(graph) && visiting <= Universe(graph)
      requires Stack(graph, visiting, path, node) && Honest()
      modifies this
      ensures visiting == old(visiting) && old(visited) <= visited && old(reports) <= reports && Honest()
      ensures node in visited || (node in visiting && reports > 0)
      decreases Universe(graph) - visiting
    {
      if node in visiting {
        reports := reports + 1;
        StackCycle(graph, visiting, path, node);
        return;
      }
      if node in visited { return; }
      visiting := visiting + {node};
      var children := Sorted(Successors(graph, node));
      for i := 0 to |children|
        invariant visiting == old(visiting) + {node} && old(visited) <= visited && old(reports) <= reports && Honest()
        invariant reports == 0 ==> forall k :: 0 <= k < i ==> children[k] in visited
      {
        assert children[i] in Successors(graph, node);
        StackGrows(graph, old(visiting), path, node, children[i]);
        assert children[i] in Universe(graph);
        Visit(children[i], path + [node]);
      }
      visiting := visiting - {node};
      if reports == 0 {
        assert forall c :: c in Successors(graph, node) ==> c in children;
        DoneGrows(graph, visited, node);
      }
      visited := visited + {node};
    }
  }

  /** The number of `DUPLICATE_CYCLE` diagnostics is zero exactly when the graph is acyclic. */
  method CountDuplicateCycles(graph: Edges) returns (reports: nat)
    ensures reports > 0 <==> Cyclic(graph)
  {
    var visitor := new DuplicateVisitor(graph);
    var nodes := Sorted(graph.Keys);
    for i := 0 to |nodes|
      invariant visitor.graph == graph && visitor.visiting == {} && visitor.Honest()
      invariant visitor.reports == 0 ==> forall k :: 0 <= k < i ==> nodes[k] in visitor.visited
    {
      assert nodes[i] in graph.Keys;
      StackStarts(graph, nodes[i]);
      visitor.Visit(nodes[i], []);
    }
    reports := visitor.reports;
    if reports == 0 {
      assert forall n :: n in graph.Keys ==> n in nodes;
      AllDone(graph, visitor.visited);
    }
  }
}
