/** `bounded_graph`: an undirected traversal of typed relationships with a depth bound and a
    node cap. */
module GraphQuery {
  import opened Order
  import opened Bfs
  import opened Records

  datatype Traversal = Traversal(selected: seq<string>, truncated: bool)

  datatype Result = Ok(value: Traversal) | BadBounds

  // ---------------------------------------------------------------- references and edges

  /** Some record with digest `a` names, by digest or record id, the record with digest `b`. */
  ghost predicate Edge(records: seq<Record>, a: string, b: string) {
    exists i, j :: 0 <= i < |records| && 0 <= j < |records[i].relations| && records[i].digest == a
                   && records[i].relations[j].target in ByRef(records)
                   && ByRef(records)[records[i].relations[j].target].digest == b
  }

  /** A reference means the last record that bears it. */
  lemma EdgeMeans(records: seq<Record>, a: string, b: string)
    ensures Edge(records, a, b) <==>
            exists i, j, r :: 0 <= i < |records| && 0 <= j < |records[i].relations| && records[i].digest == a
                              && Means(records, records[i].relations[j].target, r) && r.digest == b
  {
    hide ByRef, Means;
    if i, j :| 0 <= i < |records| && 0 <= j < |records[i].relations| && records[i].digest == a
               && records[i].relations[j].target in ByRef(records)
               && ByRef(records)[records[i].relations[j].target].digest == b
    {
      ByRefMeans(records, records[i].relations[j].target);
      assert Means(records, records[i].relations[j].target, ByRef(records)[records[i].relations[j].target]);
    }
    if i, j, r :| 0 <= i < |records| && 0 <= j < |records[i].relations| && records[i].digest == a
                  && Means(records, records[i].relations[j].target, r) && r.digest == b
    {
      ByRefMeans(records, records[i].relations[j].target);
    }
  }

  ghost predicate Touching(records: seq<Record>, a: string, b: string) {
    Edge(records, a, b) || Edge(records, b, a)
  }

  function Adjacent(adjacency: map<string, set<string>>, n: string): set<string> {
    if n in adjacency then adjacency[n] else {}
  }

  function AddEdge(adjacency: map<string, set<string>>, a: string, b: string): (r: map<string, set<string>>)
    ensures forall x, y :: y in Adjacent(r, x) <==> y in Adjacent(adjacency, x) || (x == a && y == b)
  {
    adjacency[a := Adjacent(adjacency, a) + {b}]
  }

  /** The edges of the first `i` records and the first `j` relations of the next one. */
  ghost predicate EdgeBefore(records: seq<Record>, i: nat, j: nat, a: string, b: string)
    requires i <= |records|
  {
    exists k, l :: 0 <= k < |records| && 0 <= l < |records[k].relations| && (k < i || (k == i && l < j))
                   && records[k].digest == a && records[k].relations[l].target in ByRef(records)
                   && ByRef(records)[records[k].relations[l].target].digest == b
  }

  /** Both ends of every resolved relationship see each other. */
  method BuildAdjacency(records: seq<Record>, byRef: map<string, Record>) returns (adjacency: map<string, set<string>>)
    requires byRef == ByRef(records)
    ensures forall a, b :: b in Adjacent(adjacency, a) <==> Touching(records, a, b)
  {
    hide EdgeBefore, Edge, ByRef;
    adjacency := map[];
    NoEdges(records);
    for i := 0 to |records|
      invariant forall a, b :: b in Adjacent(adjacency, a) <==>
                  EdgeBefore(records, i, 0, a, b) || EdgeBefore(records, i, 0, b, a)
    {
      var r := records[i];
      for j := 0 to |r.relations|
        invariant forall a, b :: b in Adjacent(adjacency, a) <==>
                    EdgeBefore(records, i, j, a, b) || EdgeBefore(records, i, j, b, a)
      {
        EdgeStep(records, i, j);
        if r.relations[j].target in byRef {
          var target := byRef[r.relations[j].target].digest;
          adjacency := AddEdge(AddEdge(adjacency, r.digest, target), target, r.digest);
        }
      }
      EdgeRow(records, i);
    }
    forall a, b ensures EdgeBefore(records, |records|, 0, a, b) <==> Edge(records, a, b) {
      EdgeTotal(records, a, b);
    }
  }

  lemma NoEdges(records: seq<Record>)
    ensures forall a, b :: !EdgeBefore(records, 0, 0, a, b)
  {}

  lemma EdgeStep(records: seq<Record>, i: nat, j: nat)
    requires i < |records| && j < |records[i].relations|
    ensures forall a, b :: EdgeBefore(records, i, j + 1, a, b) <==>
              EdgeBefore(records, i, j, a, b) ||
              (a == records[i].digest && records[i].relations[j].target in ByRef(records)
               && ByRef(records)[records[i].relations[j].target].digest == b)
  {}

  lemma EdgeRow(records: seq<Record>, i: nat)
    requires i < |records|
    ensures forall a, b :: EdgeBefore(records, i + 1, 0, a, b) <==> EdgeBefore(records, i, |records[i].relations|, a, b)
  {}

  lemma EdgeTotal(records: seq<Record>, a: string, b: string)
    ensures EdgeBefore(records, |records|, 0, a, b) <==> Edge(records, a, b)
  {
    if Edge(records, a, b) {
      var i, j :| 0 <= i < |records| && 0 <= j < |records[i].relations| && records[i].digest == a
                  && records[i].relations[j].target in ByRef(records)
                  && ByRef(records)[records[i].relations[j].target].digest == b;
      assert EdgeBefore(records, |records|, 0, a, b);
    }
  }

  // ---------------------------------------------------------------- the traversal

  /** The undirected graph over digests. */
  function Undirected(records: seq<Record>, adjacency: map<string, set<string>>): Graph {
    Graph(adjacency, map d | d in Digests(records) :: d)
  }

  /** The digests the root references resolve to. */
  function RootDigests(byRef: map<string, Record>, roots: seq<string>): set<string> {
    set r | r in roots && r in byRef :: byRef[r].digest
  }

  ghost predicate Distinct(s: seq<string>) {
    forall i, j :: 0 <= i < j < |s| ==> s[i] != s[j]
  }

  function Elements(s: seq<string>): set<string> {
    set x | x in s
  }

  lemma {:induction false} DistinctSize(s: seq<string>)
    requires Distinct(s)
    ensures |Elements(s)| == |s|
  {
    if s != [] {
      DistinctSize(s[1..]);
      assert Elements(s) == Elements(s[1..]) + {s[0]};
    }
  }

  lemma SubsetSize(a: set<string>, b: set<string>)
    requires a <= b
    ensures |a| <= |b|
    ensures |a| == |b| ==> a == b
  {
    assert b == a + (b - a);
    assert |b| == |a| + |b - a|;
  }

  /** What a bounded traversal of `g` from `roots` must deliver. */
  ghost predicate Exact(g: Graph, roots: set<string>, maxDepth: nat, maxNodes: nat, t: Traversal) {
    var ball := Ball(g, roots, maxDepth);
    && Distinct(t.selected) && Elements(t.selected) <= ball
    && (t.truncated <==> |ball| > maxNodes)
    && (!t.truncated ==> Elements(t.selected) == ball)
    && (t.truncated ==> |t.selected| == maxNodes)
    && (forall a, b, k: nat :: a in t.selected && b in ball && b !in t.selected && b in Ball(g, roots, k)
          ==> a in Ball(g, roots, k))
  }

  /** Nodes are their own references, and every link resolves. */
  ghost predicate SelfNamed(g: Graph) {
    && (forall n :: n in g.resolve ==> g.resolve[n] == n)
    && (forall u :: Links(g, u) <= g.resolve.Keys)
  }

  /** The state of the loop: `seen` and `selected` hold the nodes whose distance is known. */
  ghost predicate Progress(g: Graph, roots: set<string>, maxDepth: nat, dist: map<string, nat>, queue: seq<Entry>,
                           seen: set<string>, selected: seq<string>) {
    && Searching(g, roots, maxDepth, dist, queue) && Resolved(g, queue)
    && Selection(seen, dist, selected, Ball(g, roots, maxDepth))
  }

  ghost predicate Selection(seen: set<string>, dist: map<string, nat>, selected: seq<string>, ball: set<string>) {
    dist.Keys == seen && Elements(selected) == seen && seen <= ball && Distinct(selected)
  }

  ghost predicate Resolved(g: Graph, queue: seq<Entry>) {
    forall i :: 0 <= i < |queue| ==> queue[i].ref in g.resolve
  }

  /** The loop of `bounded_graph` over a queue of digests. */
  method Collect(g: Graph, roots: set<string>, maxDepth: nat, maxNodes: nat)
    returns (selected: seq<string>, truncated: bool, ghost dist: map<string, nat>, ghost rest: seq<Entry>, ghost seen: set<string>)
    requires roots <= g.resolve.Keys && SelfNamed(g)
    ensures Progress(g, roots, maxDepth, dist, rest, seen, selected) && |selected| <= maxNodes
    ensures if truncated then rest != [] && rest[0].ref !in seen && |selected| == maxNodes else rest == []
  {
    hide Progress, Ball, SelfNamed, Enqueue, Sorted;
    var queue := Enqueue(Sorted(roots), 0);
    var visited: set<string> := {};
    selected, truncated, dist := [], false, map[];
    StartProgresses(g, roots, maxDepth);
    while queue != []
      invariant Progress(g, roots, maxDepth, dist, queue, visited, selected)
      invariant |selected| <= maxNodes
      decreases |Ball(g, roots, maxDepth) - visited|, |queue|
    {
      var node, depth := queue[0].ref, queue[0].depth;
      if node in visited {
        SkipProgresses(g, roots, maxDepth, dist, queue, visited, selected);
        queue := queue[1..];
      } else if |selected| >= maxNodes {
        truncated := true;
        break;
      } else {
        var more := if depth < maxDepth then Enqueue(Sorted(Links(g, node)), depth + 1) else [];
        EnqueueExpands(g, node, depth, maxDepth, more);
        SelectProgresses(g, roots, maxDepth, dist, queue, visited, selected, more);
        selected, visited, dist, queue := selected + [node], visited + {node}, dist[node := depth], queue[1..] + more;
      }
    }
    rest, seen := queue, visited;
  }

  method Traverse(g: Graph, roots: set<string>, maxDepth: nat, maxNodes: nat) returns (t: Traversal)
    requires roots <= g.resolve.Keys && SelfNamed(g)
    ensures Exact(g, roots, maxDepth, maxNodes, t)
  {
    var selected, truncated, dist, rest, seen := Collect(g, roots, maxDepth, maxNodes);
    t := Traversal(selected, truncated);
    if truncated {
      Overfull(g, roots, maxDepth, dist, rest, selected);
    } else {
      ExhaustedIsBall(g, roots, maxDepth, dist);
      DistinctSize(selected);
    }
  }

  lemma StartProgresses(g: Graph, roots: set<string>, maxDepth: nat)
    requires roots <= g.resolve.Keys
    ensures Progress(g, roots, maxDepth, map[], Enqueue(Sorted(roots), 0), {}, [])
  {
    hide Searching, Ball, Enqueue, Sorted;
    var refs := Sorted(roots);
    StartKeeps(g, roots, maxDepth, refs);
    assert forall i :: 0 <= i < |refs| ==> refs[i] in refs;
  }

  lemma SkipProgresses(g: Graph, roots: set<string>, maxDepth: nat, dist: map<string, nat>, queue: seq<Entry>,
                       seen: set<string>, selected: seq<string>)
    requires Progress(g, roots, maxDepth, dist, queue, seen, selected) && SelfNamed(g)
    requires queue != [] && queue[0].ref in seen
    ensures Progress(g, roots, maxDepth, dist, queue[1..], seen, selected)
  {
    SkipKeeps(g, roots, maxDepth, dist, queue);
  }

  lemma SelectProgresses(g: Graph, roots: set<string>, maxDepth: nat, dist: map<string, nat>, queue: seq<Entry>,
                         seen: set<string>, selected: seq<string>, more: seq<Entry>)
    requires Progress(g, roots, maxDepth, dist, queue, seen, selected) && SelfNamed(g)
    requires queue != [] && queue[0].ref !in seen && Resolved(g, more)
    requires Expands(g, queue[0].ref, queue[0].depth, maxDepth, more)
    ensures var n := queue[0].ref;
            && Progress(g, roots, maxDepth, dist[n := queue[0].depth], queue[1..] + more, seen + {n}, selected + [n])
            && |Ball(g, roots, maxDepth) - (seen + {n})| < |Ball(g, roots, maxDepth) - seen|
  {
    var n, d := queue[0].ref, queue[0].depth;
    assert g.resolve[n] == n;
    hide Searching, Ball, Expands;
    SelectedDistance(g, roots, maxDepth, dist, queue);
    SelectKeeps(g, roots, maxDepth, dist, queue, more);
    SelectionGrows(seen, dist, selected, Ball(g, roots, maxDepth), n, d);
  }

  lemma SelectionGrows(seen: set<string>, dist: map<string, nat>, selected: seq<string>, ball: set<string>, n: string, d: nat)
    requires Selection(seen, dist, selected, ball) && n in ball && n !in seen
    ensures Selection(seen + {n}, dist[n := d], selected + [n], ball)
    ensures |ball - (seen + {n})| < |ball - seen|
  {
    assert Elements(selected + [n]) == Elements(selected) + {n};
    assert n !in Elements(selected);
    assert ball - seen == (ball - (seen + {n})) + {n};
  }

  lemma EnqueueExpands(g: Graph, n: string, depth: nat, maxDepth: nat, more: seq<Entry>)
    requires more == if depth < maxDepth then Enqueue(Sorted(Links(g, n)), depth + 1) else []
    requires SelfNamed(g)
    ensures Expands(g, n, depth, maxDepth, more) && Resolved(g, more)
  {
    hide Enqueue, Sorted;
    if depth < maxDepth {
      var refs := Sorted(Links(g, n));
      forall r | r in Links(g, n) ensures Entry(r, depth + 1) in more {
        var i :| 0 <= i < |refs| && refs[i] == r;
        assert more[i] == Entry(r, depth + 1);
      }
      assert Links(g, n) <= g.resolve.Keys;
      forall i | 0 <= i < |more| ensures more[i].ref in Links(g, n) { assert refs[i] in refs; }
    }
  }

  /** Stopping with the selection full and a fresh node at the head is an exact truncation. */
  lemma Overfull(g: Graph, roots: set<string>, maxDepth: nat, dist: map<string, nat>, queue: seq<Entry>, selected: seq<string>)
    requires Searching(g, roots, maxDepth, dist, queue) && queue != []
    requires queue[0].ref in g.resolve && g.resolve[queue[0].ref] !in dist
    requires dist.Keys == Elements(selected) <= Ball(g, roots, maxDepth) && Distinct(selected)
    ensures Exact(g, roots, maxDepth, |selected|, Traversal(selected, true))
  {
    var ball, n, d := Ball(g, roots, maxDepth), g.resolve[queue[0].ref], queue[0].depth;
    SelectedDistance(g, roots, maxDepth, dist, queue);
    DistinctSize(selected);
    assert Elements(selected) + {n} <= ball;
    SubsetSize(Elements(selected) + {n}, ball);
    forall a, b, k: nat | a in selected && b in ball && b !in selected && b in Ball(g, roots, k)
      ensures a in Ball(g, roots, k)
    {
      assert b !in Elements(selected) && a in Elements(selected);
      if k < d {
        CloserNodesSeen(g, roots, maxDepth, dist, queue, if k < maxDepth then k else maxDepth);
      }
      assert dist[a] <= d;
      BallGrows(g, roots, dist[a], k);
    }
  }

  /** One of the roots means this record. */
  ghost predicate IsRoot(records: seq<Record>, roots: seq<string>, d: string) {
    exists t, r :: t in roots && Means(records, t, r) && r.digest == d
  }

  /** From a root to this digest in at most `k` relations, each taken in either direction. */
  ghost predicate Near(records: seq<Record>, roots: seq<string>, k: nat, d: string) {
    exists p :: Walk(records, roots, p) && |p| <= k + 1 && p[|p| - 1] == d
  }

  ghost predicate Walk(records: seq<Record>, roots: seq<string>, p: seq<string>) {
    p != [] && IsRoot(records, roots, p[0]) && forall i :: 0 < i < |p| ==> Touching(records, p[i - 1], p[i])
  }

  /** What `bounded_graph` delivers, in terms of the records: nothing but what is near, each once; all of it, unless the
      cap leaves something out; and then exactly as many as the cap allows, none farther than one left out. */
  ghost predicate Delivers(records: seq<Record>, roots: seq<string>, maxDepth: nat, maxNodes: nat, t: Traversal) {
    && Distinct(t.selected) && (forall d :: d in t.selected ==> Near(records, roots, maxDepth, d))
    && (!t.truncated ==> |t.selected| <= maxNodes && forall d :: Near(records, roots, maxDepth, d) ==> d in t.selected)
    && (t.truncated ==> |t.selected| == maxNodes && exists d :: Near(records, roots, maxDepth, d) && d !in t.selected)
    && forall a, b, k: nat :: a in t.selected && Near(records, roots, maxDepth, b) && b !in t.selected && Near(records, roots, k, b)
         ==> Near(records, roots, k, a)
  }

  /** The graph of the records: touching records are linked, and digests name themselves. */
  ghost predicate IsGraph(records: seq<Record>, g: Graph) {
    && (forall a, b :: b in Links(g, a) <==> Touching(records, a, b))
    && g.resolve.Keys == Digests(records) && forall d :: d in g.resolve ==> g.resolve[d] == d
  }

  lemma RootsAre(records: seq<Record>, roots: seq<string>, d: string)
    ensures d in RootDigests(ByRef(records), roots) <==> IsRoot(records, roots, d)
  {
    hide ByRef, Means;
    forall t ensures t in ByRef(records) && ByRef(records)[t].digest == d <==> exists r :: Means(records, t, r) && r.digest == d {
      ByRefMeans(records, t);
      if t in ByRef(records) { assert Means(records, t, ByRef(records)[t]); }
    }
  }

  lemma TouchingStored(records: seq<Record>, a: string, b: string)
    requires Touching(records, a, b)
    ensures b in Digests(records)
  {
    hide ByRef;
    forall t | t in ByRef(records) ensures ByRef(records)[t] in records { ByRefHas(records, t); }
  }

  lemma RootStored(records: seq<Record>, roots: seq<string>, d: string)
    requires IsRoot(records, roots, d)
    ensures d in Digests(records)
  {}

  lemma NearIff(records: seq<Record>, roots: seq<string>, g: Graph, k: nat, d: string)
    requires IsGraph(records, g)
    ensures d in Ball(g, RootDigests(ByRef(records), roots), k) <==> Near(records, roots, k, d)
  {
    hide Ball, Touching, IsRoot, RootDigests;
    var start := RootDigests(ByRef(records), roots);
    BallIsReachability(g, start, d, k);
    forall p ensures Route(g, start, p) <==> Walk(records, roots, p) { WalkIff(records, roots, g, p); }
  }

  lemma WalkIff(records: seq<Record>, roots: seq<string>, g: Graph, p: seq<string>)
    requires IsGraph(records, g)
    ensures Route(g, RootDigests(ByRef(records), roots), p) <==> Walk(records, roots, p)
  {
    hide Touching, IsRoot, RootDigests;
    var start := RootDigests(ByRef(records), roots);
    if p != [] {
      RootsAre(records, roots, p[0]);
      if IsRoot(records, roots, p[0]) { RootStored(records, roots, p[0]); }
      assert p[0] in Bfs.Targets(g, start) <==> IsRoot(records, roots, p[0]);
      forall i | 0 < i < |p| ensures p[i] in Neighbours(g, p[i - 1]) <==> Touching(records, p[i - 1], p[i]) {
        if Touching(records, p[i - 1], p[i]) { TouchingStored(records, p[i - 1], p[i]); }
      }
    }
  }

  lemma ExactDelivers(records: seq<Record>, roots: seq<string>, g: Graph, maxDepth: nat, maxNodes: nat, t: Traversal)
    requires IsGraph(records, g) && Exact(g, RootDigests(ByRef(records), roots), maxDepth, maxNodes, t)
    ensures Delivers(records, roots, maxDepth, maxNodes, t)
  {
    hide IsGraph, RootDigests, Near, Ball;
    var start := RootDigests(ByRef(records), roots);
    forall k: nat, d ensures d in Ball(g, start, k) <==> Near(records, roots, k, d) { NearIff(records, roots, g, k, d); }
    DistinctSize(t.selected);
    var ball := Ball(g, start, maxDepth);
    if t.truncated {
      if ball <= Elements(t.selected) { SubsetSize(ball, Elements(t.selected)); }
      var d :| d in ball && d !in Elements(t.selected);
      assert d !in t.selected;
    }
  }

  /** `bounded_graph`: refuse bad bounds, otherwise deliver the exact bounded traversal of the
      undirected relationship graph. */
  method BoundedGraph(records: seq<Record>, roots: seq<string>, maxDepth: int, maxNodes: int)
    returns (r: Result)
    ensures r.BadBounds? <==> maxDepth < 0 || maxNodes < 1
    ensures r.Ok? ==> Delivers(records, roots, maxDepth, maxNodes, r.value)
  {
    hide Exact, Touching, Delivers;
    if maxDepth < 0 || maxNodes < 1 { return BadBounds; }
    var byRef := IndexRecords(records);
    var adjacency := BuildAdjacency(records, byRef);
    forall t | t in ByRef(records) ensures ByRef(records)[t] in records { ByRefHas(records, t); }
    var graph := Undirected(records, adjacency);
    forall u, v | v in Links(graph, u) ensures v in graph.resolve {
      assert v in Adjacent(adjacency, u) && Touching(records, u, v);
      TouchingStored(records, u, v);
    }
    var t := Traverse(graph, RootDigests(byRef, roots), maxDepth, maxNodes);
    assert forall a, b :: b in Links(graph, a) <==> b in Adjacent(adjacency, a);
    ExactDelivers(records, roots, graph, maxDepth, maxNodes, t);
    r := Ok(t);
  }
}
