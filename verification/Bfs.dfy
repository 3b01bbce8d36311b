/** Breadth-first search over references, as both graph walks of the repository perform it:
    the queue may hold duplicates, references that resolve to nothing are skipped, and a
    node is expanded only below the depth bound. */
module Bfs {
  /** `links` are the references a node carries; `resolve` says which node a reference names. */
  datatype Graph = Graph(links: map<string, set<string>>, resolve: map<string, string>)

  datatype Entry = Entry(ref: string, depth: nat)

  function Links(g: Graph, n: string): set<string> {
    if n in g.links then g.links[n] else {}
  }

  function Targets(g: Graph, refs: set<string>): set<string> {
    set r | r in refs && r in g.resolve :: g.resolve[r]
  }

  function Neighbours(g: Graph, n: string): set<string> {
    Targets(g, Links(g, n))
  }

  /** The nodes within `k` hops of the roots. */
  function Ball(g: Graph, roots: set<string>, k: nat): set<string> {
    if k == 0 then Targets(g, roots)
    else Ball(g, roots, k - 1) + (set u, v | u in Ball(g, roots, k - 1) && v in Neighbours(g, u) :: v)
  }

  // ---------------------------------------------------------------- balls are reachability

  /** `p` starts at a root and follows one reference at a time. */
  ghost predicate Route(g: Graph, roots: set<string>, p: seq<string>) {
    |p| > 0 && p[0] in Targets(g, roots) && forall i :: 0 < i < |p| ==> p[i] in Neighbours(g, p[i - 1])
  }

  lemma {:induction false} RouteStaysInBall(g: Graph, roots: set<string>, p: seq<string>)
    requires Route(g, roots, p)
    ensures p[|p| - 1] in Ball(g, roots, |p| - 1)
  {
    if |p| > 1 {
      RouteStaysInBall(g, roots, p[..|p| - 1]);
    }
  }

  lemma {:induction false} BallGrows(g: Graph, roots: set<string>, j: nat, k: nat)
    requires j <= k
    ensures Ball(g, roots, j) <= Ball(g, roots, k)
    decreases k
  {
    if j < k { BallGrows(g, roots, j, k - 1); }
  }

  lemma {:induction false} RouteTo(g: Graph, roots: set<string>, n: string, k: nat) returns (p: seq<string>)
    requires n in Ball(g, roots, k)
    ensures Route(g, roots, p) && p[|p| - 1] == n && |p| <= k + 1
    decreases k
  {
    if k == 0 {
      p := [n];
    } else if n in Ball(g, roots, k - 1) {
      p := RouteTo(g, roots, n, k - 1);
    } else {
      var u :| u in Ball(g, roots, k - 1) && n in Neighbours(g, u);
      p := RouteTo(g, roots, u, k - 1);
      p := p + [n];
    }
  }

  /** A node lies in the ball of radius `k` exactly when a route of at most `k` hops leads to it. */
  lemma BallIsReachability(g: Graph, roots: set<string>, n: string, k: nat)
    ensures n in Ball(g, roots, k) <==>
            exists p :: Route(g, roots, p) && |p| <= k + 1 && p[|p| - 1] == n
  {
    if n in Ball(g, roots, k) {
      var p := RouteTo(g, roots, n, k);
    }
    forall p | Route(g, roots, p) && |p| <= k + 1 && p[|p| - 1] == n ensures n in Ball(g, roots, k) {
      RouteStaysInBall(g, roots, p);
      BallGrows(g, roots, |p| - 1, k);
    }
  }

  // ---------------------------------------------------------------- the search invariant

  /** Some entry no deeper than `k` names the node. */
  ghost predicate Pending(g: Graph, queue: seq<Entry>, n: string, k: nat) {
    exists i :: 0 <= i < |queue| && queue[i].ref in g.resolve && g.resolve[queue[i].ref] == n && queue[i].depth <= k
  }

  ghost predicate Layered(queue: seq<Entry>, maxDepth: nat) {
    forall i, j :: 0 <= i <= j < |queue| ==>
      queue[i].depth <= queue[j].depth <= queue[0].depth + 1 && queue[j].depth <= maxDepth
  }

  ghost predicate QueuedInBall(g: Graph, roots: set<string>, queue: seq<Entry>) {
    forall i :: 0 <= i < |queue| && queue[i].ref in g.resolve ==>
      g.resolve[queue[i].ref] in Ball(g, roots, queue[i].depth)
  }

  /** `dist` is the true distance of every node seen so far. */
  ghost predicate Distances(g: Graph, roots: set<string>, dist: map<string, nat>) {
    && (forall u :: u in dist ==> u in Ball(g, roots, dist[u]))
    && (forall u, j: nat :: u in dist && u in Ball(g, roots, j) ==> dist[u] <= j)
  }

  ghost predicate RootsCovered(g: Graph, roots: set<string>, dist: map<string, nat>, queue: seq<Entry>) {
    forall n :: n in Targets(g, roots) ==> n in dist || Pending(g, queue, n, 0)
  }

  ghost predicate NeighboursCovered(g: Graph, maxDepth: nat, dist: map<string, nat>, queue: seq<Entry>) {
    forall u, v :: u in dist && dist[u] < maxDepth && v in Neighbours(g, u) ==>
      v in dist || Pending(g, queue, v, dist[u] + 1)
  }

  ghost predicate NoDeeper(dist: map<string, nat>, maxDepth: nat, queue: seq<Entry>) {
    forall u :: u in dist ==> dist[u] <= maxDepth && (queue != [] ==> dist[u] <= queue[0].depth)
  }

  ghost predicate Searching(g: Graph, roots: set<string>, maxDepth: nat, dist: map<string, nat>, queue: seq<Entry>) {
    && Layered(queue, maxDepth) && QueuedInBall(g, roots, queue) && Distances(g, roots, dist)
    && RootsCovered(g, roots, dist, queue) && NeighboursCovered(g, maxDepth, dist, queue)
    && NoDeeper(dist, maxDepth, queue)
  }

  lemma NothingPending(g: Graph, queue: seq<Entry>, maxDepth: nat, j: nat)
    requires Layered(queue, maxDepth) && (queue != [] ==> j < queue[0].depth)
    ensures forall n, k: nat :: k <= j ==> !Pending(g, queue, n, k)
  {
    assert forall i :: 0 <= i < |queue| ==> queue[0].depth <= queue[i].depth;
  }

  /** Every node closer than the head of the queue has been seen. */
  lemma {:induction false} CloserNodesSeen(g: Graph, roots: set<string>, maxDepth: nat, dist: map<string, nat>,
                                           queue: seq<Entry>, j: nat)
    requires Searching(g, roots, maxDepth, dist, queue)
    requires j <= maxDepth && (queue != [] ==> j < queue[0].depth)
    ensures Ball(g, roots, j) <= dist.Keys
  {
    NothingPending(g, queue, maxDepth, j);
    if j > 0 {
      CloserNodesSeen(g, roots, maxDepth, dist, queue, j - 1);
      forall u, v | u in Ball(g, roots, j - 1) && v in Neighbours(g, u) ensures v in dist {
        assert u in dist && dist[u] <= j - 1;
        assert !Pending(g, queue, v, dist[u] + 1);
      }
    }
  }

  lemma PendingAfterPop(g: Graph, queue: seq<Entry>, n: string, k: nat)
    requires queue != [] && Pending(g, queue, n, k)
    ensures Pending(g, queue[1..], n, k) || (queue[0].ref in g.resolve && g.resolve[queue[0].ref] == n)
  {
    var i :| 0 <= i < |queue| && queue[i].ref in g.resolve && g.resolve[queue[i].ref] == n && queue[i].depth <= k;
    if i > 0 { assert queue[1..][i - 1] == queue[i]; }
  }

  lemma PendingExtends(g: Graph, queue: seq<Entry>, more: seq<Entry>, n: string, k: nat)
    requires Pending(g, queue, n, k) || Pending(g, more, n, k)
    ensures Pending(g, queue + more, n, k)
  {
    if Pending(g, queue, n, k) {
      var i :| 0 <= i < |queue| && queue[i].ref in g.resolve && g.resolve[queue[i].ref] == n && queue[i].depth <= k;
      assert (queue + more)[i] == queue[i];
    } else {
      var i :| 0 <= i < |more| && more[i].ref in g.resolve && g.resolve[more[i].ref] == n && more[i].depth <= k;
      assert (queue + more)[|queue| + i] == more[i];
    }
  }

  /** Popping an entry that names nothing, or a node already seen, keeps the invariant. */
  lemma SkipKeeps(g: Graph, roots: set<string>, maxDepth: nat, dist: map<string, nat>, queue: seq<Entry>)
    requires Searching(g, roots, maxDepth, dist, queue) && queue != []
    requires queue[0].ref in g.resolve ==> g.resolve[queue[0].ref] in dist
    ensures Searching(g, roots, maxDepth, dist, queue[1..])
  {
    forall n, k: nat | Pending(g, queue, n, k) && n !in dist ensures Pending(g, queue[1..], n, k) {
      PendingAfterPop(g, queue, n, k);
    }
  }

  function Enqueue(refs: seq<string>, depth: nat): (r: seq<Entry>)
    ensures |r| == |refs|
    ensures forall i :: 0 <= i < |r| ==> r[i] == Entry(refs[i], depth)
  {
    if refs == [] then [] else [Entry(refs[0], depth)] + Enqueue(refs[1..], depth)
  }

  /** The queue before the first pop. */
  lemma StartKeeps(g: Graph, roots: set<string>, maxDepth: nat, refs: seq<string>)
    requires forall r :: r in refs <==> r in roots
    ensures Searching(g, roots, maxDepth, map[], Enqueue(refs, 0))
  {
    var queue := Enqueue(refs, 0);
    forall n | n in Targets(g, roots) ensures Pending(g, queue, n, 0) {
      var r :| r in roots && r in g.resolve && g.resolve[r] == n;
      var i :| 0 <= i < |refs| && refs[i] == r;
      assert queue[i] == Entry(r, 0);
    }
    assert QueuedInBall(g, roots, queue) by {
      forall i | 0 <= i < |queue| && queue[i].ref in g.resolve
        ensures g.resolve[queue[i].ref] in Ball(g, roots, queue[i].depth)
      {
        assert refs[i] in roots;
      }
    }
  }

  ghost predicate Expands(g: Graph, n: string, depth: nat, maxDepth: nat, more: seq<Entry>) {
    && (depth >= maxDepth ==> more == [])
    && (depth < maxDepth ==>
          && (forall i :: 0 <= i < |more| ==> more[i].depth == depth + 1 && more[i].ref in Links(g, n))
          && (forall r :: r in Links(g, n) ==> Entry(r, depth + 1) in more))
  }

  /** A node popped for the first time is at its true distance. */
  lemma SelectedDistance(g: Graph, roots: set<string>, maxDepth: nat, dist: map<string, nat>, queue: seq<Entry>)
    requires Searching(g, roots, maxDepth, dist, queue) && queue != []
    requires queue[0].ref in g.resolve && g.resolve[queue[0].ref] !in dist
    ensures Distances(g, roots, dist[g.resolve[queue[0].ref] := queue[0].depth])
    ensures g.resolve[queue[0].ref] in Ball(g, roots, maxDepth)
  {
    var n, d := g.resolve[queue[0].ref], queue[0].depth;
    assert d <= maxDepth by { assert Layered(queue, maxDepth); }
    assert n in Ball(g, roots, d);
    BallGrows(g, roots, d, maxDepth);
    forall j: nat | n in Ball(g, roots, j) ensures d <= j {
      if j < d { CloserNodesSeen(g, roots, maxDepth, dist, queue, j); }
    }
  }

  lemma SelectedCovers(g: Graph, roots: set<string>, maxDepth: nat, dist: map<string, nat>, queue: seq<Entry>, more: seq<Entry>)
    requires Searching(g, roots, maxDepth, dist, queue) && queue != []
    requires queue[0].ref in g.resolve && g.resolve[queue[0].ref] !in dist
    requires Expands(g, g.resolve[queue[0].ref], queue[0].depth, maxDepth, more)
    ensures var next := dist[g.resolve[queue[0].ref] := queue[0].depth];
            RootsCovered(g, roots, next, queue[1..] + more) && NeighboursCovered(g, maxDepth, next, queue[1..] + more)
  {
    var n, d := g.resolve[queue[0].ref], queue[0].depth;
    var next, rest := dist[n := d], queue[1..] + more;
    forall v, k: nat | Pending(g, queue, v, k) && v != n ensures Pending(g, rest, v, k) {
      PendingAfterPop(g, queue, v, k);
      PendingExtends(g, queue[1..], more, v, k);
    }
    forall v | d < maxDepth && v in Neighbours(g, n) ensures Pending(g, rest, v, d + 1) {
      var r :| r in Links(g, n) && r in g.resolve && g.resolve[r] == v;
      var i :| 0 <= i < |more| && more[i] == Entry(r, d + 1);
      PendingExtends(g, queue[1..], more, v, d + 1);
    }
    forall u, v | u in next && next[u] < maxDepth && v in Neighbours(g, u)
      ensures v in next || Pending(g, rest, v, next[u] + 1)
    {
      if u != n { assert v in dist || Pending(g, queue, v, dist[u] + 1); }
    }
  }

  lemma SelectedLayers(queue: seq<Entry>, more: seq<Entry>, maxDepth: nat)
    requires Layered(queue, maxDepth) && queue != []
    requires forall i :: 0 <= i < |more| ==> more[i].depth == queue[0].depth + 1 <= maxDepth
    ensures Layered(queue[1..] + more, maxDepth)
    ensures queue[1..] + more != [] ==> queue[0].depth <= (queue[1..] + more)[0].depth
  {
    var rest, d, n := queue[1..] + more, queue[0].depth, |queue| - 1;
    forall i | 0 <= i < |rest| ensures d <= rest[i].depth <= d + 1 && rest[i].depth <= maxDepth {
      if i < n { assert rest[i] == queue[i + 1]; } else { assert rest[i] == more[i - n]; }
    }
    forall i, j | 0 <= i <= j < |rest| ensures rest[i].depth <= rest[j].depth {
      if j < n { assert rest[i] == queue[i + 1] && rest[j] == queue[j + 1]; } else { assert rest[j] == more[j - n]; }
    }
  }

  lemma SelectedInBall(g: Graph, roots: set<string>, queue: seq<Entry>, more: seq<Entry>, n: string)
    requires QueuedInBall(g, roots, queue) && queue != [] && n in Ball(g, roots, queue[0].depth)
    requires forall i :: 0 <= i < |more| ==> more[i].depth == queue[0].depth + 1 && more[i].ref in Links(g, n)
    ensures QueuedInBall(g, roots, queue[1..] + more)
  {
    var rest := queue[1..] + more;
    forall i | 0 <= i < |rest| && rest[i].ref in g.resolve
      ensures g.resolve[rest[i].ref] in Ball(g, roots, rest[i].depth)
    {
      if i < |queue| - 1 {
        assert rest[i] == queue[i + 1];
      } else {
        assert rest[i] == more[i - (|queue| - 1)];
        assert g.resolve[rest[i].ref] in Neighbours(g, n);
      }
    }
  }

  /** Selecting the head node and queueing its links keeps the invariant. */
  lemma SelectKeeps(g: Graph, roots: set<string>, maxDepth: nat, dist: map<string, nat>, queue: seq<Entry>, more: seq<Entry>)
    requires Searching(g, roots, maxDepth, dist, queue) && queue != []
    requires queue[0].ref in g.resolve && g.resolve[queue[0].ref] !in dist
    requires Expands(g, g.resolve[queue[0].ref], queue[0].depth, maxDepth, more)
    ensures Searching(g, roots, maxDepth, dist[g.resolve[queue[0].ref] := queue[0].depth], queue[1..] + more)
  {
    SelectedDistance(g, roots, maxDepth, dist, queue);
    SelectedCovers(g, roots, maxDepth, dist, queue, more);
    SelectedLayers(queue, more, maxDepth);
    SelectedInBall(g, roots, queue, more, g.resolve[queue[0].ref]);
    assert queue[0].depth <= maxDepth by { assert Layered(queue, maxDepth); }
  }

  /** With the queue exhausted, the nodes seen are exactly the ball. */
  lemma ExhaustedIsBall(g: Graph, roots: set<string>, maxDepth: nat, dist: map<string, nat>)
    requires Searching(g, roots, maxDepth, dist, [])
    ensures dist.Keys == Ball(g, roots, maxDepth)
  {
    CloserNodesSeen(g, roots, maxDepth, dist, [], maxDepth);
    forall u | u in dist ensures u in Ball(g, roots, maxDepth) {
      BallGrows(g, roots, dist[u], maxDepth);
    }
  }
}
