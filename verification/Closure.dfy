/** The directed closure of a bundle (bundle.py): the records within a number of hops of the roots. */
module Closure {
  import opened Order
  import opened Bfs
  import opened Records
  import Retention
  import Compaction

  // ---------------------------------------------------------------- references

  function Targets(r: Record): seq<string> {
    seq(|r.relations|, i requires 0 <= i < |r.relations| => r.relations[i].target)
  }

  /** Records by digest, each linked to the references its relationships make. */
  function Directed(records: seq<Record>): Graph {
    var byDigest, byRef := Retention.ByDigest(records), ByRef(records);
    Graph(map d | d in byDigest :: set t | t in Targets(byDigest[d]), map ref | ref in byRef :: byRef[ref].digest)
  }

  /** With no roots, or an empty choice of roots, every record is one. */
  function Start(records: seq<Record>, roots: Option<set<string>>): set<string> {
    match roots
    case Some(refs) => if refs == {} then Digests(records) else refs
    case None => Digests(records)
  }

  // ---------------------------------------------------------------- the walk

  /** Found so far: each record under its own digest, at its distance. */
  ghost predicate Collected(records: seq<Record>, found: map<string, Record>, dist: map<string, nat>) {
    found.Keys == dist.Keys && forall d :: d in found ==> found[d] in records && found[d].digest == d
  }

  lemma RefNames(records: seq<Record>, ref: string)
    requires DistinctDigests(records) && ref in ByRef(records)
    ensures var r := ByRef(records)[ref];
            && r in records && ref in Directed(records).resolve && Directed(records).resolve[ref] == r.digest
            && Links(Directed(records), r.digest) == set t | t in Targets(r)
  {
    ByRefHas(records, ref);
    Compaction.ByDigestIs(records, ByRef(records)[ref]);
  }

  lemma QueuedTargets(records: seq<Record>, r: Record, depth: nat, maxDepth: nat)
    requires Links(Directed(records), r.digest) == set t | t in Targets(r)
    ensures Expands(Directed(records), r.digest, depth, maxDepth,
                    if depth >= maxDepth then [] else Enqueue(Targets(r), depth + 1))
  {
    var more := Enqueue(Targets(r), depth + 1);
    forall t | t in Targets(r) ensures Entry(t, depth + 1) in more {
      var i :| 0 <= i < |Targets(r)| && Targets(r)[i] == t;
      assert more[i] == Entry(t, depth + 1);
    }
  }

  /** Listed by digest. */
  predicate ByDigestOrder(records: seq<Record>) {
    forall i, j :: 0 <= i < j < |records| ==> LexLe(records[i].digest, records[j].digest)
  }

  /** `_closure`: exactly the records within `maxDepth` directed hops of the roots, each once, by digest. */
  method Select(records: seq<Record>, roots: Option<set<string>>, maxDepth: nat) returns (selected: seq<Record>)
    requires DistinctDigests(records)
    ensures DistinctDigests(selected) && forall r :: r in selected ==> r in records
    ensures Digests(selected) == Ball(Directed(records), Start(records, roots), maxDepth)
    ensures ByDigestOrder(selected)
    ensures forall r :: r in records ==> (r in selected <==> Reached(records, roots, maxDepth, r))
  {
    hide ByDigestOrder, Searching, Directed, Targets, Ball, Expands, ByRef, DistinctDigests, Collected, Digests, Start, Reached;
    var byRef := IndexRecords(records);
    ghost var g, start := Directed(records), Start(records, roots);
    var refs := Sorted(Start(records, roots));
    var queue := Enqueue(refs, 0);
    StartKeeps(g, start, maxDepth, refs);
    var found: map<string, Record> := map[];
    ghost var dist: map<string, nat> := map[];
    assert Collected(records, found, dist) by { NothingCollected(records); }
    while queue != []
      invariant Searching(g, start, maxDepth, dist, queue)
      invariant Collected(records, found, dist)
      decreases |Digests(records) - found.Keys|, |queue|
    {
      SameKeys(records, found, dist);
      var Entry(ref, depth) := queue[0];
      if ref !in byRef {
        Unresolved(records, ref);
        SkipKeeps(g, start, maxDepth, dist, queue);
        queue := queue[1..];
        continue;
      }
      var r := byRef[ref];
      RefNames(records, ref);
      if r.digest in found {
        SkipKeeps(g, start, maxDepth, dist, queue);
        queue := queue[1..];
        continue;
      }
      var more := if depth >= maxDepth then [] else Enqueue(Targets(r), depth + 1);
      QueuedTargets(records, r, depth, maxDepth);
      SelectKeeps(g, start, maxDepth, dist, queue, more);
      Shrinks(records, found, r);
      CollectOne(records, found, dist, r, depth);
      dist := dist[r.digest := depth];
      found := found[r.digest := r];
      queue := queue[1..] + more;
    }
    ExhaustedIsBall(g, start, maxDepth, dist);
    SameKeys(records, found, dist);
    selected := InOrder(found);
    forall r | r in records ensures r in selected <==> Reached(records, roots, maxDepth, r) {
      SelectedIff(records, roots, maxDepth, r);
      AmongIff(records, selected, r);
    }
  }

  lemma AmongIff(records: seq<Record>, some: seq<Record>, r: Record)
    requires DistinctDigests(records) && r in records && forall x :: x in some ==> x in records
    ensures r in some <==> r.digest in Digests(some)
  {
    if r.digest in Digests(some) {
      var x :| x in some && x.digest == r.digest;
      SameRecord(records, x, r);
    }
  }

  lemma Unresolved(records: seq<Record>, ref: string)
    requires ref !in ByRef(records)
    ensures ref !in Directed(records).resolve
  {}

  lemma SameKeys(records: seq<Record>, found: map<string, Record>, dist: map<string, nat>)
    requires Collected(records, found, dist)
    ensures found.Keys == dist.Keys && forall d :: d in found ==> found[d] in records && found[d].digest == d
  {}

  lemma NothingCollected(records: seq<Record>)
    ensures Collected(records, map[], map[])
  {}

  lemma CollectOne(records: seq<Record>, found: map<string, Record>, dist: map<string, nat>, r: Record, depth: nat)
    requires Collected(records, found, dist) && r in records
    ensures Collected(records, found[r.digest := r], dist[r.digest := depth])
  {}

  lemma Shrinks(records: seq<Record>, found: map<string, Record>, r: Record)
    requires r in records && r.digest !in found
    ensures |Digests(records) - found[r.digest := r].Keys| < |Digests(records) - found.Keys|
  {
    var all, d := Digests(records), r.digest;
    assert all - found.Keys == (all - found[d := r].Keys) + {d};
  }

  /** `sorted(found.values(), key=...)` */
  method InOrder(found: map<string, Record>) returns (selected: seq<Record>)
    requires forall d :: d in found ==> found[d].digest == d
    ensures DistinctDigests(selected) && Digests(selected) == found.Keys && ByDigestOrder(selected)
    ensures forall i :: 0 <= i < |selected| ==> selected[i].digest in found && selected[i] == found[selected[i].digest]
  {
    hide Sorted, LexLe, ByDigestOrder, Ascending;
    var keys := Sorted(found.Keys);
    SortedAscends(found.Keys);
    selected := seq(|keys|, i requires 0 <= i < |keys| => assert keys[i] in keys; found[keys[i]]);
    forall d | d in found ensures d in Digests(selected) {
      var i :| 0 <= i < |keys| && keys[i] == d;
      assert selected[i].digest == d && selected[i] in selected;
    }
    OrderedLike(keys, selected);
  }

  lemma OrderedLike(keys: seq<string>, records: seq<Record>)
    requires Ascending(keys) && |records| == |keys| && forall i :: 0 <= i < |keys| ==> records[i].digest == keys[i]
    ensures ByDigestOrder(records) && DistinctDigests(records)
  {
    hide LexLe;
  }

  // ---------------------------------------------------------------- what the walk selects

  /** One of its relations names the other record. */
  ghost predicate Relates(records: seq<Record>, a: Record, b: Record) {
    exists j :: 0 <= j < |a.relations| && Means(records, a.relations[j].target, b)
  }

  /** The record is a root: one of the references chosen means it, or some record's digest does if none were chosen. */
  ghost predicate IsRoot(records: seq<Record>, roots: Option<set<string>>, r: Record) {
    if roots in {None, Some({})} then exists x :: x in records && Means(records, x.digest, r)
    else exists ref :: ref in roots.value && Means(records, ref, r)
  }

  /** At most `maxDepth` relations lead, one record after the other, from a root to this record. */
  ghost predicate Reached(records: seq<Record>, roots: Option<set<string>>, maxDepth: nat, r: Record) {
    exists p :: Hops(records, roots, p) && |p| <= maxDepth + 1 && p[|p| - 1] == r
  }

  ghost predicate Hops(records: seq<Record>, roots: Option<set<string>>, p: seq<Record>) {
    p != [] && IsRoot(records, roots, p[0]) && forall i :: 0 < i < |p| ==> Relates(records, p[i - 1], p[i])
  }

  /** The selection, in terms of the records' own relations. */
  lemma SelectedIff(records: seq<Record>, roots: Option<set<string>>, maxDepth: nat, r: Record)
    requires DistinctDigests(records) && r in records
    ensures r.digest in Ball(Directed(records), Start(records, roots), maxDepth) <==> Reached(records, roots, maxDepth, r)
  {
    hide Directed, Start, Ball, Hops, Route;
    var g, start := Directed(records), Start(records, roots);
    BallIsReachability(g, start, r.digest, maxDepth);
    if p :| Route(g, start, p) && |p| <= maxDepth + 1 && RouteEnd(g, start, p) == r.digest {
      var q := RouteIsHops(records, roots, p);
      SameRecord(records, q[|q| - 1], r);
    }
    if Reached(records, roots, maxDepth, r) {
      var p := ReachedBy(records, roots, maxDepth, r);
      HopsAreRoute(records, roots, p);
    }
  }

  ghost function RouteEnd(g: Graph, start: set<string>, p: seq<string>): string
    requires Route(g, start, p)
  {
    p[|p| - 1]
  }

  lemma ReachedBy(records: seq<Record>, roots: Option<set<string>>, maxDepth: nat, r: Record) returns (p: seq<Record>)
    requires Reached(records, roots, maxDepth, r)
    ensures Hops(records, roots, p) && p != [] && |p| <= maxDepth + 1 && p[|p| - 1] == r
  {
    p :| Hops(records, roots, p) && |p| <= maxDepth + 1 && p[|p| - 1] == r;
  }

  lemma SameRecord(records: seq<Record>, a: Record, b: Record)
    requires DistinctDigests(records) && a in records && b in records && a.digest == b.digest
    ensures a == b
  {
    var i :| 0 <= i < |records| && records[i] == a;
    var j :| 0 <= j < |records| && records[j] == b;
  }

  /** A reference leads to a digest exactly when it means a record that has it. */
  lemma ResolvesIff(records: seq<Record>, ref: string, d: string)
    ensures ref in Directed(records).resolve && Directed(records).resolve[ref] == d <==>
            exists r :: Means(records, ref, r) && r.digest == d
  {
    ByRefMeans(records, ref);
    hide Means, ByRef;
    if ref in ByRef(records) { assert Means(records, ref, ByRef(records)[ref]); }
  }

  lemma MeansStored(records: seq<Record>, ref: string, r: Record)
    requires Means(records, ref, r)
    ensures r in records
  {}

  lemma TargetsIff(records: seq<Record>, refs: set<string>, d: string)
    ensures d in Bfs.Targets(Directed(records), refs) <==> exists ref, r :: ref in refs && Means(records, ref, r) && r.digest == d
  {
    var resolve := Directed(records).resolve;
    hide Directed, Means;
    if d in Bfs.Targets(Directed(records), refs) {
      var ref :| ref in refs && ref in resolve && resolve[ref] == d;
      ResolvesIff(records, ref, d);
    }
    if ref, r :| ref in refs && Means(records, ref, r) && r.digest == d { ResolvesIff(records, ref, d); }
  }

  lemma RootIff(records: seq<Record>, roots: Option<set<string>>, d: string)
    ensures d in Bfs.Targets(Directed(records), Start(records, roots)) <==> exists r :: IsRoot(records, roots, r) && r.digest == d
  {
    TargetsIff(records, Start(records, roots), d);
    hide Directed, Means, Bfs.Targets;
    if ref, r :| ref in Start(records, roots) && Means(records, ref, r) && r.digest == d {
      if roots in {None, Some({})} { var x :| x in records && x.digest == ref; }
      assert IsRoot(records, roots, r);
    }
    if r :| IsRoot(records, roots, r) && r.digest == d {
      if roots in {None, Some({})} {
        var x :| x in records && Means(records, x.digest, r);
        assert x.digest in Digests(records);
      }
    }
  }

  lemma LinksAre(records: seq<Record>, a: Record)
    requires DistinctDigests(records) && a in records
    ensures Links(Directed(records), a.digest) == set t | t in Targets(a)
  {
    Compaction.ByDigestIs(records, a);
  }

  lemma NeighbourIff(records: seq<Record>, a: Record, d: string)
    requires DistinctDigests(records) && a in records
    ensures d in Neighbours(Directed(records), a.digest) <==> exists r :: Relates(records, a, r) && r.digest == d
  {
    LinksAre(records, a);
    var refs := set t | t in Targets(a);
    TargetsIff(records, refs, d);
    hide Directed, Means, Bfs.Targets, DistinctDigests, Links;
    if ref, r :| ref in refs && Means(records, ref, r) && r.digest == d {
      var j :| 0 <= j < |Targets(a)| && Targets(a)[j] == ref;
      assert Means(records, a.relations[j].target, r);
    }
    if r :| Relates(records, a, r) && r.digest == d {
      var j :| 0 <= j < |a.relations| && Means(records, a.relations[j].target, r);
      assert Targets(a)[j] in refs;
    }
  }

  lemma RootStored(records: seq<Record>, roots: Option<set<string>>, r: Record)
    requires IsRoot(records, roots, r)
    ensures r in records
  {}

  lemma {:induction false} RouteIsHops(records: seq<Record>, roots: Option<set<string>>, p: seq<string>) returns (q: seq<Record>)
    requires DistinctDigests(records) && Route(Directed(records), Start(records, roots), p)
    ensures q != [] && |q| == |p| && Hops(records, roots, q) && q[|q| - 1] in records && q[|q| - 1].digest == p[|p| - 1]
  {
    hide Directed, Start, DistinctDigests, IsRoot, Relates;
    var n := |p| - 1;
    if n == 0 {
      RootIff(records, roots, p[0]);
      var r :| IsRoot(records, roots, r) && r.digest == p[0];
      RootStored(records, roots, r);
      q := [r];
    } else {
      q := RouteIsHops(records, roots, p[..n]);
      assert p[n] in Neighbours(Directed(records), p[n - 1]);
      NeighbourIff(records, q[n - 1], p[n]);
      var r :| Relates(records, q[n - 1], r) && r.digest == p[n];
      RelatedStored(records, q[n - 1], r);
      q := q + [r];
    }
  }

  lemma RelatedStored(records: seq<Record>, a: Record, b: Record)
    requires Relates(records, a, b)
    ensures b in records
  {}

  lemma {:induction false} HopsAreRoute(records: seq<Record>, roots: Option<set<string>>, q: seq<Record>)
    requires DistinctDigests(records) && Hops(records, roots, q)
    ensures var p := seq(|q|, i requires 0 <= i < |q| => q[i].digest);
            Route(Directed(records), Start(records, roots), p)
  {
    hide Directed, Start, DistinctDigests, IsRoot, Relates;
    var p := seq(|q|, i requires 0 <= i < |q| => q[i].digest);
    RootIff(records, roots, p[0]);
    RootStored(records, roots, q[0]);
    forall i | 0 < i < |q| ensures p[i] in Neighbours(Directed(records), p[i - 1]) {
      assert Relates(records, q[i - 1], q[i]);
      HopStored(records, roots, q, i - 1);
      NeighbourIff(records, q[i - 1], p[i]);
    }
  }

  lemma HopStored(records: seq<Record>, roots: Option<set<string>>, q: seq<Record>, i: nat)
    requires Hops(records, roots, q) && i < |q|
    ensures q[i] in records
  {
    hide IsRoot, Relates;
    if i == 0 { RootStored(records, roots, q[0]); } else { RelatedStored(records, q[i - 1], q[i]); }
  }
}
