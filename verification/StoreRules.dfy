/** What admission guarantees, said of the stored records themselves: dependencies never lead back, every revision names
    the one before it, and finished work was begun. */
module StoreRules {
  import opened Order
  import opened Records
  import opened Cycles
  import opened Semantic
  import WorkProtocol

  // ---------------------------------------------------------------- dependencies

  /** One of its `supersedes` or `depends_on` relations names the other record. */
  ghost predicate DependsOn(records: seq<Record>, a: Record, b: Record) {
    exists j :: 0 <= j < |a.relations| && a.relations[j].kind in {"supersedes", "depends_on"}
                && Means(records, a.relations[j].target, b)
  }

  /** Stored records, each depending on the next, and the last of them is the first again. */
  ghost predicate Loop(records: seq<Record>, p: seq<Record>) {
    && |p| > 1 && p[0] == p[|p| - 1] && (forall i :: 0 <= i < |p| ==> p[i] in records)
    && forall i :: 0 < i < |p| ==> DependsOn(records, p[i - 1], p[i])
  }

  lemma {:induction false} KnownMeans(records: seq<Record>, ref: string)
    ensures ref in Known(records) <==> ref in ByRef(records)
    ensures ref in Known(records) ==> Known(records)[ref] == ByRef(records)[ref].digest
  {
    if records != [] { KnownMeans(records[..|records| - 1], ref); }
  }

  lemma NeedsIff(records: seq<Record>, a: Record, d: string)
    ensures Needs(a, Known(records), |a.relations|, d) <==> exists b :: DependsOn(records, a, b) && b.digest == d
  {
    hide Means, ByRef, Known;
    forall ref ensures ref in Known(records) && Known(records)[ref] == d <==> exists b :: Means(records, ref, b) && b.digest == d {
      KnownMeans(records, ref);
      ByRefMeans(records, ref);
      if ref in ByRef(records) { assert Means(records, ref, ByRef(records)[ref]); }
    }
    if b :| DependsOn(records, a, b) && b.digest == d {
      var j :| 0 <= j < |a.relations| && a.relations[j].kind in {"supersedes", "depends_on"}
               && Means(records, a.relations[j].target, b);
      assert Ordering(a.relations[j]);
    }
  }

  lemma EdgeIff(records: seq<Record>, a: Record, d: string)
    requires DistinctDigests(records) && a in records
    ensures EdgeIn(records, Known(records), a.digest, d) <==> exists b :: DependsOn(records, a, b) && b.digest == d
  {
    NeedsIff(records, a, d);
    hide Needs, Known, DependsOn;
    var i :| 0 <= i < |records| && records[i] == a;
  }

  lemma DependencyStored(records: seq<Record>, a: Record, b: Record)
    requires DependsOn(records, a, b)
    ensures b in records
  {}

  /** A cycle among digests is a loop of records. */
  lemma {:induction false} CycleIsLoop(records: seq<Record>, e: Edges, p: seq<string>) returns (q: seq<Record>)
    requires DistinctDigests(records) && IsRelationGraph(records, e) && Path(e, p) && |p| > 1
    ensures |q| == |p| && (forall i :: 0 <= i < |p| ==> q[i] in records && q[i].digest == p[i])
    ensures forall i :: 0 < i < |p| ==> DependsOn(records, q[i - 1], q[i])
  {
    hide EdgeIn, Known, DependsOn, DistinctDigests;
    var n := |p| - 1;
    assert EdgeIn(records, Known(records), p[n - 1], p[n]);
    var a: Record;
    if n == 1 {
      a := EdgeStored(records, p[0], p[1]);
      q := [a];
    } else {
      q := CycleIsLoop(records, e, p[..n]);
      a := q[n - 1];
    }
    EdgeIff(records, a, p[n]);
    var b :| DependsOn(records, a, b) && b.digest == p[n];
    DependencyStored(records, a, b);
    q := q + [b];
  }

  lemma EdgeStored(records: seq<Record>, a: string, b: string) returns (r: Record)
    requires EdgeIn(records, Known(records), a, b)
    ensures r in records && r.digest == a
  {
    hide Needs, Known;
    var i :| 0 <= i < |records| && records[i].digest == a && Needs(records[i], Known(records), |records[i].relations|, b);
    r := records[i];
  }

  /** The relations of a store are acyclic exactly when no such loop exists. */
  lemma AcyclicIff(records: seq<Record>)
    requires DistinctDigests(records)
    ensures AcyclicRelations(records) <==> forall p :: !Loop(records, p)
  {
    hide EdgeIn, Known, DependsOn;
    forall p | Loop(records, p) ensures !AcyclicRelations(records) { LoopIsCycle(records, p); }
    if !AcyclicRelations(records) {
      var e :| IsRelationGraph(records, e) && Cyclic(e);
      var p :| CycleAt(e, p);
      var q := CycleIsLoop(records, e, p);
      SameDigest(records, q[0], q[|q| - 1]);
      assert Loop(records, q);
    }
  }

  lemma SameDigest(records: seq<Record>, a: Record, b: Record)
    requires DistinctDigests(records) && a in records && b in records && a.digest == b.digest
    ensures a == b
  {
    var i :| 0 <= i < |records| && records[i] == a;
    var j :| 0 <= j < |records| && records[j] == b;
  }

  lemma LoopIsCycle(records: seq<Record>, p: seq<Record>)
    requires DistinctDigests(records) && Loop(records, p)
    ensures !AcyclicRelations(records)
  {
    hide EdgeIn, Known, DependsOn, AcyclicRelations, DistinctDigests;
    var d := seq(|p|, i requires 0 <= i < |p| => p[i].digest);
    forall i | 0 < i < |d| ensures EdgeIn(records, Known(records), d[i - 1], d[i]) {
      assert DependsOn(records, p[i - 1], p[i]);
      EdgeIff(records, p[i - 1], d[i]);
    }
    ClosedWalk(records, d);
  }

  // ---------------------------------------------------------------- revisions

  /** Among records built by admissions every one but the first with its id names, by digest and by number, a revision
      stored before it; and none names itself. */
  lemma EveryRevisionFollows(records: seq<Record>, i: nat, j: nat) returns (k: nat)
    requires WellGrown(records) && i < j < |records| && LogicalId(records[i]) == LogicalId(records[j])
    ensures k < j && LogicalId(records[k]) == LogicalId(records[j])
    ensures records[j].previousDigest == Some(records[k].digest) && records[j].revision == Some(Revision(records[k]) + 1)
  {
    var id := LogicalId(records[j]);
    hide AcyclicRelations;
    FamilyFront(records, id, j);
    var before, all := Family(records[..j], id), Family(records[..j + 1], id);
    assert records[..j + 1][..j] == records[..j];
    assert all == before + [records[j]];
    FamilyMembers(records[..j], id, records[i]);
    assert records[..j][i] == records[i];
    var last := before[|before| - 1];
    assert RevisionChain(Family(records, id)) && all <= Family(records, id);
    assert Family(records, id)[|before|] == records[j] && Family(records, id)[|before| - 1] == last;
    FamilyMembers(records[..j], id, last);
    k :| 0 <= k < j && records[..j][k] == last;
  }

  lemma {:induction false} FamilyFront(records: seq<Record>, id: string, n: nat)
    requires n < |records|
    ensures Family(records[..n + 1], id) <= Family(records, id)
    decreases |records|
  {
    if n + 1 < |records| {
      var front := records[..|records| - 1];
      FamilyFront(front, id, n);
      assert front[..n + 1] == records[..n + 1];
    } else {
      assert records[..n + 1] == records;
    }
  }

  lemma NothingNamesItself(records: seq<Record>, r: Record, j: nat)
    requires WellGrown(records) && r in records && j < |r.relations|
    ensures r.relations[j].target != r.digest && Some(r.relations[j].target) != r.recordId
    ensures r.kind == "Replication" && r.replicates.Some? ==> r.replicates != Some(r.digest) && r.replicates != r.recordId
  {
    hide Histories, AcyclicRelations, Producers.Consistent;
    var i :| 0 <= i < |records| && records[i] == r;
    assert !NamesItself(records[i]);
  }

  // ---------------------------------------------------------------- work

  /** A request of the work protocol starts as submitted, from nothing. Completed, it was running or checkpointed before; running, it
      was assigned, queued, checkpointed, blocked or retrying. */
  lemma {:induction false} WorkWasBegun(f: seq<Record>, i: nat) returns (j: nat)
    requires WorkChain(f) && i < |f| && f[i].work.Some? && f[i].work.value.state in {"completed", "running"}
    ensures j < i && f[0].work.Some? && f[0].work.value.state == "submitted"
    ensures f[0].work.value.event == Some(WorkProtocol.StateEvent(None))
    ensures f[j].work.Some? && f[j].work.value.state in
            (if f[i].work.value.state == "completed" then {"running", "checkpointed"}
             else {"assigned", "queued", "checkpointed", "blocked", "retrying"})
    decreases i
  {
    WorkFromTheStart(f, 0, i);
    assert WorkBefore(f, 0) == None && WorkProtocol.Follows(WorkBefore(f, 0), f[0].work);
    assert WorkProtocol.Follows(WorkBefore(f, i), f[i].work);
    if i == 0 {
      assert false;
    } else {
      var before, after := f[i - 1].work.value, f[i].work.value;
      assert WorkProtocol.Step(before, after);
      if before.state == after.state {
        j := WorkWasBegun(f, i - 1);
      } else {
        j := i - 1;
        StatesBefore(before.state, after.state);
      }
    }
  }

  lemma StatesBefore(from: string, to: string)
    requires to in WorkProtocol.AllowedStates(from)
    ensures to == "completed" ==> from in {"running", "checkpointed"}
    ensures to == "running" ==> from in {"assigned", "queued", "checkpointed", "blocked", "retrying"}
  {}

  /** Every later revision of a request repeats the request, and its event starts from the state before it. */
  lemma EveryStepStartsThere(f: seq<Record>, i: nat)
    requires WorkChain(f) && 0 < i < |f| && f[i].work.Some?
    ensures f[i - 1].work.Some? && f[i].work.value.request == f[i - 1].work.value.request
    ensures f[i].work.value.event == Some(WorkProtocol.StateEvent(Some(f[i - 1].work.value.state)))
  {
    assert WorkProtocol.Follows(WorkBefore(f, i), f[i].work);
  }

  /** What the revisions state about coordination moves one way at the end: complete, abandoned and superseded stay,
      and nothing is complete that was not in progress, verifying or complete from the start. */
  lemma {:induction false} CoordinationEnds(f: seq<Record>, i: nat, j: nat)
    requires WorkChain(f) && i <= j < |f| && f[j].work.Some?
    ensures f[i].work.Some?
    ensures var was, now := WorkProtocol.Coordination(f[i].work.value), WorkProtocol.Coordination(f[j].work.value);
            && (was in {"COMPLETE", "ABANDONED", "SUPERSEDED"} ==> now == was)
            && (now == "COMPLETE" && was != "COMPLETE" ==>
                  exists k :: i <= k < j && f[k].work.Some?
                              && WorkProtocol.Coordination(f[k].work.value) in {"IN_PROGRESS", "VERIFYING"})
    decreases j
  {
    WorkFromTheStart(f, i, j);
    if i < j {
      assert WorkProtocol.Follows(WorkBefore(f, j), f[j].work);
      WorkFromTheStart(f, j - 1, j);
      CoordinationEnds(f, i, j - 1);
      CoordinationStep(WorkProtocol.Coordination(f[j - 1].work.value), WorkProtocol.Coordination(f[j].work.value));
    }
    hide WorkProtocol.Coordination, WorkProtocol.AllowedCoordination, WorkProtocol.AllowedStates;
  }

  lemma CoordinationStep(from: string, to: string)
    requires to == from || to in WorkProtocol.AllowedCoordination(from)
    ensures from in {"COMPLETE", "ABANDONED", "SUPERSEDED"} ==> to == from
    ensures to == "COMPLETE" && from != "COMPLETE" ==> from in {"IN_PROGRESS", "VERIFYING"}
  {}
}
