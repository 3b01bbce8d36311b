/** Store-level admission of a record: the revision rule, the work protocol, producer references, self-relations
    and the acyclicity of `supersedes` and `depends_on`. */
module Semantic {
  import opened Order
  import opened Records
  import opened Cycles
  import WorkProtocol
  import Producers

  datatype Code =
    | RevisionRequired | Work(rule: WorkProtocol.Code) | ProducerReferenceConflict | ProducerDigestConflict
    | SelfRelation | SelfReplication | RelationCycle

  // ---------------------------------------------------------------- relation edges

  /** Which record a reference names; a later record takes a logical id over. */
  function Known(records: seq<Record>): map<string, string> {
    if records == [] then map[]
    else
      var r := records[|records| - 1];
      Known(records[..|records| - 1])[r.digest := r.digest][LogicalId(r) := r.digest]
  }

  predicate Ordering(r: Relation) {
    r.kind == "supersedes" || r.kind == "depends_on"
  }

  /** Record `r` must come after the record with digest `b`. */
  ghost predicate Needs(r: Record, known: map<string, string>, n: nat, b: string)
    requires n <= |r.relations|
  {
    exists j :: 0 <= j < n && Ordering(r.relations[j]) && r.relations[j].target in known
                && known[r.relations[j].target] == b
  }

  ghost predicate EdgeIn(records: seq<Record>, known: map<string, string>, a: string, b: string) {
    exists i :: 0 <= i < |records| && records[i].digest == a && Needs(records[i], known, |records[i].relations|, b)
  }

  /** The resolved `supersedes` and `depends_on` graph of a store. */
  ghost predicate IsRelationGraph(records: seq<Record>, e: Edges) {
    forall a, b :: b in Successors(e, a) <==> EdgeIn(records, Known(records), a, b)
  }

  lemma KnownAppend(records: seq<Record>, r: Record)
    ensures Known(records + [r]) == Known(records)[r.digest := r.digest][LogicalId(r) := r.digest]
  {
    assert (records + [r])[..|records|] == records;
  }

  method IndexKnown(records: seq<Record>) returns (known: map<string, string>)
    ensures known == Known(records)
  {
    known := map[];
    for i := 0 to |records|
      invariant known == Known(records[..i])
    {
      assert records[..i + 1][..i] == records[..i];
      known := known[records[i].digest := records[i].digest];
      known := known[LogicalId(records[i]) := records[i].digest];
    }
    assert records[..|records|] == records;
  }

  /** `e` with every edge from the record's first `n` relations added. */
  ghost predicate Extended(e: Edges, edges: Edges, r: Record, known: map<string, string>, n: nat)
    requires n <= |r.relations|
  {
    forall a: string, b: string {:trigger b in Successors(edges, a)} {:trigger b in Successors(e, a)} :: b in Successors(edges, a) <==>
      b in Successors(e, a) || (a == r.digest && Needs(r, known, n, b))
  }

  lemma ExtendedStep(e: Edges, edges: Edges, r: Record, known: map<string, string>, j: nat)
    requires j < |r.relations| && Extended(e, edges, r, known, j)
    ensures var relation := r.relations[j];
            Extended(e, if Ordering(relation) && relation.target in known
                        then edges[r.digest := Successors(edges, r.digest) + {known[relation.target]}] else edges,
                     r, known, j + 1)
  {
    var relation := r.relations[j];
    forall b: string ensures Needs(r, known, j + 1, b) <==>
        Needs(r, known, j, b) || (Ordering(relation) && relation.target in known && known[relation.target] == b)
    {}
    if Ordering(relation) && relation.target in known {
      var target := known[relation.target];
      var next := edges[r.digest := Successors(edges, r.digest) + {target}];
      forall a: string, b: string
        ensures b in Successors(next, a) <==> b in Successors(edges, a) || (a == r.digest && b == target)
      {}
    }
  }

  method AddEdges(e: Edges, r: Record, known: map<string, string>) returns (edges: Edges)
    ensures Extended(e, edges, r, known, |r.relations|)
  {
    edges := e;
    for j := 0 to |r.relations|
      invariant Extended(e, edges, r, known, j)
    {
      ExtendedStep(e, edges, r, known, j);
      var relation := r.relations[j];
      if Ordering(relation) && relation.target in known {
        edges := edges[r.digest := Successors(edges, r.digest) + {known[relation.target]}];
      }
    }
  }

  /** `_relation_edges` */
  method RelationEdges(records: seq<Record>) returns (edges: Edges)
    ensures IsRelationGraph(records, edges)
  {
    var known := IndexKnown(records);
    edges := map[];
    for i := 0 to |records|
      invariant forall a: string, b: string :: b in Successors(edges, a) <==> EdgeIn(records[..i], known, a, b)
    {
      ghost var before, front, next := edges, records[..i], records[..i + 1];
      edges := AddEdges(edges, records[i], known);
      forall a: string, b: string ensures b in Successors(edges, a) <==> EdgeIn(next, known, a, b) {
        EdgeAppend(front, records[i], known, a, b);
        assert next == front + [records[i]];
        assert b in Successors(before, a) <==> EdgeIn(front, known, a, b);
        assert b in Successors(edges, a) <==>
               b in Successors(before, a) || (a == records[i].digest && Needs(records[i], known, |records[i].relations|, b));
      }
    }
    assert records[..|records|] == records;
  }

  lemma EdgeAppend(front: seq<Record>, r: Record, known: map<string, string>, a: string, b: string)
    ensures EdgeIn(front + [r], known, a, b) <==>
            EdgeIn(front, known, a, b) || (r.digest == a && Needs(r, known, |r.relations|, b))
  {
    hide Needs;
    var all := front + [r];
    if EdgeIn(front, known, a, b) {
      var i :| 0 <= i < |front| && front[i].digest == a && Needs(front[i], known, |front[i].relations|, b);
      assert all[i] == front[i];
    }
    if r.digest == a && Needs(r, known, |r.relations|, b) { assert all[|front|] == r; }
    if EdgeIn(all, known, a, b) {
      var i :| 0 <= i < |all| && all[i].digest == a && Needs(all[i], known, |all[i].relations|, b);
      if i < |front| { assert all[i] == front[i]; }
    }
  }

  /** Any two graphs of the same records have the same cycles, so "the graph" is well defined. */
  lemma CyclesAreShared(records: seq<Record>, e: Edges, f: Edges)
    requires IsRelationGraph(records, e) && IsRelationGraph(records, f)
    ensures Cyclic(e) <==> Cyclic(f)
  {
    forall p ensures CycleAt(e, p) <==> CycleAt(f, p) {
      assert forall a :: Successors(e, a) == Successors(f, a);
    }
  }

  ghost predicate AcyclicRelations(records: seq<Record>) {
    forall e :: IsRelationGraph(records, e) ==> !Cyclic(e)
  }

  lemma GraphExists(records: seq<Record>) returns (e: Edges)
    ensures IsRelationGraph(records, e)
  {
    hide Needs;
    var known := Known(records);
    e := map a | a in Digests(records) :: set b | b in known.Values && EdgeIn(records, known, a, b);
    forall a, b | EdgeIn(records, known, a, b) ensures a in Digests(records) && b in known.Values {
      var i :| 0 <= i < |records| && records[i].digest == a && Needs(records[i], known, |records[i].relations|, b);
      NeededIsKnown(records[i], known, b);
    }
  }

  lemma NeededIsKnown(r: Record, known: map<string, string>, b: string)
    requires Needs(r, known, |r.relations|, b)
    ensures b in known.Values
  {}

  /** A closed walk along relations is a cycle of the store. */
  lemma ClosedWalk(records: seq<Record>, p: seq<string>)
    requires |p| > 1 && p[0] == p[|p| - 1]
    requires forall i :: 0 < i < |p| ==> EdgeIn(records, Known(records), p[i - 1], p[i])
    ensures !AcyclicRelations(records)
  {
    hide EdgeIn;
    var e := GraphExists(records);
    assert CycleAt(e, p);
  }

  /** A record without relations, stored under a new digest, closes no cycle, whatever names it. */
  lemma AcyclicWithSink(records: seq<Record>, r: Record)
    requires AcyclicRelations(records) && r.relations == [] && r.digest !in Digests(records)
    ensures AcyclicRelations(records + [r])
  {
    hide EdgeIn, Known, Needs;
    var all := records + [r];
    var before := GraphExists(records);
    forall e | IsRelationGraph(all, e) ensures !Cyclic(e) {
      forall p | CycleAt(e, p) ensures CycleAt(before, p) {
        forall i | 0 < i < |p| ensures p[i] in Successors(before, p[i - 1]) {
          var next := if i == |p| - 1 then p[1] else p[i + 1];
          assert next in Successors(e, p[i]);
          assert p[i] in Successors(e, p[i - 1]);
          NotTheSink(records, r, p[i], next);
          OldEdge(records, r, p[i - 1], p[i]);
        }
      }
    }
  }

  lemma NotTheSink(records: seq<Record>, r: Record, a: string, b: string)
    requires r.relations == [] && r.digest !in Digests(records) && EdgeIn(records + [r], Known(records + [r]), a, b)
    ensures a != r.digest
  {
    hide Known;
    var all := records + [r];
    var i :| 0 <= i < |all| && all[i].digest == a && Needs(all[i], Known(all), |all[i].relations|, b);
    assert i < |records| && all[i] == records[i];
  }

  lemma OldEdge(records: seq<Record>, r: Record, a: string, b: string)
    requires r.relations == [] && b != r.digest && EdgeIn(records + [r], Known(records + [r]), a, b)
    ensures EdgeIn(records, Known(records), a, b)
  {
    var all := records + [r];
    KnownAppend(records, r);
    hide Known;
    var i :| 0 <= i < |all| && all[i].digest == a && Needs(all[i], Known(all), |all[i].relations|, b);
    assert i < |records| && all[i] == records[i];
    assert Needs(records[i], Known(records), |records[i].relations|, b);
  }

  /** Relations that always lead upwards close no cycle. */
  lemma RankedIsAcyclic(records: seq<Record>, rank: string -> int)
    requires forall a, b :: EdgeIn(records, Known(records), a, b) ==> rank(a) < rank(b)
    ensures AcyclicRelations(records)
  {
    hide EdgeIn;
    forall e | IsRelationGraph(records, e) ensures !Cyclic(e) {
      forall p | CycleAt(e, p) ensures false { Climbs(e, p, rank, |p| - 1); }
    }
  }

  lemma {:induction false} Climbs(e: Edges, p: seq<string>, rank: string -> int, i: nat)
    requires Path(e, p) && i < |p| && forall a, b :: b in Successors(e, a) ==> rank(a) < rank(b)
    ensures rank(p[0]) + i <= rank(p[i])
  {
    if i > 0 {
      Climbs(e, p, rank, i - 1);
      assert p[i] in Successors(e, p[i - 1]);
    }
  }

  // ---------------------------------------------------------------- the latest revision

  /** `max(..., key=revision)`: the first record with the greatest revision. */
  function LatestOf(f: seq<Record>): Record
    requires f != []
  {
    if |f| == 1 then f[0]
    else
      var best, last := LatestOf(f[..|f| - 1]), f[|f| - 1];
      if Revision(last) > Revision(best) then last else best
  }

  method LatestRevision(f: seq<Record>) returns (latest: Record)
    requires f != []
    ensures latest == LatestOf(f)
  {
    latest := f[0];
    assert f[..1] == [f[0]];
    for i := 1 to |f|
      invariant latest == LatestOf(f[..i])
    {
      assert f[..i + 1][..i] == f[..i];
      if Revision(f[i]) > Revision(latest) { latest := f[i]; }
    }
    assert f[..|f|] == f;
  }

  /** In a chain of consecutive revisions the latest is the last. */
  lemma {:induction false} LatestOfChain(f: seq<Record>)
    requires RevisionChain(f) && f != []
    ensures LatestOf(f) == f[|f| - 1]
  {
    if |f| > 1 {
      var front := f[..|f| - 1];
      LatestOfChain(front);
      ChainRevisions(f, |f| - 2, |f| - 1);
    }
  }

  // ---------------------------------------------------------------- admission

  /** The candidate is already stored: same logical id, same digest. */
  predicate Stored(candidate: Record, existing: seq<Record>) {
    exists r :: r in existing && LogicalId(r) == LogicalId(candidate) && r.digest == candidate.digest
  }

  /** The candidate continues its family, or starts one. */
  predicate Continues(f: seq<Record>, candidate: Record) {
    f == [] ||
    (candidate.revision == Some(Revision(LatestOf(f)) + 1) && candidate.previousDigest == Some(LatestOf(f).digest))
  }

  /** The work part of the latest revision. */
  function LatestWork(f: seq<Record>): Option<Option<WorkProtocol.Work>> {
    if f == [] then None else Some(LatestOf(f).work)
  }

  predicate RelatesToItself(r: Record) {
    exists j :: 0 <= j < |r.relations| && r.relations[j].target in {r.digest, LogicalId(r)}
  }

  predicate ReplicatesItself(r: Record) {
    r.kind == "Replication" && r.replicates.Some? && r.replicates.value in {r.digest, LogicalId(r)}
  }

  predicate NamesItself(r: Record) {
    RelatesToItself(r) || ReplicatesItself(r)
  }

  /** The candidate may follow the stored revisions of its logical id. */
  predicate Succeeds(f: seq<Record>, candidate: Record) {
    Continues(f, candidate) && WorkProtocol.Follows(LatestWork(f), candidate.work)
  }

  /** The candidate passes every check against the stored records. */
  ghost predicate Admissible(candidate: Record, existing: seq<Record>) {
    && Succeeds(Family(existing, LogicalId(candidate)), candidate)
    && Producers.Accepted(AllProducers(existing), candidate.producers)
    && !NamesItself(candidate)
    && AcyclicRelations(existing + [candidate])
  }

  ghost predicate NoneNamesItself(records: seq<Record>) {
    forall i :: 0 <= i < |records| ==> !NamesItself(records[i])
  }

  ghost predicate Histories(records: seq<Record>) {
    forall id :: History(Family(records, id))
  }

  /** Histories in order, producer references in agreement, and no record that names itself. */
  ghost predicate Orderly(records: seq<Record>) {
    && Histories(records)
    && Producers.Consistent(AllProducers(records))
    && NoneNamesItself(records)
  }

  /** What every store built by admissions satisfies. */
  ghost predicate WellGrown(records: seq<Record>) {
    Orderly(records) && AcyclicRelations(records)
  }

  method CollectProducers(records: seq<Record>) returns (refs: seq<Producers.Reference>)
    ensures refs == AllProducers(records)
  {
    refs := [];
    for i := 0 to |records|
      invariant refs == AllProducers(records[..i])
    {
      assert records[..i + 1][..i] == records[..i];
      refs := refs + records[i].producers;
    }
    assert records[..|records|] == records;
  }

  /** The rules about one logical id's history. */
  method HistoryDiagnostics(f: seq<Record>, candidate: Record) returns (codes: set<Code>)
    ensures RevisionRequired in codes <==> !Continues(f, candidate)
    ensures (exists rule :: Work(rule) in codes) <==> !WorkProtocol.Follows(LatestWork(f), candidate.work)
    ensures codes == {} <==> Succeeds(f, candidate)
    ensures forall c :: c in codes ==> c.RevisionRequired? || c.Work?
  {
    codes := {};
    var prior := None;
    if f != [] {
      var latest := LatestRevision(f);
      prior := Some(latest.work);
      if candidate.revision != Some(Revision(latest) + 1) || candidate.previousDigest != Some(latest.digest) {
        codes := {RevisionRequired};
      }
    }
    var broken := WorkProtocol.Diagnose(prior, candidate.work);
    if broken != {} {
      var rule :| rule in broken;
      assert Work(rule) in set r | r in broken :: Work(r);
    }
    codes := codes + set rule | rule in broken :: Work(rule);
  }

  /** The rules about producer references. */
  method ProducerDiagnostics(existing: seq<Record>, candidate: Record) returns (codes: set<Code>)
    ensures codes <= {ProducerReferenceConflict, ProducerDigestConflict}
    ensures codes == {} <==> Producers.Accepted(AllProducers(existing), candidate.producers)
    ensures ProducerReferenceConflict in codes <==>
              exists j :: 0 <= j < |candidate.producers| &&
                Producers.ProducerConflict(AllProducers(existing) + candidate.producers[..j], candidate.producers[j])
    ensures ProducerDigestConflict in codes <==>
              exists j :: 0 <= j < |candidate.producers| &&
                Producers.DigestConflict(AllProducers(existing) + candidate.producers[..j], candidate.producers[j])
  {
    var known := CollectProducers(existing);
    var producer, digest := Producers.CheckReferences(known, candidate.producers);
    codes := (if producer then {ProducerReferenceConflict} else {}) + if digest then {ProducerDigestConflict} else {};
    Producers.AcceptedIff(known, candidate.producers);
  }

  /** `record_semantic_diagnostics` */
  method SemanticDiagnostics(candidate: Record, existing: seq<Record>) returns (codes: set<Code>)
    ensures Stored(candidate, existing) ==> codes == {}
    ensures !Stored(candidate, existing) ==>
              && (RevisionRequired in codes <==> !Continues(Family(existing, LogicalId(candidate)), candidate))
              && ((exists rule :: Work(rule) in codes) <==>
                    !WorkProtocol.Follows(LatestWork(Family(existing, LogicalId(candidate))), candidate.work))
              && (ProducerReferenceConflict in codes || ProducerDigestConflict in codes <==>
                    !Producers.Accepted(AllProducers(existing), candidate.producers))
              && (SelfRelation in codes <==> RelatesToItself(candidate))
              && (SelfReplication in codes <==> ReplicatesItself(candidate))
              && (RelationCycle in codes <==> !AcyclicRelations(existing + [candidate]))
    ensures !Stored(candidate, existing) ==> (codes == {} <==> Admissible(candidate, existing))
  {
    hide Continues, Producers.Accepted, WorkProtocol.Follows, Family, RelatesToItself, ReplicatesItself, AcyclicRelations,
         AllProducers, LatestWork, Stored, Producers.ProducerConflict, Producers.DigestConflict;
    codes := {};
    if Stored(candidate, existing) { return; }
    var history := HistoryDiagnostics(Family(existing, LogicalId(candidate)), candidate);
    var producers := ProducerDiagnostics(existing, candidate);
    var self := (if RelatesToItself(candidate) then {SelfRelation} else {}) +
                (if ReplicatesItself(candidate) then {SelfReplication} else {});
    var edges := RelationEdges(existing + [candidate]);
    var cyclic := HasCycle(edges);
    CycleVerdict(existing + [candidate], edges);
    codes := history + producers + self + if cyclic then {RelationCycle} else {};
    assert codes == {} <==> history == {} && producers == {} && self == {} && !cyclic by {
      EmptyUnion(history, producers, self, cyclic);
    }
  }

  lemma EmptyUnion(a: set<Code>, b: set<Code>, c: set<Code>, cyclic: bool)
    ensures a + b + c + (if cyclic then {RelationCycle} else {}) == {} <==> a == {} && b == {} && c == {} && !cyclic
  {
    var all := a + b + c + if cyclic then {RelationCycle} else {};
    assert a <= all && b <= all && c <= all;
    assert cyclic <==> RelationCycle in (if cyclic then {RelationCycle} else {});
  }

  lemma CycleVerdict(records: seq<Record>, edges: Edges)
    requires IsRelationGraph(records, edges)
    ensures Cyclic(edges) <==> !AcyclicRelations(records)
  {
    hide IsRelationGraph, Cyclic;
    forall e | IsRelationGraph(records, e) ensures Cyclic(e) <==> Cyclic(edges) { CyclesAreShared(records, e, edges); }
  }

  /** An admitted record leaves the store well grown: histories stay single chains, producer references agree,
      and the ordering relations stay acyclic. */
  lemma AdmissionKeepsWellGrown(existing: seq<Record>, candidate: Record)
    requires WellGrown(existing) && Admissible(candidate, existing)
    ensures WellGrown(existing + [candidate])
  {
    hide AcyclicRelations, Orderly, Succeeds, Family;
    OrderlyExtends(existing, candidate);
  }

  /** A run of admissions from the empty store. */
  ghost predicate Grown(records: seq<Record>) {
    records == [] ||
    (Grown(records[..|records| - 1]) && Admissible(records[|records| - 1], records[..|records| - 1]))
  }

  /** Over every run that admits only diagnostic-free records, revision histories never fork and
      the `supersedes`/`depends_on` graph stays acyclic. */
  lemma {:induction false} RunsStayWellGrown(records: seq<Record>)
    requires Grown(records)
    ensures WellGrown(records)
  {
    if records == [] {
      NothingGrown();
    } else {
      hide Admissible, WellGrown;
      RunsStayWellGrown(records[..|records| - 1]);
      AdmissionKeepsWellGrown(records[..|records| - 1], records[|records| - 1]);
      assert records == records[..|records| - 1] + [records[|records| - 1]];
    }
  }

  /** No cycle at any point while the records arrive one by one. */
  ghost predicate AcyclicStages(records: seq<Record>) {
    forall n :: 0 <= n <= |records| ==> AcyclicRelations(records[..n])
  }

  /** A fresh store admits these records in this order exactly when the histories, the producer references and
      the self-relations are in order and no stage closes a cycle. */
  lemma {:induction false} GrownIff(records: seq<Record>)
    ensures Grown(records) <==>
            Orderly(records) && AcyclicStages(records)
  {
    hide AcyclicRelations, NamesItself, Orderly, Family, Succeeds;
    if records == [] {
      NothingGrown();
      assert records[..0] == [];
    } else {
      var n := |records| - 1;
      var front, r := records[..n], records[n];
      assert records == front + [r];
      GrownIff(front);
      OrderlyExtends(front, r);
      StagesExtend(records);
    }
  }

  lemma NothingGrown()
    ensures Orderly([]) && AcyclicRelations([])
  {
    Unrelated([]);
  }

  /** What one more record changes. */
  lemma OrderlyExtends(front: seq<Record>, r: Record)
    ensures Orderly(front + [r]) <==>
            && Orderly(front) && Succeeds(Family(front, LogicalId(r)), r)
            && Producers.Accepted(AllProducers(front), r.producers) && !NamesItself(r)
  {
    hide Histories, Family, Succeeds, Producers.Consistent, Producers.Accepted, AllProducers, NamesItself;
    HistoriesExtend(front, r);
    ProducersAppend(front, r);
    Producers.ConsistentExtends(AllProducers(front), r.producers);
    NoneNamesExtends(front, r);
    hide NoneNamesItself;
  }

  lemma NoneNamesExtends(front: seq<Record>, r: Record)
    ensures NoneNamesItself(front + [r]) <==> NoneNamesItself(front) && !NamesItself(r)
  {
    hide NamesItself;
    var all := front + [r];
    assert all[|front|] == r;
    forall i | 0 <= i < |front| ensures all[i] == front[i] {}
    if NoneNamesItself(all) {
      forall i | 0 <= i < |front| ensures !NamesItself(front[i]) { assert !NamesItself(all[i]); }
    }
  }

  lemma StagesExtend(records: seq<Record>)
    requires records != []
    ensures AcyclicStages(records) <==> AcyclicStages(records[..|records| - 1]) && AcyclicRelations(records)
  {
    hide AcyclicRelations;
    var front := records[..|records| - 1];
    assert records[..|records|] == records;
    assert forall k :: 0 <= k <= |front| ==> front[..k] == records[..k];
    if AcyclicStages(records) {
      assert AcyclicRelations(records[..|records|]);
      forall k | 0 <= k <= |front| ensures AcyclicRelations(front[..k]) { assert AcyclicRelations(records[..k]); }
    }
    if AcyclicStages(front) && AcyclicRelations(records) {
      forall k | 0 <= k <= |records| ensures AcyclicRelations(records[..k]) {
        if k <= |front| { assert AcyclicRelations(front[..k]); }
      }
    }
  }

  lemma HistoriesExtend(front: seq<Record>, r: Record)
    ensures Histories(front + [r]) <==> Histories(front) && Succeeds(Family(front, LogicalId(r)), r)
  {
    hide Family, LatestOf, History, Succeeds;
    OneHistoryExtends(front, r, LogicalId(r));
    if Histories(front + [r]) {
      assert History(Family(front + [r], LogicalId(r)));
      forall id ensures History(Family(front, id)) { OneHistoryExtends(front, r, id); }
    } else {
      var id :| !History(Family(front + [r], id));
      OneHistoryExtends(front, r, id);
    }
  }

  lemma OneHistoryExtends(front: seq<Record>, r: Record, id: string)
    ensures History(Family(front + [r], id)) <==>
            History(Family(front, id)) && (id == LogicalId(r) ==> Succeeds(Family(front, id), r))
  {
    hide History, Succeeds;
    FamilyAppend(front, r, id);
    HistoryExtends(Family(front, id), r);
  }

  lemma HistoryExtends(f: seq<Record>, r: Record)
    ensures History(f + [r]) <==> History(f) && Succeeds(f, r)
  {
    ChainExtends(f, r);
    WorkChainExtends(f, r);
    if RevisionChain(f) && f != [] { LatestOfChain(f); }
    hide RevisionChain, WorkChain, Continues, WorkProtocol.Follows, LatestOf;
  }

  lemma WorkChainExtends(f: seq<Record>, r: Record)
    ensures WorkChain(f + [r]) <==> WorkChain(f) && WorkProtocol.Follows(WorkBefore(f, |f|), r.work)
  {
    hide WorkProtocol.Follows;
    var g := f + [r];
    assert WorkBefore(g, |f|) == WorkBefore(f, |f|) && g[|f|] == r;
    forall i | 0 <= i < |f| ensures WorkBefore(g, i) == WorkBefore(f, i) && g[i] == f[i] {}
    if WorkChain(g) {
      forall i | 0 <= i < |f| ensures WorkProtocol.Follows(WorkBefore(f, i), f[i].work) {
        assert WorkProtocol.Follows(WorkBefore(g, i), g[i].work);
      }
    }
  }

  lemma ChainExtends(f: seq<Record>, r: Record)
    ensures RevisionChain(f + [r]) <==> RevisionChain(f) && Continues(f, r)
  {
    var g := f + [r];
    assert forall i :: 0 <= i < |f| ==> g[i] == f[i];
    if RevisionChain(g) {
      forall i | 0 < i < |f|
        ensures f[i].revision == Some(Revision(f[i - 1]) + 1) && f[i].previousDigest == Some(f[i - 1].digest)
      {
        assert g[i] == f[i] && g[i - 1] == f[i - 1];
      }
    }
    if RevisionChain(f) && f != [] {
      LatestOfChain(f);
      var n := |f|;
      assert g[n] == r && g[n - 1] == f[n - 1];
      if Continues(f, r) {
        forall i | 0 < i < |g|
          ensures g[i].revision == Some(Revision(g[i - 1]) + 1) && g[i].previousDigest == Some(g[i - 1].digest)
        {
          if i < n { assert g[i] == f[i] && g[i - 1] == f[i - 1]; }
        }
      }
    }
  }

  lemma FirstStep(e: Edges, p: seq<string>)
    requires CycleAt(e, p)
    ensures p[1] in Successors(e, p[0])
  {}

  /** Two stored records with the same logical id and the same revision are the same record. */
  lemma RevisionsAreUnique(records: seq<Record>, i: nat, j: nat)
    requires WellGrown(records) && i < |records| && j < |records|
    requires LogicalId(records[i]) == LogicalId(records[j]) && Revision(records[i]) == Revision(records[j])
    ensures records[i] == records[j]
  {
    var f := Family(records, LogicalId(records[i]));
    FamilyMembers(records, LogicalId(records[i]), records[i]);
    FamilyMembers(records, LogicalId(records[i]), records[j]);
    var a :| 0 <= a < |f| && f[a] == records[i];
    var b :| 0 <= b < |f| && f[b] == records[j];
    if a <= b { ChainRevisions(f, a, b); } else { ChainRevisions(f, b, a); }
  }

  // ---------------------------------------------------------------- open work

  /** A work request that states its record id and its revision. */
  predicate Explicit(r: Record) {
    r.kind == "WorkRequest" && r.recordId.Some? && r.revision.Some?
  }

  /** No explicit work request of the same id has a greater revision. */
  ghost predicate LatestExplicit(records: seq<Record>, r: Record) {
    && r in records && Explicit(r)
    && forall x :: x in records && Explicit(x) && x.recordId == r.recordId ==> Revision(x) <= Revision(r)
  }

  /** The revision selection of `records_for` for open work requests. */
  method SelectWork(records: seq<Record>) returns (latest: map<string, Record>, unrevisioned: seq<Record>)
    ensures forall id :: id in latest ==> LatestExplicit(records, latest[id]) && latest[id].recordId == Some(id)
    ensures forall r :: r in records && Explicit(r) ==> r.recordId.value in latest
    ensures forall r :: r in unrevisioned <==> r in records && r.kind == "WorkRequest" && !Explicit(r)
  {
    latest, unrevisioned := map[], [];
    for i := 0 to |records|
      invariant forall id :: id in latest ==> LatestExplicit(records[..i], latest[id]) && latest[id].recordId == Some(id)
      invariant forall r :: r in records[..i] && Explicit(r) ==> r.recordId.value in latest
      invariant forall r :: r in unrevisioned <==> r in records[..i] && r.kind == "WorkRequest" && !Explicit(r)
    {
      var r := records[i];
      assert records[..i + 1] == records[..i] + [r];
      if r.kind == "WorkRequest" {
        if r.recordId.None? || r.revision.None? {
          unrevisioned := unrevisioned + [r];
        } else {
          var id := r.recordId.value;
          if id !in latest || r.revision.value > Revision(latest[id]) { latest := latest[id := r]; }
        }
      }
    }
    assert records[..|records|] == records;
  }

  /** In a store built by admissions the selected work request of an id does not depend on the
      order in which the records were read. */
  lemma SelectionIsOrderFree(records: seq<Record>, a: Record, b: Record)
    requires WellGrown(records) && a.recordId == b.recordId
    requires LatestExplicit(records, a) && LatestExplicit(records, b)
    ensures a == b
  {
    var i :| 0 <= i < |records| && records[i] == a;
    var j :| 0 <= j < |records| && records[j] == b;
    RevisionsAreUnique(records, i, j);
  }

  /** `r` has been superseded by a stored revision of the same logical id. */
  ghost predicate Outdated(records: seq<Record>, r: Record) {
    exists x :: x in records && LogicalId(x) == LogicalId(r) && Revision(x) > Revision(r)
  }

  /** A family may change kind between revisions, and then the selection still lists the work
      request that the later revision replaced. */
  lemma KindChangeListsOutdatedWork(r: Record, x: Record)
    requires Explicit(r) && Plain(r) && Plain(x) && x.kind != "WorkRequest" && r.relations == [] && x.relations == []
    requires x.recordId == r.recordId && x.revision == Some(Revision(r) + 1) && x.previousDigest == Some(r.digest)
    ensures Grown([r, x]) && LatestExplicit([r, x], r) && Listed([r, x], r) && Outdated([r, x], r)
  {
    TwoGrow(r, x);
    assert x in [r, x];
  }

  /** A request that leaves out its revision stays listed beside the revision that replaced it, although both are
      work requests. */
  lemma UnrevisionedWorkStaysListed(r: Record, x: Record)
    requires r.kind == "WorkRequest" && r.recordId.Some? && r.revision.None? && Explicit(x)
    requires Plain(r) && Plain(x) && r.relations == [] && x.relations == []
    requires x.recordId == r.recordId && x.revision == Some(2) && x.previousDigest == Some(r.digest)
    ensures Grown([r, x]) && Listed([r, x], r) && Outdated([r, x], r) && Listed([r, x], x) && !Outdated([r, x], x)
  {
    TwoGrow(r, x);
    assert x in [r, x];
  }

  lemma TwoGrow(r: Record, x: Record)
    requires Plain(r) && Plain(x) && r.relations == [] && x.relations == [] && r.recordId.Some?
    requires x.recordId == r.recordId && x.revision == Some(Revision(r) + 1) && x.previousDigest == Some(r.digest)
    ensures Grown([r, x])
  {
    Unrelated([r]);
    Unrelated([r, x]);
    assert [] + [r] == [r] && [r] + [x] == [r, x] && [r, x][..1] == [r] && [r][..0] == [];
    assert Family([], LogicalId(r)) == [];
    assert Family([r], LogicalId(x)) == [] + [r];
    hide AcyclicRelations, Admissible;
    PlainGrows([], r);
    PlainGrows([r], x);
    assert Grown([]);
    assert Grown([r]);
  }

  /** Without producer references, outside the work protocol, and not about itself. */
  predicate Plain(r: Record) {
    r.producers == [] && r.work == None && !NamesItself(r)
  }

  lemma PlainPasses(r: Record, refs: seq<Producers.Reference>, prior: Option<Option<WorkProtocol.Work>>)
    requires Plain(r)
    ensures Producers.Accepted(refs, r.producers) && !NamesItself(r) && WorkProtocol.Follows(prior, r.work)
  {}

  lemma PlainGrows(front: seq<Record>, r: Record)
    requires Plain(r) && AcyclicRelations(front + [r])
    ensures Admissible(r, front) <==> Continues(Family(front, LogicalId(r)), r)
  {
    PlainPasses(r, AllProducers(front), LatestWork(Family(front, LogicalId(r))));
    hide Plain, Family, LatestWork, Continues, AcyclicRelations, WorkProtocol.Follows, Producers.Accepted, AllProducers, NamesItself;
  }

  lemma Unrelated(records: seq<Record>)
    requires forall i :: 0 <= i < |records| ==> records[i].relations == []
    ensures AcyclicRelations(records)
  {
    forall e | IsRelationGraph(records, e) ensures !Cyclic(e) {
      if Cyclic(e) {
        var p :| CycleAt(e, p);
        FirstStep(e, p);
        assert false;
      }
    }
  }

  /** What the selection lists. */
  ghost predicate Listed(records: seq<Record>, r: Record) {
    LatestExplicit(records, r) || (r in records && r.kind == "WorkRequest" && !Explicit(r))
  }

  /** The selection lists an outdated request exactly when it lists another than the last revision of its family:
      with an explicit revision, when that last revision is no longer an explicitly revisioned work request; without
      one, when the family has a second revision at all. */
  lemma OutdatedIff(records: seq<Record>, r: Record)
    requires WellGrown(records) && Listed(records, r)
    ensures var f := Family(records, LogicalId(r));
            && f != []
            && (Outdated(records, r) <==> r != f[|f| - 1])
            && (Explicit(r) ==> (Outdated(records, r) <==> !Explicit(f[|f| - 1])))
            && (r.revision.None? ==> (Outdated(records, r) <==> |f| > 1))
  {
    hide AcyclicRelations;
    var f := Family(records, LogicalId(r));
    FamilyMembers(records, LogicalId(r), r);
    var a :| 0 <= a < |f| && f[a] == r;
    var last := f[|f| - 1];
    assert last in f;
    FamilyMembers(records, LogicalId(r), last);
    ChainRevisions(f, a, |f| - 1);
    if a == |f| - 1 { NoneLater(records, r, f, a); }
    assert a > 0 ==> f[a].revision == Some(Revision(f[a - 1]) + 1);
    hide Orderly, Family;
  }

  lemma NoneLater(records: seq<Record>, r: Record, f: seq<Record>, a: nat)
    requires f == Family(records, LogicalId(r)) && RevisionChain(f) && a == |f| - 1 && f[a] == r
    ensures !Outdated(records, r)
  {
    forall x | x in records && LogicalId(x) == LogicalId(r) ensures Revision(x) <= Revision(r) {
      FamilyMembers(records, LogicalId(r), x);
      var b :| 0 <= b < |f| && f[b] == x;
      ChainRevisions(f, b, a);
    }
  }
}
