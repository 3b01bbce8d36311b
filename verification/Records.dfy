/** The parts of a stored record that admission, retention and lifecycle projection read. */
module Records {
  import opened Order
  import Lifecycle
  import WorkProtocol
  import Producers

  datatype Relation = Relation(kind: string, target: string)

  /** `digest` is `contentDigest`. `named` lists the strings at the positions where a record can
      name another digest: provenance sources, relation targets and digests, the listed detail
      keys and evidence ids. `createdAt` is in seconds. `work` is present when the details state the work
      protocol, `replicates` is a replication's target record. */
  datatype Record = Record(
    digest: string, recordId: Option<string>, revision: Option<int>, previousDigest: Option<string>,
    kind: string, requestState: Option<string>, outcome: string, labels: set<string>,
    createdAt: Option<int>, relations: seq<Relation>, named: seq<string>, initial: Lifecycle.State,
    work: Option<WorkProtocol.Work>, producers: seq<Producers.Reference>, replicates: Option<string>)

  /** `_logical_id`: the record id when there is one, otherwise the digest. */
  function LogicalId(r: Record): string {
    match r.recordId case Some(id) => id case None => r.digest
  }

  /** A missing revision counts as the first. */
  function Revision(r: Record): int {
    match r.revision case Some(n) => n case None => 1
  }

  predicate DistinctDigests(records: seq<Record>) {
    forall i, j :: 0 <= i < j < |records| ==> records[i].digest != records[j].digest
  }

  function Digests(records: seq<Record>): set<string> {
    set r | r in records :: r.digest
  }

  /** A record is known by its digest and its record id; a later record takes a name over. */
  function ByRef(records: seq<Record>): map<string, Record> {
    if records == [] then map[]
    else
      var r := records[|records| - 1];
      var known := ByRef(records[..|records| - 1])[r.digest := r];
      if r.recordId.Some? then known[r.recordId.value := r] else known
  }

  method IndexRecords(records: seq<Record>) returns (byRef: map<string, Record>)
    ensures byRef == ByRef(records)
  {
    byRef := map[];
    for i := 0 to |records|
      invariant byRef == ByRef(records[..i])
    {
      assert records[..i + 1][..i] == records[..i];
      byRef := byRef[records[i].digest := records[i]];
      if records[i].recordId.Some? { byRef := byRef[records[i].recordId.value := records[i]]; }
    }
    assert records[..|records|] == records;
  }

  lemma {:induction false} ByRefHas(records: seq<Record>, ref: string)
    requires ref in ByRef(records)
    ensures ByRef(records)[ref] in records
  {
    var front, r := records[..|records| - 1], records[|records| - 1];
    if ByRef(records)[ref] != r { ByRefHas(front, ref); }
  }

  predicate Bears(r: Record, ref: string) { r.digest == ref || r.recordId == Some(ref) }

  /** What a reference means: the last record that bears it, as its digest or as its record id. */
  ghost predicate Means(records: seq<Record>, ref: string, r: Record) {
    exists i :: 0 <= i < |records| && records[i] == r && Bears(r, ref)
                && forall j :: i < j < |records| ==> !Bears(records[j], ref)
  }

  lemma {:induction false} ByRefMeans(records: seq<Record>, ref: string)
    ensures ref in ByRef(records) <==> exists r :: Means(records, ref, r)
    ensures forall r :: Means(records, ref, r) <==> ref in ByRef(records) && ByRef(records)[ref] == r
  {
    if records != [] {
      var n := |records| - 1;
      ByRefMeans(records[..n], ref);
      var last := records[n];
      forall r ensures Means(records, ref, r) <==> if Bears(last, ref) then r == last else Means(records[..n], ref, r) {
        MeansOneMore(records, ref, r);
      }
      if Bears(last, ref) { assert Means(records, ref, last); }
      hide Means;
    }
  }

  lemma MeansOneMore(records: seq<Record>, ref: string, r: Record)
    requires records != []
    ensures var last := records[|records| - 1];
            Means(records, ref, r) <==> if Bears(last, ref) then r == last else Means(records[..|records| - 1], ref, r)
  {
    var n := |records| - 1;
    if Bears(records[n], ref) && r == records[n] { assert records[n] == r; }
    if i :| 0 <= i < n && records[..n][i] == r && Bears(r, ref) && forall j :: i < j < n ==> !Bears(records[..n][j], ref) {
      if !Bears(records[n], ref) { assert records[i] == r && forall j :: i < j < |records| ==> !Bears(records[j], ref); }
    }
    if i :| 0 <= i < |records| && records[i] == r && Bears(r, ref) && forall j :: i < j < |records| ==> !Bears(records[j], ref) {
      if i < n { assert records[..n][i] == r; }
    }
  }

  /** The records with one logical id, in store order. */
  function Family(records: seq<Record>, id: string): seq<Record> {
    if records == [] then []
    else
      var front, last := Family(records[..|records| - 1], id), records[|records| - 1];
      if LogicalId(last) == id then front + [last] else front
  }

  lemma {:induction false} FamilyMembers(records: seq<Record>, id: string, r: Record)
    ensures r in Family(records, id) <==> r in records && LogicalId(r) == id
  {
    if records != [] { FamilyMembers(records[..|records| - 1], id, r); }
  }

  lemma FamilyAppend(records: seq<Record>, r: Record, id: string)
    ensures Family(records + [r], id) == if LogicalId(r) == id then Family(records, id) + [r] else Family(records, id)
  {
    assert (records + [r])[..|records|] == records;
  }

  /** Consecutive revisions, each naming the digest of the one before it. */
  predicate RevisionChain(f: seq<Record>) {
    forall i :: 0 < i < |f| ==>
      f[i].revision == Some(Revision(f[i - 1]) + 1) && f[i].previousDigest == Some(f[i - 1].digest)
  }

  lemma {:induction false} ChainRevisions(f: seq<Record>, i: nat, j: nat)
    requires RevisionChain(f) && i <= j < |f|
    ensures Revision(f[j]) == Revision(f[i]) + (j - i)
    decreases j
  {
    if i < j { ChainRevisions(f, i, j - 1); }
  }

  /** All producer references, in store order. */
  function AllProducers(records: seq<Record>): seq<Producers.Reference> {
    if records == [] then []
    else AllProducers(records[..|records| - 1]) + records[|records| - 1].producers
  }

  lemma ProducersAppend(records: seq<Record>, r: Record)
    ensures AllProducers(records + [r]) == AllProducers(records) + r.producers
  {
    assert (records + [r])[..|records|] == records;
  }

  /** The work part of the revision before the i-th. */
  function WorkBefore(f: seq<Record>, i: nat): Option<Option<WorkProtocol.Work>>
    requires i <= |f|
  {
    if i == 0 then None else Some(f[i - 1].work)
  }

  /** Each revision follows the one before it as the work protocol demands. */
  predicate WorkChain(f: seq<Record>) {
    forall i {:trigger WorkBefore(f, i)} :: 0 <= i < |f| ==> WorkProtocol.Follows(WorkBefore(f, i), f[i].work)
  }

  /** A history that the revision rule and the work protocol admit. */
  predicate History(f: seq<Record>) {
    RevisionChain(f) && WorkChain(f)
  }

  /** A request of the work protocol never changes over its history, and has been one from the start. */
  lemma {:induction false} WorkFromTheStart(f: seq<Record>, i: nat, j: nat)
    requires WorkChain(f) && i <= j < |f| && f[j].work.Some?
    ensures f[i].work.Some? && f[i].work.value.request == f[j].work.value.request
    decreases j
  {
    if i < j {
      assert WorkBefore(f, j) == Some(f[j - 1].work);
      WorkFromTheStart(f, i, j - 1);
    }
  }
}
