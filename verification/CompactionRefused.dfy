/** Small stores that compaction cannot get past, one for each thing a removal must respect, and two that it gets
    past with a surprise. */
module CompactionRefused {
  import opened Order
  import opened Records
  import opened Retention
  import opened Compaction
  import opened Staging
  import opened Semantic
  import opened Commons
  import Lifecycle
  import WorkProtocol
  import Producers

  // ---------------------------------------------------------------- one record leaves

  /** Every record but `b` is canonical, and none of them names `b`. */
  ghost predicate OnlyLoose(records: seq<Record>, b: Record) {
    && b in records && Classify(b) in {Ephemeral, Diagnostic}
    && forall r :: r in records && r != b ==> Classify(r) == Canonical && b.digest !in r.named
  }

  /** Then exactly `b` leaves once its time has run out. */
  lemma OnlyOneLeaves(records: seq<Record>, b: Record, p: Policy, now: int)
    requires DistinctDigests(records) && OnlyLoose(records, b) && Expired(p, b, now)
    ensures Gone(records, {}, p, now) == {b.digest}
  {
    NotNamed(records, b);
    hide Expired, Protected, Classify;
    forall r | r in records ensures Candidate(records, {}, p, now, r) <==> r == b {
      if r != b { CanonicalStays(records, r, p, now); }
    }
  }

  lemma CanonicalStays(records: seq<Record>, r: Record, p: Policy, now: int)
    requires Classify(r) == Canonical
    ensures !Expired(p, r, now)
  {}

  lemma NotNamed(records: seq<Record>, b: Record)
    requires DistinctDigests(records) && OnlyLoose(records, b)
    ensures !Protected(records, b.digest)
  {
    hide Classify, Protected;
    var s := (set r | r in records && r != b :: r.digest) + (set r, d | r in records && r != b && d in ReferencedDigests(r) :: d);
    forall d | d in ByDigest(records) ensures ByDigest(records)[d] in records && ByDigest(records)[d].digest == d {
      ByDigestHas(records, d);
    }
    assert b.digest !in s by { BOutside(records, b, s); }
    assert ClosedUnder(records, s);
    if Protected(records, b.digest) { LeastClosedHolds(records, s, b.digest); }
  }

  lemma BOutside(records: seq<Record>, b: Record, s: set<string>)
    requires DistinctDigests(records) && OnlyLoose(records, b)
    requires s == (set r | r in records && r != b :: r.digest) + (set r, d | r in records && r != b && d in ReferencedDigests(r) :: d)
    ensures b.digest !in s
  {
    forall r | r in records && r != b ensures r.digest != b.digest {
      var i :| 0 <= i < |records| && records[i] == r;
      var j :| 0 <= j < |records| && records[j] == b;
    }
  }

  /** A store that grew by admissions, from which one loose record has expired. */
  ghost predicate Loses(records: seq<Record>, b: Record) {
    && Grown(records) && DistinctDigests(records) && AllDigests(records)
    && Gone(records, {}, POLICY, DAY_100) == {b.digest}
  }

  /** Compaction of such a store is refused. */
  ghost predicate Refused(records: seq<Record>) {
    !Grown(Compacted(records, {}, POLICY, DAY_100))
  }

  lemma RefusedUnless(records: seq<Record>, b: Record)
    requires Loses(records, b) && !Stageable(records, {b.digest})
    ensures Refused(records)
  {
    hide Stageable, Grown, WellGrown, Gone, Without;
    RunsStayWellGrown(records);
    StagedIff(records, {b.digest});
  }

  lemma GrownStep(front: seq<Record>, r: Record)
    requires Grown(front) && Admissible(r, front)
    ensures Grown(front + [r])
  {
    hide Admissible;
    assert (front + [r])[..|front|] == front;
  }

  /** A record without references of any kind only has to continue its history. */
  lemma PlainStep(front: seq<Record>, r: Record)
    requires Grown(front) && Plain(r) && AcyclicRelations(front + [r]) && Continues(Family(front, LogicalId(r)), r)
    ensures Grown(front + [r])
  {
    hide Admissible, Plain, AcyclicRelations, Family, Grown, Continues;
    PlainGrows(front, r);
    GrownStep(front, r);
  }

  lemma FamilyOfTwo(a: Record, b: Record, id: string)
    ensures Family([a], id) == if LogicalId(a) == id then [a] else []
    ensures Family([a, b], id) == Family([a], id) + if LogicalId(b) == id then [b] else []
  {
    FamilyAppend([], a, id);
    FamilyAppend([a], b, id);
    assert [] + [a] == [a] && [a] + [b] == [a, b];
  }

  // ---------------------------------------------------------------- the stores

  const POLICY := Policy(7, 60)
  const DAY_100 := 100 * SECONDS_PER_DAY

  /** An observation made on day 0, under a logical id. */
  function Observation(digest: string, id: string, revision: int, previous: Option<string>, labels: set<string>): Record {
    Record(digest, Some(id), Some(revision), previous, "Observation", None, "PASS", labels, Some(0), [], [],
           Lifecycle.Proposed, None, [], None)
  }

  const FIRST := Observation("sha256:1", "L", 1, None, {"canonical"})
  const SECOND := Observation("sha256:2", "L", 2, Some("sha256:1"), {})
  const THIRD := Observation("sha256:3", "L", 3, Some("sha256:2"), {"canonical"})

  /** A revision in the middle expires: what is left is no chain. */
  lemma HoleRefuses()
    ensures Loses([FIRST, SECOND, THIRD], SECOND) && Refused([FIRST, SECOND, THIRD])
    ensures HoleAt(Family([FIRST, SECOND, THIRD], "L"), {SECOND.digest}, 0, 1, 2)
  {
    HoleLoses();
    HoleFamily();
    hide Stageable, Loses, Refused, Family, FIRST, SECOND, THIRD;
    NotIntact([FIRST, SECOND, THIRD], {SECOND.digest}, "L");
    RefusedUnless([FIRST, SECOND, THIRD], SECOND);
  }

  lemma HoleFamily()
    ensures HoleAt(Family([FIRST, SECOND, THIRD], "L"), {SECOND.digest}, 0, 1, 2)
  {
    FamilyOfTwo(FIRST, SECOND, "L");
    FamilyAppend([FIRST, SECOND], THIRD, "L");
    assert [FIRST, SECOND] + [THIRD] == [FIRST, SECOND, THIRD];
    hide Family;
  }

  lemma HoleLoses()
    ensures Loses([FIRST, SECOND, THIRD], SECOND)
  {
    HoleGrows();
    hide Grown, Gone;
    OnlyOneLeaves([FIRST, SECOND, THIRD], SECOND, POLICY, DAY_100);
  }

  lemma NotIntact(records: seq<Record>, gone: set<string>, id: string)
    requires !Intact(Family(records, id), gone)
    ensures !Stageable(records, gone)
  {}

  lemma HoleGrows()
    ensures Grown([FIRST, SECOND, THIRD])
  {
    hide Admissible, AcyclicRelations, Grown;
    assert Grown([]) by { EmptyGrows(); }
    FamilyOfTwo(FIRST, SECOND, "L");
    Unrelated([FIRST]);
    Unrelated([FIRST, SECOND]);
    Unrelated([FIRST, SECOND, THIRD]);
    assert [] + [FIRST] == [FIRST] && [FIRST] + [SECOND] == [FIRST, SECOND] && [FIRST, SECOND] + [THIRD] == [FIRST, SECOND, THIRD];
    PlainStep([], FIRST);
    PlainStep([FIRST], SECOND);
    PlainStep([FIRST, SECOND], THIRD);
  }

  lemma EmptyGrows()
    ensures Grown([])
  {}

  // ---------------------------------------------------------------- a cycle that a revision had broken

  const POINTS_ON := FIRST.(relations := [Relation("depends_on", "M")])
  const POINTS_BACK := Observation("sha256:4", "M", 1, None, {"canonical"}).(relations := [Relation("depends_on", "L")])

  /** The second revision of "L" expires, so "L" names the first one again, and that one depends on "M", which
      depends on "L". No history has a gap. */
  lemma CycleRefuses()
    ensures Loses([POINTS_ON, SECOND, POINTS_BACK], SECOND) && Refused([POINTS_ON, SECOND, POINTS_BACK])
    ensures HistoriesIntact([POINTS_ON, SECOND, POINTS_BACK], {SECOND.digest})
    ensures !AcyclicRelations([POINTS_ON, POINTS_BACK])
  {
    CycleLoses();
    CycleKept();
    CycleCloses();
    CycleIntact();
    hide Loses, Refused, HistoriesIntact, AcyclicRelations, Without, POINTS_ON, SECOND, POINTS_BACK;
    NotAcyclicAtEnd([POINTS_ON, SECOND, POINTS_BACK], {SECOND.digest});
    RefusedUnless([POINTS_ON, SECOND, POINTS_BACK], SECOND);
  }

  lemma NotAcyclicAtEnd(records: seq<Record>, gone: set<string>)
    requires !AcyclicRelations(Without(records, gone))
    ensures !Stageable(records, gone)
  {
    hide AcyclicRelations, Without;
    var kept := Without(records, gone);
    assert kept[..|kept|] == kept;
  }

  lemma CycleKept()
    ensures Without([POINTS_ON, SECOND, POINTS_BACK], {SECOND.digest}) == [POINTS_ON, POINTS_BACK]
  {
    var all, gone := [POINTS_ON, SECOND, POINTS_BACK], {SECOND.digest};
    assert all[..2] == [POINTS_ON, SECOND] && [POINTS_ON, SECOND][..1] == [POINTS_ON] && [POINTS_ON][..0] == [];
    assert Without([POINTS_ON], gone) == [] + [POINTS_ON];
    assert Without([POINTS_ON, SECOND], gone) == [POINTS_ON];
  }

  lemma CycleCloses()
    ensures !AcyclicRelations([POINTS_ON, POINTS_BACK])
  {
    var kept := [POINTS_ON, POINTS_BACK];
    var known := Known(kept);
    KnownAppend([], POINTS_ON);
    KnownAppend([POINTS_ON], POINTS_BACK);
    assert [] + [POINTS_ON] == [POINTS_ON] && [POINTS_ON] + [POINTS_BACK] == kept;
    assert known["L"] == POINTS_ON.digest && known["M"] == POINTS_BACK.digest;
    var p := [POINTS_ON.digest, POINTS_BACK.digest, POINTS_ON.digest];
    assert kept[0].digest == p[0] && Needs(kept[0], known, 1, p[1]) by { assert POINTS_ON.relations[0].target == "M"; }
    assert kept[1].digest == p[1] && Needs(kept[1], known, 1, p[2]) by { assert POINTS_BACK.relations[0].target == "L"; }
    assert EdgeIn(kept, known, p[0], p[1]) && EdgeIn(kept, known, p[1], p[2]);
    ClosedWalk(kept, p);
  }

  lemma CycleIntact()
    ensures HistoriesIntact([POINTS_ON, SECOND, POINTS_BACK], {SECOND.digest})
  {
    var all := [POINTS_ON, SECOND, POINTS_BACK];
    forall id ensures Intact(Family(all, id), {SECOND.digest}) {
      FamilyOfTwo(POINTS_ON, SECOND, id);
      FamilyAppend([POINTS_ON, SECOND], POINTS_BACK, id);
      assert [POINTS_ON, SECOND] + [POINTS_BACK] == all;
      var f := Family(all, id);
      assert f == [POINTS_ON, SECOND] || f == [POINTS_BACK] || f == [];
    }
  }

  lemma CycleLoses()
    ensures Loses([POINTS_ON, SECOND, POINTS_BACK], SECOND)
  {
    CycleGrows();
    hide Grown, Gone;
    OnlyOneLeaves([POINTS_ON, SECOND, POINTS_BACK], SECOND, POLICY, DAY_100);
  }

  lemma CycleGrows()
    ensures Grown([POINTS_ON, SECOND, POINTS_BACK])
  {
    EmptyGrows();
    NoEdgesYet();
    OneWay();
    CycleContinues();
    hide Admissible, AcyclicRelations, Grown, Plain, Continues, POINTS_ON, SECOND, POINTS_BACK, Family, LogicalId;
    assert [] + [POINTS_ON] == [POINTS_ON] && [POINTS_ON] + [SECOND] == [POINTS_ON, SECOND]
           && [POINTS_ON, SECOND] + [POINTS_BACK] == [POINTS_ON, SECOND, POINTS_BACK];
    PlainStep([], POINTS_ON);
    PlainStep([POINTS_ON], SECOND);
    PlainStep([POINTS_ON, SECOND], POINTS_BACK);
  }

  lemma CycleContinues()
    ensures Plain(POINTS_ON) && Plain(SECOND) && Plain(POINTS_BACK)
    ensures Continues(Family([], LogicalId(POINTS_ON)), POINTS_ON)
    ensures Continues(Family([POINTS_ON], LogicalId(SECOND)), SECOND)
    ensures Continues(Family([POINTS_ON, SECOND], LogicalId(POINTS_BACK)), POINTS_BACK)
  {
    FamilyOfTwo(POINTS_ON, SECOND, "L");
    FamilyOfTwo(POINTS_ON, SECOND, "M");
    assert Family([], "L") == [];
    hide Family;
  }

  lemma NoEdgesYet()
    ensures AcyclicRelations([POINTS_ON]) && AcyclicRelations([POINTS_ON, SECOND])
  {
    KnownAppend([], POINTS_ON);
    KnownAppend([POINTS_ON], SECOND);
    assert [] + [POINTS_ON] == [POINTS_ON] && [POINTS_ON] + [SECOND] == [POINTS_ON, SECOND];
    assert "M" !in Known([POINTS_ON]) && "M" !in Known([POINTS_ON, SECOND]);
    RankedIsAcyclic([POINTS_ON], (d: string) => 0);
    RankedIsAcyclic([POINTS_ON, SECOND], (d: string) => 0);
  }

  /** As long as "L" names its second revision, all relations lead one way. */
  lemma OneWay()
    ensures AcyclicRelations([POINTS_ON, SECOND, POINTS_BACK])
  {
    var all := [POINTS_ON, SECOND, POINTS_BACK];
    KnownAppend([], POINTS_ON);
    KnownAppend([POINTS_ON], SECOND);
    KnownAppend([POINTS_ON, SECOND], POINTS_BACK);
    assert [] + [POINTS_ON] == [POINTS_ON] && [POINTS_ON] + [SECOND] == [POINTS_ON, SECOND]
           && [POINTS_ON, SECOND] + [POINTS_BACK] == all;
    var known := Known(all);
    assert known["L"] == SECOND.digest && known["M"] == POINTS_BACK.digest;
    RankedIsAcyclic(all, (d: string) => if d == POINTS_ON.digest then 0 else if d == POINTS_BACK.digest then 1 else 2);
  }

  // ---------------------------------------------------------------- a work request without its beginning

  /** A revision of a durable work request, made on day 0. */
  function Request(digest: string, revision: int, previous: Option<string>, open: string, work: WorkProtocol.Work): Record {
    Record(digest, Some("work:1"), Some(revision), previous, "WorkRequest", Some(open), "", {}, Some(0), [], [],
           Lifecycle.Proposed, Some(work), [], None)
  }

  function Coordinated(state: string, from: Option<string>, coordination: string): WorkProtocol.Work {
    WorkProtocol.Work("request", state, Some(WorkProtocol.StateEvent(from)), Some(coordination))
  }

  const SUBMITTED := Request("sha256:1", 1, None, "open", Coordinated("submitted", None, "AVAILABLE"))
  const WITHDRAWN := Request("sha256:1", 1, None, "withdrawn", Coordinated("submitted", None, "AVAILABLE"))
  const TAKEN := Request("sha256:2", 2, Some("sha256:1"), "claimed", Coordinated("accepted", Some("submitted"), "AVAILABLE"))

  /** The first revision of a work request expires while a later one is still open. */
  lemma BeheadingRefuses()
    ensures Loses([WITHDRAWN, TAKEN], WITHDRAWN) && Refused([WITHDRAWN, TAKEN])
    ensures BeheadedAt(Family([WITHDRAWN, TAKEN], "work:1"), {WITHDRAWN.digest}, 0, 1)
  {
    BeheadingLoses();
    BeheadingFamily();
    hide Stageable, Loses, Refused, Family, WITHDRAWN, TAKEN;
    NotIntact([WITHDRAWN, TAKEN], {WITHDRAWN.digest}, "work:1");
    RefusedUnless([WITHDRAWN, TAKEN], WITHDRAWN);
  }

  lemma BeheadingFamily()
    ensures BeheadedAt(Family([WITHDRAWN, TAKEN], "work:1"), {WITHDRAWN.digest}, 0, 1)
  {
    FamilyOfTwo(WITHDRAWN, TAKEN, "work:1");
    hide Family;
  }

  lemma BeheadingLoses()
    ensures Loses([WITHDRAWN, TAKEN], WITHDRAWN)
  {
    BeheadingGrows();
    hide Grown, Gone, WorkProtocol.Follows;
    OnlyOneLeaves([WITHDRAWN, TAKEN], WITHDRAWN, POLICY, DAY_100);
  }

  lemma BeheadingGrows()
    ensures Grown([WITHDRAWN, TAKEN])
  {
    hide Grown;
    TwoRequestsGrow(WITHDRAWN, TAKEN);
  }

  lemma TwoRequestsGrow(a: Record, b: Record)
    requires a in {WITHDRAWN, SUBMITTED} && b.recordId == a.recordId && b.revision == Some(2) && b.previousDigest == Some(a.digest)
    requires b.relations == [] && b.producers == [] && b.kind == "WorkRequest"
    requires WorkProtocol.Follows(Some(a.work), b.work)
    ensures Grown([a, b])
  {
    EmptyGrows();
    Unrelated([a]);
    Unrelated([a, b]);
    RequestsFollow(a, b);
    hide AcyclicRelations, Grown, Family, Succeeds, NamesItself, WITHDRAWN, SUBMITTED, AllProducers, LogicalId, WorkProtocol.Follows;
    assert [] + [a] == [a] && [a] + [b] == [a, b];
    GrownStep([], a);
    GrownStep([a], b);
  }

  lemma RequestsFollow(a: Record, b: Record)
    requires a in {WITHDRAWN, SUBMITTED} && b.recordId == a.recordId && b.revision == Some(2) && b.previousDigest == Some(a.digest)
    requires b.relations == [] && b.kind == "WorkRequest"
    requires WorkProtocol.Follows(Some(a.work), b.work)
    ensures a.relations == [] && a.producers == [] && !NamesItself(a) && !NamesItself(b)
    ensures Succeeds(Family([], LogicalId(a)), a) && Succeeds(Family([a], LogicalId(b)), b)
  {
    FamilyOfTwo(a, b, "work:1");
    assert Family([], "work:1") == [];
    hide Family;
  }

  // ---------------------------------------------------------------- producers that only met through a third

  function Citing(digest: string, id: string, labels: set<string>, cited: Option<string>): Record {
    Observation(digest, id, 1, None, labels).(producers := [Producers.Reference("stable", "producer", "kind", "v1", cited)])
  }

  const VAGUE := Citing("sha256:1", "P", {}, None)
  const ONE := Citing("sha256:2", "Q", {"canonical"}, Some("sha256:x"))
  const OTHER := Citing("sha256:3", "R", {"canonical"}, Some("sha256:y"))

  /** The reference that bound a stable identity had no digest; once it is gone the two that disagree meet. */
  lemma ProducersRefuse()
    ensures Loses([VAGUE, ONE, OTHER], VAGUE) && Refused([VAGUE, ONE, OTHER])
    ensures !Producers.Consistent(AllProducers([ONE, OTHER]))
  {
    ProducersLose();
    ProducersMeet();
    hide Loses, Refused, Producers.Consistent, AllProducers, Without, VAGUE, ONE, OTHER, Stageable;
    ProducersDisagree([VAGUE, ONE, OTHER], {VAGUE.digest});
    RefusedUnless([VAGUE, ONE, OTHER], VAGUE);
  }

  lemma ProducersDisagree(records: seq<Record>, gone: set<string>)
    requires !Producers.Consistent(AllProducers(Without(records, gone)))
    ensures !Stageable(records, gone)
  {}

  lemma ProducersMeet()
    ensures Without([VAGUE, ONE, OTHER], {VAGUE.digest}) == [ONE, OTHER]
    ensures !Producers.Consistent(AllProducers([ONE, OTHER]))
  {
    var all, gone := [VAGUE, ONE, OTHER], {VAGUE.digest};
    assert all[..2] == [VAGUE, ONE] && [VAGUE, ONE][..1] == [VAGUE] && [VAGUE][..0] == [];
    assert Without([VAGUE], gone) == [];
    assert Without([VAGUE, ONE], gone) == [] + [ONE];
    assert [ONE, OTHER][..1] == [ONE] && [ONE][..0] == [];
    var refs := AllProducers([ONE, OTHER]);
    ProducersAppend([], ONE);
    ProducersAppend([ONE], OTHER);
    assert [] + [ONE] == [ONE] && [ONE] + [OTHER] == [ONE, OTHER];
    assert refs == [ONE.producers[0], OTHER.producers[0]];
    assert refs[..1] == [ONE.producers[0]];
    Producers.BoundFirst(refs[..1]);
    assert !Producers.AgreesAt(refs, 1);
  }

  lemma ProducersLose()
    ensures Loses([VAGUE, ONE, OTHER], VAGUE)
  {
    ProducersGrow();
    hide Grown, Gone;
    OnlyOneLeaves([VAGUE, ONE, OTHER], VAGUE, POLICY, DAY_100);
  }

  lemma ProducersGrow()
    ensures Grown([VAGUE, ONE, OTHER])
  {
    EmptyGrows();
    Unrelated([VAGUE]);
    Unrelated([VAGUE, ONE]);
    Unrelated([VAGUE, ONE, OTHER]);
    VagueBinds();
    VagueStarts();
    hide AcyclicRelations, Grown, Succeeds, Family, NamesItself, AllProducers, Producers.Accepted, VAGUE, ONE, OTHER, LogicalId;
    assert [] + [VAGUE] == [VAGUE] && [VAGUE] + [ONE] == [VAGUE, ONE] && [VAGUE, ONE] + [OTHER] == [VAGUE, ONE, OTHER];
    GrownStep([], VAGUE);
    GrownStep([VAGUE], ONE);
    GrownStep([VAGUE, ONE], OTHER);
  }

  lemma VagueStarts()
    ensures !NamesItself(VAGUE) && !NamesItself(ONE) && !NamesItself(OTHER)
    ensures Succeeds(Family([], LogicalId(VAGUE)), VAGUE)
    ensures Succeeds(Family([VAGUE], LogicalId(ONE)), ONE)
    ensures Succeeds(Family([VAGUE, ONE], LogicalId(OTHER)), OTHER)
  {
    FamilyOfTwo(VAGUE, ONE, "Q");
    FamilyOfTwo(VAGUE, ONE, "R");
    assert Family([], "P") == [];
    hide Family;
  }

  lemma VagueBinds()
    ensures Producers.Accepted(AllProducers([]), VAGUE.producers)
    ensures Producers.Accepted(AllProducers([VAGUE]), ONE.producers)
    ensures Producers.Accepted(AllProducers([VAGUE, ONE]), OTHER.producers)
  {
    ProducersAppend([], VAGUE);
    ProducersAppend([VAGUE], ONE);
    assert [] + [VAGUE] == [VAGUE] && [VAGUE] + [ONE] == [VAGUE, ONE];
    assert [] + VAGUE.producers == VAGUE.producers;
    assert AllProducers([VAGUE]) == VAGUE.producers;
    assert AllProducers([VAGUE, ONE]) == VAGUE.producers + ONE.producers;
    assert VAGUE.producers + ONE.producers[..0] == VAGUE.producers;
    assert (VAGUE.producers + ONE.producers) + OTHER.producers[..0] == VAGUE.producers + ONE.producers;
  }

  // ---------------------------------------------------------------- a finished request that reopens

  const CANCELLED := Request("sha256:2", 2, Some("sha256:1"), "withdrawn", Coordinated("cancelled", Some("submitted"), "ABANDONED"))
  const RESUMED := TAKEN.(digest := "sha256:9")

  /** The closing revision of a work request expires, the open one before it is canonical and stays: compaction
      goes through, the request is selected as open work again, and a second revision 2 is admitted. */
  lemma FinishedWorkReopens()
    ensures Loses([SUBMITTED, CANCELLED], CANCELLED) && !Refused([SUBMITTED, CANCELLED])
    ensures Compacted([SUBMITTED, CANCELLED], {}, POLICY, DAY_100) == [SUBMITTED]
    ensures !LatestExplicit([SUBMITTED, CANCELLED], SUBMITTED) && LatestExplicit([SUBMITTED], SUBMITTED)
    ensures Admissible(RESUMED, [SUBMITTED])
    ensures LogicalId(RESUMED) == LogicalId(CANCELLED) && RESUMED.revision == CANCELLED.revision && RESUMED != CANCELLED
  {
    ReopeningLoses();
    ReopenedKept();
    ReopenedListed();
    ReopenedForks();
    hide Gone, Admissible, Without, LatestExplicit, SUBMITTED, CANCELLED, RESUMED, Grown, AllDigests, DistinctDigests;
  }

  lemma ReopenedListed()
    ensures !LatestExplicit([SUBMITTED, CANCELLED], SUBMITTED) && LatestExplicit([SUBMITTED], SUBMITTED)
  {
    assert CANCELLED in [SUBMITTED, CANCELLED];
  }

  lemma ReopenedForks()
    ensures Grown([SUBMITTED]) && Admissible(RESUMED, [SUBMITTED])
    ensures LogicalId(RESUMED) == LogicalId(CANCELLED) && RESUMED.revision == CANCELLED.revision && RESUMED != CANCELLED
  {
    hide Admissible, Grown;
    TwoRequestsGrow(SUBMITTED, RESUMED);
    assert [SUBMITTED] + [RESUMED] == [SUBMITTED, RESUMED];
    LastAdmitted([SUBMITTED], RESUMED);
  }

  lemma LastAdmitted(front: seq<Record>, r: Record)
    requires Grown(front + [r])
    ensures Grown(front) && Admissible(r, front)
  {
    hide Admissible;
    assert (front + [r])[..|front|] == front;
  }

  lemma ReopenedKept()
    ensures Without([SUBMITTED, CANCELLED], {CANCELLED.digest}) == [SUBMITTED]
  {
    assert [SUBMITTED, CANCELLED][..1] == [SUBMITTED] && [SUBMITTED][..0] == [];
    assert Without([SUBMITTED], {CANCELLED.digest}) == [] + [SUBMITTED];
  }

  lemma ReopeningLoses()
    ensures Loses([SUBMITTED, CANCELLED], CANCELLED)
  {
    ReopeningGrows();
    hide Grown, Gone, WorkProtocol.Follows;
    OnlyOneLeaves([SUBMITTED, CANCELLED], CANCELLED, POLICY, DAY_100);
  }

  lemma ReopeningGrows()
    ensures Grown([SUBMITTED, CANCELLED])
  {
    hide Grown;
    TwoRequestsGrow(SUBMITTED, CANCELLED);
  }
}
