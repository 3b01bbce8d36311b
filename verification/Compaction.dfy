/** Which records compaction takes out of the hot store, and why the choice is stable: it never
    changes what is protected, does not depend on how often it is made, and changes no
    survivor's lifecycle. */
module Compaction {
  import opened Order
  import opened Records
  import opened Retention
  import Lifecycle

  // ---------------------------------------------------------------- eligibility

  /** `(now - created).days`, rounded down; zero for an undated record. */
  function AgeDays(r: Record, now: int): int {
    match r.createdAt case None => 0 case Some(t) => (now - t) / SECONDS_PER_DAY
  }

  predicate Expired(p: Policy, r: Record, now: int) {
    match Classify(r)
    case Ephemeral => AgeDays(r, now) >= p.ephemeralTtlDays
    case Diagnostic => AgeDays(r, now) >= p.diagnosticTtlDays
    case _ => false
  }

  ghost predicate Candidate(records: seq<Record>, pins: set<string>, p: Policy, now: int, r: Record) {
    !Protected(records, r.digest) && r.digest !in pins && Expired(p, r, now)
  }

  ghost function Gone(records: seq<Record>, pins: set<string>, p: Policy, now: int): set<string> {
    set r | r in records && Candidate(records, pins, p, now, r) :: r.digest
  }

  /** `_all_candidates` */
  method AllCandidates(records: seq<Record>, pins: set<string>, p: Policy, now: int) returns (gone: set<string>)
    ensures gone == Gone(records, pins, p, now)
  {
    hide Protected, Expired;
    var protected := ProtectionGraph(records);
    gone := {};
    for i := 0 to |records|
      invariant gone == set r | r in records[..i] && Candidate(records, pins, p, now, r) :: r.digest
    {
      var r := records[i];
      assert records[..i + 1] == records[..i] + [r];
      if r.digest !in protected + pins && Expired(p, r, now) {
        gone := gone + {r.digest};
      }
    }
    assert records[..|records|] == records;
  }

  // ---------------------------------------------------------------- dropping records

  function Without(records: seq<Record>, gone: set<string>): seq<Record> {
    if records == [] then []
    else
      var front, last := Without(records[..|records| - 1], gone), records[|records| - 1];
      if last.digest in gone then front else front + [last]
  }

  ghost function Compacted(records: seq<Record>, pins: set<string>, p: Policy, now: int): seq<Record> {
    Without(records, Gone(records, pins, p, now))
  }

  lemma {:induction false} WithoutMembers(records: seq<Record>, gone: set<string>, r: Record)
    ensures r in Without(records, gone) <==> r in records && r.digest !in gone
  {
    if records != [] { WithoutMembers(records[..|records| - 1], gone, r); }
  }

  lemma {:induction false} WithoutDistinct(records: seq<Record>, gone: set<string>)
    requires DistinctDigests(records)
    ensures DistinctDigests(Without(records, gone))
  {
    if records != [] {
      var front, last := records[..|records| - 1], records[|records| - 1];
      WithoutDistinct(front, gone);
      var kept := Without(front, gone);
      forall i | 0 <= i < |kept| ensures kept[i].digest != last.digest {
        WithoutMembers(front, gone, kept[i]);
        var j :| 0 <= j < |front| && front[j] == kept[i];
        assert records[j] == kept[i];
      }
    }
  }

  lemma {:induction false} WithoutTwice(records: seq<Record>, a: set<string>, b: set<string>)
    ensures Without(Without(records, a), b) == Without(records, a + b)
  {
    if records != [] {
      var front, last := records[..|records| - 1], records[|records| - 1];
      WithoutTwice(front, a, b);
      if last.digest !in a {
        var kept := Without(front, a);
        assert (kept + [last])[..|kept|] == kept;
      }
    }
  }

  lemma {:induction false} WithoutSame(records: seq<Record>, a: set<string>, b: set<string>)
    requires forall r :: r in records ==> (r.digest in a <==> r.digest in b)
    ensures Without(records, a) == Without(records, b)
  {
    if records != [] {
      WithoutSame(records[..|records| - 1], a, b);
      assert records[|records| - 1] in records;
    }
  }

  // ---------------------------------------------------------------- protection is unchanged

  lemma {:induction false} ByDigestIs(records: seq<Record>, r: Record)
    requires DistinctDigests(records) && r in records
    ensures r.digest in ByDigest(records) && ByDigest(records)[r.digest] == r
  {
    var front, last := records[..|records| - 1], records[|records| - 1];
    if r != last {
      assert r in front;
      ByDigestIs(front, r);
      var j :| 0 <= j < |front| && front[j] == r;
      assert records[j].digest != last.digest;
    }
  }

  lemma {:induction false} ByDigestHas(records: seq<Record>, d: string)
    requires d in ByDigest(records)
    ensures ByDigest(records)[d] in records && ByDigest(records)[d].digest == d
  {
    if d != records[|records| - 1].digest { ByDigestHas(records[..|records| - 1], d); }
  }

  /** A survivor keeps its place in the index; a record that left is in the index no more. */
  lemma IndexAfter(records: seq<Record>, gone: set<string>, d: string)
    requires DistinctDigests(records)
    ensures d in ByDigest(Without(records, gone)) <==> d in ByDigest(records) && d !in gone
    ensures d in ByDigest(Without(records, gone)) ==> ByDigest(Without(records, gone))[d] == ByDigest(records)[d]
  {
    var kept := Without(records, gone);
    WithoutDistinct(records, gone);
    if d in ByDigest(kept) {
      ByDigestHas(kept, d);
      var r := ByDigest(kept)[d];
      WithoutMembers(records, gone, r);
      ByDigestIs(records, r);
    }
    if d in ByDigest(records) && d !in gone {
      ByDigestHas(records, d);
      var r := ByDigest(records)[d];
      WithoutMembers(records, gone, r);
      ByDigestIs(kept, r);
    }
  }

  /** A trail from the roots survives the removal of records that nothing protects. */
  lemma {:induction false} TrailSurvives(records: seq<Record>, gone: set<string>, p: seq<string>)
    requires DistinctDigests(records) && forall d :: d in gone ==> !Protected(records, d)
    requires Trail(records, p)
    ensures Trail(Without(records, gone), p)
  {
    hide Classify, ReferencedDigests, Without;
    var kept := Without(records, gone);
    forall i | 0 <= i < |p| ensures p[i] !in gone {
      var q := p[..i + 1];
      assert Trail(records, q) && q[|q| - 1] == p[i];
    }
    IndexAfter(records, gone, p[0]);
    forall i | 0 < i < |p| ensures p[i] in References(kept, p[i - 1]) {
      IndexAfter(records, gone, p[i - 1]);
    }
  }

  lemma TrailWasThere(records: seq<Record>, gone: set<string>, p: seq<string>)
    requires DistinctDigests(records) && Trail(Without(records, gone), p)
    ensures Trail(records, p)
  {
    hide Classify, ReferencedDigests, Without;
    IndexAfter(records, gone, p[0]);
    forall i | 0 < i < |p| ensures p[i] in References(records, p[i - 1]) {
      IndexAfter(records, gone, p[i - 1]);
    }
  }

  /** Removing records that nothing protects changes nothing about what is protected. */
  lemma ProtectionUnchanged(records: seq<Record>, gone: set<string>, d: string)
    requires DistinctDigests(records) && forall x :: x in gone ==> !Protected(records, x)
    ensures Protected(Without(records, gone), d) <==> Protected(records, d)
  {
    hide References, Roots, Without;
    if Protected(records, d) {
      var p :| Trail(records, p) && p[|p| - 1] == d;
      TrailSurvives(records, gone, p);
    }
    if Protected(Without(records, gone), d) {
      var p :| Trail(Without(records, gone), p) && p[|p| - 1] == d;
      TrailWasThere(records, gone, p);
    }
  }

  lemma GoneIsUnprotected(records: seq<Record>, pins: set<string>, p: Policy, now: int)
    ensures forall d :: d in Gone(records, pins, p, now) ==> !Protected(records, d) && d !in pins
  {}

  // ---------------------------------------------------------------- compaction over time

  lemma ExpiredStays(p: Policy, r: Record, now: int, later: int)
    requires Expired(p, r, now) && now <= later
    ensures Expired(p, r, later)
  {
    if r.createdAt.Some? { DivMonotone(now - r.createdAt.value, later - r.createdAt.value); }
  }

  lemma DivMonotone(a: int, b: int)
    requires a <= b
    ensures a / SECONDS_PER_DAY <= b / SECONDS_PER_DAY
  {}

  /** With fixed policy, pins and records, compacting and then compacting later leaves what
      compacting once at the later time leaves. */
  lemma CompactingTwiceIsCompactingOnce(records: seq<Record>, pins: set<string>, p: Policy, now: int, later: int)
    requires DistinctDigests(records) && now <= later
    ensures Compacted(Compacted(records, pins, p, now), pins, p, later) == Compacted(records, pins, p, later)
  {
    var first := Gone(records, pins, p, now);
    var kept := Without(records, first);
    var second := Gone(kept, pins, p, later);
    GoneIsUnprotected(records, pins, p, now);
    hide Protected, Expired;
    WithoutTwice(records, first, second);
    forall r | r in records
      ensures r.digest in first + second <==> r.digest in Gone(records, pins, p, later)
    {
      GoneTogether(records, pins, p, now, later, r);
    }
    WithoutSame(records, first + second, Gone(records, pins, p, later));
  }

  lemma GoneIffCandidate(records: seq<Record>, pins: set<string>, p: Policy, now: int, r: Record)
    requires DistinctDigests(records) && r in records
    ensures r.digest in Gone(records, pins, p, now) <==> Candidate(records, pins, p, now, r)
  {
    hide Candidate;
    if r.digest in Gone(records, pins, p, now) {
      var x :| x in records && Candidate(records, pins, p, now, x) && x.digest == r.digest;
      assert x == r;
    }
  }

  lemma GoneTogether(records: seq<Record>, pins: set<string>, p: Policy, now: int, later: int, r: Record)
    requires DistinctDigests(records) && now <= later && r in records
    ensures var first := Gone(records, pins, p, now);
            r.digest in first + Gone(Without(records, first), pins, p, later)
            <==> r.digest in Gone(records, pins, p, later)
  {
    var first := Gone(records, pins, p, now);
    var kept := Without(records, first);
    GoneIsUnprotected(records, pins, p, now);
    ProtectionUnchanged(records, first, r.digest);
    GoneIffCandidate(records, pins, p, now, r);
    GoneIffCandidate(records, pins, p, later, r);
    if Expired(p, r, now) { ExpiredStays(p, r, now, later); }
    hide Protected, Expired, Gone;
    WithoutMembers(records, first, r);
    WithoutDistinct(records, first);
    if r in kept { GoneIffCandidate(kept, pins, p, later, r); }
    else {
      assert r.digest in first;
    }
  }

  /** A record leaves the hot store only if nothing pins or protects it, it is neither canonical
      nor evidence, and its time has run out. */
  lemma OnlyExpiredLeave(records: seq<Record>, pins: set<string>, p: Policy, now: int, r: Record)
    requires DistinctDigests(records) && r in records && r !in Compacted(records, pins, p, now)
    ensures r.digest !in pins && !Protected(records, r.digest)
    ensures Classify(r) in {Ephemeral, Diagnostic} && Expired(p, r, now)
  {
    hide Classify;
    WithoutMembers(records, Gone(records, pins, p, now), r);
    GoneIffCandidate(records, pins, p, now, r);
  }

  /** Compacting again at the same time finds nothing to remove. */
  lemma RecompactingFindsNothing(records: seq<Record>, pins: set<string>, p: Policy, now: int)
    requires DistinctDigests(records)
    ensures Gone(Compacted(records, pins, p, now), pins, p, now) == {}
  {
    var first := Gone(records, pins, p, now);
    var kept := Without(records, first);
    GoneIsUnprotected(records, pins, p, now);
    WithoutDistinct(records, first);
    hide Expired, Without;
    forall r | r in kept ensures !Candidate(kept, pins, p, now, r) {
      WithoutMembers(records, first, r);
      GoneIffCandidate(records, pins, p, now, r);
      ProtectionUnchanged(records, first, r.digest);
    }
  }

  // ---------------------------------------------------------------- lifecycles are unchanged

  /** What the lifecycle projection reads of a record. */
  function Bare(r: Record): Lifecycle.Record {
    Lifecycle.Record(r.digest, r.initial)
  }

  /** Compaction keeps the events whose target is still hot. */
  function AboutHot(kept: seq<Record>): Lifecycle.Event -> bool {
    var ids := Digests(kept);
    (e: Lifecycle.Event) => e.target.Some? && e.target.value in ids
  }

  /** For every survivor, every domain and the domain-less view, the state, the applied events and
      the diagnostics over the kept events are those over all events. */
  lemma CompactionKeepsLifecycles(kept: seq<Record>, events: seq<Lifecycle.Event>, r: Record, domain: Option<string>)
    requires Lifecycle.ContentAddressed(events) && r in kept
    ensures Lifecycle.DeriveLifecycle(Bare(r), Lifecycle.Keep(events, AboutHot(kept)), domain)
         == Lifecycle.DeriveLifecycle(Bare(r), events, domain)
  {
    Lifecycle.OtherTargetsDoNotMatter(Bare(r), events, domain, AboutHot(kept));
  }
}
