/** The hot store, its pins and its archives, through any interleaving of adding, logging,
    pinning, unpinning and compacting: nothing added is ever lost. */
module Commons {
  import opened Order
  import opened Records
  import opened Retention
  import opened Compaction
  import opened Citations
  import opened Staging
  import opened Forks
  import opened Semantic
  import Lifecycle
  import EventAdmission

  // ---------------------------------------------------------------- archives

  /** `identities` is the manifest's list; `members` maps the stem of `records/<stem>.json` to the
      record its payload decodes to. */
  datatype Archive = Archive(identities: seq<string>, members: map<string, Record>)

  /** The digest without its `sha256:` prefix. */
  function Stem(digest: string): string {
    if IsDigest(digest) then digest[|"sha256:"|..] else digest
  }

  lemma StemInjective(a: string, b: string)
    requires IsDigest(a) && IsDigest(b) && Stem(a) == Stem(b)
    ensures a == b
  {
    assert a == "sha256:" + Stem(a) && b == "sha256:" + Stem(b);
  }

  ghost predicate AllDigests(records: seq<Record>) {
    forall i :: 0 <= i < |records| ==> IsDigest(records[i].digest)
  }

  /** Lists and holds exactly these records, each under its own digest. */
  ghost predicate Holds(a: Archive, records: seq<Record>) {
    && |a.identities| == |records|
    && forall i :: 0 <= i < |records| ==>
         && a.identities[i] == records[i].digest
         && Stem(records[i].digest) in a.members && a.members[Stem(records[i].digest)] == records[i]
  }

  /** `create_archive`, for the record members. */
  method CreateArchive(records: seq<Record>) returns (a: Archive)
    requires DistinctDigests(records) && AllDigests(records)
    ensures Holds(a, records)
  {
    a := Archive([], map[]);
    for i := 0 to |records|
      invariant Holds(a, records[..i])
    {
      forall j | 0 <= j < i ensures Stem(records[j].digest) != Stem(records[i].digest) {
        if Stem(records[j].digest) == Stem(records[i].digest) { StemInjective(records[j].digest, records[i].digest); }
      }
      a := Archive(a.identities + [records[i].digest], a.members[Stem(records[i].digest) := records[i]]);
    }
    assert records[..|records|] == records;
  }

  /** `verify_archive`: every listed record is present. */
  predicate Complete(a: Archive) {
    forall d :: d in a.identities ==> d in set s | s in a.members :: "sha256:" + s
  }

  /** An archive that lists digests verifies exactly when each listed record is among its members. */
  lemma CompleteIff(a: Archive)
    requires forall d :: d in a.identities ==> IsDigest(d)
    ensures Complete(a) <==> forall d :: d in a.identities ==> Stem(d) in a.members
  {
    forall d | d in a.identities ensures d in (set s | s in a.members :: "sha256:" + s) <==> Stem(d) in a.members {
      assert d == "sha256:" + Stem(d);
      if s :| s in a.members && d == "sha256:" + s { assert Stem(d) == s; }
    }
  }

  /** A freshly created archive always verifies. */
  lemma CreatedArchiveIsComplete(a: Archive, records: seq<Record>)
    requires Holds(a, records) && AllDigests(records)
    ensures Complete(a)
  {
    forall d | d in a.identities ensures d in set s | s in a.members :: "sha256:" + s {
      var i :| 0 <= i < |a.identities| && a.identities[i] == d;
      assert records[i].digest == d == "sha256:" + Stem(d);
    }
  }

  /** `load_archived_record`: the first archive that lists the digest and holds its payload. */
  function LoadArchived(archives: seq<Archive>, digest: string): Option<Record> {
    if archives == [] then None
    else if digest in archives[0].identities && Stem(digest) in archives[0].members
    then Some(archives[0].members[Stem(digest)])
    else LoadArchived(archives[1..], digest)
  }

  /** Every archive is faithful: what it lists is what was once added under that digest. */
  ghost predicate Faithful(archives: seq<Archive>, added: set<Record>) {
    forall a, d :: a in archives && d in a.identities && Stem(d) in a.members ==>
      a.members[Stem(d)] in added && a.members[Stem(d)].digest == d
  }

  ghost predicate Archived(archives: seq<Archive>, r: Record) {
    exists a :: a in archives && r.digest in a.identities && Stem(r.digest) in a.members
  }

  ghost predicate ContentAddressed(added: set<Record>) {
    forall x, y :: x in added && y in added && x.digest == y.digest ==> x == y
  }

  lemma {:induction false} LoadFindsArchived(archives: seq<Archive>, added: set<Record>, r: Record)
    requires Faithful(archives, added) && ContentAddressed(added) && r in added
    ensures LoadArchived(archives, r.digest) == if Archived(archives, r) then Some(r) else None
  {
    if archives != [] {
      assert archives[0] in archives;
      assert forall a :: a in archives[1..] ==> a in archives;
      LoadFindsArchived(archives[1..], added, r);
    }
  }

  function FindHot(hot: seq<Record>, digest: string): Option<Record> {
    if hot == [] then None
    else if hot[0].digest == digest then Some(hot[0])
    else FindHot(hot[1..], digest)
  }

  lemma {:induction false} FindHotFinds(hot: seq<Record>, r: Record)
    requires DistinctDigests(hot) && r in hot
    ensures FindHot(hot, r.digest) == Some(r)
  {
    if hot[0] != r {
      var i :| 0 <= i < |hot| && hot[i] == r;
      assert hot[0].digest != hot[i].digest;
      FindHotFinds(hot[1..], r);
    }
  }

  lemma {:induction false} FindHotMisses(hot: seq<Record>, digest: string)
    ensures FindHot(hot, digest).None? <==> digest !in Digests(hot)
    ensures FindHot(hot, digest).Some? ==> FindHot(hot, digest).value in hot && FindHot(hot, digest).value.digest == digest
  {
    if hot != [] {
      FindHotMisses(hot[1..], digest);
      assert Digests(hot) == {hot[0].digest} + Digests(hot[1..]);
    }
  }

  /** `get`, for records: hot first, then the archives. */
  function Retrieve(hot: seq<Record>, archives: seq<Archive>, digest: string): Option<Record> {
    match FindHot(hot, digest)
    case Some(r) => Some(r)
    case None => LoadArchived(archives, digest)
  }

  /** Everything ever added is still in the hot store or in some archive. */
  ghost predicate Conserved(hot: seq<Record>, archives: seq<Archive>, added: set<Record>) {
    forall r :: r in added ==> r in hot || Archived(archives, r)
  }

  /** Conservation is retrievability: each added record comes back, unchanged, under its digest. */
  lemma ConservedIsRetrievable(hot: seq<Record>, archives: seq<Archive>, added: set<Record>, r: Record)
    requires DistinctDigests(hot) && (forall x :: x in hot ==> x in added)
    requires Faithful(archives, added) && ContentAddressed(added) && Conserved(hot, archives, added) && r in added
    ensures Retrieve(hot, archives, r.digest) == Some(r)
  {
    FindHotMisses(hot, r.digest);
    LoadFindsArchived(archives, added, r);
    if r in hot { FindHotFinds(hot, r); }
  }

  // ---------------------------------------------------------------- the store

  function Bares(records: seq<Record>): seq<Lifecycle.Record> {
    seq(|records|, i requires 0 <= i < |records| => Bare(records[i]))
  }

  datatype CompactOutcome = DryRun | Blocked | Aborted | Done

  class Store {
    const policy: Policy
    var hot: seq<Record>
    var events: seq<Lifecycle.Event>
    var pins: set<string>
    var archives: seq<Archive>

    /** Every record ever admitted. */
    ghost var added: set<Record>

    constructor (policy: Policy)
      ensures Valid() && Unforked(added, hot) && added == {} && this.policy == policy
    {
      this.policy := policy;
      hot, events, pins, archives, added := [], [], {}, [], {};
      new;
      NothingGrown();
      NothingForked();
    }

    ghost predicate Valid()
      reads this
    {
      && DistinctDigests(hot) && AllDigests(hot) && WellGrown(hot)
      && (forall r :: r in hot ==> r in added)
      && EventAdmission.Logged(Bares(hot), events)
      && ContentAddressed(added) && Faithful(archives, added) && Conserved(hot, archives, added)
    }

    /** `add_record`: admit a record that passes the semantic checks, once. */
    method AddRecord(r: Record) returns (ok: bool)
      requires Valid() && IsDigest(r.digest) && ContentAddressed(added + {r})
      modifies `hot, `added
      ensures Valid()
      ensures ok <==> r in old(hot) || Admissible(r, old(hot))
      ensures hot == if ok && r !in old(hot) then old(hot) + [r] else old(hot)
      ensures added == if ok then old(added) + {r} else old(added)
      ensures Unforked(old(added), old(hot)) ==> Unforked(added, hot)
    {
      hide WellGrown, Admissible, EventAdmission.Logged, Bares, Unforked;
      var codes := SemanticDiagnostics(r, hot);
      ghost var before := hot;
      assert Stored(r, hot) <==> r in hot by { StoredIffHot(hot, added, r); }
      if codes != {} { return false; }
      if !Stored(r, hot) {
        FreshDigest(hot, added, r);
        AdmissionKeepsWellGrown(hot, r);
        AdmissionForks(added, hot, r);
        hot, added := hot + [r], added + {r};
        BaresAppend(before, r);
        MoreRecordsKeepLog(Bares(before), Bares(hot), events);
      }
      assert added == old(added) + {r};
      return true;
    }

    /** `add_event`: once, and only if the target's current state admits it. */
    method AddEvent(e: Lifecycle.Event) returns (ok: bool)
      requires Valid()
      modifies `events
      ensures Valid()
      ensures ok <==> EventAdmission.WellFormed(e)
                      && (e.digest in Lifecycle.Digests(old(events)) || EventAdmission.Accepts(Bares(hot), old(events), e))
      ensures events == if ok && e.digest !in Lifecycle.Digests(old(events)) then old(events) + [e] else old(events)
    {
      hide WellGrown, DistinctDigests, AllDigests, ContentAddressed, Faithful, Conserved, EventAdmission.Logged,
           EventAdmission.Accepts, EventAdmission.WellFormed, Lifecycle.Digests, Bares;
      BaresDistinct(hot);
      var outcome := EventAdmission.Judge(Bares(hot), events, e);
      ok := !outcome.Refused?;
      AcceptsIsWellFormed(Bares(hot), events, e);
      if outcome.Appended? {
        EventAdmission.LogExtends(Bares(hot), events, e);
        events := events + [e];
      }
    }

    /** `pin` */
    method Pin(digest: string) returns (ok: bool)
      requires Valid()
      modifies `pins
      ensures Valid() && (ok <==> IsDigest(digest))
      ensures pins == if ok then old(pins) + {digest} else old(pins)
    {
      ok := IsDigest(digest);
      if ok { pins := pins + {digest}; }
    }

    /** `unpin` */
    method Unpin(digest: string)
      requires Valid()
      modifies `pins
      ensures Valid() && pins == old(pins) - {digest}
    {
      pins := pins - {digest};
    }

    /** `compact`: archive everything, stage the survivors through ordinary admission, and install the staged
        generation, which goes through exactly when the removal is `Stageable`. */
    method Compact(confirm: bool, dryRun: bool, now: int) returns (outcome: CompactOutcome)
      requires Valid()
      modifies `hot, `events, `archives
      ensures Valid()
      ensures outcome.DryRun? <==> dryRun || !confirm
      ensures outcome.Blocked? <==> confirm && !dryRun && Gone(old(hot), pins, policy, now) == {}
      ensures outcome.Done? <==> confirm && !dryRun && Gone(old(hot), pins, policy, now) != {}
                                 && Stageable(old(hot), Gone(old(hot), pins, policy, now))
      ensures outcome.Aborted? <==> confirm && !dryRun && Gone(old(hot), pins, policy, now) != {}
                                    && !Stageable(old(hot), Gone(old(hot), pins, policy, now))
      ensures Unforked(added, old(hot)) && KeepsEnds(old(hot), Gone(old(hot), pins, policy, now)) ==> Unforked(added, hot)
      ensures outcome.DryRun? || outcome.Blocked? ==> archives == old(archives)
      ensures !outcome.Done? ==> hot == old(hot) && events == old(events)
      ensures outcome.Done? ==>
                && hot == Compacted(old(hot), pins, policy, now)
                && events == Lifecycle.Keep(old(events), AboutHot(hot))
      ensures forall r :: r in old(hot) && r !in hot ==>
                r.digest !in pins && !Protected(old(hot), r.digest) && Classify(r) in {Ephemeral, Diagnostic}
      ensures outcome.Done? ==> forall r :: r in old(hot) ==>
                (r in hot <==> Cited(old(hot), r) || r.digest in pins || !RanOut(policy, r, now))
      ensures outcome.Done? || outcome.Aborted? ==>
                exists a :: archives == old(archives) + [a] && Holds(a, old(hot)) && Complete(a)
    {
      hide Gone, Grown, WellGrown, DistinctDigests, AllDigests, Holds, Complete, Faithful, ContentAddressed, Archived,
           EventAdmission.Logged, Lifecycle.Keep, Without, Bares, Protected, Classify, Stageable, Unforked, KeepsEnds, Cited, RanOut;
      if dryRun || !confirm { return DryRun; }
      var gone := AllCandidates(hot, pins, policy, now);
      if gone == {} { return Blocked; }
      var archive := CreateArchive(hot);
      CreatedArchiveIsComplete(archive, hot);
      ArchiveKeepsFaith(hot, archives, archive, added);
      archives := archives + [archive];
      var kept := DropGone(hot, gone);
      var staged := Stage(hot, kept, gone);
      StagedIff(hot, gone);
      CompactionForks(added, hot, gone);
      if !staged { return Aborted; }
      ghost var before := hot;
      WithoutDistinct(hot, gone);
      KeptDigests(hot, gone);
      forall r | r in kept ensures r in before { WithoutMembers(before, gone, r); }
      FilteredLog(hot, kept, events);
      RunsStayWellGrown(kept);
      forall r | r in before && r !in kept
        ensures r.digest !in pins && !Protected(before, r.digest) && Classify(r) in {Ephemeral, Diagnostic}
      {
        OnlyExpiredLeave(before, pins, policy, now, r);
      }
      forall r | r in before ensures r in kept <==> Cited(before, r) || r.digest in pins || !RanOut(policy, r, now) {
        LeavesIff(before, pins, policy, now, r);
      }
      events := KeepEvents(events, kept);
      hot := kept;
      return Done;
    }
  }

  // ---------------------------------------------------------------- steps of the methods

  lemma NothingForked()
    ensures Unforked({}, [])
  {
    forall id ensures HasChain({}, [], id) { assert OneChain({}, [], id, []); }
  }

  lemma AdmissionForks(added: set<Record>, hot: seq<Record>, r: Record)
    requires WellGrown(hot) && Admissible(r, hot)
    ensures Unforked(added, hot) ==> Unforked(added + {r}, hot + [r])
  {
    hide Unforked, Admissible, Histories;
    if Unforked(added, hot) { AdmissionKeepsUnforked(added, hot, r); }
  }

  lemma CompactionForks(added: set<Record>, hot: seq<Record>, gone: set<string>)
    ensures Stageable(hot, gone) && Unforked(added, hot) && KeepsEnds(hot, gone) ==> Unforked(added, Without(hot, gone))
  {
    hide Unforked, HistoriesIntact, KeepsEnds, Without;
    if Stageable(hot, gone) && Unforked(added, hot) && KeepsEnds(hot, gone) { CompactionKeepsUnforked(added, hot, gone); }
  }

  lemma StoredIffHot(hot: seq<Record>, added: set<Record>, r: Record)
    requires (forall x :: x in hot ==> x in added) && ContentAddressed(added + {r})
    ensures Stored(r, hot) <==> r in hot
  {
    if Stored(r, hot) {
      var x :| x in hot && LogicalId(x) == LogicalId(r) && x.digest == r.digest;
      assert x in added + {r};
    }
  }

  lemma FreshDigest(hot: seq<Record>, added: set<Record>, r: Record)
    requires (forall x :: x in hot ==> x in added) && ContentAddressed(added + {r}) && r !in hot
    requires DistinctDigests(hot)
    ensures DistinctDigests(hot + [r])
  {
    forall i | 0 <= i < |hot| ensures hot[i].digest != r.digest {
      assert hot[i] in added + {r} && hot[i] != r;
    }
  }

  lemma BaresDistinct(hot: seq<Record>)
    requires DistinctDigests(hot)
    ensures EventAdmission.DistinctRecords(Bares(hot))
  {}

  lemma AcceptsIsWellFormed(records: seq<Lifecycle.Record>, events: seq<Lifecycle.Event>, e: Lifecycle.Event)
    ensures EventAdmission.Accepts(records, events, e) ==> EventAdmission.WellFormed(e)
  {}

  lemma BaresAppend(hot: seq<Record>, r: Record)
    ensures Bares(hot + [r]) == Bares(hot) + [Bare(r)]
  {}

  /** A log stays a log when more records arrive. */
  lemma {:induction false} MoreRecordsKeepLog(some: seq<Lifecycle.Record>, all: seq<Lifecycle.Record>, events: seq<Lifecycle.Event>)
    requires EventAdmission.Logged(some, events) && some <= all
    ensures EventAdmission.Logged(all, events)
  {
    if events != [] {
      var front, e := events[..|events| - 1], events[|events| - 1];
      MoreRecordsKeepLog(some, all, front);
      var i :| 0 <= i < |some| && EventAdmission.Fits(some[i], front, e);
      assert all[i] == some[i];
    }
  }

  method DropGone(records: seq<Record>, gone: set<string>) returns (kept: seq<Record>)
    ensures kept == Without(records, gone)
  {
    kept := [];
    for i := 0 to |records|
      invariant kept == Without(records[..i], gone)
    {
      assert records[..i + 1][..i] == records[..i];
      if records[i].digest !in gone { kept := kept + [records[i]]; }
    }
    assert records[..|records|] == records;
  }

  lemma KeptDigests(hot: seq<Record>, gone: set<string>)
    requires AllDigests(hot)
    ensures AllDigests(Without(hot, gone))
  {
    var kept := Without(hot, gone);
    forall i | 0 <= i < |kept| ensures IsDigest(kept[i].digest) {
      WithoutMembers(hot, gone, kept[i]);
    }
  }

  /** The staging store: admit the survivors one by one. */
  method Stage(hot: seq<Record>, kept: seq<Record>, gone: set<string>) returns (ok: bool)
    requires DistinctDigests(hot) && kept == Without(hot, gone)
    ensures ok <==> Grown(kept)
  {
    hide Admissible, Without;
    WithoutDistinct(hot, gone);
    for i := 0 to |kept|
      invariant Grown(kept[..i])
    {
      var codes := SemanticDiagnostics(kept[i], kept[..i]);
      assert !Stored(kept[i], kept[..i]);
      assert kept[..i + 1][..i] == kept[..i];
      if codes != {} {
        GrownPrefix(kept, i + 1);
        return false;
      }
    }
    assert kept[..|kept|] == kept;
    return true;
  }

  lemma {:induction false} GrownPrefix(records: seq<Record>, n: nat)
    requires n <= |records|
    ensures Grown(records) ==> Grown(records[..n])
    decreases |records|
  {
    hide Admissible;
    if n == |records| {
      assert records[..n] == records;
    } else {
      var front := records[..|records| - 1];
      GrownPrefix(front, n);
      assert front[..n] == records[..n];
    }
  }

  method KeepEvents(events: seq<Lifecycle.Event>, kept: seq<Record>) returns (r: seq<Lifecycle.Event>)
    ensures r == Lifecycle.Keep(events, AboutHot(kept))
  {
    r := [];
    var ids := Digests(kept);
    for i := 0 to |events|
      invariant r == Lifecycle.Keep(events[..i], AboutHot(kept))
    {
      assert events[..i + 1][..i] == events[..i];
      if events[i].target.Some? && events[i].target.value in ids { r := r + [events[i]]; }
    }
    assert events[..|events|] == events;
  }

  /** The archive of the whole hot set makes every hot record safe to drop. */
  lemma ArchiveKeepsFaith(hot: seq<Record>, archives: seq<Archive>, a: Archive, added: set<Record>)
    requires Holds(a, hot) && Faithful(archives, added) && ContentAddressed(added)
    requires (forall r :: r in hot ==> r in added) && Conserved(hot, archives, added) && AllDigests(hot)
    ensures Faithful(archives + [a], added)
    ensures forall r :: r in added ==> Archived(archives + [a], r)
  {
    forall d | d in a.identities && Stem(d) in a.members
      ensures a.members[Stem(d)] in added && a.members[Stem(d)].digest == d
    {
      var i :| 0 <= i < |a.identities| && a.identities[i] == d;
      assert hot[i] in hot;
    }
    forall r | r in added ensures Archived(archives + [a], r) {
      if r in hot {
        var i :| 0 <= i < |hot| && hot[i] == r;
        assert a.identities[i] == r.digest;
        assert a in archives + [a];
      } else {
        var b :| b in archives && r.digest in b.identities && Stem(r.digest) in b.members;
        assert b in archives + [a];
      }
    }
  }

  /** The events about some of the records are a log for those: replaying them, a store accepts every one. */
  lemma FilteredLog(hot: seq<Record>, kept: seq<Record>, events: seq<Lifecycle.Event>)
    requires DistinctDigests(hot) && EventAdmission.Logged(Bares(hot), events)
    requires forall r :: r in kept ==> r in hot
    ensures EventAdmission.Logged(Bares(kept), Lifecycle.Keep(events, AboutHot(kept)))
  {
    var keep := AboutHot(kept);
    forall i | 0 <= i < |kept| ensures Bares(kept)[i] in Bares(hot) {
      assert kept[i] in kept;
      var j :| 0 <= j < |hot| && hot[j] == kept[i];
      assert Bares(hot)[j] == Bares(kept)[i];
    }
    forall e ensures keep(e) <==> EventAdmission.Survives(Bares(kept), e) {
      SurvivesIffAboutHot(kept, e);
    }
    EventAdmission.FilteredLogIsReadmitted(Bares(hot), events, Bares(kept), keep);
  }

  lemma SurvivesIffAboutHot(kept: seq<Record>, e: Lifecycle.Event)
    ensures AboutHot(kept)(e) <==> EventAdmission.Survives(Bares(kept), e)
  {
    if AboutHot(kept)(e) {
      var r :| r in kept && r.digest == e.target.value;
      var i :| 0 <= i < |kept| && kept[i] == r;
      assert Bares(kept)[i].digest == r.digest;
    }
    if EventAdmission.Survives(Bares(kept), e) {
      var i :| 0 <= i < |Bares(kept)| && e.target == Some(Bares(kept)[i].digest);
      assert kept[i] in kept;
    }
  }
}
