/** Protection in terms of the records themselves: a record stays as long as one that is kept for good names it,
    directly or through others, and otherwise only until its time has run out. */
module Citations {
  import opened Order
  import opened Records
  import opened Retention
  import opened Compaction

  // ---------------------------------------------------------------- kinds of records

  /** Knowledge, open work, and passing observations marked canonical. */
  predicate Lasting(r: Record) {
    || r.kind in PROTECTED_KINDS
    || (r.kind == "WorkRequest" && r.requestState in {None, Some("open"), Some("claimed"), Some("responded")})
    || (r.kind == "Observation" && r.outcome !in {"FAIL", "UNKNOWN"} && "canonical" in r.labels)
  }

  /** Never thrown away, but no reason to keep what it names. */
  predicate Exhibit(r: Record) {
    || r.kind == "ArtifactReference"
    || (r.kind == "Replication" && r.outcome == "FAIL")
    || (r.kind == "Observation" && r.outcome !in {"FAIL", "UNKNOWN"} && "canonical" !in r.labels && "evidence" in r.labels)
  }

  predicate ShortLived(r: Record) {
    || (r.kind == "Replication" && r.outcome != "FAIL")
    || (r.kind == "Observation" && r.outcome !in {"FAIL", "UNKNOWN"} && r.labels !! {"canonical", "evidence"})
  }

  /** Days in seconds have passed since the record was made; an undated record was made just now. */
  predicate Older(r: Record, now: int, days: int) {
    (match r.createdAt case Some(t) => now - t case None => 0) >= days * 24 * 60 * 60
  }

  /** Its time has run out: any record that is none of these counts as a diagnostic. */
  predicate RanOut(p: Policy, r: Record, now: int) {
    !Lasting(r) && !Exhibit(r) && Older(r, now, if ShortLived(r) then p.ephemeralTtlDays else p.diagnosticTtlDays)
  }

  lemma ClassIs(r: Record)
    ensures Classify(r) == Canonical <==> Lasting(r)
    ensures Classify(r) == Evidence <==> Exhibit(r)
    ensures Classify(r) == Ephemeral <==> ShortLived(r)
  {}

  lemma RanOutIff(p: Policy, r: Record, now: int)
    ensures Expired(p, r, now) <==> RanOut(p, r, now)
  {
    ClassIs(r);
    hide Classify, Lasting, Exhibit, ShortLived;
    if r.createdAt.Some? {
      DaysIff(now - r.createdAt.value, p.ephemeralTtlDays);
      DaysIff(now - r.createdAt.value, p.diagnosticTtlDays);
    }
  }

  lemma DaysIff(seconds: int, days: int)
    ensures seconds / SECONDS_PER_DAY >= days <==> seconds >= days * 24 * 60 * 60
  {}

  // ---------------------------------------------------------------- chains of names

  predicate Names(a: Record, digest: string) {
    digest in a.named && "sha256:" <= digest
  }

  /** Stored records, from a lasting one, each naming the next by its digest. */
  ghost predicate Chain(records: seq<Record>, p: seq<Record>) {
    && p != [] && Lasting(p[0]) && (forall i :: 0 <= i < |p| ==> p[i] in records)
    && forall i :: 0 < i < |p| ==> Names(p[i - 1], p[i].digest)
  }

  ghost predicate Cited(records: seq<Record>, r: Record) {
    exists p :: Chain(records, p) && p[|p| - 1] == r
  }

  lemma StoredReferences(records: seq<Record>, r: Record, d: string)
    requires DistinctDigests(records) && r in records
    ensures r.digest in Roots(records) <==> Lasting(r)
    ensures d in References(records, r.digest) <==> Names(r, d) || (d == r.digest && "sha256:" <= d)
  {
    ByDigestIs(records, r);
    ClassIs(r);
    hide Classify, Lasting;
  }

  /** Whatever a protected record names by a digest is protected, stored or not. */
  lemma NamedIsProtected(records: seq<Record>, r: Record, d: string)
    requires DistinctDigests(records) && r in records && Protected(records, r.digest) && Names(r, d)
    ensures Protected(records, d)
  {
    StoredReferences(records, r, d);
    ProtectedReferences(records, r.digest, d);
  }

  lemma {:induction false} ChainIsProtected(records: seq<Record>, p: seq<Record>)
    requires DistinctDigests(records) && Chain(records, p)
    ensures Protected(records, p[|p| - 1].digest)
  {
    hide Protected, Lasting, Roots, Names, DistinctDigests;
    var n := |p| - 1;
    if n == 0 {
      StoredReferences(records, p[0], "");
      RootsProtected(records, p[0].digest);
    } else {
      assert Chain(records, p[..n]) && p[..n][n - 1] == p[n - 1];
      ChainIsProtected(records, p[..n]);
      NamedIsProtected(records, p[n - 1], p[n].digest);
    }
  }

  lemma {:induction false} TrailIsChain(records: seq<Record>, t: seq<string>, r: Record)
    requires DistinctDigests(records) && r in records && Trail(records, t) && t[|t| - 1] == r.digest
    ensures Cited(records, r)
  {
    hide Lasting, References, Roots;
    var n := |t| - 1;
    if n == 0 {
      StoredReferences(records, r, "");
      assert Chain(records, [r]) && [r][|[r]| - 1] == r;
    } else {
      assert t[n] in References(records, t[n - 1]);
      var x := Referring(records, t[n - 1], t[n]);
      assert Trail(records, t[..n]) && t[..n][n - 1] == x.digest;
      TrailIsChain(records, t[..n], x);
      StoredReferences(records, x, r.digest);
      if x != r { CitedOn(records, x, r); }
    }
  }

  /** Only a stored record refers to anything. */
  lemma Referring(records: seq<Record>, d: string, to: string) returns (x: Record)
    requires DistinctDigests(records) && to in References(records, d)
    ensures x in records && x.digest == d
  {
    x := ByDigest(records)[d];
    ByDigestHas(records, d);
  }

  lemma CitedOn(records: seq<Record>, x: Record, r: Record)
    requires DistinctDigests(records) && Cited(records, x) && r in records && x != r
    requires Names(x, r.digest) || x.digest == r.digest
    ensures Cited(records, r)
  {
    hide Lasting;
    var p :| Chain(records, p) && p[|p| - 1] == x;
    assert x in records;
    var q := p + [r];
    assert Chain(records, q) && q[|q| - 1] == r;
  }

  /** A stored record is protected exactly when it is lasting, or such a chain leads to it. */
  lemma ProtectedIffCited(records: seq<Record>, r: Record)
    requires DistinctDigests(records) && r in records
    ensures Protected(records, r.digest) <==> Cited(records, r)
  {
    if Protected(records, r.digest) {
      var t :| Trail(records, t) && t[|t| - 1] == r.digest;
      TrailIsChain(records, t, r);
    }
    if Cited(records, r) {
      var p :| Chain(records, p) && p[|p| - 1] == r;
      ChainIsProtected(records, p);
    }
  }

  /** Compaction drops exactly the records that nothing lasting leads to, that nobody pinned and whose time has run
      out. */
  lemma LeavesIff(records: seq<Record>, pins: set<string>, p: Policy, now: int, r: Record)
    requires DistinctDigests(records) && r in records
    ensures r !in Compacted(records, pins, p, now) <==>
            !Cited(records, r) && r.digest !in pins && RanOut(p, r, now)
  {
    WithoutMembers(records, Gone(records, pins, p, now), r);
    GoneIffCandidate(records, pins, p, now, r);
    ProtectedIffCited(records, r);
    RanOutIff(p, r, now);
    hide Expired, RanOut, Protected, Cited, Gone;
  }
}
