/** Retention classes, the protection closure, and compaction of the hot record set. */
module Retention {
  import opened Order
  import opened Records

  datatype Class = Canonical | Evidence | Diagnostic | Ephemeral

  datatype Policy = Policy(ephemeralTtlDays: int, diagnosticTtlDays: int)

  const SECONDS_PER_DAY := 86400

  const PROTECTED_KINDS: set<string> := {
    "ConceptExperiment", "FailureClassification", "Claim", "Decision", "Finding", "Question", "Hypothesis",
    "FailedApproach", "Handoff", "Thread", "Epoch", "EpochSummary", "ReplicationSeries", "ObservationSeries"}

  // ---------------------------------------------------------------- classification

  /** `classify_record` */
  function Classify(r: Record): Class {
    if r.kind in PROTECTED_KINDS then Canonical
    else if r.kind == "WorkRequest" then
      var state := match r.requestState case Some(s) => s case None => "open";
      if state in {"open", "claimed", "responded"} then Canonical else Diagnostic
    else if r.kind == "Advisory" then Diagnostic
    else if r.kind == "ArtifactReference" then Evidence
    else if r.kind == "Replication" then
      if r.outcome == "FAIL" then Evidence else Ephemeral
    else if r.kind == "Observation" then
      if r.outcome in {"FAIL", "UNKNOWN"} then Diagnostic
      else if "canonical" in r.labels then Canonical
      else if "evidence" in r.labels then Evidence
      else Ephemeral
    else Diagnostic
  }

  lemma ProtectedKindIsCanonical(r: Record)
    ensures r.kind in PROTECTED_KINDS ==> Classify(r) == Canonical
  {}

  predicate IsDigest(s: string) {
    "sha256:" <= s
  }

  /** `referenced_digests` */
  function ReferencedDigests(r: Record): set<string> {
    (if IsDigest(r.digest) then {r.digest} else {}) + set s | s in r.named && IsDigest(s)
  }

  // ---------------------------------------------------------------- the protection closure

  /** Records by digest; with distinct digests, simply the lookup. */
  function ByDigest(records: seq<Record>): map<string, Record> {
    if records == [] then map[]
    else ByDigest(records[..|records| - 1])[records[|records| - 1].digest := records[|records| - 1]]
  }

  function Roots(records: seq<Record>): set<string> {
    set d | d in ByDigest(records) && Classify(ByDigest(records)[d]) == Canonical
  }

  function References(records: seq<Record>, d: string): set<string> {
    if d in ByDigest(records) then ReferencedDigests(ByDigest(records)[d]) else {}
  }

  /** `p` leads from a canonical record along references. */
  ghost predicate Trail(records: seq<Record>, p: seq<string>) {
    && |p| > 0 && p[0] in Roots(records)
    && forall i :: 0 < i < |p| ==> p[i] in References(records, p[i - 1])
  }

  /** A live knowledge object names the digest, directly or through others. */
  ghost predicate Protected(records: seq<Record>, d: string) {
    exists p :: Trail(records, p) && p[|p| - 1] == d
  }

  ghost predicate ClosedUnder(records: seq<Record>, s: set<string>) {
    Roots(records) <= s && forall d :: d in s ==> References(records, d) <= s
  }

  lemma {:induction false} TrailStaysIn(records: seq<Record>, s: set<string>, p: seq<string>, i: nat)
    requires ClosedUnder(records, s) && Trail(records, p) && i < |p|
    ensures p[i] in s
  {
    if i > 0 { TrailStaysIn(records, s, p, i - 1); }
  }

  lemma ProtectedReferences(records: seq<Record>, d: string, e: string)
    requires Protected(records, d) && e in References(records, d)
    ensures Protected(records, e)
  {
    hide References, Roots;
    var p :| Trail(records, p) && p[|p| - 1] == d;
    var q := p + [e];
    assert Trail(records, q) && q[|q| - 1] == e;
  }

  lemma RootsProtected(records: seq<Record>, d: string)
    requires d in Roots(records)
    ensures Protected(records, d)
  {
    assert Trail(records, [d]) && [d][|[d]| - 1] == d;
  }

  method IndexByDigest(records: seq<Record>) returns (byDigest: map<string, Record>)
    ensures byDigest == ByDigest(records)
  {
    byDigest := map[];
    for i := 0 to |records|
      invariant byDigest == ByDigest(records[..i])
    {
      assert records[..i + 1][..i] == records[..i];
      byDigest := byDigest[records[i].digest := records[i]];
    }
    assert records[..|records|] == records;
  }

  ghost function Universe(records: seq<Record>): set<string> {
    ByDigest(records).Keys + set d, e | d in ByDigest(records) && e in References(records, d) :: e
  }

  /** What the loop of `protection_graph` keeps: everything collected is protected, and the
      references of everything off the stack are collected. */
  ghost predicate Closing(records: seq<Record>, found: set<string>, stack: seq<string>) {
    && Roots(records) <= found <= Universe(records)
    && (forall d :: d in stack ==> d in found)
    && (forall d :: d in found ==> Protected(records, d))
    && (forall d :: d in found && d !in stack ==> References(records, d) <= found)
  }

  /** The inner loop: push the references not yet collected. */
  method Push(found: set<string>, stack: seq<string>, related: set<string>) returns (found': set<string>, stack': seq<string>)
    ensures found' == found + related
    ensures forall d :: d in stack' <==> d in stack || (d in related && d !in found)
    ensures related <= found ==> |stack'| == |stack|
  {
    found', stack' := found, stack;
    var rest := related;
    while rest != {}
      invariant rest <= related && found' == found + (related - rest)
      invariant forall d :: d in stack' <==> d in stack || (d in related && d !in rest && d !in found)
      invariant related <= found ==> |stack'| == |stack|
      decreases rest
    {
      var d :| d in rest;
      if d !in found' {
        found' := found' + {d};
        stack' := stack' + [d];
      }
      rest := rest - {d};
    }
  }

  /** `protection_graph` collects exactly the protected digests. */
  method ProtectionGraph(records: seq<Record>) returns (found: set<string>)
    ensures forall d :: d in found <==> Protected(records, d)
    ensures ClosedUnder(records, found)
    ensures forall s :: ClosedUnder(records, s) ==> found <= s
  {
    hide Classify, ReferencedDigests, Protected, Universe, ClosedUnder;
    var byDigest := IndexByDigest(records);
    found := set d | d in byDigest && (Classify(byDigest[d]) == Canonical || byDigest[d].kind in PROTECTED_KINDS);
    forall d | d in byDigest && byDigest[d].kind in PROTECTED_KINDS ensures Classify(byDigest[d]) == Canonical {
      ProtectedKindIsCanonical(byDigest[d]);
    }
    assert found == Roots(records);
    var stack := Sorted(found);
    StartClosing(records, stack);
    while stack != []
      invariant Closing(records, found, stack)
      decreases |Universe(records) - found|, |stack|
    {
      var current := stack[|stack| - 1];
      ghost var before, f := stack, found;
      stack := stack[..|stack| - 1];
      var related := if current in byDigest then ReferencedDigests(byDigest[current]) else {};
      found, stack := Push(found, stack, related);
      PopKeepsClosing(records, f, before, found, stack);
    }
    EndClosing(records, found);
    forall s | ClosedUnder(records, s) ensures found <= s { LeastClosed(records, found, s); }
    forall d | Protected(records, d) ensures d in found { LeastClosedHolds(records, found, d); }
  }

  lemma StartClosing(records: seq<Record>, stack: seq<string>)
    requires forall d :: d in stack <==> d in Roots(records)
    ensures Closing(records, Roots(records), stack)
  {
    forall d | d in Roots(records) ensures Protected(records, d) { RootsProtected(records, d); }
  }

  lemma EndClosing(records: seq<Record>, found: set<string>)
    requires Closing(records, found, [])
    ensures ClosedUnder(records, found)
  {}

  lemma PopKeepsClosing(records: seq<Record>, found: set<string>, stack: seq<string>, found': set<string>, stack': seq<string>)
    requires Closing(records, found, stack) && stack != []
    requires var related := References(records, stack[|stack| - 1]);
             && found' == found + related
             && (forall d :: d in stack' <==> d in stack[..|stack| - 1] || (d in related && d !in found))
             && (related <= found ==> |stack'| == |stack| - 1)
    ensures Closing(records, found', stack')
    ensures |Universe(records) - found'| < |Universe(records) - found| ||
            (found' == found && |stack'| < |stack|)
  {
    hide Roots, References, Universe, Protected;
    var current := stack[|stack| - 1];
    var related := References(records, current);
    assert current in found by { assert current in stack; }
    ReferencesInUniverse(records, current);
    forall d | d in related ensures Protected(records, d) { ProtectedReferences(records, current, d); }
    forall d | d in stack && d != current ensures d in stack[..|stack| - 1] {
      var i :| 0 <= i < |stack| && stack[i] == d;
      assert stack[..|stack| - 1][i] == d;
    }
    if related <= found {
      assert found' == found;
    } else {
      var x :| x in related && x !in found;
      Smaller(Universe(records) - found', Universe(records) - found, x);
    }
  }

  lemma ReferencesInUniverse(records: seq<Record>, d: string)
    ensures References(records, d) <= Universe(records)
  {
    hide ReferencedDigests;
  }

  lemma Smaller(a: set<string>, b: set<string>, x: string)
    requires a <= b - {x} && x in b
    ensures |a| < |b|
  {
    assert b == (b - {x}) + {x};
    assert b - {x} == a + (b - {x} - a);
  }

  lemma LeastClosed(records: seq<Record>, found: set<string>, s: set<string>)
    requires ClosedUnder(records, s) && forall d :: d in found ==> Protected(records, d)
    ensures found <= s
  {
    forall d | d in found ensures d in s { LeastClosedHolds(records, s, d); }
  }

  lemma LeastClosedHolds(records: seq<Record>, s: set<string>, d: string)
    requires ClosedUnder(records, s) && Protected(records, d)
    ensures d in s
  {
    var p :| Trail(records, p) && p[|p| - 1] == d;
    TrailStaysIn(records, s, p, |p| - 1);
  }
}
