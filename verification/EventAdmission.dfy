/** The store's admission of lifecycle events, and how far it agrees with the projection. */
module EventAdmission {
  import opened Order
  import opened Lifecycle

  datatype Outcome = Appended | AlreadyStored | Refused

  /** The part of `validate_event` that constrains a lifecycle event. */
  predicate WellFormed(e: Event) {
    && e.target.Some? && Strip(e.domain) != ""
    && e.step.Some? && e.step.value.from.Some?
    && !e.step.value.from.value.Unlisted? && !e.step.value.to.Unlisted?
  }

  predicate DistinctRecords(records: seq<Record>) {
    forall i, j :: 0 <= i < j < |records| ==> records[i].digest != records[j].digest
  }

  /** The check `add_event` makes for a target: the state of the domain exactly as written. */
  predicate Fits(r: Record, events: seq<Event>, e: Event) {
    && e.target == Some(r.digest) && e.step.Some?
    && ValidateTransition(Derive(r, events, e.domain).state, e.step.value.to, e) == []
  }

  predicate Accepts(records: seq<Record>, events: seq<Event>, e: Event) {
    WellFormed(e) && exists i :: 0 <= i < |records| && Fits(records[i], events, e)
  }

  /** What `add_event` decides about an event, given what is stored. */
  method Judge(records: seq<Record>, events: seq<Event>, e: Event) returns (outcome: Outcome)
    requires DistinctRecords(records)
    ensures outcome.AlreadyStored? <==> WellFormed(e) && e.digest in Digests(events)
    ensures outcome.Appended? <==> e.digest !in Digests(events) && Accepts(records, events, e)
  {
    if !WellFormed(e) { return Refused; }
    if e.digest in Digests(events) { return AlreadyStored; }
    for i := 0 to |records|
      invariant forall k :: 0 <= k < i ==> e.target != Some(records[k].digest)
    {
      if e.target == Some(records[i].digest) {
        var current := DeriveForDomain(records[i], events, e.domain);
        if ValidateTransition(current.state, e.step.value.to, e) != [] { return Refused; }
        assert Fits(records[i], events, e);
        return Appended;
      }
    }
    return Refused;
  }

  // ---------------------------------------------------------------- admission against projection

  lemma {:induction false} NoEventHasPaddedDomain(r: Record, events: seq<Event>, domain: string)
    requires Strip(domain) != domain
    ensures Derive(r, events, domain) == View(r.initial, [], [])
  {
    if events != [] {
      var e := events[|events| - 1];
      NoEventHasPaddedDomain(r, events[..|events| - 1], domain);
      StripIdempotent(e.domain);
    }
  }

  /** An admitted event is applied by the projection of its domain exactly when the domain was
      written without padding, or the domain happens to be still in the record's initial state. */
  lemma AdmittedAppliesIff(r: Record, events: seq<Event>, e: Event)
    requires WellFormed(e) && Fits(r, events, e) && e.digest !in Digests(events)
    ensures var d := Strip(e.domain);
            var before, after := Derive(r, events, d), Derive(r, events + [e], d);
            && (after.diagnostics == before.diagnostics <==> e.domain == d || before.state == r.initial)
            && (after.applied == before.applied + [e.digest] <==> e.domain == d || before.state == r.initial)
  {
    var d := Strip(e.domain);
    assert (events + [e])[..|events|] == events;
    assert Relevant(r, d, e);
    if e.domain != d { NoEventHasPaddedDomain(r, events, e.domain); }
    var before := Derive(r, events, d);
    var report := ValidateTransition(before.state, e.step.value.to, e);
    assert Derive(r, events + [e], d) == Apply(before, e);
    if before.state != Derive(r, events, e.domain).state {
      assert StaleTransition in report;
      assert before.diagnostics + report != before.diagnostics by {
        assert |before.diagnostics + report| > |before.diagnostics|;
      }
    }
  }

  /** A log the store can hold: each event was fresh and accepted when it arrived. */
  ghost predicate Logged(records: seq<Record>, events: seq<Event>) {
    events == [] ||
    var front, e := events[..|events| - 1], events[|events| - 1];
    Logged(records, front) && e.digest !in Digests(front) && Accepts(records, front, e)
  }

  lemma LogExtends(records: seq<Record>, events: seq<Event>, e: Event)
    requires Logged(records, events) && e.digest !in Digests(events) && Accepts(records, events, e)
    ensures Logged(records, events + [e])
  {
    hide Accepts, Digests;
    assert (events + [e])[..|events|] == events;
  }

  lemma LastWasAccepted(records: seq<Record>, events: seq<Event>)
    requires Logged(records, events) && events != []
    ensures var front, e := events[..|events| - 1], events[|events| - 1];
            Logged(records, front) && WellFormed(e) && e.digest !in Digests(front) && Accepts(records, front, e)
  {
    hide Fits;
  }

  ghost predicate Unpadded(events: seq<Event>) {
    forall i :: 0 <= i < |events| ==> Strip(events[i].domain) == events[i].domain
  }

  function RelevantDigests(r: Record, events: seq<Event>, domain: string): seq<string> {
    if events == [] then []
    else
      var front, e := RelevantDigests(r, events[..|events| - 1], domain), events[|events| - 1];
      if Relevant(r, domain, e) then front + [e.digest] else front
  }

  /** In a log whose domains are written without padding, every event is applied by the
      projection of its domain, and no projection carries a diagnostic. */
  lemma {:induction false} UnpaddedLogsApplyFully(records: seq<Record>, events: seq<Event>, r: Record, domain: string)
    requires DistinctRecords(records) && r in records
    requires Logged(records, events) && Unpadded(events)
    ensures Derive(r, events, domain).diagnostics == []
    ensures Derive(r, events, domain).applied == RelevantDigests(r, events, domain)
  {
    if events != [] {
      var front, e := events[..|events| - 1], events[|events| - 1];
      UnpaddedLogsApplyFully(records, front, r, domain);
      if Relevant(r, domain, e) {
        var i :| 0 <= i < |records| && Fits(records[i], front, e);
        assert records[i] == r;
        assert events == front + [e];
        assert e.domain == domain;
        AdmittedAppliesIff(r, front, e);
      }
    }
  }

  /** With padding the guarantee is lost: two events can both be admitted from the initial state,
      and the projection then refuses the second as stale. */
  lemma {:induction false} PaddingAdmitsAStaleEvent(r: Record, a: Event, b: Event)
    requires r.initial == Proposed && a.digest != b.digest
    requires WellFormed(a) && WellFormed(b)
    requires a.domain == Strip(b.domain) != b.domain
    requires a.target == Some(r.digest) && a.step.value == Step(Some(Proposed), Reproduced)
    requires b.target == Some(r.digest) && b.step.value == Step(Some(Proposed), Disputed)
    ensures Logged([r], [a, b])
    ensures Derive(r, [a, b], a.domain).diagnostics != []
  {
    var records, none, one, both := [r], [], [a], [a, b];
    assert one[..0] == none && both[..1] == one && one + [b] == both && none + [a] == one;
    StripIdempotent(b.domain);
    assert Derive(r, none, a.domain).state == Proposed;
    assert Fits(records[0], none, a);
    assert Logged(records, none);
    assert Logged(records, one);
    AdmittedAppliesIff(r, none, a);
    assert Derive(r, one, a.domain) == Apply(Derive(r, none, a.domain), a);
    NoEventHasPaddedDomain(r, one, b.domain);
    assert Fits(records[0], one, b);
    AdmittedAppliesIff(r, one, b);
  }

  // ---------------------------------------------------------------- replaying a filtered log

  lemma {:induction false} LoggedContentAddressed(records: seq<Record>, events: seq<Event>)
    requires Logged(records, events)
    ensures forall i, j :: 0 <= i < j < |events| ==> events[i].digest != events[j].digest
    ensures ContentAddressed(events)
  {
    if events != [] {
      var front, e := events[..|events| - 1], events[|events| - 1];
      LoggedContentAddressed(records, front);
      forall i | 0 <= i < |front| ensures events[i].digest != e.digest {
        assert front[i] == events[i] && front[i].digest in Digests(front);
      }
      forall i, j | 0 <= i < j < |events| ensures events[i].digest != events[j].digest {
        if j < |front| { assert front[i] == events[i] && front[j] == events[j]; }
      }
    }
  }

  /** `keep` selects the events about the surviving records. */
  ghost predicate Survives(kept: seq<Record>, e: Event) {
    exists i :: 0 <= i < |kept| && e.target == Some(kept[i].digest)
  }

  /** An accepted event about a survivor is accepted again after the filtered log. */
  lemma AcceptedAgain(records: seq<Record>, front: seq<Event>, e: Event, kept: seq<Record>, keep: Event -> bool)
    requires DistinctRecords(records) && ContentAddressed(front) && Accepts(records, front, e)
    requires forall i :: 0 <= i < |kept| ==> kept[i] in records
    requires Survives(kept, e)
    requires forall x :: x in front && x.target == e.target ==> keep(x)
    ensures Accepts(kept, Keep(front, keep), e)
  {
    var k :| 0 <= k < |kept| && e.target == Some(kept[k].digest);
    var i :| 0 <= i < |records| && Fits(records[i], front, e);
    assert records[i] == kept[k];
    IrrelevantEventsDoNotMatter(kept[k], front, e.domain, keep);
    assert Fits(kept[k], Keep(front, keep), e);
  }

  /** Restricting a log to the events of the surviving records gives a log again: a staging store
      that replays them one by one accepts every one. */
  lemma {:induction false} FilteredLogIsReadmitted(records: seq<Record>, events: seq<Event>, kept: seq<Record>, keep: Event -> bool)
    requires DistinctRecords(records) && Logged(records, events)
    requires forall i :: 0 <= i < |kept| ==> kept[i] in records
    requires forall e :: keep(e) <==> Survives(kept, e)
    ensures Logged(kept, Keep(events, keep))
  {
    if events != [] {
      hide Accepts, DistinctRecords;
      var front, e := events[..|events| - 1], events[|events| - 1];
      FilteredLogIsReadmitted(records, front, kept, keep);
      if keep(e) {
        var some := Keep(front, keep);
        assert (some + [e])[..|some|] == some;
        LoggedContentAddressed(records, front);
        AcceptedAgain(records, front, e, kept, keep);
        assert e.digest !in Digests(some) by {
          forall x | x in some ensures x.digest != e.digest { KeepMembers(front, keep, x); }
        }
      }
    }
  }
}
