/** Append-only lifecycle events and their projection, one trust domain at a time. */
module Lifecycle {
  import opened Order

  datatype State =
    | Proposed | Reproduced | Verified | Accepted | Disputed | Superseded | Expired | Rejected | Withdrawn
    | Unlisted(name: string)

  /** The `transition` object; `from` is None when the key is missing. */
  datatype Step = Step(from: Option<State>, to: State)

  /** `step` is None when `transition` is not an object; `domain` is `authority.domain` as written. */
  datatype Event = Event(digest: string, target: Option<string>, domain: string, step: Option<Step>)

  datatype Record = Record(digest: string, initial: State)

  datatype Diagnostic =
    | UnknownCurrentState | UnknownTargetState | ForbiddenTransition | StaleTransition
    | AuthorityDomainRequired | InvalidTransition

  /** A projection: the state reached, the digests of the events applied, and what was refused. */
  datatype View = View(state: State, applied: seq<string>, diagnostics: seq<Diagnostic>)

  // ---------------------------------------------------------------- transition rules

  /** `_ALLOWED` */
  function AllowedFrom(s: State): set<State> {
    match s
    case Proposed => {Reproduced, Disputed, Expired, Rejected, Withdrawn}
    case Reproduced => {Verified, Disputed, Expired, Rejected, Withdrawn}
    case Verified => {Accepted, Disputed, Superseded, Expired, Withdrawn}
    case Accepted => {Superseded, Expired, Withdrawn}
    case Disputed => {Reproduced, Verified, Superseded, Expired, Rejected, Withdrawn}
    case Rejected => {Superseded, Withdrawn}
    case _ => {}
  }

  predicate IsSpace(c: char) {
    c in {' ', '\t', '\n', '\r'}
  }

  function StripLeft(s: string): string {
    if s != [] && IsSpace(s[0]) then StripLeft(s[1..]) else s
  }

  function StripRight(s: string): string {
    if s != [] && IsSpace(s[|s| - 1]) then StripRight(s[..|s| - 1]) else s
  }

  /** `str.strip` */
  function Strip(s: string): string {
    StripRight(StripLeft(s))
  }

  function EventDomain(e: Event): Option<string> {
    if Strip(e.domain) == "" then None else Some(Strip(e.domain))
  }

  /** `validate_transition` */
  function ValidateTransition(current: State, target: State, e: Event): seq<Diagnostic> {
    (if current.Unlisted? then [UnknownCurrentState] else []) +
    (if target.Unlisted? then [UnknownTargetState] else []) +
    (if target !in AllowedFrom(current) then [ForbiddenTransition] else []) +
    (if e.step.None? || e.step.value.from != Some(current) then [StaleTransition] else []) +
    (if Strip(e.domain) == "" then [AuthorityDomainRequired] else [])
  }

  // ---------------------------------------------------------------- the projection

  predicate Relevant(r: Record, domain: string, e: Event) {
    e.target == Some(r.digest) && EventDomain(e) == Some(domain)
  }

  function Digests(events: seq<Event>): set<string> {
    set e | e in events :: e.digest
  }

  function Apply(v: View, e: Event): View {
    if e.step.None? then v.(diagnostics := v.diagnostics + [InvalidTransition])
    else
      var report := ValidateTransition(v.state, e.step.value.to, e);
      if report != [] then v.(diagnostics := v.diagnostics + report)
      else View(e.step.value.to, v.applied + [e.digest], v.diagnostics)
  }

  /** What the events project to for one record and one domain. */
  function Derive(r: Record, events: seq<Event>, domain: string): View {
    if events == [] then View(r.initial, [], [])
    else
      var front, e := events[..|events| - 1], events[|events| - 1];
      var v := Derive(r, front, domain);
      if e.digest in Digests(front) || !Relevant(r, domain, e) then v else Apply(v, e)
  }

  /** `_derive_for_domain` */
  method DeriveForDomain(r: Record, events: seq<Event>, domain: string) returns (v: View)
    ensures v == Derive(r, events, domain)
  {
    var state, applied, diagnostics := r.initial, [], [];
    var seen: set<string> := {};
    for i := 0 to |events|
      invariant View(state, applied, diagnostics) == Derive(r, events[..i], domain)
      invariant seen == Digests(events[..i])
    {
      var e := events[i];
      assert events[..i + 1][..i] == events[..i];
      assert Digests(events[..i + 1]) == Digests(events[..i]) + {e.digest};
      if e.digest !in seen {
        seen := seen + {e.digest};
        if e.target == Some(r.digest) && EventDomain(e) == Some(domain) {
          if e.step.None? {
            diagnostics := diagnostics + [InvalidTransition];
          } else {
            var report := ValidateTransition(state, e.step.value.to, e);
            if report != [] {
              diagnostics := diagnostics + report;
            } else {
              state := e.step.value.to;
              applied := applied + [e.digest];
            }
          }
        }
      }
    }
    assert events[..|events|] == events;
    v := View(state, applied, diagnostics);
  }

  /** The domains that have spoken about the record. */
  function Domains(r: Record, events: seq<Event>): set<string> {
    set e | e in events && e.target == Some(r.digest) && EventDomain(e).Some? :: EventDomain(e).value
  }

  /** `derive_lifecycle`'s result: with no domain, the domains' states side by side. */
  datatype LifecycleView = LifecycleView(
    state: Option<State>, applied: seq<string>, diagnostics: seq<Diagnostic>, domainStates: seq<(string, State)>)

  function Combine(r: Record, events: seq<Event>, domains: seq<string>): LifecycleView {
    if domains == [] then LifecycleView(None, [], [], [])
    else
      var v, rest := Derive(r, events, domains[0]), Combine(r, events, domains[1..]);
      LifecycleView(None, v.applied + rest.applied, v.diagnostics + rest.diagnostics,
                    [(domains[0], v.state)] + rest.domainStates)
  }

  /** State None stands for "domain-scoped": no single domain's acceptance is everybody's. */
  function DeriveLifecycle(r: Record, events: seq<Event>, domain: Option<string>): LifecycleView {
    match domain
    case Some(d) => var v := Derive(r, events, d); LifecycleView(Some(v.state), v.applied, v.diagnostics, [])
    case None =>
      var domains := Sorted(Domains(r, events));
      Combine(r, events, domains).(state := if domains == [] then Some(Proposed) else None)
  }

  // ---------------------------------------------------------------- only relevant events matter

  /** Equal digests mean equal events. */
  ghost predicate ContentAddressed(events: seq<Event>) {
    forall i, j :: 0 <= i < |events| && 0 <= j < |events| && events[i].digest == events[j].digest ==> events[i] == events[j]
  }

  function Keep(events: seq<Event>, keep: Event -> bool): seq<Event> {
    if events == [] then []
    else
      var front, e := Keep(events[..|events| - 1], keep), events[|events| - 1];
      if keep(e) then front + [e] else front
  }

  lemma {:induction false} KeepMembers(events: seq<Event>, keep: Event -> bool, e: Event)
    ensures e in Keep(events, keep) <==> e in events && keep(e)
  {
    if events != [] { KeepMembers(events[..|events| - 1], keep, e); }
  }

  /** In a content-addressed log, a projection is unchanged by dropping any events that do not
      concern its record and domain. */
  lemma {:induction false} IrrelevantEventsDoNotMatter(r: Record, events: seq<Event>, domain: string, keep: Event -> bool)
    requires ContentAddressed(events)
    requires forall e :: e in events && Relevant(r, domain, e) ==> keep(e)
    ensures Derive(r, Keep(events, keep), domain) == Derive(r, events, domain)
  {
    if events != [] {
      var front, e := events[..|events| - 1], events[|events| - 1];
      IrrelevantEventsDoNotMatter(r, front, domain, keep);
      var kept := Keep(front, keep);
      if keep(e) {
        assert (kept + [e])[..|kept|] == kept;
        if Relevant(r, domain, e) {
          assert e.digest in Digests(front) <==> e.digest in Digests(kept) by {
            SameDigestSeen(events, keep);
          }
        }
      }
    }
  }

  lemma SameDigestSeen(events: seq<Event>, keep: Event -> bool)
    requires ContentAddressed(events) && events != [] && keep(events[|events| - 1])
    ensures var front, e := events[..|events| - 1], events[|events| - 1];
            e.digest in Digests(front) <==> e.digest in Digests(Keep(front, keep))
  {
    var front, e := events[..|events| - 1], events[|events| - 1];
    KeepMembers(front, keep, e);
    if e.digest in Digests(front) {
      var i :| 0 <= i < |front| && front[i].digest == e.digest;
      assert events[i] == e;
      assert e in front;
    }
    if e.digest in Digests(Keep(front, keep)) {
      var x :| x in Keep(front, keep) && x.digest == e.digest;
      KeepMembers(front, keep, x);
    }
  }

  /** Dropping the events of other records changes neither a domain's view nor the combined one. */
  lemma OtherTargetsDoNotMatter(r: Record, events: seq<Event>, domain: Option<string>, keep: Event -> bool)
    requires ContentAddressed(events)
    requires forall e :: e in events && e.target == Some(r.digest) ==> keep(e)
    ensures DeriveLifecycle(r, Keep(events, keep), domain) == DeriveLifecycle(r, events, domain)
  {
    match domain
    case Some(d) => IrrelevantEventsDoNotMatter(r, events, d, keep);
    case None =>
      forall d ensures d in Domains(r, Keep(events, keep)) <==> d in Domains(r, events) {
        DomainKept(r, events, keep, d);
      }
      assert Domains(r, Keep(events, keep)) == Domains(r, events);
      CombineKept(r, events, Sorted(Domains(r, events)), keep);
  }

  lemma DomainKept(r: Record, events: seq<Event>, keep: Event -> bool, d: string)
    requires forall e :: e in events && e.target == Some(r.digest) ==> keep(e)
    ensures d in Domains(r, Keep(events, keep)) <==> d in Domains(r, events)
  {
    forall e: Event ensures e in Keep(events, keep) <==> e in events && keep(e) { KeepMembers(events, keep, e); }
  }

  lemma {:induction false} CombineKept(r: Record, events: seq<Event>, domains: seq<string>, keep: Event -> bool)
    requires ContentAddressed(events)
    requires forall e :: e in events && e.target == Some(r.digest) ==> keep(e)
    ensures Combine(r, Keep(events, keep), domains) == Combine(r, events, domains)
  {
    if domains != [] {
      IrrelevantEventsDoNotMatter(r, events, domains[0], keep);
      CombineKept(r, events, domains[1..], keep);
    }
  }

  // ---------------------------------------------------------------- what a projection can be

  /** A state the policy lets nothing leave is kept for good, whatever events follow. */
  lemma {:induction false} FinalStateSticks(r: Record, events: seq<Event>, more: seq<Event>, domain: string)
    requires AllowedFrom(Derive(r, events, domain).state) == {}
    ensures Derive(r, events + more, domain).state == Derive(r, events, domain).state
    ensures Derive(r, events + more, domain).applied == Derive(r, events, domain).applied
  {
    if more == [] {
      assert events + more == events;
    } else {
      hide Derive, AllowedFrom;
      var n := |more| - 1;
      FinalStateSticks(r, events, more[..n], domain);
      OneMore(r, events + more[..n], more[n], domain);
      assert events + more == events + more[..n] + [more[n]];
    }
  }

  lemma OneMore(r: Record, events: seq<Event>, e: Event, domain: string)
    requires AllowedFrom(Derive(r, events, domain).state) == {}
    ensures Derive(r, events + [e], domain).state == Derive(r, events, domain).state
    ensures Derive(r, events + [e], domain).applied == Derive(r, events, domain).applied
  {
    hide Apply, AllowedFrom, Relevant, Digests;
    assert (events + [e])[..|events|] == events;
    NothingApplies(Derive(r, events, domain), e);
  }

  lemma NothingApplies(v: View, e: Event)
    requires AllowedFrom(v.state) == {}
    ensures Apply(v, e).state == v.state && Apply(v, e).applied == v.applied
  {
    hide Strip;
  }

  /** Without a domain the view shows, for each domain that has spoken about the record, that domain's own state, and
      settles on none of them; only when none has spoken is the record simply proposed. */
  lemma CombinedViewIs(r: Record, events: seq<Event>, d: string, s: State)
    ensures var v := DeriveLifecycle(r, events, None);
            var spoke := (d: string) => exists e :: e in events && e.target == Some(r.digest) && EventDomain(e) == Some(d);
            && ((d, s) in v.domainStates <==> spoke(d) && s == Derive(r, events, d).state)
            && (v.state == if v.domainStates == [] then Some(Proposed) else None)
  {
    var domains := Sorted(Domains(r, events));
    CombinedAre(r, events, domains, d, s);
    assert d in domains <==> exists e :: e in events && e.target == Some(r.digest) && EventDomain(e) == Some(d);
    hide Derive, EventDomain, Sorted;
  }

  lemma {:induction false} CombinedAre(r: Record, events: seq<Event>, domains: seq<string>, d: string, s: State)
    ensures |Combine(r, events, domains).domainStates| == |domains|
    ensures (d, s) in Combine(r, events, domains).domainStates <==> d in domains && s == Derive(r, events, d).state
  {
    if domains != [] {
      CombinedAre(r, events, domains[1..], d, s);
      assert domains == [domains[0]] + domains[1..];
    }
    hide Derive;
  }

  /** The same rules from the other end: which states a state can be entered from. */
  function EnteredFrom(s: State): set<State> {
    match s
    case Reproduced => {Proposed, Disputed}
    case Verified => {Reproduced, Disputed}
    case Accepted => {Verified}
    case Disputed => {Proposed, Reproduced, Verified}
    case Superseded => {Verified, Accepted, Disputed, Rejected}
    case Expired => {Proposed, Reproduced, Verified, Accepted, Disputed}
    case Rejected => {Proposed, Reproduced, Disputed}
    case Withdrawn => {Proposed, Reproduced, Verified, Accepted, Disputed, Rejected}
    case _ => {}
  }

  lemma AllowedIff(s: State, t: State)
    ensures t in AllowedFrom(s) <==> s in EnteredFrom(t)
  {}

  /** However a log goes, a state that is not the first was entered by one of its events from a state it can be entered
      from. */
  lemma {:induction false} StateWasEntered(r: Record, events: seq<Event>, domain: string) returns (k: nat)
    requires Derive(r, events, domain).state != r.initial
    ensures k < |events| && Derive(r, events[..k], domain).state in EnteredFrom(Derive(r, events, domain).state)
    ensures Derive(r, events[..k + 1], domain).state == Derive(r, events, domain).state
  {
    var n := |events| - 1;
    if Derive(r, events[..n], domain).state == Derive(r, events, domain).state {
      k := StateWasEntered(r, events[..n], domain);
      assert events[..n][..k] == events[..k] && events[..n][..k + 1] == events[..k + 1];
    } else {
      k := n;
      AllowedIff(Derive(r, events[..n], domain).state, Derive(r, events, domain).state);
      assert events[..n + 1] == events;
    }
    hide AllowedFrom, EnteredFrom, Relevant, Digests, Strip;
  }

  /** Nothing is accepted in a domain that was not verified there before, nor verified that was neither reproduced nor
      disputed. */
  lemma AcceptedWasVerified(r: Record, events: seq<Event>, domain: string) returns (j: nat, k: nat)
    requires r.initial == Proposed && Derive(r, events, domain).state == Accepted
    ensures j < k < |events|
    ensures Derive(r, events[..k], domain).state == Verified
    ensures Derive(r, events[..j], domain).state in {Reproduced, Disputed}
  {
    hide Derive;
    k := StateWasEntered(r, events, domain);
    j := StateWasEntered(r, events[..k], domain);
    assert events[..k][..j] == events[..j];
  }

  // ---------------------------------------------------------------- stripping

  /** What is stripped is white space, at the two ends, and all of it. */
  lemma StripIs(s: string) returns (left: string, right: string)
    ensures s == left + Strip(s) + right && forall c :: c in left + right ==> IsSpace(c)
    ensures var t := Strip(s); t != [] ==> !IsSpace(t[0]) && !IsSpace(t[|t| - 1])
  {
    left := Spaces(s);
    var body := StripLeft(s);
    StripRightStripped(body);
    StripLeftStripped(s);
    right := body[|StripRight(body)|..];
    RightAreSpaces(body);
    assert body == StripRight(body) + right;
  }

  lemma {:induction false} Spaces(s: string) returns (left: string)
    ensures s == left + StripLeft(s) && forall c :: c in left ==> IsSpace(c)
  {
    if s != [] && IsSpace(s[0]) {
      var more := Spaces(s[1..]);
      left := [s[0]] + more;
    } else {
      left := [];
    }
  }

  lemma {:induction false} RightAreSpaces(s: string)
    ensures |StripRight(s)| <= |s| && forall c :: c in s[|StripRight(s)|..] ==> IsSpace(c)
  {
    if s != [] && IsSpace(s[|s| - 1]) {
      var front := s[..|s| - 1];
      RightAreSpaces(front);
      assert s[|StripRight(s)|..] == front[|StripRight(s)|..] + [s[|s| - 1]];
    }
  }

  lemma {:induction false} StripRightStripped(s: string)
    ensures StripRight(s) == [] || !IsSpace(StripRight(s)[|StripRight(s)| - 1])
    ensures StripRight(s) <= s
  {
    if s != [] && IsSpace(s[|s| - 1]) { StripRightStripped(s[..|s| - 1]); }
  }

  lemma {:induction false} StripLeftStripped(s: string)
    ensures StripLeft(s) == [] || !IsSpace(StripLeft(s)[0])
  {
    if s != [] && IsSpace(s[0]) { StripLeftStripped(s[1..]); }
  }

  lemma StripIdempotent(s: string)
    ensures Strip(Strip(s)) == Strip(s)
  {
    var left := StripLeft(s);
    StripLeftStripped(s);
    StripRightStripped(left);
    var t := StripRight(left);
    if t != [] { assert t[0] == left[0]; }
    assert StripLeft(t) == t;
    assert StripRight(t) == t;
  }
}
