/** The registry of pressure documents and its one guarded write, `transition`: it either
    leaves the documents as they were or extends one history by one event. */
module PressureRegistry {
  import opened Order
  import opened Pressure
  import opened PressureReplay
  import opened PressureRules
  import opened PressureNative
  import opened PressureAgreement

  datatype Declaration = Declaration(initial: string, affected: seq<Repository>)

  datatype ObservationDoc = ObservationDoc(pressure: string, observation: Observation)

  /** A document of the events directory; its file name is `Id(doc)`. */
  datatype EventDoc =
    | TransitionDoc(pressure: string, actorKnown: bool, transition: Transition)
    | RelationDoc(id: string, source: string, relation: string, target: string)

  datatype Outcome = Written(event: Transition) | Refused

  function Id(d: EventDoc): string {
    match d case TransitionDoc(_, _, t) => t.id case RelationDoc(id, _, _, _) => id
  }

  /** The document without its id: what the id is derived from. */
  function Content(d: EventDoc): EventDoc {
    match d
    case TransitionDoc(p, a, t) => TransitionDoc(p, a, t.(id := ""))
    case RelationDoc(_, s, r, t) => RelationDoc("", s, r, t)
  }

  ghost predicate CollisionFree(idOf: EventDoc -> string) {
    forall d, e :: idOf(Content(d)) == idOf(Content(e)) ==> Content(d) == Content(e)
  }

  function TransitionsOf(events: seq<EventDoc>, pressure: string): seq<Transition> {
    if events == [] then []
    else
      var last := events[|events| - 1];
      TransitionsOf(events[..|events| - 1], pressure) +
      (if last.TransitionDoc? && last.pressure == pressure then [last.transition] else [])
  }

  function RelationsOf(events: seq<EventDoc>, pressure: string): set<string> {
    set d | d in events && d.RelationDoc? && (d.source == pressure || d.target == pressure) :: d.relation
  }

  function ObservationsOf(docs: seq<ObservationDoc>, pressure: string): seq<Observation> {
    if docs == [] then []
    else (if docs[0].pressure == pressure then [docs[0].observation] else []) + ObservationsOf(docs[1..], pressure)
  }

  function CaseOf(fold: string -> Option<Status>, records: map<string, Declaration>, observations: seq<ObservationDoc>, events: seq<EventDoc>,
                  pressure: string): Case
    requires pressure in records
  {
    Case(fold, records[pressure].initial, records[pressure].affected,
         ObservationsOf(observations, pressure), RelationsOf(events, pressure))
  }

  /** The event checks of `validate` that a write can fail. */
  predicate EventValid(records: map<string, Declaration>, observations: seq<ObservationDoc>, d: EventDoc) {
    match d
    case TransitionDoc(p, actorKnown, t) =>
      && p in records && actorKnown && t.occurredAt.Some? && t.id != ""
      && forall r :: r in t.refs ==> exists o :: o in observations && o.observation.id == r
    case RelationDoc(id, source, _, target) =>
      id != "" && source in records && target in records && source != target
  }

  predicate DistinctDocs(events: seq<EventDoc>) {
    forall i, j :: 0 <= i < j < |events| ==> Id(events[i]) != Id(events[j])
  }

  /** `validate`: every pressure starts discovered, every event document is sound, and every projection is free of
      diagnostics. */
  predicate Validates(fold: string -> Option<Status>, records: map<string, Declaration>, observations: seq<ObservationDoc>, events: seq<EventDoc>) {
    && (forall p :: p in records ==> records[p].initial == Text(Discovered))
    && (forall i :: 0 <= i < |events| ==> EventValid(records, observations, events[i]))
    && forall p :: p in records ==> ConflictFree(CaseOf(fold, records, observations, events, p), TransitionsOf(events, p))
  }

  /** Ids are derived from content, so they are distinct for distinct documents. */
  ghost predicate Derived(idOf: EventDoc -> string, events: seq<EventDoc>) {
    DistinctDocs(events) && forall i :: 0 <= i < |events| ==> Id(events[i]) == idOf(Content(events[i]))
  }

  // ---------------------------------------------------------------- filtering lemmas

  lemma {:induction false} TransitionsAre(events: seq<EventDoc>, p: string, t: Transition)
    ensures t in TransitionsOf(events, p) <==>
            exists i :: 0 <= i < |events| && events[i].TransitionDoc? && events[i].pressure == p && events[i].transition == t
  {
    if events != [] { TransitionsAre(events[..|events| - 1], p, t); }
  }

  lemma {:induction false} TransitionsDistinct(events: seq<EventDoc>, p: string)
    requires DistinctDocs(events)
    ensures DistinctIds(TransitionsOf(events, p))
  {
    if events != [] {
      var front, last := events[..|events| - 1], events[|events| - 1];
      TransitionsDistinct(front, p);
      if last.TransitionDoc? && last.pressure == p {
        var ts := TransitionsOf(front, p);
        forall i | 0 <= i < |ts| ensures ts[i].id != last.transition.id {
          TransitionsAre(front, p, ts[i]);
        }
      }
    }
  }

  lemma TransitionsAppend(events: seq<EventDoc>, d: EventDoc, p: string)
    ensures TransitionsOf(events + [d], p) ==
            TransitionsOf(events, p) + if d.TransitionDoc? && d.pressure == p then [d.transition] else []
  {
    assert (events + [d])[..|events|] == events;
  }

  lemma RelationsAppend(events: seq<EventDoc>, d: EventDoc, p: string)
    requires d.TransitionDoc?
    ensures RelationsOf(events + [d], p) == RelationsOf(events, p)
  {
    assert forall x :: x in events + [d] && x.RelationDoc? <==> x in events && x.RelationDoc?;
  }

  /** A pressure is judged by its own observations and by the relations that touch it, and by no others. */
  lemma CaseIs(fold: string -> Option<Status>, records: map<string, Declaration>, observations: seq<ObservationDoc>,
               events: seq<EventDoc>, p: string, o: Observation, name: string)
    requires p in records
    ensures var c := CaseOf(fold, records, observations, events, p);
            && (o in c.observations <==> exists i :: 0 <= i < |observations| && observations[i] == ObservationDoc(p, o))
            && (name in c.relations <==> exists i :: 0 <= i < |events| && events[i].RelationDoc? && events[i].relation == name
                                                     && p in {events[i].source, events[i].target})
  {
    ObservationsAre(observations, p, o);
    if name in RelationsOf(events, p) {
      var d :| d in events && d.RelationDoc? && (d.source == p || d.target == p) && d.relation == name;
      var i :| 0 <= i < |events| && events[i] == d;
    }
  }

  lemma {:induction false} ObservationsAre(docs: seq<ObservationDoc>, p: string, o: Observation)
    ensures o in ObservationsOf(docs, p) <==> exists i :: 0 <= i < |docs| && docs[i] == ObservationDoc(p, o)
  {
    if docs != [] {
      ObservationsAre(docs[1..], p, o);
      if i :| 0 <= i < |docs[1..]| && docs[1..][i] == ObservationDoc(p, o) { assert docs[i + 1] == ObservationDoc(p, o); }
      if i :| 0 <= i < |docs| && docs[i] == ObservationDoc(p, o) && i > 0 { assert docs[1..][i - 1] == ObservationDoc(p, o); }
    }
  }

  // ---------------------------------------------------------------- appending one event

  /** Appending an event to the head of a conflict-free log keeps it conflict-free exactly when
      the step is allowed and the event meets its requirements on what it can see. */
  lemma AppendExtends(c: Case, ts: seq<Transition>, e: Transition)
    requires DistinctIds(ts + [e]) && ConflictFree(c, ts)
    requires e.previous == Head(Project(c, ts).chain) && e.from == Some(StatusOf(c, ts))
    ensures ConflictFree(c, ts + [e]) <==> Permits(c, StatusOf(c, ts), e.to) && Met(c, e)
    ensures ConflictFree(c, ts + [e]) ==>
              Project(c, ts + [e]).chain == Project(c, ts).chain + [e] && StatusOf(c, ts + [e]) == e.to
  {
    hide Project, ConflictFree, Met, Permits;
    if Permits(c, StatusOf(c, ts), e.to) && Met(c, e) {
      LawfulExtension(c, ts, e);
    }
    if ConflictFree(c, ts + [e]) {
      OnlyExtension(c, ts, e);
    }
  }

  lemma ReplayedState(c: Case, ts: seq<Transition>)
    requires DistinctIds(ts) && ConflictFree(c, ts)
    ensures StatusOf(c, ts) == Project(c, ts).state == StateAfter(c, Project(c, ts).chain)
  {
    hide Missing, Claims, Permits, Lawful, Linked, Unforked, Walk, History;
    WalkFinishes(c, ts, []);
  }

  lemma LawfulExtension(c: Case, ts: seq<Transition>, e: Transition)
    requires DistinctIds(ts + [e]) && ConflictFree(c, ts)
    requires e.previous == Head(Project(c, ts).chain) && e.from == Some(StatusOf(c, ts))
    requires Permits(c, StatusOf(c, ts), e.to) && Met(c, e)
    ensures ConflictFree(c, ts + [e])
  {
    hide Project, ConflictFree, Met, Permits, StatusOf;
    var chain := Project(c, ts).chain;
    DistinctPrefix(ts, e);
    ReplayIsFullHistory(c, ts);
    ReplayedState(c, ts);
    HistoryAppend(c, chain, e, ts + [e]);
    FullHistoryReplays(c, ts + [e], chain + [e]);
  }

  lemma OnlyExtension(c: Case, ts: seq<Transition>, e: Transition)
    requires DistinctIds(ts + [e]) && ConflictFree(c, ts) && ConflictFree(c, ts + [e])
    requires e.previous == Head(Project(c, ts).chain)
    ensures e.from == Some(StatusOf(c, ts))
    ensures Project(c, ts + [e]).chain == Project(c, ts).chain + [e]
    ensures StatusOf(c, ts + [e]) == e.to
    ensures Permits(c, StatusOf(c, ts), e.to) && Met(c, e)
  {
    hide Project, ConflictFree, Met, Permits, StatusOf;
    var us, chain, full := ts + [e], Project(c, ts).chain, Project(c, ts + [e]).chain;
    DistinctPrefix(ts, e);
    ReplayIsFullHistory(c, ts);
    ReplayIsFullHistory(c, us);
    ReplayedState(c, ts);
    ReplayedState(c, us);
    SameLength(chain, ts);
    SameLength(full, us);
    assert Within(chain, us) by {
      forall i | 0 <= i < |chain| ensures chain[i] in us { assert chain[i] in multiset(ts); }
    }
    ReplayComparable(c, us, chain);
    assert full == chain + [full[|chain|]];
    LastOfFull(chain, full, e, us);
    assert StateAt(c, full, |chain|) == StateAfter(c, chain);
    assert AllMet(c, full) && Met(c, full[|chain|]);
  }

  lemma SameLength(s: seq<Transition>, t: seq<Transition>)
    requires multiset(s) == multiset(t)
    ensures |s| == |t|
  {
    assert |multiset(s)| == |s| && |multiset(t)| == |t|;
  }

  lemma DistinctPrefix(ts: seq<Transition>, e: Transition)
    requires DistinctIds(ts + [e])
    ensures DistinctIds(ts) && forall i :: 0 <= i < |ts| ==> ts[i].id != e.id
  {
    var us := ts + [e];
    forall i | 0 <= i < |ts| ensures ts[i].id != e.id { assert us[i].id != us[|ts|].id; }
    forall i, j | 0 <= i < j < |ts| ensures ts[i].id != ts[j].id { assert us[i].id != us[j].id; }
  }

  lemma LastOfFull(chain: seq<Transition>, full: seq<Transition>, e: Transition, us: seq<Transition>)
    requires |full| == |chain| + 1 && full == chain + [full[|chain|]]
    requires multiset(full) == multiset(us) == multiset(chain) + multiset{e}
    ensures full[|chain|] == e
  {
    assert multiset(full) == multiset(chain) + multiset{full[|chain|]};
    assert multiset(full)[e] == multiset(chain)[e] + 1;
  }

  lemma HistoryAppend(c: Case, chain: seq<Transition>, e: Transition, us: seq<Transition>)
    requires History(c, chain) && DistinctIds(us) && multiset(us) == multiset(chain) + multiset{e}
    requires e.previous == Head(chain) && e.from == Some(StateAfter(c, chain)) && Permits(c, StateAfter(c, chain), e.to) && Met(c, e)
    ensures History(c, chain + [e]) && multiset(chain + [e]) == multiset(us)
  {
    hide Met, Permits, Linked, Lawful;
    DistinctOfPermutation(us, chain + [e]);
    AppendLawful(c, chain, e);
  }

  /** A derived id for an event that claims the head of a conflict-free log is never taken. */
  lemma FreshId(idOf: EventDoc -> string, events: seq<EventDoc>, d: EventDoc, c: Case)
    requires CollisionFree(idOf) && Derived(idOf, events)
    requires d.TransitionDoc? && Id(d) == idOf(Content(d))
    requires var ts := TransitionsOf(events, d.pressure);
             ConflictFree(c, ts) && d.transition.previous == Head(Project(c, ts).chain)
    ensures forall i :: 0 <= i < |events| ==> Id(events[i]) != Id(d)
  {
    var ts := TransitionsOf(events, d.pressure);
    TransitionsDistinct(events, d.pressure);
    WalkFinishes(c, ts, []);
    forall i | 0 <= i < |events| ensures Id(events[i]) != Id(d) {
      if Content(events[i]) == Content(d) {
        var t := events[i].transition;
        TransitionsAre(events, d.pressure, t);
        ClaimsAre(ts, Head(Project(c, ts).chain), t);
        assert false;
      }
    }
  }

  lemma WellIdentifiedOf(records: map<string, Declaration>, observations: seq<ObservationDoc>, events: seq<EventDoc>, p: string)
    requires DistinctDocs(events)
    requires forall i :: 0 <= i < |events| ==> EventValid(records, observations, events[i])
    ensures WellIdentified(TransitionsOf(events, p))
  {
    var ts := TransitionsOf(events, p);
    TransitionsDistinct(events, p);
    forall i | 0 <= i < |ts| ensures ts[i].id != "" {
      TransitionsAre(events, p, ts[i]);
    }
  }

  /** On a conflict-free log whose predecessors are text or absent the kernel reports what the replayed status means:
      the same text exactly when that is called by its own name. */
  lemma HostStatusIsNative(c: Case, ts: seq<Transition>)
    requires Folds(c.fold) && WellIdentified(ts) && AllReadAlike(ts) && PlainLinks(ts) && ConflictFree(c, ts)
    requires c.fold(c.initial).Some?
    ensures NativeStatus(c, ts) == Meaning(c, StatusOf(c, ts)) && c.fold(StatusOf(c, ts)).Some?
    ensures StatusOf(c, ts) == Text(NativeStatus(c, ts)) <==> ByName(c, StatusOf(c, ts))
  {
    hide ConflictFree, StatusOf, NativeStatus, Text, Lawful, Linked, Met, Folds, AllReadAlike;
    ConflictFreeIffHostChains(c, ts);
    var chain: seq<Transition> :| multiset(chain) == multiset(ts) && History(c, chain);
    HostHistoryMeans(c, ts, chain);
    EndIsKnown(c, chain);
    PermutationMembers(ts, chain);
    if ts != [] { FirstIsPlain(ts, chain); }
  }

  lemma FirstIsPlain(ts: seq<Transition>, chain: seq<Transition>)
    requires PlainLinks(ts) && Linked(chain) && chain != [] && forall e :: e in chain ==> e in ts
    ensures chain[0].row.previous == ""
  {
    assert chain[0] in ts && chain[0].previous == Predecessor(chain, 0);
    var i :| 0 <= i < |ts| && ts[i] == chain[0];
    assert PlainLink(ts[i]);
  }

  /** An event that starts from a status's own name cannot follow a head that is called otherwise. */
  lemma OddHeadRefusesWrites(c: Case, ts: seq<Transition>, e: Transition, s: Status)
    requires Folds(c.fold) && DistinctIds(ts + [e]) && ConflictFree(c, ts) && !ByName(c, StatusOf(c, ts))
    requires e.previous == Head(Project(c, ts).chain) && e.from == Some(Text(s))
    ensures !ConflictFree(c, ts + [e])
  {
    hide Project, ConflictFree, StatusOf, Permits;
    if ConflictFree(c, ts + [e]) {
      OnlyExtension(c, ts, e);
      assert false;
    }
  }

  // ---------------------------------------------------------------- the registry

  class Registry {
    const idOf: EventDoc -> string
    const fold: string -> Option<Status>
    const records: map<string, Declaration>
    var observations: seq<ObservationDoc>
    var events: seq<EventDoc>

    constructor (idOf: EventDoc -> string, fold: string -> Option<Status>, records: map<string, Declaration>)
      ensures this.idOf == idOf && this.fold == fold && this.records == records && observations == [] && events == []
    {
      this.idOf, this.fold, this.records := idOf, fold, records;
      observations, events := [], [];
    }

    ghost predicate Valid()
      reads this
    {
      && CollisionFree(idOf) && (forall d :: idOf(d) != "") && Folds(fold)
      && Derived(idOf, events) && Validates(fold, records, observations, events)
    }

    function CaseFor(p: string): Case
      requires p in records
      reads this
    {
      CaseOf(fold, records, observations, events, p)
    }

    /** The replayed chain of one pressure. */
    function Chain(p: string): seq<Transition>
      requires p in records
      reads this
    {
      Project(CaseFor(p), TransitionsOf(events, p)).chain
    }

    function Status(p: string): string
      requires p in records
      reads this
    {
      StatusOf(CaseFor(p), TransitionsOf(events, p))
    }

    /** The checks `transition` makes before it writes: the draft event, or nothing. */
    function Draft(pressure: string, target: Status, actorKnown: bool, expected: Option<string>,
                   occurredAt: Option<int>, refs: set<string>, hasReason: bool, hasImplementation: bool)
      : (d: Option<EventDoc>)
      reads this
      ensures d.Some? ==>
                && pressure in records && ConflictFree(CaseFor(pressure), TransitionsOf(events, pressure))
                && d.value.TransitionDoc? && d.value == TransitionDoc(pressure, actorKnown, d.value.transition)
                && actorKnown && occurredAt.Some? && Allowed(NativeStatus(CaseFor(pressure), TransitionsOf(events, pressure)), target)
                && PlannedAs(d.value.transition, Planned(target, occurredAt, refs, hasReason, hasImplementation))
                && Id(d.value) == idOf(Content(d.value))
                && d.value.transition.previous == Head(Chain(pressure)) && d.value.transition.to == Text(target)
                && d.value.transition.from == Some(Text(NativeStatus(CaseFor(pressure), TransitionsOf(events, pressure))))
                && (expected.Some? ==> expected == Head(Chain(pressure)))
                && WrittenPlainly(d.value.transition, NativeStatus(CaseFor(pressure), TransitionsOf(events, pressure)), target)
    {
      if pressure !in records then None
      else
        var c, ts := CaseFor(pressure), TransitionsOf(events, pressure);
        if !ConflictFree(c, ts) then None
        else
          var current, previous := NativeStatus(c, ts), Head(Project(c, ts).chain);
          if target == Conflicted || (expected.Some? && expected != previous) then None
          else if !Allowed(current, target) || !actorKnown || occurredAt.None? then None
          else
            var draft := ReadTransition(
              "", match previous case Some(id) => Words(id) case None => Absent, Words(Text(current)), Words(Text(target)),
              occurredAt, refs, hasReason, hasImplementation);
            var everything := Facts(Affected(c.declared, c.observations), c.observations, c.relations);
            if Missing(everything, draft).Some? then None
            else
              var unnamed := TransitionDoc(pressure, actorKnown, draft);
              var d := TransitionDoc(pressure, actorKnown, draft.(id := idOf(unnamed)));
              assert Content(d) == unnamed;
              Some(d)
    }

    /** When a transition goes through: the pressure is on file and the actor known, the event is dated, the caller's
        idea of the head is right, the kernel allows the step from the shown status and that is the replayed one, every
        reference is to an observation on file, and the event is backed both by everything on file and by what it can
        count on. */
    ghost predicate Writable(pressure: string, target: Status, actorKnown: bool, expected: Option<string>,
                             occurredAt: Option<int>, refs: set<string>, hasReason: bool, hasImplementation: bool)
      reads this
    {
      && pressure in records && actorKnown && occurredAt.Some? && target != Conflicted
      && (expected.Some? ==> expected == Head(Chain(pressure)))
      && (forall r :: r in refs ==> exists o :: o in observations && o.observation.id == r)
      && var c, e := CaseFor(pressure), Planned(target, occurredAt, refs, hasReason, hasImplementation);
         var shown := NativeStatus(c, TransitionsOf(events, pressure));
         && Allowed(shown, target) && Status(pressure) == Text(shown)
         && Backed(c, Everything(), e) && Backed(c, SightOf(e), e)
    }

    lemma DraftIff(pressure: string, target: Status, actorKnown: bool, expected: Option<string>,
                   occurredAt: Option<int>, refs: set<string>, hasReason: bool, hasImplementation: bool)
      requires Valid()
      ensures Draft(pressure, target, actorKnown, expected, occurredAt, refs, hasReason, hasImplementation).Some? <==>
              && pressure in records && actorKnown && occurredAt.Some? && target != Conflicted
              && (expected.Some? ==> expected == Head(Chain(pressure)))
              && Allowed(NativeStatus(CaseFor(pressure), TransitionsOf(events, pressure)), target)
              && Backed(CaseFor(pressure), Everything(), Planned(target, occurredAt, refs, hasReason, hasImplementation))
    {
      hide ConflictFree, NativeStatus, Affected, ObservationsOf, RelationsOf, TransitionsOf, Project, Allowed, Backed,
           Missing, Met, Text, Folds, Derived, CollisionFree, EventValid, ReadTransition, Planned, PlannedAs;
      if pressure in records {
        assert ConflictFree(CaseFor(pressure), TransitionsOf(events, pressure));
        var plan := Planned(target, occurredAt, refs, hasReason, hasImplementation);
        var c, ts := CaseFor(pressure), TransitionsOf(events, pressure);
        MetIffBacked(c, plan);
        var current, previous := NativeStatus(c, ts), Head(Project(c, ts).chain);
        var link := match previous case Some(id) => Words(id) case None => Absent;
        ReadAsPlanned(link, current, target, occurredAt, refs, hasReason, hasImplementation);
        MissingAlike(
          Facts(Affected(c.declared, c.observations), c.observations, c.relations),
          ReadTransition("", link, Words(Text(current)), Words(Text(target)), occurredAt, refs, hasReason, hasImplementation),
          plan);
      }
    }

    lemma WritableIff(pressure: string, target: Status, actorKnown: bool, expected: Option<string>,
                      occurredAt: Option<int>, refs: set<string>, hasReason: bool, hasImplementation: bool)
      requires Valid()
      ensures Writable(pressure, target, actorKnown, expected, occurredAt, refs, hasReason, hasImplementation) <==>
              var draft := Draft(pressure, target, actorKnown, expected, occurredAt, refs, hasReason, hasImplementation);
              draft.Some? && Validates(fold, records, observations, events + [draft.value])
    {
      DraftIff(pressure, target, actorKnown, expected, occurredAt, refs, hasReason, hasImplementation);
      var draft := Draft(pressure, target, actorKnown, expected, occurredAt, refs, hasReason, hasImplementation);
      hide Draft, Project, StatusOf, ConflictFree, TransitionsOf, Met, NativeStatus, CaseOf, Backed, Allowed, Text, Validates,
           Planned, PlannedAs, DistinctDocs, CollisionFree;
      if draft.Some? { WrittenIff(draft.value, target, Planned(target, occurredAt, refs, hasReason, hasImplementation)); }
    }

    lemma WrittenIff(d: EventDoc, target: Status, plan: Transition)
      requires Valid() && d.TransitionDoc? && d.pressure in records && Id(d) == idOf(Content(d))
      requires d.actorKnown && d.transition.occurredAt.Some? && d.transition.previous == Head(Chain(d.pressure))
      requires var shown := NativeStatus(CaseFor(d.pressure), TransitionsOf(events, d.pressure));
               WrittenPlainly(d.transition, shown, target) && Allowed(shown, target) && PlannedAs(d.transition, plan)
      ensures Validates(fold, records, observations, events + [d]) <==>
              && (forall r :: r in plan.refs ==> exists o :: o in observations && o.observation.id == r)
              && Status(d.pressure) == Text(NativeStatus(CaseFor(d.pressure), TransitionsOf(events, d.pressure)))
              && Backed(CaseFor(d.pressure), SightOf(plan), plan)
    {
      var c, ts := CaseFor(d.pressure), TransitionsOf(events, d.pressure);
      assert ConflictFree(c, ts);
      hide Project, StatusOf, ConflictFree, TransitionsOf, Met, NativeStatus, CaseOf, Backed, Allowed, Text, Validates,
           CollisionFree, DistinctDocs;
      FreshId(idOf, events, d, c);
      DistinctMore(events, d);
      AppendValidates(fold, records, observations, events, d, NativeStatus(c, ts), target);
      AsPlanned(c, d.transition, plan);
    }

    /** Write a document, re-validate, and take the write back if the registry no longer validates. */
    method WriteChecked(d: EventDoc) returns (ok: bool)
      modifies `events
      ensures ok <==> Validates(fold, records, observations, old(events) + [d])
      ensures events == if ok then old(events) + [d] else old(events)
    {
      ghost var before := events;
      events := events + [d];
      ok := Validates(fold, records, observations, events);
      if !ok {
        events := events[..|events| - 1];
        assert events == before;
      }
    }

    /** `transition`: check against everything on file, then write under validation. */
    method Transition(pressure: string, target: Status, actorKnown: bool, expected: Option<string>,
                      occurredAt: Option<int>, refs: set<string>, hasReason: bool, hasImplementation: bool)
      returns (r: Outcome)
      requires Valid()
      modifies `events
      ensures Valid()
      ensures var draft := old(Draft(pressure, target, actorKnown, expected, occurredAt, refs, hasReason, hasImplementation));
              r.Written? <==> draft.Some? && Validates(fold, records, observations, old(events) + [draft.value])
      ensures r.Written? <==>
                old(Writable(pressure, target, actorKnown, expected, occurredAt, refs, hasReason, hasImplementation))
      ensures r.Refused? ==> events == old(events)
      ensures r.Written? ==>
                && pressure in records
                && events == old(events) + [TransitionDoc(pressure, actorKnown, r.event)]
                && Chain(pressure) == old(Chain(pressure)) + [r.event]
                && Status(pressure) == Text(target) == r.event.to
                && (expected.Some? ==> expected == old(Head(Chain(pressure))))
                && Met(CaseFor(pressure), r.event) && PlainEvent(CaseFor(pressure), r.event)
      ensures forall p :: p in records && p != pressure ==> Chain(p) == old(Chain(p)) && Status(p) == old(Status(p))
    {
      hide Draft, Writable, Project, Walk, StatusOf, ConflictFree, TransitionsOf, Met, NativeStatus, CaseOf;
      var draft := Draft(pressure, target, actorKnown, expected, occurredAt, refs, hasReason, hasImplementation);
      WritableIff(pressure, target, actorKnown, expected, occurredAt, refs, hasReason, hasImplementation);
      if draft.None? { return Refused; }
      var d := draft.value;
      ghost var before, c, ts := events, CaseFor(pressure), TransitionsOf(events, pressure);
      FreshId(idOf, events, d, c);
      WellIdentifiedOf(records, observations, events, pressure);
      CaseFold(fold, records, observations, events, pressure);
      WrittenIsPlain(c, ts, d.transition, NativeStatus(c, ts), target);
      var ok := WriteChecked(d);
      if !ok { return Refused; }
      r := Written(d.transition);
      WriteEffect(fold, records, observations, before, d);
    }
  }

  /** What the rules read of an event that is about to be written. */
  function Planned(target: Status, occurredAt: Option<int>, refs: set<string>, hasReason: bool, hasImplementation: bool)
    : Transition
  {
    Transition("", None, None, Text(target), Row("", "", ""), occurredAt, refs, hasReason, hasImplementation)
  }

  predicate PlannedAs(e: Transition, plan: Transition) {
    && e.to == plan.to && e.occurredAt == plan.occurredAt && e.refs == plan.refs
    && e.hasReason == plan.hasReason && e.hasImplementation == plan.hasImplementation
  }

  lemma ReadAsPlanned(link: Value, from: Status, target: Status, occurredAt: Option<int>, refs: set<string>,
                      hasReason: bool, hasImplementation: bool)
    ensures PlannedAs(ReadTransition("", link, Words(Text(from)), Words(Text(target)), occurredAt, refs, hasReason,
                                     hasImplementation),
                      Planned(target, occurredAt, refs, hasReason, hasImplementation))
  {
    hide Text;
  }

  lemma DistinctMore(events: seq<EventDoc>, d: EventDoc)
    requires DistinctDocs(events) && forall i :: 0 <= i < |events| ==> Id(events[i]) != Id(d)
    ensures DistinctDocs(events + [d])
  {}

  lemma MissingAlike(f: Facts, a: Transition, b: Transition)
    requires PlannedAs(a, b)
    ensures Missing(f, a) == Missing(f, b)
  {
    hide ResolutionShortfall;
  }

  lemma AsPlanned(c: Case, e: Transition, plan: Transition)
    requires PlannedAs(e, plan)
    ensures Met(c, e) <==> Backed(c, SightOf(plan), plan)
  {
    SeesAlike(c.observations, e, plan);
    MetIffBacked(c, plan);
    MissingAlike(FactsAt(c, e), e, plan);
    hide Backed, Affected, Missing, VisibleTo;
  }

  lemma {:induction false} SeesAlike(observations: seq<Observation>, a: Transition, b: Transition)
    requires a.refs == b.refs && a.occurredAt == b.occurredAt
    ensures VisibleTo(observations, a) == VisibleTo(observations, b)
  {
    if observations != [] { SeesAlike(observations[1..], a, b); }
  }

  /** A drafted event survives validation exactly when its references are on file, it starts from the replayed status
      and it meets its requirements. */
  lemma AppendValidates(fold: string -> Option<Status>, records: map<string, Declaration>, observations: seq<ObservationDoc>,
                        events: seq<EventDoc>, d: EventDoc, from: Status, to: Status)
    requires Folds(fold) && Validates(fold, records, observations, events) && DistinctDocs(events + [d])
    requires d.TransitionDoc? && d.pressure in records && d.actorKnown && d.transition.occurredAt.Some? && Id(d) != ""
    requires var c, ts := CaseOf(fold, records, observations, events, d.pressure), TransitionsOf(events, d.pressure);
             d.transition.previous == Head(Project(c, ts).chain)
    requires d.transition.from == Some(Text(from)) && d.transition.to == Text(to) && Allowed(from, to)
    ensures var c, ts := CaseOf(fold, records, observations, events, d.pressure), TransitionsOf(events, d.pressure);
            Validates(fold, records, observations, events + [d]) <==>
            && (forall r :: r in d.transition.refs ==> exists o :: o in observations && o.observation.id == r)
            && StatusOf(c, ts) == Text(from) && Met(c, d.transition)
  {
    EventsStayValid(records, observations, events, d);
    hide ConflictFree, StatusOf, Met, Text, Allowed, Project, TransitionsOf, CaseOf, EventValid, Folds, DistinctDocs;
    forall p | p in records ensures FreeAt(fold, records, observations, events + [d], p) <==>
                                    FreeAt(fold, records, observations, events, p) &&
                                    (p == d.pressure ==> StatusAndMet(fold, records, observations, events, d, from))
    {
      OthersUntouched(fold, records, observations, events, d, p);
      if p == d.pressure { HeadExtends(fold, records, observations, events, d, from, to); }
    }
    ReferencesOnFile(records, observations, d);
  }

  predicate FreeAt(fold: string -> Option<Status>, records: map<string, Declaration>, observations: seq<ObservationDoc>,
                   events: seq<EventDoc>, p: string)
    requires p in records
  {
    ConflictFree(CaseOf(fold, records, observations, events, p), TransitionsOf(events, p))
  }

  ghost predicate StatusAndMet(fold: string -> Option<Status>, records: map<string, Declaration>, observations: seq<ObservationDoc>,
                               events: seq<EventDoc>, d: EventDoc, from: Status)
    requires d.TransitionDoc? && d.pressure in records
  {
    var c, ts := CaseOf(fold, records, observations, events, d.pressure), TransitionsOf(events, d.pressure);
    StatusOf(c, ts) == Text(from) && Met(c, d.transition)
  }

  lemma EventsStayValid(records: map<string, Declaration>, observations: seq<ObservationDoc>, events: seq<EventDoc>, d: EventDoc)
    ensures (forall i :: 0 <= i < |events + [d]| ==> EventValid(records, observations, (events + [d])[i])) <==>
            (forall i :: 0 <= i < |events| ==> EventValid(records, observations, events[i])) && EventValid(records, observations, d)
  {
    hide EventValid;
    var all := events + [d];
    assert forall i :: 0 <= i < |events| ==> all[i] == events[i];
    assert all[|events|] == d;
  }

  lemma ReferencesOnFile(records: map<string, Declaration>, observations: seq<ObservationDoc>, d: EventDoc)
    requires d.TransitionDoc? && d.pressure in records && d.actorKnown && d.transition.occurredAt.Some? && Id(d) != ""
    ensures EventValid(records, observations, d) <==>
            forall r :: r in d.transition.refs ==> exists o :: o in observations && o.observation.id == r
  {}

  lemma OthersUntouched(fold: string -> Option<Status>, records: map<string, Declaration>, observations: seq<ObservationDoc>,
                        events: seq<EventDoc>, d: EventDoc, p: string)
    requires d.TransitionDoc? && p in records
    ensures CaseOf(fold, records, observations, events + [d], p) == CaseOf(fold, records, observations, events, p)
    ensures TransitionsOf(events + [d], p) ==
            if d.pressure == p then TransitionsOf(events, p) + [d.transition] else TransitionsOf(events, p)
  {
    RelationsAppend(events, d, p);
    TransitionsAppend(events, d, p);
  }

  lemma HeadExtends(fold: string -> Option<Status>, records: map<string, Declaration>, observations: seq<ObservationDoc>,
                    events: seq<EventDoc>, d: EventDoc, from: Status, to: Status)
    requires Folds(fold) && Validates(fold, records, observations, events) && DistinctDocs(events + [d])
    requires d.TransitionDoc? && d.pressure in records
    requires var c, ts := CaseOf(fold, records, observations, events, d.pressure), TransitionsOf(events, d.pressure);
             d.transition.previous == Head(Project(c, ts).chain)
    requires d.transition.from == Some(Text(from)) && d.transition.to == Text(to) && Allowed(from, to)
    ensures var c, ts := CaseOf(fold, records, observations, events, d.pressure), TransitionsOf(events, d.pressure);
            ConflictFree(c, ts + [d.transition]) <==> StatusOf(c, ts) == Text(from) && Met(c, d.transition)
  {
    var c, ts := CaseOf(fold, records, observations, events, d.pressure), TransitionsOf(events, d.pressure);
    TransitionsDistinct(events + [d], d.pressure);
    TransitionsAppend(events, d, d.pressure);
    hide ConflictFree, StatusOf, Met, Text, Allowed, Project;
    if StatusOf(c, ts) == Text(from) {
      assert Permits(c, Text(from), Text(to));
      AppendExtends(c, ts, d.transition);
    } else if ConflictFree(c, ts + [d.transition]) {
      OnlyExtension(c, ts, d.transition);
      assert false;
    }
  }

  /** The row of the event says what its fields say, and both statuses go by their names. */
  predicate WrittenPlainly(e: Transition, from: Status, to: Status) {
    e.row == Row(Wire(e.previous), Text(from), Text(to)) && e.from == Some(Text(from)) && e.to == Text(to)
  }

  lemma CaseFold(fold: string -> Option<Status>, records: map<string, Declaration>, observations: seq<ObservationDoc>,
                 events: seq<EventDoc>, p: string)
    requires p in records
    ensures CaseOf(fold, records, observations, events, p).fold == fold
  {}

  lemma WrittenIsPlain(c: Case, ts: seq<Transition>, e: Transition, from: Status, to: Status)
    requires Folds(c.fold) && WellIdentified(ts) && ConflictFree(c, ts)
    requires e.previous == Head(Project(c, ts).chain) && WrittenPlainly(e, from, to)
    ensures PlainEvent(c, e)
  {
    hide Text, Walk, Missing, Permits, Lawful, Linked, Claims, Unforked;
    WalkFinishes(c, ts, []);
    HeadNotEmpty(ts, Project(c, ts).chain);
  }

  /** In a registry that validates, the kernel reports what the replayed status means, unless some document's
      predecessor is no text and yet shows as one. */
  lemma ValidRegistryShowsReplayed(fold: string -> Option<Status>, records: map<string, Declaration>,
                                   observations: seq<ObservationDoc>, events: seq<EventDoc>, p: string)
    requires Folds(fold) && p in records && DistinctDocs(events) && Validates(fold, records, observations, events)
    requires AllReadAlike(TransitionsOf(events, p))
    requires forall e :: e in TransitionsOf(events, p) && e.previous == None ==> e.row.previous == ""
    ensures var c, ts := CaseOf(fold, records, observations, events, p), TransitionsOf(events, p);
            NativeStatus(c, ts) == Meaning(c, StatusOf(c, ts))
  {
    var c, ts := CaseOf(fold, records, observations, events, p), TransitionsOf(events, p);
    WellIdentifiedOf(records, observations, events, p);
    hide NativeStatus, StatusOf, ConflictFree;
    ValidLinksArePlain(c, ts);
    HostStatusIsNative(c, ts);
  }

  lemma ValidLinksArePlain(c: Case, ts: seq<Transition>)
    requires WellIdentified(ts) && AllReadAlike(ts) && ConflictFree(c, ts)
    requires forall e :: e in ts && e.previous == None ==> e.row.previous == ""
    ensures PlainLinks(ts)
  {
    hide ConflictFree, StatusOf, Lawful, Met;
    ConflictFreeIffHostChains(c, ts);
    var chain: seq<Transition> :| multiset(chain) == multiset(ts) && History(c, chain);
    PermutationMembers(ts, chain);
    PredecessorsNotEmpty(ts, chain);
    forall i | 0 <= i < |ts| ensures PlainLink(ts[i]) {
      assert ts[i] in ts;
      var j :| 0 <= j < |chain| && chain[j] == ts[i];
      assert chain[j].previous == Predecessor(chain, j) && ReadAlike(ts[i]);
    }
  }

  /** An accepted write extends its own history by one event and touches no other. */
  lemma WriteEffect(fold: string -> Option<Status>, records: map<string, Declaration>, observations: seq<ObservationDoc>, before: seq<EventDoc>, d: EventDoc)
    requires d.TransitionDoc? && d.pressure in records && DistinctDocs(before + [d])
    requires ConflictFree(CaseOf(fold, records, observations, before, d.pressure), TransitionsOf(before, d.pressure))
    requires ConflictFree(CaseOf(fold, records, observations, before + [d], d.pressure), TransitionsOf(before + [d], d.pressure))
    requires d.transition.previous ==
             Head(Project(CaseOf(fold, records, observations, before, d.pressure), TransitionsOf(before, d.pressure)).chain)
    ensures var c, ts := CaseOf(fold, records, observations, before, d.pressure), TransitionsOf(before, d.pressure);
            && CaseOf(fold, records, observations, before + [d], d.pressure) == c
            && Project(c, TransitionsOf(before + [d], d.pressure)).chain == Project(c, ts).chain + [d.transition]
            && StatusOf(c, TransitionsOf(before + [d], d.pressure)) == d.transition.to
            && Met(c, d.transition)
    ensures forall p :: p in records && p != d.pressure ==>
              && CaseOf(fold, records, observations, before + [d], p) == CaseOf(fold, records, observations, before, p)
              && TransitionsOf(before + [d], p) == TransitionsOf(before, p)
  {
    forall p | p in records
      ensures CaseOf(fold, records, observations, before + [d], p) == CaseOf(fold, records, observations, before, p)
      ensures p != d.pressure ==> TransitionsOf(before + [d], p) == TransitionsOf(before, p)
    {
      RelationsAppend(before, d, p);
      TransitionsAppend(before, d, p);
    }
    TransitionsAppend(before, d, d.pressure);
    TransitionsDistinct(before + [d], d.pressure);
    OnlyExtension(CaseOf(fold, records, observations, before, d.pressure), TransitionsOf(before, d.pressure), d.transition);
  }
}
