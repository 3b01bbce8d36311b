/** Documents of one pressure, the compiled kernel's transition policy, the evidence
    requirements of a transition, and the host replay of the append-only event log. */
module Pressure {
  import opened Order

  datatype Status =
    | Discovered | Confirmed | Accepted | Implementing | Available | Verifying | Resolved
    | Duplicate | Rejected | Superseded | Deferred | Obsolete | Conflicted

  /** The name by which documents call a status. */
  function Text(s: Status): string {
    match s
    case Discovered => "discovered"
    case Confirmed => "confirmed"
    case Accepted => "accepted"
    case Implementing => "implementing"
    case Available => "available"
    case Verifying => "verifying"
    case Resolved => "resolved"
    case Duplicate => "duplicate"
    case Rejected => "rejected"
    case Superseded => "superseded"
    case Deferred => "deferred"
    case Obsolete => "obsolete"
    case Conflicted => "conflicted"
  }

  /** `reproduction.status`; `NoVerdict` stands for a missing or unrecognised value. */
  datatype Verdict = Pass | Fail | Unknown | NoVerdict

  /** `workaround.removed`, which defaults to "not_needed". */
  datatype Workaround = Removed | Kept | NotNeeded

  /** A repository spelling after `normalize_repository`: known to the family, or left as written. */
  datatype Repository = Known(project: string) | Unlisted(raw: string)

  datatype ObservationKind = Plain | Verification | OtherKind

  datatype Observation = Observation(
    id: string, kind: ObservationKind, repository: Option<Repository>,
    observedAt: Option<int>, verdict: Verdict, workaround: Workaround)

  /** A value in a document: absent, text, or another JSON value, which `str` writes as `shown`. */
  datatype Value = Absent | Words(text: string) | Other(shown: string)

  /** What the kernel's row carries of a transition, before it folds the case of the two statuses. */
  datatype Row = Row(previous: string, from: string, to: string)

  /** A `PressureTransition` document as the host reads it, and its row. `previous` and `from` are None when they
      are not text; a missing `to` reads as the empty text. `hasReason` and `hasImplementation` say that `reason`
      and `implementation.ref` are not blank. */
  datatype Transition = Transition(
    id: string, previous: Option<string>, from: Option<string>, to: string, row: Row,
    occurredAt: Option<int>, refs: set<string>, hasReason: bool, hasImplementation: bool)

  function AsText(v: Value): Option<string> {
    match v case Words(t) => Some(t) case _ => None
  }

  function Shown(v: Value, absent: string): string {
    match v case Absent => absent case Words(t) => t case Other(s) => s
  }

  /** The two readings of `previousEvent`, `from` and `to`: a falsy predecessor that is no text is shown empty. */
  function ReadTransition(id: string, previous: Value, from: Value, to: Value, occurredAt: Option<int>,
                          refs: set<string>, hasReason: bool, hasImplementation: bool): Transition {
    Transition(id, AsText(previous), AsText(from), Shown(to, ""),
               Row(Shown(previous, ""), Shown(from, Text(Discovered)), Shown(to, Text(Discovered))),
               occurredAt, refs, hasReason, hasImplementation)
  }

  /** The row says what the host reads wherever the host reads text. */
  predicate ReadAlike(e: Transition) {
    && (e.previous.Some? ==> e.row.previous == e.previous.value)
    && (e.from.Some? ==> e.row.from == e.from.value)
    && (e.row.to == e.to || (e.to == "" && e.row.to == Text(Discovered)))
  }

  lemma EveryDocumentReadsAlike(id: string, previous: Value, from: Value, to: Value, occurredAt: Option<int>,
                                refs: set<string>, hasReason: bool, hasImplementation: bool)
    ensures ReadAlike(ReadTransition(id, previous, from, to, occurredAt, refs, hasReason, hasImplementation))
  {}

  /** What the replay of one pressure reads besides its transitions. `fold` says which status the kernel takes a
      text for, once its case is folded. `relations` are the relation names of the relation events in which the
      pressure is an endpoint. */
  datatype Case = Case(
    fold: string -> Option<Status>, initial: string, declared: seq<Repository>, observations: seq<Observation>,
    relations: set<string>)

  /** Folding takes every status's own name for that status, and the empty text for none. */
  ghost predicate Folds(fold: string -> Option<Status>) {
    (forall s :: fold(Text(s)) == Some(s)) && fold("") == None
  }

  // ---------------------------------------------------------------- kernel policy

  /** The closed transition law of the compiled kernel. */
  predicate Allowed(current: Status, target: Status) {
    match current
    case Discovered => target in {Confirmed, Duplicate, Rejected, Deferred, Obsolete}
    case Confirmed => target in {Accepted, Duplicate, Rejected, Deferred, Superseded, Obsolete}
    case Accepted => target in {Implementing, Deferred, Duplicate, Superseded, Obsolete}
    case Implementing => target in {Available, Deferred, Superseded, Obsolete}
    case Available => target in {Verifying, Implementing, Deferred, Superseded, Obsolete}
    case Verifying => target in {Resolved, Available, Deferred, Superseded, Obsolete}
    case Deferred => target in {Confirmed, Accepted, Implementing, Obsolete, Superseded}
    case Rejected => target in {Superseded, Obsolete}
    case _ => false
  }

  /** The same law from the other end: from where a status can be reached. */
  function ReachedFrom(target: Status): set<Status> {
    match target
    case Confirmed => {Discovered, Deferred}
    case Accepted => {Confirmed, Deferred}
    case Implementing => {Accepted, Available, Deferred}
    case Available => {Implementing, Verifying}
    case Verifying => {Available}
    case Resolved => {Verifying}
    case Duplicate => {Discovered, Confirmed, Accepted}
    case Rejected => {Discovered, Confirmed}
    case Deferred => {Discovered, Confirmed, Accepted, Implementing, Available, Verifying}
    case Superseded => {Confirmed, Accepted, Implementing, Available, Verifying, Deferred, Rejected}
    case Obsolete => {Discovered, Confirmed, Accepted, Implementing, Available, Verifying, Deferred, Rejected}
    case _ => {}
  }

  lemma AllowedIff(current: Status, target: Status)
    ensures Allowed(current, target) <==> current in ReachedFrom(target)
  {}

  /** The policy as the host asks it, by texts. */
  predicate Permits(c: Case, current: string, target: string) {
    c.fold(current).Some? && c.fold(target).Some? && Allowed(c.fold(current).value, c.fold(target).value)
  }

  predicate ResolutionReady(affected: int, passed: int, failed: int, unknown: int, removed: int) {
    affected > 0 && passed == affected && failed == 0 && unknown == 0 && removed == affected
  }

  // ---------------------------------------------------------------- current verifications

  function Name(r: Repository): string {
    match r case Known(p) => p case Unlisted(raw) => raw
  }

  /** The verification observations that name a known repository, by that repository. */
  predicate Verifies(o: Observation, repository: string) {
    o.kind == Verification && o.repository.Some? && o.repository.value == Known(repository)
  }

  /** `(instant, id)` order; an undated observation comes first. */
  predicate NoLater(a: Observation, b: Observation) {
    match (a.observedAt, b.observedAt)
    case (None, None) => LexLe(a.id, b.id)
    case (None, Some(_)) => true
    case (Some(_), None) => false
    case (Some(s), Some(t)) => s < t || (s == t && LexLe(a.id, b.id))
  }

  /** `best`, unless `o` verifies `repository` and is strictly later. */
  function Pick(o: Observation, best: Option<Observation>, repository: string): Option<Observation> {
    if Verifies(o, repository) && (best.None? || !NoLater(o, best.value)) then Some(o) else best
  }

  /** The latest verification of `repository`, a later document winning a tie. */
  function Latest(observations: seq<Observation>, repository: string): (r: Option<Observation>)
    ensures r.Some? ==> r.value in observations && Verifies(r.value, repository)
  {
    if observations == [] then None
    else Pick(observations[0], Latest(observations[1..], repository), repository)
  }

  function VerifiedRepositories(observations: seq<Observation>): set<string> {
    set o | o in observations && o.kind == Verification && o.repository.Some? && o.repository.value.Known?
      :: o.repository.value.project
  }

  lemma NoLaterTotal()
    ensures TotalPreorder(NoLater)
  {
    forall a: Observation, b: Observation ensures NoLater(a, b) || NoLater(b, a) {
      LexTotal(a.id, b.id);
    }
    forall a: Observation, b: Observation, c: Observation | NoLater(a, b) && NoLater(b, c)
      ensures NoLater(a, c)
    {
      if LexLe(a.id, b.id) && LexLe(b.id, c.id) { LexTransitive(a.id, b.id, c.id); }
    }
  }

  /** `Latest` finds a verification exactly when there is one, and none is strictly later. */
  lemma {:induction false} LatestIsMaximal(observations: seq<Observation>, repository: string)
    ensures Latest(observations, repository).Some? <==> exists o :: o in observations && Verifies(o, repository)
    ensures forall o :: o in observations && Verifies(o, repository) ==>
              NoLater(o, Latest(observations, repository).value)
  {
    if observations != [] {
      LatestIsMaximal(observations[1..], repository);
      NoLaterTotal();
    }
  }

  lemma PicksCommute(x: Observation, y: Observation, best: Option<Observation>, repository: string)
    requires !NoLater(x, y)
    ensures Pick(x, Pick(y, best, repository), repository) == Pick(y, Pick(x, best, repository), repository)
  {
    NoLaterTotal();
    assert NoLater(y, x);
    if best.Some? && NoLater(x, best.value) { assert NoLater(y, best.value); }
    if best.Some? && !NoLater(y, best.value) { assert NoLater(best.value, y); assert !NoLater(x, best.value); }
  }

  lemma {:induction false} LatestOfInsert(o: Observation, s: seq<Observation>, repository: string)
    ensures Latest(Insert(NoLater, o, s), repository) == Pick(o, Latest(s, repository), repository)
  {
    if s == [] {
    } else if NoLater(o, s[0]) {
      assert ([o] + s)[1..] == s;
    } else {
      LatestOfInsert(o, s[1..], repository);
      PicksCommute(o, s[0], Latest(s[1..], repository), repository);
      assert ([s[0]] + Insert(NoLater, o, s[1..]))[1..] == Insert(NoLater, o, s[1..]);
    }
  }

  /** Sorting the observations does not change which verification is the latest. */
  lemma {:induction false} LatestOfSorted(s: seq<Observation>, repository: string)
    ensures Latest(Sort(NoLater, s), repository) == Latest(s, repository)
  {
    if s != [] {
      LatestOfSorted(s[1..], repository);
      LatestOfInsert(s[0], Sort(NoLater, s[1..]), repository);
    }
  }

  lemma {:induction false} LatestAppend(s: seq<Observation>, o: Observation, repository: string)
    requires forall x :: x in s ==> NoLater(x, o)
    ensures Latest(s + [o], repository) ==
            if Verifies(o, repository) then Some(o) else Latest(s, repository)
  {
    if s != [] {
      LatestAppend(s[1..], o, repository);
      assert (s + [o])[1..] == s[1..] + [o];
      assert s[0] in s;
    }
  }

  /** `_current_verifications`: sort the verifications, then let the last one per repository win. */
  method CurrentVerifications(observations: seq<Observation>) returns (current: map<string, Observation>)
    ensures current.Keys == VerifiedRepositories(observations)
    ensures forall r :: r in current ==> Latest(observations, r) == Some(current[r])
  {
    var ordered := Sort(NoLater, observations);
    NoLaterTotal();
    SortSorted(NoLater, observations);
    current := LastPerRepository(ordered);
    forall r: string ensures r in current <==> r in VerifiedRepositories(observations) {
      LatestOfSorted(observations, r);
      LatestIsMaximal(observations, r);
    }
    forall r | r in current ensures Latest(observations, r) == Some(current[r]) {
      LatestOfSorted(observations, r);
    }
  }

  method LastPerRepository(ordered: seq<Observation>) returns (current: map<string, Observation>)
    requires SortedBy(NoLater, ordered)
    ensures forall r :: Latest(ordered, r) == if r in current then Some(current[r]) else None
  {
    current := map[];
    for i := 0 to |ordered|
      invariant forall r :: Latest(ordered[..i], r) == if r in current then Some(current[r]) else None
    {
      var o := ordered[i];
      assert ordered[..i + 1] == ordered[..i] + [o];
      ghost var before := current;
      if o.kind == Verification && o.repository.Some? && o.repository.value.Known? {
        current := current[o.repository.value.project := o];
      }
      forall r: string
        ensures Latest(ordered[..i + 1], r) == if r in current then Some(current[r]) else None
      {
        LatestAppend(ordered[..i], o, r);
        assert Latest(ordered[..i], r) == if r in before then Some(before[r]) else None;
      }
    }
    assert ordered[..|ordered|] == ordered;
  }

  // ---------------------------------------------------------------- requirements

  datatype Shortfall =
    | EvidenceRefsRequired | PassReproductionRequired | ReasonRequired | ImplementationRequired
    | RefsNotObservations | NothingAffected | VerificationMissing | RepositoryNotClosed | NotReady
    | RelationRequired

  /** The projection a requirement is checked against. */
  datatype Facts = Facts(affected: set<string>, observations: seq<Observation>, relations: set<string>)

  /** PASS with the workaround gone, or not needed. */
  predicate Closed(o: Observation) {
    o.verdict == Pass && o.workaround != Kept
  }

  function Current(observations: seq<Observation>): (m: map<string, Observation>)
    ensures m.Keys == VerifiedRepositories(observations)
    ensures forall r :: r in m ==> Latest(observations, r) == Some(m[r])
  {
    assert forall r :: r in VerifiedRepositories(observations) ==> Latest(observations, r).Some? by {
      forall r | r in VerifiedRepositories(observations) { LatestIsMaximal(observations, r); }
    }
    map r | r in VerifiedRepositories(observations) :: Latest(observations, r).value
  }

  function CountVerdict(m: map<string, Observation>, v: Verdict): nat {
    |set r | r in m && m[r].verdict == v|
  }

  function CountWorkaroundClosed(m: map<string, Observation>): nat {
    |set r | r in m && m[r].workaround != Kept|
  }

  function ResolutionShortfall(f: Facts, refs: set<string>): Option<Shortfall> {
    var current := Current(f.observations);
    if refs == {} || exists r :: r in refs && forall o :: o in f.observations ==> o.id != r then Some(RefsNotObservations)
    else if f.affected == {} then Some(NothingAffected)
    else if !(f.affected <= current.Keys) then Some(VerificationMissing)
    else if exists r :: r in f.affected && !Closed(current[r]) then Some(RepositoryNotClosed)
    else if !ResolutionReady(|f.affected|, CountVerdict(current, Pass), CountVerdict(current, Fail),
                             CountVerdict(current, Unknown), CountWorkaroundClosed(current))
    then Some(NotReady)
    else None
  }

  /** `_validate_transition_requirements`: the first requirement the event misses, if any. The requirements go by
      the target's exact text. */
  function Missing(f: Facts, e: Transition): Option<Shortfall> {
    if e.to in {"confirmed", "accepted", "available", "resolved"} && e.refs == {} then Some(EvidenceRefsRequired)
    else if e.to == "confirmed" then
      if exists o :: o in f.observations && o.kind == Plain && o.verdict == Pass then None
      else Some(PassReproductionRequired)
    else if e.to in {"accepted", "implementing", "rejected", "deferred", "obsolete"} then
      if e.hasReason then None else Some(ReasonRequired)
    else if e.to == "available" then if e.hasImplementation then None else Some(ImplementationRequired)
    else if e.to == "resolved" then ResolutionShortfall(f, e.refs)
    else if e.to == "duplicate" then if "duplicate_of" in f.relations then None else Some(RelationRequired)
    else if e.to == "superseded" then if "supersedes" in f.relations then None else Some(RelationRequired)
    else None
  }

  // ---------------------------------------------------------------- what an event can see

  /** Referenced by the event, or dated strictly before it. */
  predicate Visible(o: Observation, e: Transition) {
    || o.id in e.refs
    || (o.observedAt.Some? && e.occurredAt.Some? && o.observedAt.value < e.occurredAt.value)
  }

  function VisibleTo(observations: seq<Observation>, e: Transition): seq<Observation> {
    if observations == [] then []
    else (if Visible(observations[0], e) then [observations[0]] else []) + VisibleTo(observations[1..], e)
  }

  function Affected(declared: seq<Repository>, observations: seq<Observation>): set<string> {
    (set r | r in declared :: Name(r)) +
    (set o | o in observations && o.repository.Some? :: Name(o.repository.value))
  }

  /** The facts replay hands to the requirement check: only what the event can see. */
  function FactsAt(c: Case, e: Transition): Facts {
    var seen := VisibleTo(c.observations, e);
    Facts(Affected(c.declared, seen), seen, c.relations)
  }

  // ---------------------------------------------------------------- replay

  datatype Stop =
    | ConcurrentTransitions | EventCycle | StaleTransition | InvalidTransition | PolicyFailed
    | InvalidRequirements(why: Shortfall)

  /** `PolicyFailed` is not a diagnostic: the kernel does not know a text, and the replay raises. */
  datatype Replay = Replay(chain: seq<Transition>, seen: set<string>, state: string, stop: Option<Stop>)

  /** The events that claim `previous` as their predecessor, in document order. */
  function Claims(ts: seq<Transition>, previous: Option<string>): seq<Transition> {
    if ts == [] then []
    else Claims(ts[..|ts| - 1], previous) +
         (if ts[|ts| - 1].previous == previous then [ts[|ts| - 1]] else [])
  }

  lemma {:induction false} ClaimsAre(ts: seq<Transition>, previous: Option<string>, e: Transition)
    ensures e in Claims(ts, previous) <==> e in ts && e.previous == previous
  {
    if ts != [] { ClaimsAre(ts[..|ts| - 1], previous, e); }
  }

  lemma FirstClaim(ts: seq<Transition>, previous: Option<string>)
    requires Claims(ts, previous) != []
    ensures Claims(ts, previous)[0] in ts && Claims(ts, previous)[0].previous == previous
  {
    ClaimsAre(ts, previous, Claims(ts, previous)[0]);
  }

  function Ids(ts: seq<Transition>): set<string> {
    set e | e in ts :: e.id
  }

  /** What the `i`-th event of a chain must name as its predecessor. */
  function Predecessor(chain: seq<Transition>, i: nat): Option<string>
    requires i <= |chain|
  {
    if i == 0 then None else Some(chain[i - 1].id)
  }

  /** The status the first `i` events of a chain reach. */
  function StateAt(c: Case, chain: seq<Transition>, i: nat): string
    requires i <= |chain|
  {
    if i == 0 then c.initial else chain[i - 1].to
  }

  function Head(chain: seq<Transition>): Option<string> {
    Predecessor(chain, |chain|)
  }

  function StateAfter(c: Case, chain: seq<Transition>): string {
    StateAt(c, chain, |chain|)
  }

  /** Why the replay refuses to append `e` to `chain`, if it does. */
  function Refusal(c: Case, chain: seq<Transition>, e: Transition): Option<Stop> {
    if e.id in Ids(chain) then Some(EventCycle)
    else if e.from != Some(StateAfter(c, chain)) then Some(StaleTransition)
    else if c.fold(StateAfter(c, chain)).None? || c.fold(e.to).None? then Some(PolicyFailed)
    else if !Permits(c, StateAfter(c, chain), e.to) then Some(InvalidTransition)
    else match Missing(FactsAt(c, e), e)
      case Some(why) => Some(InvalidRequirements(why))
      case None => None
  }

  lemma GrowingChain(ts: seq<Transition>, chain: seq<Transition>, e: Transition)
    requires e in ts && e.id !in Ids(chain)
    ensures Ids(chain + [e]) == Ids(chain) + {e.id}
    ensures |Ids(ts) - Ids(chain + [e])| < |Ids(ts) - Ids(chain)|
  {
    assert e.id in Ids(ts) - Ids(chain);
    assert Ids(ts) - Ids(chain + [e]) == Ids(ts) - Ids(chain) - {e.id};
  }

  /** The replay continued from a chain already accepted. */
  function Walk(c: Case, ts: seq<Transition>, chain: seq<Transition>): Replay
    decreases |Ids(ts) - Ids(chain)|
  {
    var claims := Claims(ts, Head(chain));
    var state := StateAfter(c, chain);
    if |claims| > 1 then Replay(chain, Ids(chain), state, Some(ConcurrentTransitions))
    else if claims == [] then Replay(chain, Ids(chain), state, None)
    else
      var e := claims[0];
      match Refusal(c, chain, e)
      case Some(stop) => Replay(chain, Ids(chain) + {e.id}, state, Some(stop))
      case None =>
        FirstClaim(ts, Head(chain));
        GrowingChain(ts, chain, e);
        Walk(c, ts, chain + [e])
  }

  function Project(c: Case, ts: seq<Transition>): Replay {
    Walk(c, ts, [])
  }

  predicate Dangling(c: Case, ts: seq<Transition>) {
    |Project(c, ts).seen| != |ts|
  }

  /** No lifecycle diagnostic at all. */
  predicate ConflictFree(c: Case, ts: seq<Transition>) {
    Project(c, ts).stop.None? && !Dangling(c, ts)
  }

  function StatusOf(c: Case, ts: seq<Transition>): string {
    if ConflictFree(c, ts) then Project(c, ts).state else Text(Conflicted)
  }

  method BucketByPrevious(ts: seq<Transition>) returns (buckets: map<Option<string>, seq<Transition>>)
    ensures forall p :: Claims(ts, p) == if p in buckets then buckets[p] else []
  {
    buckets := map[];
    for i := 0 to |ts|
      invariant forall p :: Claims(ts[..i], p) == if p in buckets then buckets[p] else []
    {
      assert ts[..i + 1][..i] == ts[..i];
      var p := ts[i].previous;
      buckets := buckets[p := (if p in buckets then buckets[p] else []) + [ts[i]]];
    }
    assert ts[..|ts|] == ts;
  }

  /** `_project_one`: bucket the transitions by predecessor, then walk from the null head. */
  method ProjectOne(c: Case, ts: seq<Transition>)
    returns (chain: seq<Transition>, status: string, stop: Option<Stop>, dangling: bool)
    ensures chain == Project(c, ts).chain
    ensures stop == Project(c, ts).stop
    ensures dangling <==> Dangling(c, ts)
    ensures status == StatusOf(c, ts)
  {
    hide Permits, Missing, FactsAt, Claims;
    var byPrevious := BucketByPrevious(ts);
    var state := c.initial;
    var seen: set<string> := {};
    var current: Option<string> := None;
    chain, stop := [], None;
    while true
      invariant Walk(c, ts, chain) == Project(c, ts)
      invariant seen == Ids(chain) && current == Head(chain) && state == StateAfter(c, chain)
      invariant stop == None
      decreases |Ids(ts) - Ids(chain)|
    {
      var candidates := if current in byPrevious then byPrevious[current] else [];
      assert candidates == Claims(ts, Head(chain));
      if |candidates| > 1 { stop := Some(ConcurrentTransitions); break; }
      if candidates == [] { break; }
      var e := candidates[0];
      FirstClaim(ts, Head(chain));
      var known := e.id in seen;
      seen := seen + {e.id};
      if known { stop := Some(EventCycle); break; }
      if e.from != Some(state) { stop := Some(StaleTransition); break; }
      if c.fold(state).None? || c.fold(e.to).None? { stop := Some(PolicyFailed); break; }
      if !Permits(c, state, e.to) { stop := Some(InvalidTransition); break; }
      var missing := Missing(FactsAt(c, e), e);
      if missing.Some? { stop := Some(InvalidRequirements(missing.value)); break; }
      GrowingChain(ts, chain, e);
      chain := chain + [e];
      state := e.to;
      current := Some(e.id);
    }
    dangling := |seen| != |ts|;
    status := if stop.None? && !dangling then state else Text(Conflicted);
  }
}
