/** The evidence rules of a transition, said of the pressure's documents rather than of the projection that the program
    checks them against; and why the two say the same. */
module PressureRules {
  import opened Order
  import opened Pressure
  import opened PressureReplay

  // ---------------------------------------------------------------- resolution

  /** Every verified repository is affected, because verifying is a way of being seen. */
  lemma VerifiedAreAffected(declared: seq<Repository>, observations: seq<Observation>)
    ensures VerifiedRepositories(observations) <= Affected(declared, observations)
  {
    forall r | r in VerifiedRepositories(observations) ensures r in Affected(declared, observations) {
      var o :| o in observations && o.kind == Verification && o.repository.Some?
               && o.repository.value.Known? && o.repository.value.project == r;
      assert Name(o.repository.value) == r;
    }
  }

  ghost predicate RefsResolve(refs: set<string>, observations: seq<Observation>) {
    refs != {} && forall r :: r in refs ==> exists o :: o in observations && o.id == r
  }

  /** The repository's latest verification exists, passed, and left no workaround behind. */
  ghost predicate ClosedFor(observations: seq<Observation>, repository: string) {
    Latest(observations, repository).Some? && Closed(Latest(observations, repository).value)
  }

  /** `resolved` is admissible exactly when the references resolve and every affected repository
      is closed; the readiness count of the kernel then always agrees, with counts (n, n, 0, 0, n). */
  lemma ResolutionIffAllClosed(f: Facts, refs: set<string>)
    requires VerifiedRepositories(f.observations) <= f.affected
    ensures ResolutionShortfall(f, refs) != Some(NotReady)
    ensures ResolutionShortfall(f, refs).None? <==>
            RefsResolve(refs, f.observations) && f.affected != {} &&
            forall r :: r in f.affected ==> ClosedFor(f.observations, r)
    ensures ResolutionShortfall(f, refs).None? ==>
            var m, n := Current(f.observations), |f.affected|;
            m.Keys == f.affected && CountVerdict(m, Pass) == n && CountVerdict(m, Fail) == 0
            && CountVerdict(m, Unknown) == 0 && CountWorkaroundClosed(m) == n
  {
    hide Latest, Current, CountVerdict, CountWorkaroundClosed;
    var m := Current(f.observations);
    forall r | ClosedFor(f.observations, r) ensures r in m { LatestIsMaximal(f.observations, r); }
    if f.affected <= m.Keys && forall r :: r in f.affected ==> Closed(m[r]) {
      assert m.Keys == f.affected;
      AllClosedCounts(m);
    }
  }

  lemma AllClosedCounts(m: map<string, Observation>)
    requires forall r :: r in m ==> Closed(m[r])
    ensures CountVerdict(m, Pass) == |m.Keys| == CountWorkaroundClosed(m)
    ensures CountVerdict(m, Fail) == 0 && CountVerdict(m, Unknown) == 0
  {
    assert (set r | r in m && m[r].verdict == Pass) == m.Keys;
    assert (set r | r in m && m[r].workaround != Kept) == m.Keys;
    assert (set r | r in m && m[r].verdict == Fail) == {};
    assert (set r | r in m && m[r].verdict == Unknown) == {};
  }

  // ---------------------------------------------------------------- the rules, document by document

  /** Which observations an event may count on. */
  type Sight = Observation -> bool

  /** Those it refers to, and those dated strictly before it. */
  function SightOf(e: Transition): Sight {
    (o: Observation) =>
      o.id in e.refs || (o.observedAt.Some? && e.occurredAt.Some? && o.observedAt.value < e.occurredAt.value)
  }

  /** Everything on file. */
  function Everything(): Sight { (o: Observation) => true }

  predicate Reports(o: Observation, project: string) {
    o.kind == Verification && o.repository == Some(Known(project))
  }

  /** By date, undated ones first, and among equal dates by id. */
  predicate After(a: Observation, b: Observation) {
    match (a.observedAt, b.observedAt)
    case (Some(s), Some(t)) => s > t || (s == t && a.id != b.id && LexLe(b.id, a.id))
    case (None, None) => a.id != b.id && LexLe(b.id, a.id)
    case _ => a.observedAt.Some?
  }

  /** The last verification of the project in sight: none is after it, nor is it tied with a later document. */
  ghost predicate LastWord(observations: seq<Observation>, sight: Sight, project: string, i: nat) {
    && i < |observations| && sight(observations[i]) && Reports(observations[i], project)
    && forall j :: 0 <= j < |observations| && j != i && sight(observations[j]) && Reports(observations[j], project) ==>
         if j < i then !After(observations[j], observations[i]) else After(observations[i], observations[j])
  }

  /** There is a last word, it is PASS, and it left no workaround behind. */
  ghost predicate Settled(observations: seq<Observation>, sight: Sight, project: string) {
    exists i: nat :: LastWord(observations, sight, project, i)
                && observations[i].verdict == Pass && observations[i].workaround != Kept
  }

  /** The pressure is declared to affect the project, or some observation in sight names it. */
  ghost predicate Involved(c: Case, sight: Sight, name: string) {
    || Known(name) in c.declared || Unlisted(name) in c.declared
    || exists o :: o in c.observations && sight(o) && o.repository in {Some(Known(name)), Some(Unlisted(name))}
  }

  /** What resolving takes: references, all of them to observations in sight, somebody involved, and everybody
      involved settled. */
  ghost predicate Discharged(c: Case, sight: Sight, refs: set<string>) {
    && refs != {} && (forall r :: r in refs ==> exists o :: o in c.observations && sight(o) && o.id == r)
    && (exists name :: Involved(c, sight, name))
    && forall name :: Involved(c, sight, name) ==> Settled(c.observations, sight, name)
  }

  /** What each target takes. */
  ghost predicate Backed(c: Case, sight: Sight, e: Transition) {
    && (e.to in {"confirmed", "accepted", "available", "resolved"} ==> e.refs != {})
    && (e.to == "confirmed" ==> exists o :: o in c.observations && sight(o) && o.kind == Plain && o.verdict == Pass)
    && (e.to in {"accepted", "implementing", "rejected", "deferred", "obsolete"} ==> e.hasReason)
    && (e.to == "available" ==> e.hasImplementation)
    && (e.to == "resolved" ==> Discharged(c, sight, e.refs))
    && (e.to == "duplicate" ==> "duplicate_of" in c.relations)
    && (e.to == "superseded" ==> "supersedes" in c.relations)
  }

  // ---------------------------------------------------------------- what is in sight

  /** The observations in sight, in document order. */
  function InSight(observations: seq<Observation>, sight: Sight): seq<Observation> {
    if observations == [] then []
    else (if sight(observations[0]) then [observations[0]] else []) + InSight(observations[1..], sight)
  }

  lemma {:induction false} InSightAre(observations: seq<Observation>, sight: Sight, o: Observation)
    ensures o in InSight(observations, sight) <==> o in observations && sight(o)
  {
    if observations != [] { InSightAre(observations[1..], sight, o); }
  }

  lemma {:induction false} VisibleIsInSight(observations: seq<Observation>, e: Transition)
    ensures VisibleTo(observations, e) == InSight(observations, SightOf(e))
  {
    if observations != [] { VisibleIsInSight(observations[1..], e); }
  }

  lemma {:induction false} AllIsInSight(observations: seq<Observation>)
    ensures InSight(observations, Everything()) == observations
  {
    if observations != [] { AllIsInSight(observations[1..]); }
  }

  lemma AfterIff(a: Observation, b: Observation)
    ensures After(a, b) <==> !NoLater(a, b)
  {
    LexTotal(a.id, b.id);
    if LexLe(a.id, b.id) && LexLe(b.id, a.id) { LexAntisymmetric(a.id, b.id); }
    LexReflexive(a.id);
  }

  /** The latest verification in sight is the last word. */
  lemma {:induction false} LatestIsLastWord(observations: seq<Observation>, sight: Sight, project: string) returns (i: nat)
    requires Latest(InSight(observations, sight), project).Some?
    ensures LastWord(observations, sight, project, i) && Latest(InSight(observations, sight), project) == Some(observations[i])
  {
    var o, rest := observations[0], observations[1..];
    var seen := InSight(rest, sight);
    var best := Latest(seen, project);
    InSightCons(observations, sight, project);
    hide InSight, Latest, NoLater, After;
    if best.Some? && !(sight(o) && Reports(o, project) && !NoLater(o, best.value)) {
      var k := LatestIsLastWord(rest, sight, project);
      i := k + 1;
      AfterIff(o, best.value);
    } else {
      i := 0;
      forall j | 0 < j < |observations| && sight(observations[j]) && Reports(observations[j], project)
        ensures After(o, observations[j])
      {
        NotAfterBest(rest, sight, project, j - 1);
        NoLaterTotal();
        AfterIff(o, observations[j]);
      }
    }
  }

  lemma InSightCons(observations: seq<Observation>, sight: Sight, project: string)
    requires observations != []
    ensures var o, best := observations[0], Latest(InSight(observations[1..], sight), project);
            Latest(InSight(observations, sight), project) ==
            if sight(o) && Reports(o, project) && (best.None? || !NoLater(o, best.value)) then Some(o) else best
  {
    var o, seen := observations[0], InSight(observations[1..], sight);
    if sight(o) {
      assert ([o] + seen)[1..] == seen;
    } else {
      assert [] + seen == seen;
    }
  }

  lemma NotAfterBest(observations: seq<Observation>, sight: Sight, project: string, j: nat)
    requires j < |observations| && sight(observations[j]) && Reports(observations[j], project)
    ensures var best := Latest(InSight(observations, sight), project);
            best.Some? && NoLater(observations[j], best.value)
  {
    InSightAre(observations, sight, observations[j]);
    LatestIsMaximal(InSight(observations, sight), project);
  }

  lemma OneLastWord(observations: seq<Observation>, sight: Sight, project: string, i: nat, j: nat)
    requires LastWord(observations, sight, project, i) && LastWord(observations, sight, project, j)
    ensures i == j
  {}

  lemma SettledIff(observations: seq<Observation>, sight: Sight, project: string)
    ensures Settled(observations, sight, project) <==> ClosedFor(InSight(observations, sight), project)
  {
    var seen := InSight(observations, sight);
    hide LastWord, Latest, InSight;
    if Latest(seen, project).Some? {
      var i := LatestIsLastWord(observations, sight, project);
      forall j: nat | LastWord(observations, sight, project, j) ensures j == i { OneLastWord(observations, sight, project, i, j); }
    } else {
      forall j: nat ensures !LastWord(observations, sight, project, j) {
        if LastWord(observations, sight, project, j) { LastWordExists(observations, sight, project, j); }
      }
    }
  }

  lemma LastWordExists(observations: seq<Observation>, sight: Sight, project: string, j: nat)
    requires LastWord(observations, sight, project, j)
    ensures Latest(InSight(observations, sight), project).Some?
  {
    NotAfterBest(observations, sight, project, j);
  }

  lemma InvolvedIff(c: Case, sight: Sight, name: string)
    ensures Involved(c, sight, name) <==> name in Affected(c.declared, InSight(c.observations, sight))
  {
    var seen := InSight(c.observations, sight);
    forall o ensures o in seen <==> o in c.observations && sight(o) { InSightAre(c.observations, sight, o); }
    hide InSight;
    assert Name(Known(name)) == name && Name(Unlisted(name)) == name;
  }

  lemma DischargedIff(c: Case, sight: Sight, refs: set<string>)
    ensures var seen := InSight(c.observations, sight);
            Discharged(c, sight, refs) <==>
            ResolutionShortfall(Facts(Affected(c.declared, seen), seen, c.relations), refs).None?
  {
    var seen := InSight(c.observations, sight);
    var f := Facts(Affected(c.declared, seen), seen, c.relations);
    VerifiedAreAffected(c.declared, seen);
    ResolutionIffAllClosed(f, refs);
    ResolvesIff(c, sight, refs);
    EverybodySettledIff(c, sight);
    hide InSight, Affected, ResolutionShortfall, Involved, Settled, ClosedFor, RefsResolve, VerifiedRepositories, Current;
  }

  lemma EverybodySettledIff(c: Case, sight: Sight)
    ensures var seen := InSight(c.observations, sight);
            var affected := Affected(c.declared, seen);
            && ((exists name :: Involved(c, sight, name)) <==> affected != {})
            && ((forall name :: Involved(c, sight, name) ==> Settled(c.observations, sight, name)) <==>
                forall r :: r in affected ==> ClosedFor(seen, r))
  {
    var seen := InSight(c.observations, sight);
    hide InSight, Affected, Involved, Settled, ClosedFor;
    forall name ensures Settled(c.observations, sight, name) <==> ClosedFor(seen, name) {
      SettledIff(c.observations, sight, name);
    }
    forall name ensures Involved(c, sight, name) <==> name in Affected(c.declared, seen) { InvolvedIff(c, sight, name); }
    assert Affected(c.declared, seen) != {} <==> exists name :: name in Affected(c.declared, seen);
  }

  lemma ResolvesIff(c: Case, sight: Sight, refs: set<string>)
    ensures RefsResolve(refs, InSight(c.observations, sight)) <==>
            refs != {} && forall r :: r in refs ==> exists o :: o in c.observations && sight(o) && o.id == r
  {
    forall r | r in refs
      ensures (exists o :: o in InSight(c.observations, sight) && o.id == r) <==>
              exists o :: o in c.observations && sight(o) && o.id == r
    {
      forall o ensures o in InSight(c.observations, sight) <==> o in c.observations && sight(o) {
        InSightAre(c.observations, sight, o);
      }
    }
  }

  /** A requirement check passes exactly when the documents in sight back the event. */
  lemma BackedIff(c: Case, sight: Sight, e: Transition)
    ensures var seen := InSight(c.observations, sight);
            Backed(c, sight, e) <==> Missing(Facts(Affected(c.declared, seen), seen, c.relations), e).None?
  {
    DischargedIff(c, sight, e.refs);
    ReproducedIff(c, sight);
    hide ResolutionShortfall, Discharged, InSight, Affected;
  }

  lemma ReproducedIff(c: Case, sight: Sight)
    ensures (exists o :: o in InSight(c.observations, sight) && o.kind == Plain && o.verdict == Pass) <==>
            exists o :: o in c.observations && sight(o) && o.kind == Plain && o.verdict == Pass
  {
    forall o ensures o in InSight(c.observations, sight) <==> o in c.observations && sight(o) {
      InSightAre(c.observations, sight, o);
    }
  }

  /** What an event is held to in the replay, and what `transition` asks of a new one. */
  lemma MetIffBacked(c: Case, e: Transition)
    ensures Met(c, e) <==> Backed(c, SightOf(e), e)
    ensures Missing(Facts(Affected(c.declared, c.observations), c.observations, c.relations), e).None? <==>
            Backed(c, Everything(), e)
  {
    VisibleIsInSight(c.observations, e);
    AllIsInSight(c.observations);
    BackedIff(c, SightOf(e), e);
    BackedIff(c, Everything(), e);
    hide Missing, Backed, Affected, VisibleTo, InSight;
  }

  /** In a conflict-free pressure every event is backed by what it could count on. */
  lemma EveryEventIsBacked(c: Case, ts: seq<Transition>, e: Transition)
    requires DistinctIds(ts) && ConflictFree(c, ts) && e in ts
    ensures Backed(c, SightOf(e), e)
  {
    hide Met, Backed, ConflictFree, Linked, Lawful;
    ConflictFreeIffLinear(c, ts);
    var chain: seq<Transition> :| multiset(chain) == multiset(ts) && History(c, chain);
    assert e in multiset(ts);
    var i :| 0 <= i < |chain| && chain[i] == e;
    assert Met(c, chain[i]);
    MetIffBacked(c, e);
  }
}
