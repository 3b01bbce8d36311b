/** What the evidence rules guarantee over whole histories: resolution safety, the road to
    resolution, and the fact that late evidence cannot rewrite a history. */
module PressureEvidence {
  import opened Order
  import opened Pressure
  import opened PressureReplay
  import opened PressureRules

  /** What resolving promises: everybody declared affected, or named by an observation the last event could count
      on, has a last verification among those, and it is settled. */
  ghost predicate SafelyResolved(c: Case, ts: seq<Transition>) {
    var chain := Project(c, ts).chain;
    |chain| > 0 && var e := chain[|chain| - 1]; Discharged(c, SightOf(e), e.refs)
  }

  /** Every conflict-free history whose replayed status is `resolved` keeps that promise. */
  lemma ResolutionSafety(c: Case, ts: seq<Transition>)
    requires DistinctIds(ts) && c.initial != Text(Resolved)
    requires StatusOf(c, ts) == Text(Resolved)
    ensures SafelyResolved(c, ts)
    ensures var chain := Project(c, ts).chain; chain[|chain| - 1].to == Text(Resolved)
  {
    hide Walk, Claims, Discharged, Met;
    WalkFinishes(c, ts, []);
    var chain := Project(c, ts).chain;
    var e := chain[|chain| - 1];
    assert Met(c, e);
    MetIffBacked(c, e);
  }

  lemma LawfulRoad(c: Case, chain: seq<Transition>)
    requires Lawful(c, chain) && c.fold(c.initial) == Some(Discovered) && c.fold(StateAfter(c, chain)) == Some(Resolved)
    ensures |chain| >= 3
    ensures var n := |chain|;
            && c.fold(chain[n - 1].to) == Some(Resolved) && c.fold(chain[n - 2].to) == Some(Verifying)
            && c.fold(chain[n - 3].to) == Some(Available)
  {
    var n := |chain|;
    assert c.fold(StateAt(c, chain, n - 1)) == Some(Verifying);
    assert c.fold(StateAt(c, chain, n - 2)) == Some(Available);
  }

  /** A history that the kernel takes for resolved ends available, verifying, resolved, and the first of these three,
      if spelled by its own name, carries an implementation reference and evidence. */
  lemma RoadToResolved(c: Case, chain: seq<Transition>)
    requires History(c, chain) && c.fold(c.initial) == Some(Discovered) && c.fold(StateAfter(c, chain)) == Some(Resolved)
    ensures |chain| >= 3
    ensures var n := |chain|;
            && c.fold(chain[n - 1].to) == Some(Resolved) && c.fold(chain[n - 2].to) == Some(Verifying)
            && c.fold(chain[n - 3].to) == Some(Available)
    ensures var e := chain[|chain| - 3]; e.to == Text(Available) ==> e.hasImplementation && e.refs != {}
  {
    hide Lawful, Linked, Met, FactsAt, StateAfter;
    LawfulRoad(c, chain);
    var e := chain[|chain| - 3];
    if e.to == Text(Available) { AvailableMet(c, e); }
  }

  lemma AvailableMet(c: Case, e: Transition)
    requires Met(c, e) && e.to == Text(Available)
    ensures e.hasImplementation && e.refs != {}
  {
    hide FactsAt, ResolutionShortfall;
  }

  /** Resolved, duplicate, superseded and obsolete, however spelled, are final: only the last event can reach them. */
  lemma FinalStatesAreLast(c: Case, chain: seq<Transition>, i: nat)
    requires Lawful(c, chain) && i < |chain|
    requires c.fold(chain[i].to) in {Some(Resolved), Some(Duplicate), Some(Superseded), Some(Obsolete)}
    ensures i == |chain| - 1
  {
    assert StateAt(c, chain, i + 1) == chain[i].to;
  }

  // ---------------------------------------------------------------- late evidence

  function Without(observations: seq<Observation>, late: set<Observation>): seq<Observation> {
    if observations == [] then []
    else (if observations[0] in late then [] else [observations[0]]) + Without(observations[1..], late)
  }

  /** No transition references it, and it is undated or dated no earlier than every transition. */
  ghost predicate Late(o: Observation, ts: seq<Transition>) {
    forall e :: e in ts ==>
      && o.id !in e.refs
      && (o.observedAt.Some? && e.occurredAt.Some? ==> o.observedAt.value >= e.occurredAt.value)
  }

  lemma {:induction false} LateIsInvisible(observations: seq<Observation>, late: set<Observation>, ts: seq<Transition>, e: Transition)
    requires e in ts && forall o :: o in late ==> Late(o, ts)
    ensures VisibleTo(Without(observations, late), e) == VisibleTo(observations, e)
  {
    if observations != [] {
      var o, rest := observations[0], Without(observations[1..], late);
      LateIsInvisible(observations[1..], late, ts, e);
      if o in late {
        assert !Visible(o, e);
        assert [] + rest == rest;
      } else {
        assert ([o] + rest)[1..] == rest;
      }
    }
  }

  /** Replay depends on the evidence only through what each event can see. */
  lemma {:induction false} SameSightSameWalk(c: Case, d: Case, ts: seq<Transition>, chain: seq<Transition>)
    requires c.fold == d.fold && c.initial == d.initial && forall e :: e in ts ==> FactsAt(c, e) == FactsAt(d, e)
    ensures Walk(c, ts, chain) == Walk(d, ts, chain)
    decreases |Ids(ts) - Ids(chain)|
  {
    hide FactsAt, Missing, Claims, Permits, Refusal;
    var claims := Claims(ts, Head(chain));
    if |claims| == 1 {
      FirstClaim(ts, Head(chain));
      SameRefusal(c, d, chain, claims[0]);
      if Refusal(c, chain, claims[0]).None? {
        GrowingChain(ts, chain, claims[0]);
        SameSightSameWalk(c, d, ts, chain + [claims[0]]);
      }
    }
  }

  lemma SameRefusal(c: Case, d: Case, chain: seq<Transition>, e: Transition)
    requires c.fold == d.fold && c.initial == d.initial && FactsAt(c, e) == FactsAt(d, e)
    ensures Refusal(c, chain, e) == Refusal(d, chain, e)
    ensures Refusal(c, chain, e).None? ==> e.id !in Ids(chain)
  {
    SamePolicy(c, d);
    hide FactsAt, Missing, Permits;
  }

  lemma SamePolicy(c: Case, d: Case)
    requires c.fold == d.fold
    ensures forall a, b :: Permits(c, a, b) == Permits(d, a, b)
  {}

  /** Adding any number of late observations leaves chain, status and diagnostics unchanged. */
  lemma LateEvidenceChangesNothing(c: Case, ts: seq<Transition>, late: set<Observation>)
    requires forall o :: o in late ==> Late(o, ts)
    ensures var earlier := c.(observations := Without(c.observations, late));
            Project(c, ts) == Project(earlier, ts) && StatusOf(c, ts) == StatusOf(earlier, ts)
  {
    var earlier := c.(observations := Without(c.observations, late));
    forall e | e in ts ensures FactsAt(c, e) == FactsAt(earlier, e) {
      LateIsInvisible(c.observations, late, ts, e);
    }
    SameSightSameWalk(c, earlier, ts, []);
  }
}
