/** The work protocol's lineage rule (work.py): how one revision of a durable work request may follow another. */
module WorkProtocol {
  import opened Order

  datatype StateEvent = StateEvent(from: Option<string>)

  /** The `details` of a record that states the work protocol. `request` stands for the immutable request
      fields together; `event` is None when `stateEvent` is not an object. */
  datatype Work = Work(request: string, state: string, event: Option<StateEvent>, coordinationState: Option<string>)

  datatype Code =
    | InitialStateInvalid | HistoryInvalid | RequestMutated | TransitionRejected | EventStale | CoordinationRejected

  /** `_TRANSITIONS` */
  function AllowedStates(state: string): set<string> {
    if state == "submitted" then {"accepted", "assigned", "failed", "cancelled"}
    else if state == "accepted" then {"assigned", "queued", "failed", "cancelled"}
    else if state == "assigned" then {"queued", "running", "blocked", "retrying", "failed", "cancelled"}
    else if state == "queued" then {"assigned", "running", "blocked", "retrying", "failed", "cancelled"}
    else if state == "running" then {"checkpointed", "blocked", "retrying", "completed", "failed", "cancelled"}
    else if state == "checkpointed" then {"running", "blocked", "retrying", "completed", "failed", "cancelled"}
    else if state == "blocked" then {"assigned", "queued", "running", "retrying", "failed", "cancelled"}
    else if state == "retrying" then {"assigned", "queued", "running", "blocked", "failed", "cancelled"}
    else {}
  }

  /** `_COORDINATION_TRANSITIONS` */
  function AllowedCoordination(state: string): set<string> {
    if state == "AVAILABLE" then {"CLAIMED", "ABANDONED", "SUPERSEDED"}
    else if state == "CLAIMED" then {"IN_PROGRESS", "BLOCKED", "ABANDONED", "SUPERSEDED"}
    else if state == "IN_PROGRESS" then {"BLOCKED", "VERIFYING", "COMPLETE", "ABANDONED", "NEEDS_RECONCILIATION"}
    else if state == "BLOCKED" then {"CLAIMED", "IN_PROGRESS", "ABANDONED", "NEEDS_RECONCILIATION"}
    else if state == "VERIFYING" then {"COMPLETE", "BLOCKED", "NEEDS_RECONCILIATION"}
    else if state == "NEEDS_RECONCILIATION" then {"CLAIMED", "IN_PROGRESS", "ABANDONED"}
    else {}
  }

  const COORDINATION_STATES: set<string> := {
    "AVAILABLE", "CLAIMED", "IN_PROGRESS", "BLOCKED", "VERIFYING", "COMPLETE", "ABANDONED", "SUPERSEDED",
    "NEEDS_RECONCILIATION"}

  /** `coordination_state`: the one stated, or the one the work state implies. */
  function Coordination(w: Work): string {
    if w.coordinationState.Some? && w.coordinationState.value in COORDINATION_STATES then w.coordinationState.value
    else if w.state in {"assigned", "queued"} then "CLAIMED"
    else if w.state == "running" then "IN_PROGRESS"
    else if w.state == "checkpointed" then "VERIFYING"
    else if w.state == "blocked" then "BLOCKED"
    else if w.state == "retrying" then "NEEDS_RECONCILIATION"
    else if w.state == "completed" then "COMPLETE"
    else if w.state in {"failed", "cancelled"} then "ABANDONED"
    else "AVAILABLE"
  }

  predicate Initial(w: Work) {
    w.state == "submitted" && w.event.Some? && w.event.value.from == None
  }

  predicate Step(before: Work, after: Work) {
    && after.request == before.request
    && (after.state == before.state || after.state in AllowedStates(before.state))
    && after.event == Some(StateEvent(Some(before.state)))
    && (Coordination(after) == Coordination(before) || Coordination(after) in AllowedCoordination(Coordination(before)))
  }

  /** What the protocol lets follow: `prior` is the latest revision's work part, if there is a revision. */
  predicate Follows(prior: Option<Option<Work>>, candidate: Option<Work>) {
    match candidate
    case None => true
    case Some(w) =>
      match prior
      case None => Initial(w)
      case Some(None) => false
      case Some(Some(before)) => Step(before, w)
  }

  /** `work_semantic_diagnostics` */
  method Diagnose(prior: Option<Option<Work>>, candidate: Option<Work>) returns (codes: set<Code>)
    ensures codes == {} <==> Follows(prior, candidate)
    ensures InitialStateInvalid in codes <==> prior.None? && candidate.Some? && !Initial(candidate.value)
    ensures HistoryInvalid in codes <==> prior == Some(None) && candidate.Some?
    ensures match (prior, candidate)
            case (Some(Some(before)), Some(w)) =>
              && (RequestMutated in codes <==> w.request != before.request)
              && (TransitionRejected in codes <==> w.state != before.state && w.state !in AllowedStates(before.state))
              && (EventStale in codes <==> w.event != Some(StateEvent(Some(before.state))))
              && (CoordinationRejected in codes <==> Coordination(w) != Coordination(before) &&
                                                     Coordination(w) !in AllowedCoordination(Coordination(before)))
            case _ => codes <= {InitialStateInvalid, HistoryInvalid}
  {
    if candidate.None? { return {}; }
    var w := candidate.value;
    if prior.None? {
      return if w.state != "submitted" || w.event.None? || w.event.value.from.Some? then {InitialStateInvalid} else {};
    }
    if prior.value.None? { return {HistoryInvalid}; }
    var before := prior.value.value;
    codes := {};
    if w.request != before.request { codes := codes + {RequestMutated}; }
    if w.state != before.state && w.state !in AllowedStates(before.state) { codes := codes + {TransitionRejected}; }
    if w.event.None? || w.event.value.from != Some(before.state) { codes := codes + {EventStale}; }
    if Coordination(w) != Coordination(before) && Coordination(w) !in AllowedCoordination(Coordination(before)) {
      codes := codes + {CoordinationRejected};
    }
    assert codes <= {RequestMutated, TransitionRejected, EventStale, CoordinationRejected};
    assert codes == {} <==> RequestMutated !in codes && TransitionRejected !in codes && EventStale !in codes
                            && CoordinationRejected !in codes;
  }

  /** The only state that names no predecessor is the first one. */
  lemma StepIsNotInitial(before: Work, after: Work)
    requires Step(before, after)
    ensures !Initial(after)
  {}

  /** Left to the work state, coordination ends exactly where work ends, and is complete exactly when work is. */
  lemma ImpliedEndsTogether(w: Work)
    requires w.coordinationState == None
    requires w.state in {"submitted", "accepted", "assigned", "queued", "running", "checkpointed", "blocked", "retrying",
                         "completed", "failed", "cancelled"}
    ensures AllowedStates(w.state) == {} <==> AllowedCoordination(Coordination(w)) == {}
    ensures Coordination(w) == "COMPLETE" <==> w.state == "completed"
    ensures Coordination(w) in COORDINATION_STATES
  {
    assert "accepted" in AllowedStates("submitted") && "assigned" in AllowedStates("accepted");
    assert "failed" in AllowedStates(w.state) || AllowedStates(w.state) == {};
    assert "ABANDONED" in AllowedCoordination(Coordination(w)) || "BLOCKED" in AllowedCoordination(Coordination(w)) ||
           AllowedCoordination(Coordination(w)) == {};
  }
}
