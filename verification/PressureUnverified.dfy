/** A pressure that walks the whole road to `resolved`, spells its last step in capitals, and is shown as resolved
    although nobody verified anything. */
module PressureUnverified {
  import opened Order
  import opened Pressure
  import opened PressureReplay
  import opened PressureNative
  import opened PressureAgreement
  import opened PressureEvidence
  import opened PressureDivergence

  // ---------------------------------------------------------------- a fold of plain letters

  function LowerChar(ch: char): char {
    if 'A' <= ch <= 'Z' then ch - 'A' + 'a' else ch
  }

  function Lower(text: string): string {
    seq(|text|, i requires 0 <= i < |text| => LowerChar(text[i]))
  }

  function StatusNamed(text: string): Option<Status> {
    if text == Text(Discovered) then Some(Discovered)
    else if text == Text(Confirmed) then Some(Confirmed)
    else if text == Text(Accepted) then Some(Accepted)
    else if text == Text(Implementing) then Some(Implementing)
    else if text == Text(Available) then Some(Available)
    else if text == Text(Verifying) then Some(Verifying)
    else if text == Text(Resolved) then Some(Resolved)
    else if text == Text(Duplicate) then Some(Duplicate)
    else if text == Text(Rejected) then Some(Rejected)
    else if text == Text(Superseded) then Some(Superseded)
    else if text == Text(Deferred) then Some(Deferred)
    else if text == Text(Obsolete) then Some(Obsolete)
    else if text == Text(Conflicted) then Some(Conflicted)
    else None
  }

  function FoldLetters(text: string): Option<Status> {
    StatusNamed(Lower(text))
  }

  predicate Small(text: string) {
    forall i :: 0 <= i < |text| ==> !('A' <= text[i] <= 'Z')
  }

  lemma LowerKeeps(text: string)
    requires Small(text)
    ensures Lower(text) == text
  {}

  lemma NamesAreSmall(s: Status)
    ensures Small(Text(s)) && Text(s) != ""
  {}

  lemma NamedByItself(s: Status)
    ensures StatusNamed(Text(s)) == Some(s)
  {}

  /** What is asked of a fold can be met. */
  lemma FoldLettersFolds()
    ensures Folds(FoldLetters) && FoldLetters(LAST) == Some(Resolved)
  {
    hide Text;
    forall s ensures FoldLetters(Text(s)) == Some(s) {
      NamesAreSmall(s);
      LowerKeeps(Text(s));
      NamedByItself(s);
    }
    forall s ensures Text(s) != "" { NamesAreSmall(s); }
    LastMeansResolved();
    NamedByItself(Resolved);
  }

  lemma LastMeansResolved()
    ensures Lower(LAST) == Text(Resolved)
  {}

  // ---------------------------------------------------------------- the road

  const LAST := "RESOLVED"

  /** One step of the road, with everything any step but the last may need. */
  function Walked(id: string, previous: Value, from: string, to: string): Transition {
    ReadTransition(id, previous, Words(from), Words(to), None, {"O"}, true, true)
  }

  const ROAD := [
    Walked("1", Absent, Text(Discovered), Text(Confirmed)), Walked("2", Words("1"), Text(Confirmed), Text(Accepted)),
    Walked("3", Words("2"), Text(Accepted), Text(Implementing)), Walked("4", Words("3"), Text(Implementing), Text(Available)),
    Walked("5", Words("4"), Text(Available), Text(Verifying)), Walked("6", Words("5"), Text(Verifying), LAST)]

  /** Somebody reproduced the problem; nobody verified anything. */
  const SEEN := Observation("O", ObservationKind.Plain, None, None, Pass, NotNeeded)

  const CASE := Case(FoldLetters, Text(Discovered), [Unlisted("repo")], [SEEN], {})

  lemma StepMet(e: Transition)
    requires e.refs == {"O"} && e.hasReason && e.hasImplementation
    requires e.to !in {Text(Resolved), Text(Duplicate), Text(Superseded)}
    ensures Met(CASE, e)
  {
    assert [SEEN][1..] == [];
    assert VisibleTo([SEEN], e) == [SEEN] + [];
    assert SEEN in FactsAt(CASE, e).observations;
    hide ResolutionShortfall;
  }

  lemma StepPermitted(i: nat)
    requires i < |ROAD|
    ensures ROAD[i].from == Some(StateAt(CASE, ROAD, i)) && Permits(CASE, StateAt(CASE, ROAD, i), ROAD[i].to)
    ensures ROAD[i].previous == Predecessor(ROAD, i) && ROAD[i].to !in {Text(Resolved), Text(Duplicate), Text(Superseded)}
  {
    FoldLettersFolds();
    hide FoldLetters;
  }

  lemma RoadIsHistory()
    ensures History(CASE, ROAD) && AllReadAlike(ROAD) && WellIdentified(ROAD)
  {
    forall i | 0 <= i < |ROAD|
      ensures ROAD[i].from == Some(StateAt(CASE, ROAD, i)) && Permits(CASE, StateAt(CASE, ROAD, i), ROAD[i].to)
      ensures ROAD[i].previous == Predecessor(ROAD, i)
      ensures Met(CASE, ROAD[i])
    {
      StepPermitted(i);
      StepMet(ROAD[i]);
    }
    RoadIds();
    hide Permits, Met, CASE, Text;
  }

  lemma RoadIds()
    ensures AllReadAlike(ROAD) && WellIdentified(ROAD)
  {
    hide Text;
  }

  /** No diagnostic, shown as resolved, and the one affected repository was never verified. */
  lemma UnverifiedIsShownResolved()
    ensures ConflictFree(CASE, ROAD) && NativeStatus(CASE, ROAD) == Resolved && !SafelyResolved(CASE, ROAD)
  {
    RoadIsHistory();
    FoldLettersFolds();
    StepPermitted(0);
    hide History, Met, Lawful, Linked, NativeStatus, ConflictFree, SafelyResolved, Text, AllReadAlike, WellIdentified;
    RoadEnds();
    ConflictFreeIffHostChains(CASE, ROAD);
    HostHistoryMeans(CASE, ROAD, ROAD);
    ConflictFreeIffLinear(CASE, ROAD);
    NotClosed(CASE, ROAD, "repo");
  }

  lemma RoadEnds()
    ensures ROAD[0].row.previous == "" && Meaning(CASE, StateAfter(CASE, ROAD)) == Resolved
    ensures CASE.fold(CASE.initial) == Some(Discovered)
    ensures Unlisted("repo") in CASE.declared && "repo" !in VerifiedRepositories(CASE.observations)
  {
    FoldLettersFolds();
    hide FoldLetters;
  }
}
