/** Documents on which host and kernel part: odd predecessors, and statuses that are missing or in other letters.
    The last of these can show a pressure as resolved that nobody verified. */
module PressureDivergence {
  import opened Order
  import opened Rearrange
  import opened Pressure
  import opened PressureReplay
  import opened PressureRules
  import opened PressureNative
  import opened PressureAgreement
  import opened PressureEvidence

  // ---------------------------------------------------------------- odd predecessors

  /** An event whose predecessor is the empty text is never reached by the host. */
  lemma EmptyPredecessorDangles(c: Case, ts: seq<Transition>, e: Transition)
    requires WellIdentified(ts) && e in ts && e.previous == Some("")
    ensures Dangling(c, ts) && StatusOf(c, ts) == Text(Conflicted)
  {
    hide Missing, Permits, FactsAt, Walk, Lawful, Claims, Unforked;
    var r := Project(c, ts);
    WalkFinishes(c, ts, []);
    NotSeen(c, ts, r, e);
    IdsCount(ts);
    SeenAreIds(c, ts, r);
    assert e.id in Ids(ts);
    ProperSubset(r.seen, Ids(ts), e.id);
  }

  lemma NotSeen(c: Case, ts: seq<Transition>, r: Replay, e: Transition)
    requires WellIdentified(ts) && Finished(c, ts, r) && e in ts && e.previous == Some("")
    ensures e.id !in r.seen
  {
    hide Missing, Permits, FactsAt, Lawful, Unforked;
    var claims := Claims(ts, Head(r.chain));
    HeadNotEmpty(ts, r.chain);
    PredecessorsNotEmpty(ts, r.chain);
    forall k | 0 <= k < |r.chain| ensures r.chain[k].id != e.id {
      assert r.chain[k].previous == Predecessor(r.chain, k);
      DifferentIds(ts, r.chain[k], e);
    }
    if claims != [] {
      FirstClaim(ts, Head(r.chain));
      DifferentIds(ts, claims[0], e);
    }
  }

  lemma DifferentIds(ts: seq<Transition>, x: Transition, y: Transition)
    requires DistinctIds(ts) && x in ts && y in ts && x != y
    ensures x.id != y.id
  {
    var i :| 0 <= i < |ts| && ts[i] == x;
    var j :| 0 <= j < |ts| && ts[j] == y;
    assert i < j || j < i;
  }

  /** One event that makes the pressure obsolete, as a document. */
  function Retire(id: string, previous: Value, from: Value): Transition {
    ReadTransition(id, previous, from, Words(Text(Obsolete)), None, {}, true, false)
  }

  /** The kernel takes a falsy predecessor for none and a status in any letters, or a missing one, for what it means;
      anything else shown as predecessor is one to it. */
  lemma KernelReads(c: Case, id: string, previous: Value, from: Value)
    requires Folds(c.fold) && c.initial == Text(Discovered) && id != ""
    requires c.fold(Shown(from, Text(Discovered))) == Some(Discovered)
    ensures Projectable(c, [Retire(id, previous, from)])
    ensures NativeStatus(c, [Retire(id, previous, from)]) == if Shown(previous, "") == "" then Obsolete else Conflicted
  {
    hide Text;
    var e := Retire(id, previous, from);
    assert [e][..0] == [];
    assert Find([e], "") == if Shown(previous, "") == "" then Search(Some(e), 1) else Search(None, 0);
    assert Carried(c, [e], 1) == Advance(c, [e], Carried(c, [e], 0));
  }

  /** The host takes a predecessor that is no text for none, and compares statuses letter by letter. */
  lemma HostReads(c: Case, id: string, previous: Value, from: Value)
    requires Folds(c.fold) && c.initial == Text(Discovered) && id != "" && previous != Words(id)
    ensures StatusOf(c, [Retire(id, previous, from)]) ==
            Text(if AsText(previous) == None && from == Words(Text(Discovered)) then Obsolete else Conflicted)
  {
    var e := Retire(id, previous, from);
    RetireClaims(id, previous, from);
    hide Retire, Claims, Missing, Text, FactsAt;
    if AsText(previous) == None {
      RetireRefusal(c, id, previous, from);
      assert Walk(c, [e], [e]) == Replay([e], {id}, e.to, None);
    }
  }

  lemma RetireClaims(id: string, previous: Value, from: Value)
    requires previous != Words(id)
    ensures var e := Retire(id, previous, from);
            && Claims([e], None) == (if AsText(previous) == None then [e] else [])
            && Claims([e], Some(id)) == [] && e.id == id && e.to == Text(Obsolete)
  {
    hide Text, Claims;
    ClaimsOfOne(Retire(id, previous, from), None);
    ClaimsOfOne(Retire(id, previous, from), Some(id));
  }

  lemma ClaimsOfOne(e: Transition, previous: Option<string>)
    ensures Claims([e], previous) == if e.previous == previous then [e] else []
  {
    assert [e][..0] == [] && Claims([], previous) == [];
  }

  lemma RetireRefusal(c: Case, id: string, previous: Value, from: Value)
    requires Folds(c.fold) && c.initial == Text(Discovered)
    ensures Refusal(c, [], Retire(id, previous, from)) ==
            if from == Words(Text(Discovered)) then None else Some(StaleTransition)
  {
    hide FactsAt;
  }

  /** The empty predecessor: `conflicted` for the host, obsolete for the kernel. */
  lemma EmptyPredecessorDiverges(c: Case, id: string)
    requires Folds(c.fold) && c.initial == Text(Discovered) && id != ""
    ensures var ts := [Retire(id, Words(""), Words(Text(Discovered)))];
            StatusOf(c, ts) == Text(Conflicted) && NativeStatus(c, ts) == Obsolete
  {
    hide StatusOf, NativeStatus;
    HostReads(c, id, Words(""), Words(Text(Discovered)));
    KernelReads(c, id, Words(""), Words(Text(Discovered)));
  }

  /** A predecessor that is no text but shows as one: obsolete for the host, without any diagnostic, and conflicted
      for the kernel. Here `show` adds the native diagnostic. */
  lemma NumberedPredecessorDiverges(c: Case, id: string, shown: string)
    requires Folds(c.fold) && c.initial == Text(Discovered) && id != "" && shown != ""
    ensures var ts := [Retire(id, Other(shown), Words(Text(Discovered)))];
            ConflictFree(c, ts) && StatusOf(c, ts) == Text(Obsolete) && NativeStatus(c, ts) == Conflicted
  {
    hide NativeStatus, Walk;
    HostReads(c, id, Other(shown), Words(Text(Discovered)));
    KernelReads(c, id, Other(shown), Words(Text(Discovered)));
    NamesDiffer(c, Obsolete, Conflicted);
  }

  /** A missing `from`, or one in other letters: stale for the host, as good as any for the kernel. */
  lemma OddFromDiverges(c: Case, id: string, from: Value)
    requires Folds(c.fold) && c.initial == Text(Discovered) && id != ""
    requires from == Absent || (from.Words? && from.text != Text(Discovered) && c.fold(from.text) == Some(Discovered))
    ensures var ts := [Retire(id, Absent, from)];
            StatusOf(c, ts) == Text(Conflicted) && NativeStatus(c, ts) == Obsolete
  {
    hide StatusOf, NativeStatus;
    HostReads(c, id, Absent, from);
    KernelReads(c, id, Absent, from);
  }

  // ---------------------------------------------------------------- conflicts that only the kernel sees

  /** A log that the kernel rejects carries a structural diagnostic of the host's, or makes the replay raise, unless
      some predecessor is no text and yet shows as one. */
  lemma KernelConflictIsReportedByHost(c: Case, ts: seq<Transition>)
    requires Folds(c.fold) && WellIdentified(ts) && AllReadAlike(ts) && c.fold(c.initial).Some?
    requires NativeProjection(c, ts).conflicted
    ensures || Dangling(c, ts)
            || Project(c, ts).stop in {Some(ConcurrentTransitions), Some(StaleTransition), Some(InvalidTransition), Some(PolicyFailed)}
            || exists e: Transition :: e in ts && e.previous == None && e.row.previous != ""
  {
    hide Missing, Claims, Permits, FactsAt, Walk, NativeProjection, Folds, AllReadAlike, Lawful, Linked;
    var r := Project(c, ts);
    WalkFinishes(c, ts, []);
    if !Dangling(c, ts) {
      IdsCount(r.chain);
      match r.stop
      case None => RejectedChainHasOddHead(c, ts, r.chain);
      case Some(InvalidRequirements(_)) =>
        var e := Claims(ts, Head(r.chain))[0];
        RefusedOnlyByRequirements(c, r.chain, e);
        FirstClaim(ts, Head(r.chain));
        NoRevisit(ts, r.chain, e);
        assert Claims(ts, Head(r.chain)) == [e];
        LawfulStep(c, ts, r.chain, e);
        RejectedChainHasOddHead(c, ts, r.chain + [e]);
      case Some(_) =>
    }
  }

  lemma RefusedOnlyByRequirements(c: Case, chain: seq<Transition>, e: Transition)
    requires Refusal(c, chain, e).Some? && Refusal(c, chain, e).value.InvalidRequirements?
    ensures e.from == Some(StateAfter(c, chain)) && Permits(c, StateAfter(c, chain), e.to)
  {}

  lemma RejectedChainHasOddHead(c: Case, ts: seq<Transition>, chain: seq<Transition>)
    requires Folds(c.fold) && WellIdentified(ts) && AllReadAlike(ts) && c.fold(c.initial).Some?
    requires NativeProjection(c, ts).conflicted
    requires DistinctIds(chain) && Within(chain, ts) && Linked(chain) && Lawful(c, chain) && |chain| == |ts|
    ensures exists e: Transition :: e in ts && e.previous == None && e.row.previous != ""
  {
    hide Lawful, Folds, Named, AsNative, NativeProjection;
    FullChain(chain, ts);
    assert AllReadAlike(chain) && WellIdentified(chain) by {
      forall i | 0 <= i < |chain| ensures ReadAlike(chain[i]) && chain[i].id != "" { assert chain[i] in ts; }
    }
    if chain == [] || chain[0].row.previous == "" {
      PlainHeadIsAccepted(c, ts, chain);
      assert false;
    } else {
      assert chain[0] in ts && chain[0].previous == Predecessor(chain, 0);
    }
  }

  lemma PlainHeadIsAccepted(c: Case, ts: seq<Transition>, chain: seq<Transition>)
    requires Folds(c.fold) && WellIdentified(ts) && WellIdentified(chain) && AllReadAlike(chain) && c.fold(c.initial).Some?
    requires multiset(chain) == multiset(ts) && Linked(chain) && Lawful(c, chain)
    requires chain == [] || chain[0].row.previous == ""
    ensures !NativeProjection(c, ts).conflicted
  {
    hide Lawful, Linked, Folds, Named, AsNative, NativeProjection;
    PermutationMembers(ts, chain);
    HostChainIsNative(c, chain);
    MapMultiset(AsNative(c), chain, ts);
    NativeIffLawfulChain(c, ts);
  }

  // ---------------------------------------------------------------- resolved by another name

  function Declaring(c: Case, declared: seq<Repository>): Case {
    c.(declared := declared)
  }

  ghost predicate SafeIfDeclared(c: Case, ts: seq<Transition>, declared: seq<Repository>) {
    ConflictFree(Declaring(c, declared), ts) ==> SafelyResolved(Declaring(c, declared), ts)
  }

  /** A conflict-free pressure that is shown as resolved is safely resolved, whatever repositories it is declared to
      affect, exactly when its last event says `resolved` letter by letter. */
  lemma ShownResolutionSafety(c: Case, ts: seq<Transition>)
    requires Folds(c.fold) && WellIdentified(ts) && AllReadAlike(ts)
    requires c.fold(c.initial).Some? && c.fold(c.initial) != Some(Resolved)
    requires ConflictFree(c, ts) && NativeStatus(c, ts) == Resolved
    ensures (forall declared :: SafeIfDeclared(c, ts, declared)) <==> StatusOf(c, ts) == Text(Resolved)
  {
    hide History, NativeStatus, ConflictFree, StatusOf, SafelyResolved, Folds;
    ConflictFreeIffHostChains(c, ts);
    var chain: seq<Transition> :| multiset(chain) == multiset(ts) && History(c, chain);
    ShownEnd(c, ts, chain);
    if StatusOf(c, ts) == Text(Resolved) {
      forall declared ensures SafeIfDeclared(c, ts, declared) {
        SpelledIsSafe(c, ts, chain, declared);
      }
    } else {
      var x := FreshName(VerifiedRepositories(c.observations));
      UnspelledIsUnsafe(c, ts, chain, x);
    }
  }

  /** The last event's target means resolved, and no other event's does. */
  lemma ShownEnd(c: Case, ts: seq<Transition>, chain: seq<Transition>)
    requires Folds(c.fold) && WellIdentified(ts) && AllReadAlike(ts)
    requires c.fold(c.initial).Some? && c.fold(c.initial) != Some(Resolved)
    requires multiset(chain) == multiset(ts) && History(c, chain) && NativeStatus(c, ts) == Resolved
    ensures chain != [] && c.fold(chain[|chain| - 1].to) == Some(Resolved)
    ensures forall i :: 0 <= i < |chain| - 1 ==> chain[i].to != Text(Resolved)
  {
    hide Linked, Met, Folds, NativeStatus, Lawful;
    PermutationMembers(ts, chain);
    ShownIsAccepted(c, ts);
    HostHistoryMeans(c, ts, chain);
    EndIsKnown(c, chain);
    forall i | 0 <= i < |chain| - 1 ensures chain[i].to != Text(Resolved) {
      if c.fold(chain[i].to) == Some(Resolved) { FinalStatesAreLast(c, chain, i); }
      ResolvedFolds(c);
    }
  }

  lemma ResolvedFolds(c: Case)
    requires Folds(c.fold)
    ensures c.fold(Text(Resolved)) == Some(Resolved)
  {}

  lemma ShownIsAccepted(c: Case, ts: seq<Transition>)
    requires Folds(c.fold) && WellIdentified(ts) && NativeStatus(c, ts) == Resolved
    ensures ChainsUp(c, ts)
  {
    hide Lawful, Linked, Folds;
    NativeIffLawfulChain(c, ts);
  }

  lemma SpelledIsSafe(c: Case, ts: seq<Transition>, chain: seq<Transition>, declared: seq<Repository>)
    requires DistinctIds(ts) && c.fold(c.initial) != Some(Resolved) && Folds(c.fold)
    requires multiset(chain) == multiset(ts) && History(c, chain) && chain != [] && chain[|chain| - 1].to == Text(Resolved)
    ensures SafeIfDeclared(c, ts, declared)
  {
    hide SafelyResolved, ConflictFree, StatusOf, Folds, Lawful, Linked, Met;
    var d := Declaring(c, declared);
    PermutationMembers(ts, chain);
    if ConflictFree(d, ts) {
      ConflictFreeIffHostChains(d, ts);
      var other: seq<Transition> :| multiset(other) == multiset(ts) && History(d, other);
      LinkedUnique(ts, chain, other, |chain|);
      assert other == chain;
      ResolvedFolds(c);
      ResolutionSafety(d, ts);
    }
  }

  /** A log has only one linked order. */
  lemma {:induction false} LinkedUnique(ts: seq<Transition>, a: seq<Transition>, b: seq<Transition>, n: nat)
    requires DistinctIds(ts) && multiset(a) == multiset(ts) && multiset(b) == multiset(ts) && Linked(a) && Linked(b)
    requires n <= |ts|
    ensures |a| == |b| == |ts| && a[..n] == b[..n]
    ensures n == |ts| ==> a == b
    decreases n
  {
    hide Linked, Claims, DistinctIds;
    PermutationMembers(ts, a);
    PermutationMembers(ts, b);
    if n > 0 {
      LinkedUnique(ts, a, b, n - 1);
      SameNext(ts, a, b, n - 1);
      assert a[..n] == a[..n - 1] + [a[n - 1]] && b[..n] == b[..n - 1] + [b[n - 1]];
    }
    if n == |ts| { assert a[..n] == a && b[..n] == b; }
  }

  lemma SameNext(ts: seq<Transition>, a: seq<Transition>, b: seq<Transition>, i: nat)
    requires DistinctIds(ts) && multiset(a) == multiset(ts) && multiset(b) == multiset(ts) && Linked(a) && Linked(b)
    requires i < |a| && i < |b| && a[..i] == b[..i]
    ensures a[i] == b[i]
  {
    DistinctOfPermutation(ts, a);
    DistinctOfPermutation(ts, b);
    FullChainUnforked(ts, a);
    FullChainUnforked(ts, b);
    hide Linked, Claims, DistinctIds;
    if i > 0 { assert a[..i][i - 1] == b[..i][i - 1]; }
    assert Predecessor(a, i) == Predecessor(b, i);
    assert [a[i]] == Claims(ts, Predecessor(a, i)) && Claims(ts, Predecessor(b, i)) == [b[i]];
  }

  /** Declaring one more repository, which nobody has verified, changes no requirement but that of `resolved`. */
  lemma UnspelledIsUnsafe(c: Case, ts: seq<Transition>, chain: seq<Transition>, x: string)
    requires DistinctIds(ts) && multiset(chain) == multiset(ts) && History(c, chain) && chain != []
    requires forall i :: 0 <= i < |chain| ==> chain[i].to != Text(Resolved)
    requires x !in VerifiedRepositories(c.observations)
    ensures !SafeIfDeclared(c, ts, c.declared + [Unlisted(x)])
  {
    hide SafelyResolved, ConflictFree, Permits, FactsAt, Missing;
    var d := Declaring(c, c.declared + [Unlisted(x)]);
    forall i | 0 <= i < |chain| ensures Met(d, chain[i]) { OthersStillMet(c, d, chain[i]); }
    assert Lawful(d, chain) by {
      SamePolicy(c, d);
      assert forall i :: 0 <= i <= |chain| ==> StateAt(d, chain, i) == StateAt(c, chain, i);
    }
    assert History(d, chain);
    ConflictFreeIffHostChains(d, ts);
    ConflictFreeIffLinear(d, ts);
    NotClosed(d, ts, x);
  }

  lemma OthersStillMet(c: Case, d: Case, e: Transition)
    requires d == c.(declared := d.declared) && Met(c, e) && e.to != Text(Resolved)
    ensures Met(d, e)
  {
    hide ResolutionShortfall;
  }

  lemma NotClosed(d: Case, ts: seq<Transition>, x: string)
    requires Unlisted(x) in d.declared && x !in VerifiedRepositories(d.observations)
    ensures !SafelyResolved(d, ts)
  {
    if SafelyResolved(d, ts) { DeclaredIsVerified(d, ts, x); }
  }

  lemma DeclaredIsVerified(d: Case, ts: seq<Transition>, x: string)
    requires SafelyResolved(d, ts) && Unlisted(x) in d.declared
    ensures x in VerifiedRepositories(d.observations)
  {
    hide Project;
    var chain := Project(d, ts).chain;
    var e := chain[|chain| - 1];
    assert Involved(d, SightOf(e), x);
    var i: nat :| LastWord(d.observations, SightOf(e), x, i);
    assert d.observations[i] in d.observations;
  }

  lemma {:induction false} FreshName(names: set<string>) returns (x: string)
    ensures x !in names && forall n :: n in names ==> |n| < |x|
  {
    if names == {} {
      x := "x";
    } else {
      var n :| n in names;
      var y := FreshName(names - {n});
      x := if |y| > |n| then y else seq(|n| + 1, i => 'x');
    }
  }
}
