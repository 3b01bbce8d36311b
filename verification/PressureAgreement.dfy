/** Where the host replay and the kernel's fold agree, and the documents on which they do not: they read an odd
    predecessor, a missing status and a status in other letters differently. */
module PressureAgreement {
  import opened Order
  import opened Rearrange
  import opened Pressure
  import opened PressureReplay
  import opened PressureNative

  ghost predicate AllReadAlike(ts: seq<Transition>) {
    forall i :: 0 <= i < |ts| ==> ReadAlike(ts[i])
  }

  /** The events are, in some order, one history as the host reads them. */
  ghost predicate HostChains(c: Case, ts: seq<Transition>) {
    exists chain :: multiset(chain) == multiset(ts) && History(c, chain)
  }

  lemma ConflictFreeIffHostChains(c: Case, ts: seq<Transition>)
    requires DistinctIds(ts)
    ensures ConflictFree(c, ts) <==> HostChains(c, ts)
    ensures forall chain :: multiset(chain) == multiset(ts) && History(c, chain) ==> StatusOf(c, ts) == StateAfter(c, chain)
  {
    hide History, Project, Dangling;
    ConflictFreeIffLinear(c, ts);
    forall chain | multiset(chain) == multiset(ts) && History(c, chain) ensures StatusOf(c, ts) == StateAfter(c, chain) {
      HistoryState(c, ts, chain);
    }
  }

  lemma HistoryState(c: Case, ts: seq<Transition>, chain: seq<Transition>)
    requires DistinctIds(ts) && ConflictFree(c, ts) && Project(c, ts).chain == chain
    ensures StatusOf(c, ts) == StateAfter(c, chain)
  {
    hide Missing, Claims, Permits, Lawful, Linked, Unforked, Walk;
    WalkFinishes(c, ts, []);
  }

  // ---------------------------------------------------------------- from the host's chain to the kernel's

  lemma PermutationMembers(ts: seq<Transition>, us: seq<Transition>)
    requires multiset(ts) == multiset(us)
    ensures |ts| == |us| && forall e :: e in us <==> e in ts
  {
    assert |multiset(us)| == |us| && |multiset(ts)| == |ts|;
    forall e ensures e in us <==> e in ts { assert e in multiset(us) <==> e in us; assert e in multiset(ts) <==> e in ts; }
  }

  /** A lawful chain for the host is one for the kernel, unless its first event carries a predecessor that is no
      text. */
  lemma HostChainIsNative(c: Case, chain: seq<Transition>)
    requires Folds(c.fold) && WellIdentified(chain) && AllReadAlike(chain) && Linked(chain) && Lawful(c, chain)
    requires chain != [] ==> chain[0].row.previous == ""
    requires c.fold(c.initial).Some?
    ensures Linked(Normal(c, chain)) && Lawful(Named(c), Normal(c, chain))
    ensures Meaning(Named(c), StateAfter(Named(c), Normal(c, chain))) == Meaning(c, StateAfter(c, chain))
  {
    hide Text, Allowed, Normal, Named, Folds, Permits, Meaning, AllReadAlike, WellIdentified;
    var n := Normal(c, chain);
    NormalCount(c, chain);
    HostStepsAreNative(c, chain);
    EndMeans(c, chain);
  }

  lemma NormalCount(c: Case, chain: seq<Transition>)
    ensures |Normal(c, chain)| == |chain|
  {}

  lemma HostStepsAreNative(c: Case, chain: seq<Transition>)
    requires Folds(c.fold) && WellIdentified(chain) && AllReadAlike(chain) && Linked(chain) && Lawful(c, chain)
    requires (chain != [] ==> chain[0].row.previous == "") && c.fold(c.initial).Some?
    ensures Linked(Normal(c, chain)) && Lawful(Named(c), Normal(c, chain))
  {
    var n := Normal(c, chain);
    NormalCount(c, chain);
    forall i | 0 <= i < |chain|
      ensures n[i].previous == Predecessor(n, i)
      ensures n[i].from == Some(StateAt(Named(c), n, i)) && Permits(Named(c), StateAt(Named(c), n, i), n[i].to)
    {
      HostStepIsNative(c, chain, i);
    }
    hide Normal, Named, Folds, Permits, AllReadAlike, WellIdentified;
  }

  lemma EndMeans(c: Case, chain: seq<Transition>)
    requires Folds(c.fold) && WellIdentified(chain) && AllReadAlike(chain) && Linked(chain) && Lawful(c, chain)
    requires (chain != [] ==> chain[0].row.previous == "") && c.fold(c.initial).Some?
    ensures Meaning(Named(c), StateAfter(Named(c), Normal(c, chain))) == Meaning(c, StateAfter(c, chain))
  {
    hide Text, Permits, Linked, Lawful;
    if chain != [] { HostStepIsNative(c, chain, |chain| - 1); }
  }

  lemma HostStepIsNative(c: Case, chain: seq<Transition>, i: nat)
    requires Folds(c.fold) && WellIdentified(chain) && AllReadAlike(chain) && Linked(chain) && Lawful(c, chain)
    requires i < |chain| && chain[0].row.previous == "" && c.fold(c.initial).Some?
    ensures var n := Normal(c, chain);
            && n[i].previous == Predecessor(n, i)
            && n[i].from == Some(StateAt(Named(c), n, i)) && Permits(Named(c), StateAt(Named(c), n, i), n[i].to)
            && Meaning(Named(c), n[i].to) == Meaning(c, chain[i].to)
  {
    hide Text, Allowed;
    var e := chain[i];
    assert e.previous == Predecessor(chain, i) && e.from == Some(StateAt(c, chain, i)) && Permits(c, StateAt(c, chain, i), e.to);
    assert ReadAlike(e) && e.row.to == e.to;
    if i > 0 {
      var d := chain[i - 1];
      assert Permits(c, StateAt(c, chain, i - 1), d.to) && ReadAlike(d) && d.row.to == d.to;
    }
  }

  /** Every predecessor is absent or a nonempty text, for both readers. */
  ghost predicate PlainLinks(ts: seq<Transition>) {
    forall i :: 0 <= i < |ts| ==> PlainLink(ts[i])
  }

  /** Every event's `from` is spelled as the `to` of the event it follows, or as the initial status. */
  ghost predicate SpelledAlike(c: Case, ts: seq<Transition>) {
    && (forall e :: e in ts && e.previous == None ==> e.from == Some(c.initial))
    && (forall d, e :: d in ts && e in ts && e.previous == Some(d.id) ==> e.from == Some(d.to))
  }

  /** The kernel's chain is one for the host when the links are plain, the statuses spelled alike and the
      requirements met. */
  lemma NativeChainIsHost(c: Case, ts: seq<Transition>)
    requires Folds(c.fold) && WellIdentified(ts) && AllReadAlike(ts) && Projectable(c, ts) && ChainsUp(c, ts)
    requires PlainLinks(ts) && SpelledAlike(c, ts) && AllMet(c, ts)
    ensures HostChains(c, ts)
  {
    hide Lawful, Linked, Folds, Projectable, SpelledAlike, Met, PlainLinks, AllReadAlike;
    var k: seq<Transition> :| multiset(k) == multiset(Normal(c, ts)) && Linked(k) && Lawful(Named(c), k);
    assert |multiset(k)| == |k| && |multiset(Normal(c, ts))| == |ts|;
    var o := Align(AsNative(c), k, ts);
    PermutationMembers(ts, o);
    DistinctOfPermutation(ts, o);
    AllMetPermutes(c, ts, o);
    NativeStepsAreHost(c, ts, o);
    assert multiset(o) == multiset(ts) && History(c, o);
  }

  lemma NativeStepsAreHost(c: Case, ts: seq<Transition>, o: seq<Transition>)
    requires Folds(c.fold) && WellIdentified(ts) && AllReadAlike(ts) && Projectable(c, ts)
    requires PlainLinks(ts) && SpelledAlike(c, ts) && Within(o, ts)
    requires Linked(Normal(c, o)) && Lawful(Named(c), Normal(c, o))
    ensures Linked(o) && Lawful(c, o)
  {
    forall i | 0 <= i < |o|
      ensures o[i].previous == Predecessor(o, i)
      ensures o[i].from == Some(StateAt(c, o, i)) && Permits(c, StateAt(c, o, i), o[i].to)
    {
      NativeStepIsHost(c, ts, o, i);
    }
  }

  lemma NativeStepIsHost(c: Case, ts: seq<Transition>, o: seq<Transition>, i: nat)
    requires Folds(c.fold) && WellIdentified(ts) && AllReadAlike(ts) && Projectable(c, ts)
    requires PlainLinks(ts) && SpelledAlike(c, ts) && Within(o, ts)
    requires Linked(Normal(c, o)) && Lawful(Named(c), Normal(c, o)) && i < |o|
    ensures o[i].previous == Predecessor(o, i)
    ensures o[i].from == Some(StateAt(c, o, i)) && Permits(c, StateAt(c, o, i), o[i].to)
  {
    hide Text;
    var k, e := Normal(c, o), o[i];
    assert e in ts && k[i].previous == Predecessor(k, i);
    assert ReadAlike(e) && PlainLink(e) && c.fold(e.row.from).Some? && c.fold(e.row.to).Some?;
    assert k[i].from == Some(StateAt(Named(c), k, i)) && Permits(Named(c), StateAt(Named(c), k, i), k[i].to);
    assert Allowed(Meaning(c, e.row.from), Meaning(c, e.row.to));
    NeverToDiscovered(c, e);
    if i > 0 { assert o[i - 1] in ts; }
  }

  /** A missing target reads as `discovered` in the row, and no step leads there. */
  lemma NeverToDiscovered(c: Case, e: Transition)
    requires Folds(c.fold) && ReadAlike(e) && c.fold(e.row.to).Some? && Allowed(Meaning(c, e.row.from), Meaning(c, e.row.to))
    ensures e.row.to == e.to
  {}

  // ---------------------------------------------------------------- what the host demands beyond the kernel

  /** Given that the kernel's reading chains up, the host's does too exactly when the links are plain, the statuses
      are spelled alike and every requirement is met. */
  lemma HostChainsIff(c: Case, ts: seq<Transition>)
    requires Folds(c.fold) && WellIdentified(ts) && AllReadAlike(ts) && Projectable(c, ts) && ChainsUp(c, ts)
    ensures HostChains(c, ts) <==> PlainLinks(ts) && SpelledAlike(c, ts) && AllMet(c, ts)
  {
    hide PlainLinks, SpelledAlike, AllMet, ChainsUp, Projectable, Folds, HostChains, AllReadAlike;
    if HostChains(c, ts) {
      HostHistoryShape(c, ts);
    }
    if PlainLinks(ts) && SpelledAlike(c, ts) && AllMet(c, ts) { NativeChainIsHost(c, ts); }
  }

  lemma HostHistoryShape(c: Case, ts: seq<Transition>)
    requires WellIdentified(ts) && AllReadAlike(ts) && HostChains(c, ts) && ChainsUp(c, ts)
    ensures PlainLinks(ts) && SpelledAlike(c, ts) && AllMet(c, ts)
  {
    hide Lawful, Linked, Met, ChainsUp;
    var o: seq<Transition> :| multiset(o) == multiset(ts) && History(c, o);
    DistinctOfPermutation(ts, o);
    PermutationMembers(ts, o);
    AllMetPermutes(c, o, ts);
    SpelledByHistory(c, ts, o);
    LinksByHistory(c, ts, o);
    NullHeadExists(c, ts);
  }

  /** A nonempty log that chains up has an event whose row names no predecessor. */
  lemma NullHeadExists(c: Case, ts: seq<Transition>)
    requires ChainsUp(c, ts)
    ensures ts == [] || exists e: Transition :: e in ts && e.row.previous == ""
  {
    hide Lawful;
    var k: seq<Transition> :| multiset(k) == multiset(Normal(c, ts)) && Linked(k) && Lawful(Named(c), k);
    assert |multiset(k)| == |k| && |multiset(Normal(c, ts))| == |ts|;
    if ts != [] {
      assert k[0].previous == Predecessor(k, 0);
      assert k[0] in multiset(Normal(c, ts));
      var j :| 0 <= j < |ts| && Normal(c, ts)[j] == k[0];
      assert ts[j] in ts;
    }
  }

  lemma SpelledByHistory(c: Case, ts: seq<Transition>, o: seq<Transition>)
    requires DistinctIds(o) && Linked(o) && Lawful(c, o) && forall e :: e in ts ==> e in o
    ensures SpelledAlike(c, ts)
  {
    hide Permits;
    forall e | e in ts && e.previous == None ensures e.from == Some(c.initial) {
      var i :| 0 <= i < |o| && o[i] == e;
      assert o[i].previous == Predecessor(o, i) && o[i].from == Some(StateAt(c, o, i));
    }
    forall d, e | d in ts && e in ts && e.previous == Some(d.id) ensures e.from == Some(d.to) {
      var i :| 0 <= i < |o| && o[i] == e;
      var j :| 0 <= j < |o| && o[j] == d;
      assert o[i].previous == Predecessor(o, i) && o[i].from == Some(StateAt(c, o, i));
      assert Predecessor(o, i) == Predecessor(o, j + 1);
      SamePredecessor(o, i, j + 1);
    }
  }

  /** Only the first event of a history lacks a text predecessor; if some row lacks one too, it is the same. */
  lemma LinksByHistory(c: Case, ts: seq<Transition>, o: seq<Transition>)
    requires WellIdentified(ts) && AllReadAlike(ts) && DistinctIds(o) && Linked(o)
    requires forall e :: e in ts <==> e in o
    ensures (exists e: Transition :: e in ts && e.row.previous == "") ==> PlainLinks(ts)
    ensures ts == [] ==> PlainLinks(ts)
  {
    if x: Transition :| x in ts && x.row.previous == "" {
      var j :| 0 <= j < |o| && o[j] == x;
      assert o[j].previous == Predecessor(o, j);
      PredecessorsNotEmpty(ts, o);
      assert ReadAlike(x);
      assert j == 0;
      forall i | 0 <= i < |ts| ensures PlainLink(ts[i]) {
        assert ts[i] in ts;
        var n :| 0 <= n < |o| && o[n] == ts[i];
        assert o[n].previous == Predecessor(o, n) && ReadAlike(ts[i]);
      }
    }
  }

  lemma PredecessorsNotEmpty(ts: seq<Transition>, o: seq<Transition>)
    requires WellIdentified(ts) && forall e :: e in o ==> e in ts
    ensures forall i :: 0 <= i <= |o| ==> Predecessor(o, i) != Some("")
  {
    forall i | 0 < i <= |o| ensures Predecessor(o, i) != Some("") { assert o[i - 1] in ts; }
  }

  // ---------------------------------------------------------------- agreement

  /** The history ends in a status called by its own name. */
  ghost predicate EndsByName(c: Case, ts: seq<Transition>) {
    exists chain :: multiset(chain) == multiset(ts) && History(c, chain) && ByName(c, StateAfter(c, chain))
  }

  /** What the kernel makes of a history of the host's. */
  lemma HostHistoryMeans(c: Case, ts: seq<Transition>, chain: seq<Transition>)
    requires Folds(c.fold) && WellIdentified(ts) && AllReadAlike(ts) && c.fold(c.initial).Some?
    requires multiset(chain) == multiset(ts) && History(c, chain)
    ensures ChainsUp(c, ts) <==> ts == [] || chain[0].row.previous == ""
    ensures ChainsUp(c, ts) ==> NativeStatus(c, ts) == Meaning(c, StateAfter(c, chain))
  {
    hide Lawful, Linked, Folds, Met, Named, AsNative, NativeStatus;
    PermutationMembers(ts, chain);
    DistinctOfPermutation(ts, chain);
    assert AllReadAlike(chain) && WellIdentified(chain) by {
      forall i | 0 <= i < |chain| ensures ReadAlike(chain[i]) && chain[i].id != "" { assert chain[i] in ts; }
    }
    if ChainsUp(c, ts) { HeadReadsNull(c, ts, chain); }
    if ts == [] || chain[0].row.previous == "" {
      HostChainIsNative(c, chain);
      MapMultiset(AsNative(c), chain, ts);
      NativeIffLawfulChain(c, ts);
    }
  }

  lemma HeadReadsNull(c: Case, ts: seq<Transition>, chain: seq<Transition>)
    requires WellIdentified(ts) && AllReadAlike(ts) && ChainsUp(c, ts) && DistinctIds(chain) && Linked(chain)
    requires |chain| == |ts| && forall e :: e in ts <==> e in chain
    ensures ts == [] || chain[0].row.previous == ""
  {
    hide ChainsUp;
    NullHeadExists(c, ts);
    LinksByHistory(c, ts, chain);
    if ts != [] {
      assert chain[0] in ts && chain[0].previous == Predecessor(chain, 0);
      var i :| 0 <= i < |ts| && ts[i] == chain[0];
      assert PlainLink(ts[i]);
    }
  }

  /** The status shown from the kernel is the replayed one exactly when neither reading chains up, so that both are
      `conflicted`, or both do and the history ends in a status called by its own name. */
  lemma StatusesAgreeIff(c: Case, ts: seq<Transition>)
    requires Folds(c.fold) && WellIdentified(ts) && AllReadAlike(ts) && Projectable(c, ts)
    requires c.fold(c.initial) != Some(Conflicted)
    ensures StatusOf(c, ts) == Text(NativeStatus(c, ts)) <==>
            (!HostChains(c, ts) && !ChainsUp(c, ts)) || (ChainsUp(c, ts) && EndsByName(c, ts))
  {
    hide History, Linked, Lawful, ChainsUp, NativeProjection, ConflictFree, StatusOf, Project, AllReadAlike;
    ConflictFreeIffHostChains(c, ts);
    NativeIffLawfulChain(c, ts);
    if HostChains(c, ts) {
      var chain: seq<Transition> :| multiset(chain) == multiset(ts) && History(c, chain);
      HostHistoryMeans(c, ts, chain);
      HostEnd(c, ts, chain);
    } else {
      NoHostStatus(c, ts);
      if ChainsUp(c, ts) { NativeNotConflicted(c, ts); }
    }
  }

  lemma NoHostStatus(c: Case, ts: seq<Transition>)
    requires !ConflictFree(c, ts)
    ensures StatusOf(c, ts) == Text(Conflicted)
  {}

  lemma NativeNotConflicted(c: Case, ts: seq<Transition>)
    requires Folds(c.fold) && WellIdentified(ts) && ChainsUp(c, ts)
    requires c.fold(c.initial).Some? && c.fold(c.initial) != Some(Conflicted)
    ensures Text(NativeStatus(c, ts)) != Text(Conflicted)
  {
    hide Lawful, Linked, NativeStatus;
    NativeIffLawfulChain(c, ts);
    var k: seq<Transition> :| multiset(k) == multiset(Normal(c, ts)) && Linked(k) && Lawful(Named(c), k);
    NeverConflicted(Named(c), k);
    NamesDiffer(c, NativeStatus(c, ts), Conflicted);
  }

  lemma NamesDiffer(c: Case, s: Status, t: Status)
    requires Folds(c.fold) && s != t
    ensures Text(s) != Text(t)
  {
    hide Text;
  }

  /** The replayed status is a text the kernel knows, and not `conflicted`. */
  lemma HostEnd(c: Case, ts: seq<Transition>, chain: seq<Transition>)
    requires Folds(c.fold) && DistinctIds(ts) && multiset(chain) == multiset(ts) && History(c, chain)
    requires c.fold(c.initial).Some? && c.fold(c.initial) != Some(Conflicted)
    ensures StatusOf(c, ts) == StateAfter(c, chain) && StatusOf(c, ts) != Text(Conflicted)
    ensures c.fold(StatusOf(c, ts)) == Some(Meaning(c, StateAfter(c, chain)))
    ensures EndsByName(c, ts) <==> ByName(c, StateAfter(c, chain))
  {
    hide StatusOf, Text;
    ConflictFreeIffHostChains(c, ts);
    NeverConflicted(c, chain);
    EndIsKnown(c, chain);
    forall other | multiset(other) == multiset(ts) && History(c, other) ensures StateAfter(c, other) == StateAfter(c, chain) {}
  }

  lemma EndIsKnown(c: Case, chain: seq<Transition>)
    requires Lawful(c, chain) && c.fold(c.initial).Some?
    ensures c.fold(StateAfter(c, chain)).Some?
  {
    if chain != [] {
      var i := |chain| - 1;
      assert Permits(c, StateAt(c, chain, i), chain[i].to);
    }
  }

  /** When every predecessor is plain and every status called by its own name, the host demands nothing beyond the
      kernel but the requirements, and where it is satisfied the statuses are the same. */
  lemma HostAgreesWithKernel(c: Case, ts: seq<Transition>)
    requires Folds(c.fold) && WellIdentified(ts) && PlainLog(c, ts)
    ensures ConflictFree(c, ts) <==> !NativeProjection(c, ts).conflicted && AllMet(c, ts)
    ensures ConflictFree(c, ts) ==> StatusOf(c, ts) == Text(NativeStatus(c, ts))
  {
    hide StatusOf, ConflictFree, NativeProjection, Permits, Meaning, Text, Met;
    ConflictFreeIffHostChains(c, ts);
    NativeIffOwnChain(c, ts);
    if HostChains(c, ts) {
      var chain: seq<Transition> :| multiset(chain) == multiset(ts) && History(c, chain);
      AllMetPermutes(c, chain, ts);
      DistinctOfPermutation(ts, chain);
      StateByName(c, ts, chain);
      NamedMeaning(c, StateAfter(c, chain));
    }
    if !NativeProjection(c, ts).conflicted && AllMet(c, ts) {
      var chain: seq<Transition> :| multiset(chain) == multiset(ts) && Linked(chain) && Lawful(c, chain);
      DistinctOfPermutation(ts, chain);
      AllMetPermutes(c, ts, chain);
      assert History(c, chain);
    }
  }

  lemma NamedMeaning(c: Case, text: string)
    requires ByName(c, text)
    ensures text == Text(Meaning(c, text))
  {}
}
