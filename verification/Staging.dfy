/** When compaction goes through: the survivors are admitted again one by one, and this says exactly which
    removals that admission puts up with. */
module Staging {
  import opened Order
  import opened Records
  import opened Compaction
  import opened Semantic
  import WorkProtocol
  import Producers

  // ---------------------------------------------------------------- gaps in a history

  lemma {:induction false} FamilyOfWithout(records: seq<Record>, gone: set<string>, id: string)
    ensures Family(Without(records, gone), id) == Without(Family(records, id), gone)
  {
    if records != [] {
      var front, last := records[..|records| - 1], records[|records| - 1];
      FamilyOfWithout(front, gone, id);
      var kept, family := Without(front, gone), Family(front, id);
      assert (kept + [last])[..|kept|] == kept;
      assert (family + [last])[..|family|] == family;
    }
  }

  /** A dropped revision between two kept ones. */
  ghost predicate HoleAt(f: seq<Record>, gone: set<string>, i: nat, j: nat, k: nat) {
    i < j < k < |f| && f[i].digest !in gone && f[j].digest in gone && f[k].digest !in gone
  }

  lemma {:induction false} WithoutSplits(f: seq<Record>, gone: set<string>, i: nat, k: nat)
    requires i <= k <= |f|
    ensures Without(f[..k], gone) == Without(f[..i], gone) + Without(f[i..k], gone)
    decreases k
  {
    if i == k {
      assert f[i..k] == [];
    } else {
      WithoutSplits(f, gone, i, k - 1);
      assert f[..k][..k - 1] == f[..k - 1];
      assert f[i..k][..k - i - 1] == f[i..k - 1];
    }
  }

  lemma {:induction false} WithoutShrinks(f: seq<Record>, gone: set<string>)
    ensures |Without(f, gone)| <= |f|
    ensures |Without(f, gone)| == |f| ==> forall i :: 0 <= i < |f| ==> f[i].digest !in gone
  {
    if f != [] {
      var front := f[..|f| - 1];
      WithoutShrinks(front, gone);
      assert forall i :: 0 <= i < |front| ==> front[i] == f[i];
    }
  }

  /** Where a kept record of `f` ends up. */
  lemma PlaceOf(f: seq<Record>, gone: set<string>, i: nat)
    requires i < |f| && f[i].digest !in gone
    ensures var n := |Without(f[..i], gone)|; n < |Without(f, gone)| && Without(f, gone)[n] == f[i]
  {
    KeptLast(f[..i + 1], gone);
    hide Without;
    WithoutSplits(f, gone, i, |f|);
    WithoutSplits(f, gone, i + 1, |f|);
    assert f[..|f|] == f && f[..i + 1][..i] == f[..i];
  }

  /** A hole breaks the chain of what remains. */
  lemma HoleBreaksChain(f: seq<Record>, gone: set<string>, i: nat, j: nat, k: nat)
    requires RevisionChain(f) && HoleAt(f, gone, i, j, k)
    ensures !RevisionChain(Without(f, gone))
  {
    var g := Without(f, gone);
    var a, b := |Without(f[..i], gone)|, |Without(f[..k], gone)|;
    PlaceOf(f, gone, i);
    PlaceOf(f, gone, k);
    WithoutSplits(f, gone, i, k);
    WithoutShrinks(f[i..k], gone);
    assert f[i..k][j - i] == f[j] && f[i..k][0] == f[i];
    assert b - a < k - i;
    ChainRevisions(f, i, k);
    if RevisionChain(g) {
      ChainRevisions(g, a, b);
      assert false;
    }
  }

  lemma HoleInFront(f: seq<Record>, gone: set<string>, i: nat, j: nat, k: nat)
    requires f != []
    ensures HoleAt(f[..|f| - 1], gone, i, j, k) ==> HoleAt(f, gone, i, j, k)
  {}

  ghost predicate NoHole(f: seq<Record>, gone: set<string>) {
    forall i: nat, j: nat, k: nat :: !HoleAt(f, gone, i, j, k)
  }

  /** Without a hole, exactly the revisions from `a` up to `b` are kept. */
  lemma {:induction false} Stretch(f: seq<Record>, gone: set<string>) returns (a: nat, b: nat)
    requires NoHole(f, gone)
    ensures a <= b <= |f| && Without(f, gone) == f[a..b]
    ensures forall i :: 0 <= i < |f| ==> (f[i].digest !in gone <==> a <= i < b)
  {
    if f == [] {
      a, b := 0, 0;
    } else {
      var n := |f| - 1;
      var front := f[..n];
      NoHoleInFront(f, gone);
      var c, d := Stretch(front, gone);
      assert forall i :: 0 <= i < n ==> front[i] == f[i];
      assert front[c..d] == f[c..d];
      hide NoHole, Without;
      if f[n].digest in gone {
        a, b := c, d;
        DroppedLast(f, gone);
      } else if c == d {
        a, b := n, n + 1;
        KeptLast(f, gone);
      } else {
        if d < n { NoHoleAt(f, gone, c, d, n); }
        a, b := c, n + 1;
        KeptLast(f, gone);
        assert f[c..n] + [f[n]] == f[c..n + 1];
      }
    }
  }

  lemma NoHoleAt(f: seq<Record>, gone: set<string>, i: nat, j: nat, k: nat)
    requires NoHole(f, gone)
    ensures !HoleAt(f, gone, i, j, k)
  {}

  lemma NoHoleInFront(f: seq<Record>, gone: set<string>)
    requires NoHole(f, gone) && f != []
    ensures NoHole(f[..|f| - 1], gone)
  {
    hide HoleAt;
    var front := f[..|f| - 1];
    forall i: nat, j: nat, k: nat ensures !HoleAt(front, gone, i, j, k) { HoleInFront(f, gone, i, j, k); }
  }

  lemma DroppedLast(f: seq<Record>, gone: set<string>)
    requires f != [] && f[|f| - 1].digest in gone
    ensures Without(f, gone) == Without(f[..|f| - 1], gone)
  {}

  lemma KeptLast(f: seq<Record>, gone: set<string>)
    requires f != [] && f[|f| - 1].digest !in gone
    ensures Without(f, gone) == Without(f[..|f| - 1], gone) + [f[|f| - 1]]
  {}

  /** The revision rule readmits what compaction keeps of a logical id exactly when compaction
      leaves no hole in its history. */
  lemma ReadmittedIffNoHole(records: seq<Record>, gone: set<string>, id: string)
    requires RevisionChain(Family(records, id))
    ensures RevisionChain(Family(Without(records, gone), id)) <==> NoHole(Family(records, id), gone)
  {
    var f := Family(records, id);
    FamilyOfWithout(records, gone, id);
    hide Without, Family, RevisionChain, HoleAt;
    if NoHole(f, gone) {
      var a, b := Stretch(f, gone);
      ChainOfStretch(f, a, b);
    } else {
      var i: nat, j: nat, k: nat :| HoleAt(f, gone, i, j, k);
      HoleBreaksChain(f, gone, i, j, k);
    }
  }

  lemma ChainOfStretch(f: seq<Record>, a: nat, b: nat)
    requires RevisionChain(f) && a <= b <= |f|
    ensures RevisionChain(f[a..b])
  {
    var g := f[a..b];
    assert forall i :: 0 <= i < |g| ==> g[i] == f[a + i];
    forall i | 0 < i < |g|
      ensures g[i].revision == Some(Revision(g[i - 1]) + 1) && g[i].previousDigest == Some(g[i - 1].digest)
    {
      assert g[i] == f[a + i] && g[i - 1] == f[a + i - 1];
    }
  }

  // ---------------------------------------------------------------- a work request without its beginning

  /** A dropped revision before a kept one that states the work protocol. */
  ghost predicate BeheadedAt(f: seq<Record>, gone: set<string>, i: nat, k: nat) {
    i < k < |f| && f[i].digest in gone && f[k].digest !in gone && f[k].work.Some?
  }

  ghost predicate NotBeheaded(f: seq<Record>, gone: set<string>) {
    forall i: nat, k: nat :: !BeheadedAt(f, gone, i, k)
  }

  /** Nothing is missing from the middle, and no work request has lost its beginning. */
  ghost predicate Intact(f: seq<Record>, gone: set<string>) {
    NoHole(f, gone) && NotBeheaded(f, gone)
  }

  ghost predicate HistoriesIntact(records: seq<Record>, gone: set<string>) {
    forall id :: Intact(Family(records, id), gone)
  }

  /** A stretch of a work history is one itself exactly when it starts at the beginning, or not at all. */
  lemma WorkChainOfStretch(f: seq<Record>, a: nat, b: nat)
    requires WorkChain(f) && a < b <= |f|
    ensures WorkChain(f[a..b]) <==> a == 0 || f[a].work.None?
  {
    var g := f[a..b];
    forall i | 0 < i < |g| ensures WorkProtocol.Follows(WorkBefore(g, i), g[i].work) {
      assert WorkBefore(g, i) == WorkBefore(f, a + i);
    }
    assert WorkBefore(g, 0) == None && g[0] == f[a];
    assert WorkProtocol.Follows(WorkBefore(f, a), f[a].work);
    if a > 0 && f[a].work.Some? { WorkProtocol.StepIsNotInitial(f[a - 1].work.value, f[a].work.value); }
  }

  /** What is kept of a history is a history exactly when there is no gap in it and no work request has lost
      its beginning. */
  lemma HistoryKeptIff(f: seq<Record>, gone: set<string>)
    requires History(f)
    ensures History(Without(f, gone)) <==> Intact(f, gone)
  {
    hide RevisionChain, WorkChain, Without, NotBeheaded, HoleAt;
    if NoHole(f, gone) {
      var a, b := Stretch(f, gone);
      ChainOfStretch(f, a, b);
      BeginningKept(f, gone, a, b);
    } else {
      var i: nat, j: nat, k: nat :| HoleAt(f, gone, i, j, k);
      HoleBreaksChain(f, gone, i, j, k);
    }
  }

  lemma BeginningKept(f: seq<Record>, gone: set<string>, a: nat, b: nat)
    requires WorkChain(f) && a <= b <= |f|
    requires forall i :: 0 <= i < |f| ==> (f[i].digest !in gone <==> a <= i < b)
    ensures WorkChain(f[a..b]) <==> NotBeheaded(f, gone)
  {
    if a < b { WorkChainOfStretch(f, a, b); } else { assert f[a..b] == []; }
    hide WorkChain;
    if a < b && a > 0 && f[a].work.Some? {
      assert BeheadedAt(f, gone, a - 1, a);
    } else {
      forall i: nat, k: nat ensures !BeheadedAt(f, gone, i, k) {
        if BeheadedAt(f, gone, i, k) { WorkFromTheStart(f, a, k); }
      }
    }
  }

  // ---------------------------------------------------------------- staging

  /** What removing these records must respect: no history loses a revision from its middle, no work request
      its beginning, the surviving producer references still agree with the first of each identity, and no
      cycle appears among the survivors. */
  ghost predicate Stageable(records: seq<Record>, gone: set<string>) {
    && HistoriesIntact(records, gone)
    && Producers.Consistent(AllProducers(Without(records, gone)))
    && AcyclicStages(Without(records, gone))
  }

  /** A fresh store admits what is left of a well-grown store exactly when the removal respects all that. */
  lemma StagedIff(records: seq<Record>, gone: set<string>)
    requires WellGrown(records)
    ensures Grown(Without(records, gone)) <==> Stageable(records, gone)
  {
    hide HistoriesIntact, NamesItself, Producers.Consistent, AcyclicStages, Without, AllProducers, Histories, Grown;
    var kept := Without(records, gone);
    GrownIff(kept);
    HistoriesKeptIff(records, gone);
    forall i | 0 <= i < |kept| ensures !NamesItself(kept[i]) {
      WithoutMembers(records, gone, kept[i]);
      var j :| 0 <= j < |records| && records[j] == kept[i];
    }
  }

  lemma HistoriesKeptIff(records: seq<Record>, gone: set<string>)
    requires Histories(records)
    ensures Histories(Without(records, gone)) <==> HistoriesIntact(records, gone)
  {
    hide Intact, History, Family, Without;
    if HistoriesIntact(records, gone) {
      forall id ensures History(Family(Without(records, gone), id)) { HistoryOfKept(records, gone, id); }
    } else {
      var id :| !Intact(Family(records, id), gone);
      HistoryOfKept(records, gone, id);
    }
  }

  lemma HistoryOfKept(records: seq<Record>, gone: set<string>, id: string)
    requires Histories(records)
    ensures History(Family(Without(records, gone), id)) <==> Intact(Family(records, id), gone)
  {
    hide Intact, History, Family, Without;
    FamilyOfWithout(records, gone, id);
    HistoryKeptIff(Family(records, id), gone);
  }
}
