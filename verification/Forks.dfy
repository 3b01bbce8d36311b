/** Histories across everything a store ever held: compaction may take the last revision of a record, and then
    another revision with the same number can be admitted. */
module Forks {
  import opened Records
  import opened Compaction
  import opened Semantic
  import opened Staging

  /** Everything ever added under the id is one chain of revisions, and the hot store holds its end. */
  ghost predicate OneChain(added: set<Record>, hot: seq<Record>, id: string, chain: seq<Record>) {
    && RevisionChain(chain)
    && (forall r :: r in chain <==> r in added && LogicalId(r) == id)
    && Ends(chain, Family(hot, id)) && (chain != [] ==> Family(hot, id) != [])
  }

  predicate Ends(chain: seq<Record>, f: seq<Record>) {
    |f| <= |chain| && chain[|chain| - |f|..] == f
  }

  ghost predicate HasChain(added: set<Record>, hot: seq<Record>, id: string) {
    exists chain :: OneChain(added, hot, id, chain)
  }

  ghost predicate Unforked(added: set<Record>, hot: seq<Record>) {
    forall id :: HasChain(added, hot, id)
  }

  /** No two records ever added share a logical id and a revision. */
  lemma UnforkedIsUnique(added: set<Record>, hot: seq<Record>, x: Record, y: Record)
    requires Unforked(added, hot) && x in added && y in added && LogicalId(x) == LogicalId(y) && Revision(x) == Revision(y)
    ensures x == y
  {
    hide Family;
    assert HasChain(added, hot, LogicalId(x));
    var chain :| OneChain(added, hot, LogicalId(x), chain);
    var i :| 0 <= i < |chain| && chain[i] == x;
    var j :| 0 <= j < |chain| && chain[j] == y;
    if i <= j { ChainRevisions(chain, i, j); } else { ChainRevisions(chain, j, i); }
  }

  /** Admissions keep it so. */
  lemma AdmissionKeepsUnforked(added: set<Record>, hot: seq<Record>, r: Record)
    requires Unforked(added, hot) && Histories(hot) && Admissible(r, hot)
    ensures Unforked(added + {r}, hot + [r])
  {
    hide HasChain, Histories, Admissible;
    forall id ensures HasChain(added + {r}, hot + [r], id) { AdmissionKeepsChain(added, hot, r, id); }
  }

  lemma AdmissionKeepsChain(added: set<Record>, hot: seq<Record>, r: Record, id: string)
    requires HasChain(added, hot, id) && Histories(hot) && Admissible(r, hot)
    ensures HasChain(added + {r}, hot + [r], id)
  {
    hide Family, Succeeds, AcyclicRelations, RevisionChain, History, Ends;
    var f := Family(hot, id);
    var chain :| OneChain(added, hot, id, chain);
    FamilyAppend(hot, r, id);
    if LogicalId(r) == id {
      assert History(f);
      ChainGrows(chain, f, r);
      assert forall x :: x in chain + [r] <==> x in chain || x == r;
      assert OneChain(added + {r}, hot + [r], id, chain + [r]);
    } else {
      assert OneChain(added + {r}, hot + [r], id, chain);
    }
  }

  lemma ChainGrows(chain: seq<Record>, f: seq<Record>, r: Record)
    requires RevisionChain(chain) && History(f) && Ends(chain, f) && (chain != [] ==> f != []) && Succeeds(f, r)
    ensures RevisionChain(chain + [r]) && Ends(chain + [r], f + [r])
  {
    if f != [] {
      LatestOfChain(f);
      LatestOfChain(chain);
      assert f[|f| - 1] == chain[|chain| - 1];
    }
    ChainExtends(chain, r);
  }

  /** The removal takes no record's last revision. */
  ghost predicate KeepsEnds(hot: seq<Record>, gone: set<string>) {
    forall id :: var f := Family(hot, id); f != [] ==> f[|f| - 1].digest !in gone
  }

  /** So does a compaction that takes no last revision. */
  lemma CompactionKeepsUnforked(added: set<Record>, hot: seq<Record>, gone: set<string>)
    requires Unforked(added, hot) && HistoriesIntact(hot, gone) && KeepsEnds(hot, gone)
    ensures Unforked(added, Without(hot, gone))
  {
    hide HasChain, HistoriesIntact, KeepsEnds, Without;
    forall id ensures HasChain(added, Without(hot, gone), id) { CompactionKeepsChain(added, hot, gone, id); }
  }

  lemma CompactionKeepsChain(added: set<Record>, hot: seq<Record>, gone: set<string>, id: string)
    requires HasChain(added, hot, id) && HistoriesIntact(hot, gone) && KeepsEnds(hot, gone)
    ensures HasChain(added, Without(hot, gone), id)
  {
    hide Family, Without, RevisionChain;
    var f := Family(hot, id);
    var chain :| OneChain(added, hot, id, chain);
    FamilyOfWithout(hot, gone, id);
    assert Intact(f, gone);
    var a, b := Stretch(f, gone);
    if f != [] {
      assert f[|f| - 1].digest !in gone;
      assert b == |f| && f[a..b] == f[a..];
      assert chain[|chain| - |f|..][a..] == chain[|chain| - |f| + a..];
    } else {
      assert f[a..b] == [];
    }
    assert OneChain(added, Without(hot, gone), id, chain);
  }

  /** And when a last revision does go, a second record with a revision already used is admitted. */
  lemma LostEndForks(hot: seq<Record>, gone: set<string>, id: string, r: Record)
    requires WellGrown(hot) && Stageable(hot, gone)
    requires var f := Family(hot, id); f != [] && f[|f| - 1].digest in gone
    requires LogicalId(r) == id && Plain(r) && r.relations == [] && r.digest !in Digests(hot)
    requires Continues(Family(Without(hot, gone), id), r)
    requires Family(Without(hot, gone), id) == [] ==> Revision(r) == Revision(Family(hot, id)[0])
    ensures Admissible(r, Without(hot, gone))
    ensures exists x :: x in hot && LogicalId(x) == id && Revision(x) == Revision(r) && x != r
  {
    var f, kept := Family(hot, id), Without(hot, gone);
    StagedIff(hot, gone);
    RunsStayWellGrown(kept);
    forall x | x in kept ensures x in hot { WithoutMembers(hot, gone, x); }
    AcyclicWithSink(kept, r);
    hide AcyclicRelations, Stageable, Family, Plain, Continues, Without;
    PlainGrows(kept, r);
    UsedRevision(hot, gone, id, r);
  }

  lemma UsedRevision(hot: seq<Record>, gone: set<string>, id: string, r: Record)
    requires Histories(hot) && HistoriesIntact(hot, gone) && r.digest !in Digests(hot)
    requires var f := Family(hot, id); f != [] && f[|f| - 1].digest in gone
    requires Continues(Family(Without(hot, gone), id), r)
    requires Family(Without(hot, gone), id) == [] ==> Revision(r) == Revision(Family(hot, id)[0])
    ensures exists x :: x in hot && LogicalId(x) == id && Revision(x) == Revision(r) && x != r
  {
    hide Family, Without, LatestOf;
    var f := Family(hot, id);
    FamilyOfWithout(hot, gone, id);
    assert Intact(f, gone) && History(f);
    var a, b := Stretch(f, gone);
    var g := f[a..b];
    var x := f[0];
    if g != [] {
      ChainOfStretch(f, a, b);
      LatestOfChain(g);
      assert g[|g| - 1] == f[b - 1];
      assert b < |f|;
      x := f[b];
      ChainRevisions(f, b - 1, b);
    }
    assert x in f;
    FamilyMembers(hot, id, x);
  }
}
