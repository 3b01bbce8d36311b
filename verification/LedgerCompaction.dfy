/** What a compaction does to a ledger: it puts a newly built one in its place, and leaves a pending transaction
    where it is. */
module LedgerCompaction {
  import opened Order
  import opened Ledger
  import opened LedgerRecovery
  import opened LedgerCommits
  import Sync

  /** What the staging store holds: a snapshot, then the surviving documents, committed one by one; and it
      verifies. */
  ghost predicate Generation(h: Hashes, g: Disk, snapshot: Entry, entries: seq<Entry>) {
    && snapshot.kind.SnapshotEntry? && AllBegin(h, Opened(h, snapshot).disk.ledger, entries)
    && g == Run(h, Opened(h, snapshot), Commits(entries)).disk && Verified(h, g)
  }

  /** `install_generation`: the ledger, the remembered tail and the content files are replaced, the transactions
      are not. */
  function Installed(s: State, g: Disk): State {
    State(g.(txn := s.disk.txn), Idle)
  }

  lemma {:induction false} LedgerOfStarts(h: Hashes, start: seq<Row>, entries: seq<Entry>)
    ensures start <= LedgerOf(h, start, entries)
  {
    hide NextRow;
    if entries != [] { LedgerOfStarts(h, start, entries[..|entries| - 1]); }
  }

  lemma GenerationIsGood(h: Hashes, g: Disk, snapshot: Entry, entries: seq<Entry>)
    requires Sound(h) && Generation(h, g, snapshot, entries)
    ensures Good(h, State(g, Idle)) && Readable(h, g) && Linked(h, g.ledger) && g.txn.None?
    ensures g.ledger != [] && g.ledger[0].body.entry == snapshot
  {
    var from := Opened(h, snapshot);
    InitialIsGood(h, from);
    SameRows(h, from.disk, EMPTY.disk.(ledger := from.disk.ledger));
    LedgerOfStarts(h, from.disk.ledger, entries);
    hide Good, Readable, Run, AllBegin, Linked, LedgerOf, AllFiled, HasSlot, Commits;
    CommitsKeep(h, from, entries);
    assert g.ledger == LedgerOf(h, from.disk.ledger, entries);
    assert g.ledger[0] == from.disk.ledger[0];
  }

  /** A linked ledger that ends in this row. */
  ghost predicate EndsIn(h: Hashes, ledger: seq<Row>, row: Row) {
    && Linked(h, ledger) && ledger != [] && ledger[|ledger| - 1] == row
    && row.digest == h.row(row.body) && row.body.sequence == |ledger|
    && row.body.previous == LastDigest(ledger[..|ledger| - 1])
  }

  lemma LastIsLinked(h: Hashes, ledger: seq<Row>)
    requires Linked(h, ledger) && ledger != []
    ensures EndsIn(h, ledger, ledger[|ledger| - 1])
  {
    assert LinkedAt(h, ledger, |ledger| - 1);
    assert ledger[..|ledger| - 1][..|ledger| - 1] == ledger[..|ledger| - 1];
  }

  lemma JournalEnds(h: Hashes, ledger: seq<Row>, row: Row) returns (all: seq<Row>)
    requires Linked(h, ledger) && ledger != [] && (Upcoming(h, ledger, row) || Latest(ledger, row))
    ensures EndsIn(h, all, row) && ledger <= all
  {
    all := ledger;
    if !Latest(ledger, row) {
      LinkedExtends(h, ledger, row);
      all := ledger + [row];
    }
    LastIsLinked(h, all);
  }

  /** A row that ends a ledger with another beginning is not in this ledger. */
  lemma BelongsElsewhere(h: Hashes, all: seq<Row>, row: Row, ledger: seq<Row>)
    requires Sound(h) && EndsIn(h, all, row) && Linked(h, ledger) && ledger != [] && all[0] != ledger[0]
    ensures Matching(ledger, row.digest) == None
  {
    SameDigestSameRow(h, ledger, row);
    LinkedIsNumbered(h, ledger);
    MatchingFinds(ledger, row.digest);
    hide Linked, Sound, Matching, LastDigest;
    if Matching(ledger, row.digest).Some? {
      var i :| 0 <= i < |ledger| && ledger[i].digest == row.digest;
      FirstRowFixed(h, all, ledger, |all|);
    }
  }

  /** Nor does it come next there. */
  lemma FollowsElsewhere(h: Hashes, all: seq<Row>, row: Row, ledger: seq<Row>)
    requires Sound(h) && EndsIn(h, all, row) && Linked(h, ledger) && ledger != [] && all[0] != ledger[0]
    ensures LastDigest(ledger) != row.body.previous || row.body.sequence != |ledger| + 1
  {
    hide Linked, Sound;
    var n := |all| - 1;
    if LastDigest(ledger) == row.body.previous && row.body.sequence == |ledger| + 1 {
      assert all[..n][n - 1] == all[n - 1];
      FirstRowFixed(h, all, ledger, n);
    }
  }

  lemma FirstRowFixed(h: Hashes, a: seq<Row>, b: seq<Row>, n: nat)
    requires Sound(h) && Linked(h, a) && Linked(h, b) && 0 < n <= |a| && n <= |b| && a[n - 1].digest == b[n - 1].digest
    ensures a[0] == b[0]
  {
    Sync.DigestFixesPrefix(h, a, b, n);
    assert a[..n][0] == b[..n][0];
  }

  lemma NotResumed(h: Hashes, s: State, g: Disk)
    requires Sound(h) && Good(h, s) && Parsed(s.disk) && s.disk.ledger != [] && Journal(s.disk).Some?
    requires Linked(h, g.ledger) && g.ledger != [] && g.ledger[0] != s.disk.ledger[0]
    ensures Resume(h, Installed(s, g).disk, Journal(s.disk).value) == None
  {
    hide Linked, Upcoming, Latest, OncePerDocument, AllFiled, NoStrays, OldTail, EndsIn;
    var row := Journal(s.disk).value;
    var all := JournalEnds(h, s.disk.ledger, row);
    assert all[0] == s.disk.ledger[0];
    BelongsElsewhere(h, all, row, g.ledger);
    FollowsElsewhere(h, all, row, g.ledger);
  }

  /** A transaction that is pending while a compaction is installed can never be recovered afterwards, although it
      could before: the store can still be read, but it never changes again. Without one, the installed store
      verifies. */
  lemma InstalledVerifiesIff(h: Hashes, s: State, g: Disk, snapshot: Entry, entries: seq<Entry>)
    requires Sound(h) && Good(h, s) && s.phase.Idle? && Readable(h, s.disk) && s.disk.ledger != []
    requires Generation(h, g, snapshot, entries) && s.disk.ledger[0].body.entry != snapshot
    ensures var t := Installed(s, g);
            && Readable(h, t.disk)
            && ((exists actions :: Verified(h, Run(h, t, actions).disk)) <==> s.disk.txn.None?)
            && (s.disk.txn.Some? ==> forall actions :: Run(h, t, actions) == t)
            && (s.disk.txn.None? ==> Good(h, t) && Verified(h, t.disk))
  {
    var t := Installed(s, g);
    GenerationIsGood(h, g, snapshot, entries);
    SameRows(h, g, t.disk);
    if s.disk.txn.Some? {
      if Journal(s.disk).Some? { NotResumed(h, s, g); }
      forall actions ensures Run(h, t, actions) == t { StrandedForGood(h, t, actions); }
      hide Good, Readable, Linked, Run, AllFiled, HasSlot, Generation, Upcoming, Latest;
      assert !Verified(h, t.disk);
    } else {
      assert Verified(h, g) && t == State(g, Idle);
      hide Good, Readable, Verified, Generation;
      assert Run(h, t, []) == t;
      assert Verified(h, Run(h, t, []).disk);
    }
  }

  lemma {:induction false} StrandedForGood(h: Hashes, s: State, actions: seq<Action>)
    requires s.phase.Idle? && s.disk.txn.Some? && (Journal(s.disk).Some? ==> Resume(h, s.disk, Journal(s.disk).value) == None)
    ensures Run(h, s, actions) == s
  {
    if actions != [] { StrandedForGood(h, s, actions[..|actions| - 1]); }
  }
}
