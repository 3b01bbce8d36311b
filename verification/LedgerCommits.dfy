/** Commits that no crash interrupts, on any ledger: they always return, and exactly when their rows, and every row
    before them, can be read afterwards. */
module LedgerCommits {
  import opened Order
  import opened Ledger
  import opened LedgerRecovery

  function Commit(e: Entry): seq<Action> {
    [Begin(e), Proceed, Proceed, Proceed, Proceed, Proceed, DropJournal, DropCopy, Proceed]
  }

  /** A commit that is not interrupted returns with nothing pending, whatever the ledger can take. If the row goes
      onto a line of its own within the bounds, it is there; otherwise nothing that was ever committed can be read
      again. */
  lemma CommitIsKeptIff(h: Hashes, s: State, e: Entry, more: seq<Action>)
    requires Sound(h) && Good(h, s) && Readable(h, s.disk) && s.phase.Idle? && s.disk.txn.None?
    requires CanBegin(h, s.disk.ledger, e)
    ensures var t := Run(h, s, Commit(e));
            var row := NextRow(h, s.disk.ledger, e);
            && t.phase.Idle? && t.disk.txn.None? && t.disk.tail.sequence == |s.disk.ledger| + 1
            && (Readable(h, t.disk) <==> Takes(h, s.disk, h.length(row)))
            && (Readable(h, t.disk) ==> t.disk.ledger == s.disk.ledger + [row] && t.disk.end.Whole?)
            && (!Readable(h, t.disk) ==> Rows(h, Run(h, s, Commit(e) + more).disk) == [])
  {
    TailIsRight(h, s.disk);
    NextIsMade(h, s.disk, e);
    FreeSlot(h, s.disk, e);
    CommitSteps(h, s, e);
    CommitUnrolled(h, s, e);
    var row := NextRow(h, s.disk.ledger, e);
    hide Good, Act, Run, Readable, Sound, NextRow, HasRoom, Bytes;
    WrittenReads(h, s.disk, row, h.length(row));
    SameRows(h, Written(h, s.disk, row, h.length(row)), Run(h, s, Commit(e)).disk);
    RunsCompose(h, s, Commit(e), more);
    ReadableIff(h, Run(h, s, Commit(e)), more);
  }

  lemma FreeSlot(h: Hashes, d: Disk, e: Entry)
    requires NoStrays(h, d.ledger, d.files, None) && !HasSlot(h, d.ledger, SlotOf(h, e))
    ensures SlotOf(h, e) !in d.files
  {}

  lemma CommitSteps(h: Hashes, s: State, e: Entry)
    requires s.phase.Idle? && s.disk.txn.None? && LoadTail(h, s.disk) == TailOf(h, s.disk)
    requires Readable(h, s.disk) && MakeRow(h, TailOf(h, s.disk), e) == NextRow(h, s.disk.ledger, e)
    requires CanBegin(h, s.disk.ledger, e) && SlotOf(h, e) !in s.disk.files
    ensures var a := Act(h, Act(h, Act(h, s, Begin(e)), Proceed), Proceed);
            var b := Act(h, Act(h, Act(h, a, Proceed), Proceed), Proceed);
            var t := Act(h, Act(h, Act(h, b, DropJournal), DropCopy), Proceed);
            var row := NextRow(h, s.disk.ledger, e);
            var w := Written(h, s.disk, row, h.length(row));
            && t.phase.Idle? && t.disk.txn.None? && t.disk.tail.sequence == |s.disk.ledger| + 1
            && t.disk.ledger == w.ledger && t.disk.end == w.end
  {
    hide HasSlot, LoadTail, Resume, Bytes, Readable;
  }

  lemma CommitUnrolled(h: Hashes, s: State, e: Entry)
    ensures var a := Act(h, Act(h, Act(h, s, Begin(e)), Proceed), Proceed);
            var b := Act(h, Act(h, Act(h, a, Proceed), Proceed), Proceed);
            Run(h, s, Commit(e)) == Act(h, Act(h, Act(h, b, DropJournal), DropCopy), Proceed)
  {
    assert Run(h, s, []) == s;
    hide Act, Run;
    var l1: seq<Action> := [] + [Begin(e)];
    var l2 := l1 + [Proceed];
    var l3 := l2 + [Proceed];
    var l4 := l3 + [Proceed];
    var l5 := l4 + [Proceed];
    var l6 := l5 + [Proceed];
    var l7 := l6 + [DropJournal];
    var l8 := l7 + [DropCopy];
    RunSnoc(h, s, [], Begin(e));
    RunSnoc(h, s, l1, Proceed);
    RunSnoc(h, s, l2, Proceed);
    RunSnoc(h, s, l3, Proceed);
    RunSnoc(h, s, l4, Proceed);
    RunSnoc(h, s, l5, Proceed);
    RunSnoc(h, s, l6, DropJournal);
    RunSnoc(h, s, l7, DropCopy);
    RunSnoc(h, s, l8, Proceed);
    assert Commit(e) == l8 + [Proceed];
  }

  function Commits(entries: seq<Entry>): seq<Action> {
    if entries == [] then [] else Commits(entries[..|entries| - 1]) + Commit(entries[|entries| - 1])
  }

  /** The ledger with the rows of these documents, one after the other. */
  function LedgerOf(h: Hashes, start: seq<Row>, entries: seq<Entry>): seq<Row> {
    if entries == [] then start
    else
      var front := LedgerOf(h, start, entries[..|entries| - 1]);
      front + [NextRow(h, front, entries[|entries| - 1])]
  }

  /** Each document can be begun when its turn comes. */
  ghost predicate AllBegin(h: Hashes, start: seq<Row>, entries: seq<Entry>) {
    forall i :: 0 <= i < |entries| ==> CanBegin(h, LedgerOf(h, start, entries[..i]), entries[i])
  }

  /** An idle store whose ledger is this one, if this one can be read, and is lost otherwise. */
  ghost predicate Keeps(h: Hashes, s: State, ledger: seq<Row>) {
    && Good(h, s) && s.phase.Idle? && s.disk.txn.None?
    && (Readable(h, s.disk) <==> Readable(h, EMPTY.disk.(ledger := ledger)))
    && (Readable(h, s.disk) ==> s.disk.ledger == ledger && s.disk.end.Whole?)
  }

  /** A store in which nothing ever crashes takes every document, and keeps all of them exactly as long as all
      their rows fit the bounds. With the first row that does not, it loses them all. */
  lemma CommitsAreKeptIff(h: Hashes, from: State, entries: seq<Entry>)
    requires Sound(h) && Initial(h, from) && AllBegin(h, from.disk.ledger, entries)
    ensures var s, ledger := Run(h, from, Commits(entries)), LedgerOf(h, from.disk.ledger, entries);
            && s.phase.Idle? && s.disk.txn.None? && |ledger| == |from.disk.ledger| + |entries|
            && (Readable(h, s.disk) <==> Readable(h, EMPTY.disk.(ledger := ledger)))
            && Rows(h, s.disk) == (if Readable(h, EMPTY.disk.(ledger := ledger)) then ledger else [])
  {
    InitialIsGood(h, from);
    SameRows(h, from.disk, EMPTY.disk.(ledger := from.disk.ledger));
    hide Run, Readable, AllBegin, Good;
    CommitsKeep(h, from, entries);
  }

  lemma {:induction false} CommitsKeep(h: Hashes, from: State, entries: seq<Entry>)
    requires Sound(h) && Keeps(h, from, from.disk.ledger) && AllBegin(h, from.disk.ledger, entries)
    ensures Keeps(h, Run(h, from, Commits(entries)), LedgerOf(h, from.disk.ledger, entries))
    ensures |LedgerOf(h, from.disk.ledger, entries)| == |from.disk.ledger| + |entries|
  {
    hide Keeps, AllBegin, Commit, NextRow, Act;
    if entries != [] {
      var n := |entries| - 1;
      FrontBegins(h, from.disk.ledger, entries);
      hide CanBegin, Sound, Run;
      CommitsKeep(h, from, entries[..n]);
      OneMoreCommit(h, Run(h, from, Commits(entries[..n])), LedgerOf(h, from.disk.ledger, entries[..n]), entries[n]);
      RunsCompose(h, from, Commits(entries[..n]), Commit(entries[n]));
    }
  }

  lemma OneMoreCommit(h: Hashes, s: State, ledger: seq<Row>, e: Entry)
    requires Sound(h) && Keeps(h, s, ledger) && CanBegin(h, ledger, e)
    ensures Keeps(h, Run(h, s, Commit(e)), ledger + [NextRow(h, ledger, e)])
  {
    var row, d := NextRow(h, ledger, e), EMPTY.disk.(ledger := ledger);
    AppendReads(h, d, row);
    RunsKeep(h, s, Commit(e));
    if Readable(h, s.disk) {
      assert Size(h, s.disk) == Size(h, d);
      CommitIsKeptIff(h, s, e, []);
    } else {
      HaltedForGood(h, s, Commit(e));
    }
    hide Good, Readable, Run, Sound, NextRow, CanBegin, Commit, Bytes;
  }

  lemma AppendReads(h: Hashes, d: Disk, row: Row)
    requires Sound(h) && d.end.Whole?
    ensures Readable(h, d.(ledger := d.ledger + [row])) <==> Readable(h, d) && Takes(h, d, h.length(row))
  {
    WrittenReads(h, d, row, h.length(row));
    hide Readable, HasRoom;
  }

  lemma FrontBegins(h: Hashes, start: seq<Row>, entries: seq<Entry>)
    requires AllBegin(h, start, entries) && entries != []
    ensures var n := |entries| - 1;
            AllBegin(h, start, entries[..n]) && CanBegin(h, LedgerOf(h, start, entries[..n]), entries[n])
  {
    var n := |entries| - 1;
    hide LedgerOf, CanBegin;
    assert CanBegin(h, LedgerOf(h, start, entries[..n]), entries[n]);
    forall i | 0 <= i < n ensures CanBegin(h, LedgerOf(h, start, entries[..n][..i]), entries[..n][i]) {
      assert entries[..n][..i] == entries[..i];
    }
  }

  /** A store that is idle and cannot be read, with nothing to recover, does nothing more. */
  lemma {:induction false} HaltedForGood(h: Hashes, s: State, actions: seq<Action>)
    requires s.phase.Idle? && !Readable(h, s.disk)
    ensures Run(h, s, actions) == s
  {
    if actions != [] { HaltedForGood(h, s, actions[..|actions| - 1]); }
  }

  /** Such a ledger is reached by one crash that keeps all of a line but its newline: recovery takes the row as
      committed and the store verifies. */
  lemma OpenIsReachable(h: Hashes, e: Entry) returns (actions: seq<Action>)
    requires Sound(h) && CanBegin(h, [], e) && h.length(NextRow(h, [], e)) <= MAX_LINE_BYTES
    ensures var s := Run(h, EMPTY, actions);
            && Good(h, s) && s.phase.Idle? && Verified(h, s.disk) && s.disk.end.Open?
            && |Rows(h, s.disk)| == 1 && Rows(h, s.disk)[0].body.entry == e
  {
    var row := MakeRow(h, EMPTY.disk.tail, e);
    var all := h.length(row) - 1;
    TornSteps(h, e);
    assert Run(h, EMPTY, []) == EMPTY;
    EmptyIsGood(h);
    hide Act, Run, Good, Verified, Recoverable;
    actions := [] + [Begin(e)];
    RunSnoc(h, EMPTY, [], Begin(e));
    RunSnoc(h, EMPTY, actions, Proceed);
    actions := actions + [Proceed];
    RunSnoc(h, EMPTY, actions, Proceed);
    actions := actions + [Proceed];
    RunSnoc(h, EMPTY, actions, Proceed);
    actions := actions + [Proceed];
    RunSnoc(h, EMPTY, actions, Tear(all));
    actions := actions + [Tear(all)];
    RunsKeep(h, EMPTY, actions);
    RecoveryFinishes(h, Run(h, EMPTY, actions));
    RunsCompose(h, EMPTY, actions, RECOVERY);
    actions := actions + RECOVERY;
    RunsKeep(h, EMPTY, actions);
  }

  lemma TornSteps(h: Hashes, e: Entry)
    requires Sound(h) && CanBegin(h, [], e) && h.length(NextRow(h, [], e)) <= MAX_LINE_BYTES
    ensures var row := MakeRow(h, EMPTY.disk.tail, e);
            var a := Act(h, Act(h, Act(h, Act(h, EMPTY, Begin(e)), Proceed), Proceed), Proceed);
            var s := Act(h, a, Tear(h.length(row) - 1));
            && s.phase.Idle? && s.disk.end.Open? && s.disk.ledger == [row] && Recoverable(h, s.disk, false)
            && Journal(s.disk) == Some(row) && row.body.entry == e
  {
    assert LoadTail(h, EMPTY.disk) == EMPTY.disk.tail;
  }
}
