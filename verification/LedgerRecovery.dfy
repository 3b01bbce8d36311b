/** Crash safety of the ledger: as long as the ledger can be read, whatever commits, crashes and recoveries follow
    each other, it stays linked, grows only at its end and holds each document at most once; and exactly which
    writes make it unreadable and which transactions can be recovered. */
module LedgerRecovery {
  import opened Order
  import opened Ledger

  // ---------------------------------------------------------------- the remembered tail

  lemma {:induction false} BytesGrow(h: Hashes, ledger: seq<Row>, k: nat)
    requires Sound(h) && k < |ledger|
    ensures Bytes(h, ledger[..k]) < Bytes(h, ledger) - 1
    decreases |ledger|
  {
    var front := ledger[..|ledger| - 1];
    if k < |front| {
      BytesGrow(h, front, k);
      assert front[..k] == ledger[..k];
    } else {
      assert ledger[..k] == front;
    }
  }

  /** However stale the remembered tail is, loading it gives the true one. */
  lemma TailIsRight(h: Hashes, d: Disk)
    requires Sound(h) && Parsed(d) && OldTail(h, d.ledger, d.end, d.tail) && (d.end.Open? ==> d.ledger != [])
    ensures LoadTail(h, d) == TailOf(h, d)
  {
    if k :| 0 <= k <= |d.ledger| && d.tail == TailAt(h, d.ledger, k) {
      if k < |d.ledger| { BytesGrow(h, d.ledger, k); } else { assert d.ledger[..k] == d.ledger; }
    }
  }

  // ---------------------------------------------------------------- facts about linked ledgers

  lemma {:induction false} MatchingFinds(ledger: seq<Row>, digest: string)
    ensures match Matching(ledger, digest)
            case Some(r) => r in ledger && r.digest == digest
            case None => forall i :: 0 <= i < |ledger| ==> ledger[i].digest != digest
  {
    if ledger != [] { MatchingFinds(ledger[1..], digest); }
  }

  lemma NotYetThere(h: Hashes, ledger: seq<Row>, row: Row)
    requires Linked(h, ledger) && Upcoming(h, ledger, row)
    ensures row !in ledger
  {
    forall i | 0 <= i < |ledger| ensures ledger[i] != row { assert LinkedAt(h, ledger, i); }
  }

  lemma LinkedExtends(h: Hashes, ledger: seq<Row>, row: Row)
    requires Linked(h, ledger) && Upcoming(h, ledger, row)
    ensures Linked(h, ledger + [row])
  {
    var all := ledger + [row];
    forall i | 0 <= i < |all| ensures LinkedAt(h, all, i) {
      if i < |ledger| {
        assert LinkedAt(h, ledger, i);
        assert all[..i] == ledger[..i];
      } else {
        assert all[..i] == ledger;
      }
    }
  }

  lemma SlotsExtend(h: Hashes, ledger: seq<Row>, row: Row, slot: Slot)
    ensures HasSlot(h, ledger + [row], slot) <==> HasSlot(h, ledger, slot) || SlotOf(h, row.body.entry) == slot
  {
    var all := ledger + [row];
    assert all[|ledger|] == row;
    if HasSlot(h, ledger, slot) {
      var i :| 0 <= i < |ledger| && SlotOf(h, ledger[i].body.entry) == slot;
      assert all[i] == ledger[i];
    }
  }

  // ---------------------------------------------------------------- every action keeps the store good

  lemma BeginKeeps(h: Hashes, s: State, e: Entry)
    requires Sound(h) && Good(h, s)
    ensures Good(h, Act(h, s, Begin(e)))
  {
    var d := s.disk;
    if Parsed(d) {
      TailIsRight(h, d);
      NextIsMade(h, d, e);
      TailKept(h, d);
    }
    hide Linked, OncePerDocument, AllFiled, NoStrays, OldTail, HasSlot, LoadTail, Bounded, NextRow, MakeRow, TailOf;
  }

  lemma NextIsMade(h: Hashes, d: Disk, e: Entry)
    ensures MakeRow(h, TailOf(h, d), e) == NextRow(h, d.ledger, e)
    ensures MakeRow(h, TailOf(h, d), e).body.entry == e
  {
    assert d.ledger[..|d.ledger|] == d.ledger;
  }

  lemma TailKept(h: Hashes, d: Disk)
    requires Parsed(d)
    ensures OldTail(h, d.ledger, d.end, TailOf(h, d))
  {
    assert d.ledger[..|d.ledger|] == d.ledger;
    assert d.end.Whole? ==> TailOf(h, d) == TailAt(h, d.ledger, |d.ledger|);
  }

  lemma FilingKeeps(h: Hashes, ledger: seq<Row>, files: map<Slot, string>, row: Row)
    requires Upcoming(h, ledger, row) && AllFiled(h, ledger, files) && NoStrays(h, ledger, files, Some(row))
    ensures var more := files[SlotOf(h, row.body.entry) := row.body.entry.text];
            AllFiled(h, ledger, more) && NoStrays(h, ledger, more, Some(row)) && Filed(h, more, row)
  {
    var slot := SlotOf(h, row.body.entry);
    forall i | 0 <= i < |ledger| ensures Filed(h, files[slot := row.body.entry.text], ledger[i]) {
      assert Filed(h, files, ledger[i]);
      assert SlotOf(h, ledger[i].body.entry) != slot;
    }
  }

  lemma AppendKeeps(h: Hashes, d: Disk, row: Row, end: Ending)
    requires Upcoming(h, d.ledger, row) && Filed(h, d.files, row) && Linked(h, d.ledger) && OncePerDocument(h, d.ledger)
    requires AllFiled(h, d.ledger, d.files) && NoStrays(h, d.ledger, d.files, Some(row))
    requires d.end.Whole? && OldTail(h, d.ledger, Whole, d.tail)
    ensures var all := d.ledger + [row];
            && Linked(h, all) && OncePerDocument(h, all) && AllFiled(h, all, d.files) && NoStrays(h, all, d.files, Some(row))
            && OldTail(h, all, end, d.tail) && Latest(all, row)
  {
    LinkedExtends(h, d.ledger, row);
    FilesExtend(h, d.ledger, d.files, row);
    hide Linked, NextRow, Filed, AllFiled, NoStrays;
    var all := d.ledger + [row];
    var k :| 0 <= k <= |d.ledger| && d.tail == TailAt(h, d.ledger, k);
    assert all[..k] == d.ledger[..k];
    assert d.tail == TailAt(h, all, k);
  }

  lemma FilesExtend(h: Hashes, ledger: seq<Row>, files: map<Slot, string>, row: Row)
    requires Filed(h, files, row) && AllFiled(h, ledger, files) && NoStrays(h, ledger, files, Some(row))
    ensures AllFiled(h, ledger + [row], files) && NoStrays(h, ledger + [row], files, Some(row))
  {
    hide Filed, HasSlot;
    forall slot ensures HasSlot(h, ledger, slot) ==> HasSlot(h, ledger + [row], slot) {
      SlotsExtend(h, ledger, row, slot);
    }
  }

  lemma PointKeeps(h: Hashes, d: Disk, row: Row)
    requires Linked(h, d.ledger) && Latest(d.ledger, row) && d.end.Whole?
    ensures OldTail(h, d.ledger, d.end, Tail(row.body.sequence, Some(row.digest), Size(h, d)))
  {
    assert LinkedAt(h, d.ledger, |d.ledger| - 1);
    TailKept(h, d);
  }

  lemma JournalAllows(h: Hashes, ledger: seq<Row>, files: map<Slot, string>, row: Row)
    requires NoStrays(h, ledger, files, None) && Upcoming(h, ledger, row)
    ensures NoStrays(h, ledger, files, Some(row)) && Journaled(h, ledger, Some(row))
  {}

  lemma ProceedKeeps(h: Hashes, s: State)
    requires Sound(h) && Good(h, s)
    ensures Good(h, Act(h, s, Proceed))
  {
    hide Linked, OncePerDocument, AllFiled, NoStrays, OldTail, Upcoming, Latest, HasSlot, Collides, Filed, Bytes, LoadTail, Resume, Bounded;
    var d := s.disk;
    if Parsed(d) {
      match s.phase
      case Journaling(row) => JournalAllows(h, d.ledger, d.files, row);
      case Writing(row) => FilingKeeps(h, d.ledger, d.files, row);
      case Appending(row) => if d.end.Whole? { AppendKeeps(h, d, row, Whole); }
      case Pointing(row) => PointKeeps(h, d, row);
      case _ =>
    }
  }

  lemma TearKeeps(h: Hashes, s: State, kept: nat)
    requires Sound(h) && Good(h, s)
    ensures Good(h, Act(h, s, Tear(kept)))
  {
    hide Linked, OncePerDocument, AllFiled, NoStrays, OldTail, Upcoming, Latest, HasSlot, Collides, Filed, Bytes, LoadTail, Resume, Bounded;
    var d := s.disk;
    if Parsed(d) && s.phase.Appending? && d.end.Whole? { AppendKeeps(h, d, s.phase.row, Open); }
  }

  /** Once the row is in the ledger its content file is accounted for without the journal. */
  lemma NoJournalNeeded(h: Hashes, ledger: seq<Row>, files: map<Slot, string>, journal: Option<Row>)
    requires NoStrays(h, ledger, files, journal) && (journal.Some? ==> Latest(ledger, journal.value))
    ensures NoStrays(h, ledger, files, None)
  {
    if journal.Some? {
      assert SlotOf(h, ledger[|ledger| - 1].body.entry) == SlotOf(h, journal.value.body.entry);
    }
  }

  lemma DropKeeps(h: Hashes, s: State)
    requires Good(h, s)
    ensures Good(h, Act(h, s, DropJournal)) && Good(h, Act(h, s, DropCopy))
  {
    if Parsed(s.disk) && s.phase.Cleaning? { NoJournalNeeded(h, s.disk.ledger, s.disk.files, Journal(s.disk)); }
    hide Linked, OncePerDocument, AllFiled, NoStrays, OldTail, Upcoming, Latest;
  }

  lemma RecoverKeeps(h: Hashes, s: State)
    requires Good(h, s)
    ensures Good(h, Act(h, s, Recover))
  {
    hide Linked, OncePerDocument, AllFiled, NoStrays, OldTail, Upcoming, Collides, Filed;
    var d := s.disk;
    if s.phase.Idle? && Journal(d).Some? && Parsed(d) {
      var row := Journal(d).value;
      MatchingFinds(d.ledger, row.digest);
      if Upcoming(h, d.ledger, row) { NotYetThere(h, d.ledger, row); }
    }
  }

  /** While the ledger can be read it only grows, and once it cannot be read it never can again. */
  lemma LedgerGrows(h: Hashes, s: State, a: Action)
    requires Parsed(Act(h, s, a).disk)
    ensures Parsed(s.disk) && s.disk.ledger <= Act(h, s, a).disk.ledger
  {
    hide HasSlot, Collides, Filed, LoadTail, Resume, Bounded;
  }

  lemma ActKeeps(h: Hashes, s: State, a: Action)
    requires Sound(h) && Good(h, s)
    ensures Good(h, Act(h, s, a))
    ensures Parsed(Act(h, s, a).disk) ==> Parsed(s.disk) && s.disk.ledger <= Act(h, s, a).disk.ledger
  {
    hide Good, Parsed, Act;
    if Parsed(Act(h, s, a).disk) { LedgerGrows(h, s, a); }
    match a
    case Begin(e) => BeginKeeps(h, s, e);
    case Proceed => ProceedKeeps(h, s);
    case Tear(kept) => TearKeeps(h, s, kept);
    case Recover => RecoverKeeps(h, s);
    case DropJournal => DropKeeps(h, s);
    case DropCopy => DropKeeps(h, s);
    case Crash => CrashKeeps(h, s);
  }

  lemma CrashKeeps(h: Hashes, s: State)
    requires Good(h, s)
    ensures Good(h, Act(h, s, Crash))
  {
    hide Linked, OncePerDocument, AllFiled, NoStrays, OldTail, Upcoming, Latest;
  }

  // ---------------------------------------------------------------- whole runs

  lemma {:induction false} RunsKeep(h: Hashes, s: State, actions: seq<Action>)
    requires Sound(h) && Good(h, s)
    ensures Good(h, Run(h, s, actions))
    ensures Parsed(Run(h, s, actions).disk) ==> Parsed(s.disk) && s.disk.ledger <= Run(h, s, actions).disk.ledger
  {
    if actions != [] {
      hide Good, Act, Parsed;
      var front := actions[..|actions| - 1];
      RunsKeep(h, s, front);
      ActKeeps(h, Run(h, s, front), actions[|actions| - 1]);
    }
  }

  lemma EmptyIsGood(h: Hashes)
    ensures Good(h, EMPTY)
  {
    assert EMPTY.disk.tail == TailAt(h, [], 0);
  }

  /** What `verify` checks: nothing pending, a readable linked ledger, and content files for exactly the
      documents it lists. */
  ghost predicate Verified(h: Hashes, d: Disk) {
    && d.txn.None? && Readable(h, d) && Linked(h, d.ledger) && AllFiled(h, d.ledger, d.files)
    && forall slot :: slot in d.files ==> HasSlot(h, d.ledger, slot)
  }

  /** A store that verifies has a file for each record and event in its ledger, with its very text, and no other. */
  lemma VerifiedHoldsExactly(h: Hashes, d: Disk, slot: Slot, text: string)
    requires Sound(h) && Verified(h, d) && !slot.kind.SnapshotEntry?
    ensures slot in d.files && d.files[slot] == text <==>
            exists i :: 0 <= i < |d.ledger| && d.ledger[i].body.entry == Entry(slot.kind, text) && h.content(text) == slot.digest
  {
    if slot in d.files {
      var i :| 0 <= i < |d.ledger| && SlotOf(h, d.ledger[i].body.entry) == slot;
      assert Filed(h, d.files, d.ledger[i]);
    }
    forall i | 0 <= i < |d.ledger| && d.ledger[i].body.entry == Entry(slot.kind, text) && h.content(text) == slot.digest
      ensures slot in d.files && d.files[slot] == text
    {
      assert Filed(h, d.files, d.ledger[i]);
    }
    hide Readable, Linked;
  }

  lemma InitialIsGood(h: Hashes, s: State)
    requires Initial(h, s)
    ensures Good(h, s)
  {
    if s == EMPTY {
      EmptyIsGood(h);
    } else {
      var e: Entry :| e.kind.SnapshotEntry? && s == Opened(h, e);
      OpenedIsGood(h, e);
    }
  }

  lemma OpenedIsGood(h: Hashes, e: Entry)
    requires e.kind.SnapshotEntry?
    ensures Good(h, Opened(h, e))
  {
    var d := Opened(h, e).disk;
    assert d.ledger[..0] == [] && d.ledger[..1] == d.ledger;
    assert LinkedAt(h, d.ledger, 0);
    assert Bytes(h, d.ledger) == Bytes(h, d.ledger[..0]) + h.length(d.ledger[0]);
    assert d.tail == TailAt(h, d.ledger, 1);
  }

  /** After any run of commits, crashes and recoveries the store verifies exactly when its ledger can be read and
      no transaction is pending; and a ledger that can be read is linked and lists each document once. */
  lemma EveryRunIsSafe(h: Hashes, from: State, actions: seq<Action>)
    requires Sound(h) && Initial(h, from)
    ensures var s := Run(h, from, actions);
            && (Verified(h, s.disk) <==> Readable(h, s.disk) && s.disk.txn.None?)
            && (Readable(h, s.disk) ==>
                  && Linked(h, s.disk.ledger) && Numbered(s.disk.ledger) && OncePerDocument(h, s.disk.ledger)
                  && LoadTail(h, s.disk) == TailOf(h, s.disk))
  {
    InitialIsGood(h, from);
    RunsKeep(h, from, actions);
    var s := Run(h, from, actions);
    if Readable(h, s.disk) {
      TailIsRight(h, s.disk);
      LinkedIsNumbered(h, s.disk.ledger);
      CleanIsVerified(h, s);
    }
    hide LoadTail, Run, Linked, OncePerDocument, Numbered;
  }

  lemma {:induction false} RunsCompose(h: Hashes, s: State, one: seq<Action>, two: seq<Action>)
    ensures Run(h, s, one + two) == Run(h, Run(h, s, one), two)
  {
    hide Act;
    if two == [] {
      assert one + two == one;
    } else {
      var n := |two| - 1;
      RunsCompose(h, s, one, two[..n]);
      assert (one + two)[..|one| + n] == one + two[..n];
    }
  }

  /** What a reader of the store gets. */
  ghost function Rows(h: Hashes, d: Disk): seq<Row> { if Readable(h, d) then d.ledger else [] }

  /** A commit that reached its cleanup over a readable ledger has its row there, last. From then on, through every
      later commit, crash and recovery, that row can be read exactly as long as the ledger can. */
  lemma AcknowledgedIffReadable(h: Hashes, from: State, before: seq<Action>, later: seq<Action>)
    requires Sound(h) && Initial(h, from)
    requires var s := Run(h, from, before); s.phase.Cleaning? && Readable(h, s.disk)
    ensures var s := Run(h, from, before);
            var t := Run(h, from, before + later);
            && Latest(s.disk.ledger, s.phase.row)
            && (s.phase.row in Rows(h, t.disk) <==> Readable(h, t.disk))
            && (Readable(h, t.disk) ==> s.disk.ledger <= t.disk.ledger)
  {
    InitialIsGood(h, from);
    RunsKeep(h, from, before);
    RunsCompose(h, from, before, later);
    hide Linked, OncePerDocument, AllFiled, NoStrays, OldTail, Upcoming, Run;
    RunsKeep(h, Run(h, from, before), later);
    var s, t := Run(h, from, before).disk.ledger, Run(h, from, before + later).disk.ledger;
    if s <= t { assert s[|s| - 1] == t[|s| - 1]; }
  }

  // ---------------------------------------------------------------- what makes a ledger unreadable

  /** How many bytes of the row's line the action writes. */
  function BytesWritten(h: Hashes, row: Row, a: Action): nat {
    match a
    case Proceed => h.length(row)
    case Tear(kept) => if kept < h.length(row) then kept else 0
    case _ => 0
  }

  /** The write leaves half a line, or goes onto a line that lacks its newline, or takes the ledger past one of its
      bounds. */
  predicate Breaks(h: Hashes, s: State, a: Action) {
    && s.phase.Appending? && BytesWritten(h, s.phase.row, a) > 0
    && var bytes := BytesWritten(h, s.phase.row, a);
       s.disk.end.Open? || bytes < h.length(s.phase.row) - 1 || !HasRoom(h, s.disk, bytes)
  }

  ghost predicate BreaksAt(h: Hashes, s: State, actions: seq<Action>, k: nat)
    requires k < |actions|
  {
    Breaks(h, Run(h, s, actions[..k]), actions[k])
  }

  ghost predicate Unbroken(h: Hashes, s: State, actions: seq<Action>) {
    forall k {:trigger BreaksAt(h, s, actions, k)} :: 0 <= k < |actions| ==> !BreaksAt(h, s, actions, k)
  }

  /** A ledger stays readable exactly as long as no write does that. */
  lemma {:induction false} ReadableIff(h: Hashes, s: State, actions: seq<Action>)
    requires Sound(h)
    ensures Readable(h, Run(h, s, actions).disk) <==> Readable(h, s.disk) && Unbroken(h, s, actions)
  {
    if actions != [] {
      hide Act, Readable, Breaks, Unbroken;
      var n := |actions| - 1;
      ReadableIff(h, s, actions[..n]);
      UnbrokenExtends(h, s, actions);
      BreaksIff(h, Run(h, s, actions[..n]), actions[n]);
    } else {
      hide Readable;
    }
  }

  lemma UnbrokenExtends(h: Hashes, s: State, actions: seq<Action>)
    requires actions != []
    ensures Unbroken(h, s, actions) <==>
            var n := |actions| - 1;
            Unbroken(h, s, actions[..n]) && !Breaks(h, Run(h, s, actions[..n]), actions[n])
  {
    hide Run, Breaks;
    var n := |actions| - 1;
    var front := actions[..n];
    assert BreaksAt(h, s, actions, n) <==> Breaks(h, Run(h, s, front), actions[n]);
    forall k | 0 <= k < n ensures BreaksAt(h, s, front, k) <==> BreaksAt(h, s, actions, k) {
      assert front[..k] == actions[..k];
    }
  }

  lemma BreaksIff(h: Hashes, s: State, a: Action)
    requires Sound(h)
    ensures Readable(h, Act(h, s, a).disk) <==> Readable(h, s.disk) && !Breaks(h, s, a)
  {
    hide HasSlot, Collides, Filed, LoadTail, Resume, Bytes, Bounded, HasRoom, Written;
    if s.phase.Appending? && BytesWritten(h, s.phase.row, a) > 0 {
      WrittenReads(h, s.disk, s.phase.row, BytesWritten(h, s.phase.row, a));
    } else {
      SameLedger(h, s, a);
    }
  }

  /** A write keeps the ledger readable exactly when it completes a line of its own, but for the newline, within the
      bounds. */
  lemma WrittenReads(h: Hashes, d: Disk, row: Row, kept: nat)
    requires Sound(h) && 0 < kept <= h.length(row)
    ensures Readable(h, Written(h, d, row, kept)) <==>
            Readable(h, d) && d.end.Whole? && kept >= h.length(row) - 1 && HasRoom(h, d, kept)
    ensures Readable(h, Written(h, d, row, kept)) ==> Written(h, d, row, kept).ledger == d.ledger + [row]
  {
    var t := Written(h, d, row, kept);
    if d.end.Whole? && kept >= h.length(row) - 1 {
      assert t.ledger[..|d.ledger|] == d.ledger;
      assert Size(h, t) == Size(h, d) + kept;
      forall i | 0 <= i < |d.ledger| ensures LineFits(h, t, i) <==> LineFits(h, d, i) {}
      assert LineFits(h, t, |d.ledger|) <==> kept <= MAX_LINE_BYTES;
      if Readable(h, t) {
        forall i | 0 <= i < |d.ledger| ensures LineFits(h, d, i) { assert LineFits(h, t, i); }
      }
      if Readable(h, d) && HasRoom(h, d, kept) {
        forall i | 0 <= i < |t.ledger| ensures LineFits(h, t, i) { if i < |d.ledger| { assert LineFits(h, d, i); } }
      }
    }
  }

  lemma SameLedger(h: Hashes, s: State, a: Action)
    requires !s.phase.Appending? || BytesWritten(h, s.phase.row, a) == 0
    ensures Act(h, s, a).disk.ledger == s.disk.ledger && Act(h, s, a).disk.end == s.disk.end
    ensures Readable(h, Act(h, s, a).disk) <==> Readable(h, s.disk)
  {
    hide HasSlot, Collides, Filed, LoadTail, Resume, Bytes, HasRoom, Readable;
    assert Act(h, s, a).disk.ledger == s.disk.ledger && Act(h, s, a).disk.end == s.disk.end;
    SameRows(h, s.disk, Act(h, s, a).disk);
  }

  /** A ledger whose last line lacks its newline never commits another row: it keeps the rows it has, and the next
      write that reaches it makes it unreadable. */
  lemma {:induction false} OpenNeverGrows(h: Hashes, s: State, actions: seq<Action>)
    requires s.disk.end.Open?
    ensures var t := Run(h, s, actions); t.disk.end.Junk? || (t.disk.end.Open? && t.disk.ledger == s.disk.ledger)
  {
    if actions != [] {
      hide Act;
      var front := actions[..|actions| - 1];
      OpenNeverGrows(h, s, front);
      OpenStep(h, Run(h, s, front), actions[|actions| - 1]);
    }
  }

  lemma OpenStep(h: Hashes, s: State, a: Action)
    requires !s.disk.end.Whole?
    ensures var t := Act(h, s, a); t.disk.end.Junk? || (t.disk.end.Open? && s.disk.end.Open? && t.disk.ledger == s.disk.ledger)
  {
    hide HasSlot, Collides, Filed, LoadTail, Resume, Bytes;
  }

  // ---------------------------------------------------------------- what recovery does

  const RECOVERY := [Recover, Proceed, Proceed, Proceed, DropJournal, DropCopy, Proceed]

  /** The first `bytes` bytes of a line would go onto a line of their own, within the bounds. */
  predicate Takes(h: Hashes, d: Disk, bytes: nat) {
    d.end.Whole? && HasRoom(h, d, bytes)
  }

  /** The journal's line, but for its newline if the write may be torn. */
  function Least(h: Hashes, d: Disk, torn: bool): nat
    requires Sound(h) && Journal(d).Some?
  {
    h.length(Journal(d).value) - if torn then 1 else 0
  }

  /** The ledger can be read, the journal is on disk, and its row is either in the ledger already or will go onto a
      line of its own within the bounds: the whole of it or, if a write may be torn again, all but its newline. */
  ghost predicate Recoverable(h: Hashes, d: Disk, torn: bool)
    requires Sound(h)
  {
    && Readable(h, d) && Journal(d).Some?
    && (Journal(d).value in d.ledger || Takes(h, d, Least(h, d, torn)))
  }

  /** Such a transaction is finished, exactly once: its row is the last one afterwards, whether or not the crash
      came after the append. */
  lemma RecoveryFinishes(h: Hashes, s: State)
    requires Sound(h) && Good(h, s) && s.phase.Idle? && Recoverable(h, s.disk, false)
    ensures var row := Journal(s.disk).value;
            var t := Run(h, s, RECOVERY);
            && t.phase.Idle? && t.disk.txn.None? && Verified(h, t.disk)
            && t.disk.ledger == (if row in s.disk.ledger then s.disk.ledger else s.disk.ledger + [row])
            && t.disk.end == s.disk.end
  {
    hide Good, Act, Verified, Run, Bounded, HasRoom;
    var a := Act(h, s, Recover);
    var b := Act(h, Act(h, Act(h, a, Proceed), Proceed), Proceed);
    Resumed(h, s);
    RecoverKeeps(h, s);
    Copied(h, a);
    ProceedKeeps(h, a);
    ProceedKeeps(h, Act(h, a, Proceed));
    ProceedKeeps(h, Act(h, Act(h, a, Proceed), Proceed));
    Cleaned(h, b);
    Unrolled(h, s);
  }

  lemma RunSnoc(h: Hashes, s: State, actions: seq<Action>, a: Action)
    ensures Run(h, s, actions + [a]) == Act(h, Run(h, s, actions), a)
  {
    hide Act;
    assert (actions + [a])[..|actions|] == actions;
  }

  lemma Unrolled(h: Hashes, s: State)
    ensures var a := Act(h, s, Recover);
            var b := Act(h, Act(h, Act(h, a, Proceed), Proceed), Proceed);
            Run(h, s, RECOVERY) == Act(h, Act(h, Act(h, b, DropJournal), DropCopy), Proceed)
  {
    assert Run(h, s, []) == s;
    hide Act, Run;
    var l1: seq<Action> := [] + [Recover];
    var l2 := l1 + [Proceed];
    var l3 := l2 + [Proceed];
    var l4 := l3 + [Proceed];
    var l5 := l4 + [DropJournal];
    var l6 := l5 + [DropCopy];
    RunSnoc(h, s, [], Recover);
    RunSnoc(h, s, l1, Proceed);
    RunSnoc(h, s, l2, Proceed);
    RunSnoc(h, s, l3, Proceed);
    RunSnoc(h, s, l4, DropJournal);
    RunSnoc(h, s, l5, DropCopy);
    RunSnoc(h, s, l6, Proceed);
    assert RECOVERY == l6 + [Proceed];
  }

  /** A good journal is never refused: its row is new and comes next, or it is already the last one. */
  lemma Resumed(h: Hashes, s: State)
    requires Sound(h) && Good(h, s) && s.phase.Idle? && Readable(h, s.disk) && Journal(s.disk).Some?
    ensures var row := Journal(s.disk).value;
            var a := Act(h, s, Recover);
            a.disk == s.disk && a.phase == if row in s.disk.ledger then Cleaning(row) else Writing(row)
  {
    hide Linked, OncePerDocument, AllFiled, NoStrays, OldTail, HasSlot, Upcoming, Latest, Filed, Collides, Matching, LastDigest;
    var d, row := s.disk, Journal(s.disk).value;
    MatchingFinds(d.ledger, row.digest);
    if Upcoming(h, d.ledger, row) {
      UpcomingFits(h, d, row);
    } else {
      LatestFits(h, d, row);
    }
  }

  lemma UpcomingFits(h: Hashes, d: Disk, row: Row)
    requires Sound(h) && Linked(h, d.ledger) && NoStrays(h, d.ledger, d.files, Some(row)) && Upcoming(h, d.ledger, row)
    ensures row !in d.ledger && !Collides(h, d.files, row)
    ensures forall i :: 0 <= i < |d.ledger| ==> d.ledger[i].digest != row.digest
    ensures LastDigest(d.ledger) == row.body.previous && row.body.sequence == |d.ledger| + 1
  {
    NotYetThere(h, d.ledger, row);
    SameDigestSameRow(h, d.ledger, row);
    NoCollision(h, d, row);
  }

  lemma LatestFits(h: Hashes, d: Disk, row: Row)
    requires Sound(h) && Linked(h, d.ledger) && AllFiled(h, d.ledger, d.files) && Latest(d.ledger, row)
    ensures row in d.ledger && Filed(h, d.files, row)
    ensures forall i :: 0 <= i < |d.ledger| && d.ledger[i].digest == row.digest ==> d.ledger[i] == row
  {
    assert LinkedAt(h, d.ledger, |d.ledger| - 1);
    SameDigestSameRow(h, d.ledger, row);
    assert Filed(h, d.files, d.ledger[|d.ledger| - 1]);
  }

  lemma NoCollision(h: Hashes, d: Disk, row: Row)
    requires Sound(h) && NoStrays(h, d.ledger, d.files, Some(row))
    ensures !Collides(h, d.files, row)
  {}

  lemma SameDigestSameRow(h: Hashes, ledger: seq<Row>, row: Row)
    requires Sound(h) && Linked(h, ledger) && row.digest == h.row(row.body)
    ensures forall i :: 0 <= i < |ledger| && ledger[i].digest == row.digest ==> ledger[i] == row
  {
    forall i | 0 <= i < |ledger| && ledger[i].digest == row.digest ensures ledger[i] == row {
      assert LinkedAt(h, ledger, i);
    }
  }

  lemma Copied(h: Hashes, a: State)
    requires Sound(h) && Good(h, a) && Readable(h, a.disk) && Journal(a.disk).Some?
    requires a.phase == Cleaning(Journal(a.disk).value) || (a.phase == Writing(Journal(a.disk).value) && Takes(h, a.disk, h.length(a.phase.row)))
    ensures var b := Act(h, Act(h, Act(h, a, Proceed), Proceed), Proceed);
            && b.phase == Cleaning(a.phase.row) && b.disk.txn == a.disk.txn && b.disk.end == a.disk.end
            && b.disk.ledger == (if a.phase.Writing? then a.disk.ledger + [a.phase.row] else a.disk.ledger)
            && Readable(h, b.disk)
  {
    if a.phase.Writing? {
      NoCollision(h, a.disk, a.phase.row);
      WrittenReads(h, a.disk, a.phase.row, h.length(a.phase.row));
      SameRows(h, Written(h, a.disk, a.phase.row, h.length(a.phase.row)), Act(h, Act(h, Act(h, a, Proceed), Proceed), Proceed).disk);
    }
    hide Linked, OncePerDocument, AllFiled, NoStrays, OldTail, Upcoming, Latest, HasSlot, Collides, Filed, Bytes, LoadTail, Resume, Bounded, HasRoom;
  }

  lemma SameRows(h: Hashes, d: Disk, t: Disk)
    requires d.ledger == t.ledger && d.end == t.end
    ensures Readable(h, d) <==> Readable(h, t)
  {
    assert Size(h, d) == Size(h, t);
    assert forall i :: 0 <= i < |d.ledger| ==> LineFits(h, d, i) == LineFits(h, t, i);
  }

  lemma Cleaned(h: Hashes, b: State)
    requires Sound(h) && Good(h, b) && Readable(h, b.disk) && b.phase.Cleaning? && b.disk.txn.Some?
    ensures var t := Act(h, Act(h, Act(h, b, DropJournal), DropCopy), Proceed);
            && t.phase.Idle? && t.disk.txn.None? && t.disk.ledger == b.disk.ledger && t.disk.end == b.disk.end
            && Verified(h, t.disk)
  {
    CleanedUp(h, b);
    SameRows(h, b.disk, Act(h, Act(h, Act(h, b, DropJournal), DropCopy), Proceed).disk);
    hide Good, Act, Verified, Readable;
    DropKeeps(h, b);
    DropKeeps(h, Act(h, b, DropJournal));
    ProceedKeeps(h, Act(h, Act(h, b, DropJournal), DropCopy));
    CleanIsVerified(h, Act(h, Act(h, Act(h, b, DropJournal), DropCopy), Proceed));
  }

  lemma CleanedUp(h: Hashes, b: State)
    requires b.phase.Cleaning? && b.disk.txn.Some?
    ensures var t := Act(h, Act(h, Act(h, b, DropJournal), DropCopy), Proceed);
            t.phase.Idle? && t.disk.txn.None? && t.disk.ledger == b.disk.ledger && t.disk.end == b.disk.end
  {
    hide Bounded,  Linked, OncePerDocument, AllFiled, NoStrays, OldTail, Upcoming, Latest, HasSlot, Collides, Filed, Bytes, LoadTail, Resume;
  }

  lemma CleanIsVerified(h: Hashes, s: State)
    requires Good(h, s) && Readable(h, s.disk)
    ensures Verified(h, s.disk) <==> s.disk.txn.None?
  {
    hide Linked, OncePerDocument, AllFiled, OldTail, Upcoming, Latest, HasSlot;
  }

  // ---------------------------------------------------------------- what recovery cannot do

  /** A transaction is pending without a journal, or the ledger cannot be read. Nothing can be begun or recovered. */
  ghost predicate Stuck(h: Hashes, s: State) {
    s.phase.Idle? && s.disk.txn.Some? && (!Readable(h, s.disk) || Journal(s.disk).None?)
  }

  lemma {:induction false} StuckForGood(h: Hashes, s: State, actions: seq<Action>)
    requires Stuck(h, s)
    ensures Run(h, s, actions) == s
  {
    if actions != [] { StuckForGood(h, s, actions[..|actions| - 1]); }
  }

  /** The journal's row is missing, and the ledger cannot take it: recovery will write it all the same, and make the
      ledger unreadable. */
  ghost predicate Doomed(h: Hashes, s: State, torn: bool)
    requires Sound(h)
  {
    Good(h, s) && Unfinished(h, s, torn)
  }

  ghost predicate Unfinished(h: Hashes, s: State, torn: bool)
    requires Sound(h)
  {
    Readable(h, s.disk) ==>
      && Journal(s.disk).Some? && Journal(s.disk).value !in s.disk.ledger && !Takes(h, s.disk, Least(h, s.disk, torn))
      && (s.phase.Idle? || s.phase == Writing(Journal(s.disk).value) || s.phase == Appending(Journal(s.disk).value))
  }

  predicate Untorn(actions: seq<Action>) {
    forall i :: 0 <= i < |actions| ==> !actions[i].Tear?
  }

  lemma {:induction false} DoomedForGood(h: Hashes, s: State, actions: seq<Action>, torn: bool)
    requires Sound(h) && Doomed(h, s, torn) && (torn || Untorn(actions))
    ensures Doomed(h, Run(h, s, actions), torn) && !Verified(h, Run(h, s, actions).disk)
  {
    hide Act, Linked, AllFiled, HasSlot;
    if actions != [] {
      var front := actions[..|actions| - 1];
      DoomedForGood(h, s, front, torn);
      DoomedStep(h, Run(h, s, front), actions[|actions| - 1], torn);
    }
  }

  lemma DoomedStep(h: Hashes, s: State, a: Action, torn: bool)
    requires Sound(h) && Doomed(h, s, torn) && (torn || !a.Tear?)
    ensures Doomed(h, Act(h, s, a), torn)
  {
    hide Act, Good, Readable, Unfinished;
    ActKeeps(h, s, a);
    if a.Recover? { UnfinishedRecovery(h, s, torn); } else { UnfinishedStep(h, s, a, torn); }
  }

  lemma UnfinishedStep(h: Hashes, s: State, a: Action, torn: bool)
    requires Sound(h) && Unfinished(h, s, torn) && !a.Recover? && (torn || !a.Tear?)
    ensures Unfinished(h, Act(h, s, a), torn)
  {
    BreaksIff(h, s, a);
    if s.phase.Appending? && BytesWritten(h, s.phase.row, a) > 0 {
      assert Readable(h, s.disk) ==> Breaks(h, s, a);
    } else {
      SameLedger(h, s, a);
    }
    hide HasSlot, Collides, Filed, LoadTail, Resume, Bytes, Bounded;
  }

  lemma UnfinishedRecovery(h: Hashes, s: State, torn: bool)
    requires Sound(h) && Good(h, s) && Unfinished(h, s, torn)
    ensures Unfinished(h, Act(h, s, Recover), torn)
  {
    if s.phase.Idle? && Readable(h, s.disk) { Resumed(h, s); }
    hide Good, Resume;
  }

  /** After a crash, some continuation brings the store back to a state that verifies exactly when the ledger can
      be read, the journal is on disk, and its row is in the ledger or fits there: on a line of its own, within the
      bounds. Without its newline it fits one byte sooner, for a continuation that tears the write just there. */
  lemma RecoverableIff(h: Hashes, s: State)
    requires Sound(h) && Good(h, s) && s.phase.Idle? && s.disk.txn.Some?
    ensures (exists actions :: Untorn(actions) && Verified(h, Run(h, s, actions).disk)) <==> Recoverable(h, s.disk, false)
    ensures (exists actions :: Verified(h, Run(h, s, actions).disk)) <==> Recoverable(h, s.disk, true)
  {
    hide Good, Readable, Run, Verified, HasRoom;
    if Recoverable(h, s.disk, false) {
      RecoveryFinishes(h, s);
      assert Untorn(RECOVERY);
    } else {
      forall actions: seq<Action> | Untorn(actions) ensures !Verified(h, Run(h, s, actions).disk) {
        Unrecovered(h, s, actions, false);
      }
    }
    if Recoverable(h, s.disk, true) {
      if !Recoverable(h, s.disk, false) { TornRecovery(h, s); }
    } else {
      forall actions: seq<Action> ensures !Verified(h, Run(h, s, actions).disk) { Unrecovered(h, s, actions, true); }
    }
  }

  lemma Unrecovered(h: Hashes, s: State, actions: seq<Action>, torn: bool)
    requires Sound(h) && Good(h, s) && s.phase.Idle? && s.disk.txn.Some? && !Recoverable(h, s.disk, torn)
    requires torn || Untorn(actions)
    ensures !Verified(h, Run(h, s, actions).disk)
  {
    if Stuck(h, s) { StuckForGood(h, s, actions); } else { DoomedForGood(h, s, actions, torn); }
  }

  /** A row whose newline is one byte too many can still be saved, by a recovery that is cut short there. */
  lemma TornRecovery(h: Hashes, s: State)
    requires Sound(h) && Good(h, s) && s.phase.Idle? && Recoverable(h, s.disk, true) && !Recoverable(h, s.disk, false)
    ensures exists actions :: Verified(h, Run(h, s, actions).disk)
  {
    hide Good, Act, Run, Verified, Readable, HasRoom;
    var kept := h.length(Journal(s.disk).value) - 1;
    var tear: seq<Action> := [Recover, Proceed, Tear(kept)];
    Resumed(h, s);
    RecoverKeeps(h, s);
    TornAppend(h, Act(h, s, Recover));
    TornUnrolled(h, s, kept);
    RunsKeep(h, s, tear);
    RecoveryFinishes(h, Run(h, s, tear));
    RunsCompose(h, s, tear, RECOVERY);
  }

  lemma TornAppend(h: Hashes, a: State)
    requires Sound(h) && Good(h, a) && Readable(h, a.disk) && Journal(a.disk).Some?
    requires a.phase == Writing(Journal(a.disk).value) && Takes(h, a.disk, h.length(a.phase.row) - 1)
    ensures var t := Act(h, Act(h, a, Proceed), Tear(h.length(a.phase.row) - 1));
            t.phase.Idle? && Recoverable(h, t.disk, false)
  {
    var kept := h.length(a.phase.row) - 1;
    NoCollision(h, a.disk, a.phase.row);
    WrittenReads(h, a.disk, a.phase.row, kept);
    var t := Act(h, Act(h, a, Proceed), Tear(kept)).disk;
    SameRows(h, Written(h, a.disk, a.phase.row, kept), t);
    hide Linked, OncePerDocument, AllFiled, NoStrays, OldTail, Upcoming, Latest, HasSlot, Collides, Filed, Bytes, LoadTail, Resume, Bounded, HasRoom;
    assert t.ledger == a.disk.ledger + [a.phase.row];
    assert t.ledger[|a.disk.ledger|] == a.phase.row;
  }

  lemma TornUnrolled(h: Hashes, s: State, kept: nat)
    ensures Run(h, s, [Recover, Proceed, Tear(kept)]) == Act(h, Act(h, Act(h, s, Recover), Proceed), Tear(kept))
  {
    assert Run(h, s, []) == s;
    hide Act, Run;
    var l1: seq<Action> := [] + [Recover];
    var l2 := l1 + [Proceed];
    RunSnoc(h, s, [], Recover);
    RunSnoc(h, s, l1, Proceed);
    RunSnoc(h, s, l2, Tear(kept));
    assert [Recover, Proceed, Tear(kept)] == l2 + [Tear(kept)];
  }

  /** A crash between making the transaction directory and writing its journal blocks the store for good,
      and so does one that interrupts the removal of the directory after the journal is gone, although the
      commit itself is complete. */
  lemma StuckIsReachable(h: Hashes, e: Entry) returns (early: seq<Action>, late: seq<Action>)
    requires Sound(h) && CanBegin(h, [], e)
    ensures Stuck(h, Run(h, EMPTY, early)) && Run(h, EMPTY, early).disk.ledger == []
    ensures var s := Run(h, EMPTY, late); Stuck(h, s) && |s.disk.ledger| == 1 && s.disk.ledger[0].body.entry == e
  {
    CrashInStaging(h, e);
    CrashInCleaning(h, e);
    assert Run(h, EMPTY, []) == EMPTY;
    hide Act, Run, Stuck;
    RunSnoc(h, EMPTY, [], Begin(e));
    late := [] + [Begin(e)];
    RunSnoc(h, EMPTY, late, Crash);
    early := late + [Crash];
    RunSnoc(h, EMPTY, late, Proceed);
    late := late + [Proceed];
    RunSnoc(h, EMPTY, late, Proceed);
    late := late + [Proceed];
    RunSnoc(h, EMPTY, late, Proceed);
    late := late + [Proceed];
    RunSnoc(h, EMPTY, late, Proceed);
    late := late + [Proceed];
    RunSnoc(h, EMPTY, late, Proceed);
    late := late + [Proceed];
    RunSnoc(h, EMPTY, late, DropJournal);
    late := late + [DropJournal];
    RunSnoc(h, EMPTY, late, Crash);
    late := late + [Crash];
  }

  lemma CrashInStaging(h: Hashes, e: Entry)
    requires CanBegin(h, [], e)
    ensures var s := Act(h, Act(h, EMPTY, Begin(e)), Crash); Stuck(h, s) && s.disk.ledger == []
  {}

  lemma CrashInCleaning(h: Hashes, e: Entry)
    requires Sound(h) && CanBegin(h, [], e)
    ensures var a := Act(h, Act(h, Act(h, EMPTY, Begin(e)), Proceed), Proceed);
            var b := Act(h, Act(h, Act(h, a, Proceed), Proceed), Proceed);
            var s := Act(h, Act(h, b, DropJournal), Crash);
            Stuck(h, s) && |s.disk.ledger| == 1 && s.disk.ledger[0].body.entry == e
  {}
}
