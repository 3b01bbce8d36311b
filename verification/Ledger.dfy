/** The hash-linked ledger of a store and its recoverable append (store.py): each commit is a sequence of
    small durable writes that a crash can cut anywhere, and `recover` finishes what a journal describes. */
module Ledger {
  import opened Order

  /** A snapshot is the first row of a store that a compaction built; it has no content file. */
  datatype Kind = RecordEntry | EventEntry | SnapshotEntry

  /** A document to be stored, as canonical text. */
  datatype Entry = Entry(kind: Kind, text: string)

  datatype Body = Body(sequence: nat, entry: Entry, previous: Option<string>)
  datatype Row = Row(body: Body, digest: string)

  /** `content` digests a document, `row` the body of a ledger row; `length` is a row's line in bytes, with its
      newline, and `journal` the size of the journal that describes it. */
  datatype Hashes = Hashes(content: string -> string, row: Body -> string, length: Row -> nat, journal: Row -> nat)

  const MAX_LINE_BYTES := 8 * 1024 * 1024
  const MAX_LEDGER_BYTES := 64 * 1024 * 1024
  const MAX_ROWS := 100_000
  const MAX_JOURNAL_BYTES := 16 * 1024 * 1024

  /** Where a document's content file lives. */
  datatype Slot = Slot(kind: Kind, digest: string)

  datatype Tail = Tail(sequence: nat, digest: Option<string>, bytes: int)

  /** A transaction directory: its journal, if written, and whether the content copy is there. */
  datatype Txn = Txn(journal: Option<Row>, copy: bool)

  /** How the ledger file ends: after a newline, after a row that lacks only its newline, or in a last line of
      some bytes that are not one JSON value. */
  datatype Ending = Whole | Open | Junk(bytes: nat)

  /** `ledger` lists the rows on the file's lines, except for a junk last line. */
  datatype Disk = Disk(ledger: seq<Row>, end: Ending, files: map<Slot, string>, tail: Tail, txn: Option<Txn>)

  /** What the writer is about to do; everything is lost in a crash. */
  datatype Phase =
    | Idle | Journaling(row: Row) | Copying(row: Row) | Writing(row: Row) | Appending(row: Row) | Pointing(row: Row)
    | Cleaning(row: Row)

  datatype State = State(disk: Disk, phase: Phase)

  ghost predicate Sound(h: Hashes) {
    && (forall a, b :: h.content(a) == h.content(b) ==> a == b)
    && (forall a, b :: h.row(a) == h.row(b) ==> a == b)
    && (forall r :: h.length(r) > 1)
  }

  // ---------------------------------------------------------------- the ledger

  function LastDigest(ledger: seq<Row>): Option<string> {
    if ledger == [] then None else Some(ledger[|ledger| - 1].digest)
  }

  function Bytes(h: Hashes, ledger: seq<Row>): nat {
    if ledger == [] then 0 else Bytes(h, ledger[..|ledger| - 1]) + h.length(ledger[|ledger| - 1])
  }

  /** The tail of the first `k` rows. */
  function TailAt(h: Hashes, ledger: seq<Row>, k: nat): Tail
    requires k <= |ledger|
  {
    Tail(k, LastDigest(ledger[..k]), Bytes(h, ledger[..k]))
  }

  /** The file's size. */
  function Size(h: Hashes, d: Disk): int {
    Bytes(h, d.ledger) + match d.end case Whole => 0 case Open => -1 case Junk(n) => n
  }

  function TailOf(h: Hashes, d: Disk): Tail {
    Tail(|d.ledger|, LastDigest(d.ledger), Size(h, d))
  }

  /** Every line is one value. */
  predicate Parsed(d: Disk) { !d.end.Junk? }

  /** The i-th line is short enough to be read. */
  predicate LineFits(h: Hashes, d: Disk, i: nat)
    requires i < |d.ledger|
  {
    h.length(d.ledger[i]) - (if d.end.Open? && i == |d.ledger| - 1 then 1 else 0) <= MAX_LINE_BYTES
  }

  /** `_rows` reads the ledger: every line is one value, and the bounds on lines, rows and bytes hold. */
  ghost predicate Readable(h: Hashes, d: Disk) {
    Parsed(d) && Bounded(h, d)
  }

  ghost predicate Bounded(h: Hashes, d: Disk) {
    && |d.ledger| <= MAX_ROWS && Size(h, d) <= MAX_LEDGER_BYTES
    && forall i :: 0 <= i < |d.ledger| ==> LineFits(h, d, i)
  }

  /** Another `bytes` bytes on a line of their own keep the ledger within its bounds. */
  predicate HasRoom(h: Hashes, d: Disk, bytes: nat) {
    |d.ledger| < MAX_ROWS && Size(h, d) + bytes <= MAX_LEDGER_BYTES && bytes <= MAX_LINE_BYTES
  }

  function SlotOf(h: Hashes, e: Entry): Slot {
    Slot(e.kind, h.content(e.text))
  }

  /** `_make_ledger_row` */
  function MakeRow(h: Hashes, tail: Tail, e: Entry): Row {
    var body := Body(tail.sequence + 1, e, tail.digest);
    Row(body, h.row(body))
  }

  /** The row that would come next. */
  function NextRow(h: Hashes, ledger: seq<Row>, e: Entry): Row {
    MakeRow(h, TailAt(h, ledger, |ledger|), e)
  }

  predicate HasSlot(h: Hashes, ledger: seq<Row>, slot: Slot) {
    exists i :: 0 <= i < |ledger| && SlotOf(h, ledger[i].body.entry) == slot
  }

  /** The document is new, and the journal for its row is not refused as too large. */
  predicate CanBegin(h: Hashes, ledger: seq<Row>, e: Entry) {
    !e.kind.SnapshotEntry? && !HasSlot(h, ledger, SlotOf(h, e)) && h.journal(NextRow(h, ledger, e)) <= MAX_JOURNAL_BYTES
  }

  predicate LinkedAt(h: Hashes, ledger: seq<Row>, i: nat)
    requires i < |ledger|
  {
    ledger[i] == NextRow(h, ledger[..i], ledger[i].body.entry)
  }

  /** Contiguous sequence numbers, each row naming and digesting what comes before it. */
  ghost predicate Linked(h: Hashes, ledger: seq<Row>) {
    forall i {:trigger LinkedAt(h, ledger, i)} :: 0 <= i < |ledger| ==> LinkedAt(h, ledger, i)
  }

  /** `_load_tail_locked`, on a readable ledger: the remembered tail if it fits, otherwise one read off the file. */
  function LoadTail(h: Hashes, d: Disk): Tail {
    var fits := d.tail.bytes == Size(h, d) &&
                ((d.tail.sequence == 0 && d.tail.digest == None) ||
                 (d.ledger != [] && d.ledger[|d.ledger| - 1].body.sequence == d.tail.sequence
                  && LastDigest(d.ledger) == d.tail.digest));
    if fits then d.tail else TailOf(h, d)
  }

  // ---------------------------------------------------------------- steps

  function Journal(d: Disk): Option<Row> {
    match d.txn case Some(txn) => txn.journal case None => None
  }

  datatype Action = Begin(entry: Entry) | Proceed | Tear(kept: nat) | DropJournal | DropCopy | Crash | Recover

  /** Another document's text is where this row's content belongs. */
  predicate Collides(h: Hashes, files: map<Slot, string>, row: Row) {
    var slot := SlotOf(h, row.body.entry);
    slot in files && files[slot] != row.body.entry.text
  }

  predicate Filed(h: Hashes, files: map<Slot, string>, row: Row) {
    var slot := SlotOf(h, row.body.entry);
    row.body.entry.kind.SnapshotEntry? || (slot in files && files[slot] == row.body.entry.text)
  }

  function Matching(ledger: seq<Row>, digest: string): Option<Row> {
    if ledger == [] then None
    else if ledger[0].digest == digest then Some(ledger[0])
    else Matching(ledger[1..], digest)
  }

  /** Where `_recover_one_locked` takes a journal up; None when it refuses. */
  function Resume(h: Hashes, d: Disk, row: Row): Option<Phase> {
    match Matching(d.ledger, row.digest)
    case Some(other) => if other == row && Filed(h, d.files, row) then Some(Cleaning(row)) else None
    case None =>
      if LastDigest(d.ledger) != row.body.previous || row.body.sequence != |d.ledger| + 1 || Collides(h, d.files, row) then None
      else Some(Writing(row))
  }

  function AllButLast(ledger: seq<Row>): seq<Row> {
    if ledger == [] then [] else ledger[..|ledger| - 1]
  }

  function LastLength(h: Hashes, ledger: seq<Row>): nat {
    if ledger == [] then 0 else h.length(ledger[|ledger| - 1])
  }

  /** The first `kept` bytes of the row's line reach the file (all of them, in an append that completes). They
      follow whatever is there: onto a row without its newline they make one line of two values, and a line
      cut short is no value at all. */
  function Written(h: Hashes, d: Disk, row: Row, kept: nat): Disk {
    if kept == 0 then d
    else match d.end
      case Whole =>
        if kept >= h.length(row) then d.(ledger := d.ledger + [row])
        else if kept == h.length(row) - 1 then d.(ledger := d.ledger + [row], end := Open)
        else d.(end := Junk(kept))
      case Open =>
        d.(ledger := AllButLast(d.ledger), end := Junk(LastLength(h, d.ledger) + kept))
      case Junk(n) => d.(end := Junk(n + kept))
  }

  function Advance(h: Hashes, d: Disk, phase: Phase): State {
    match phase
    case Idle => State(d, Idle)
    case Journaling(row) =>
      if h.journal(row) > MAX_JOURNAL_BYTES then State(d.(txn := None), Idle)
      else State(d.(txn := Some(Txn(Some(row), false))), Copying(row))
    case Copying(row) => State(d.(txn := Some(Txn(Some(row), true))), Writing(row))
    case Writing(row) =>
      if Collides(h, d.files, row) then State(d, Idle)
      else State(d.(files := d.files[SlotOf(h, row.body.entry) := row.body.entry.text]), Appending(row))
    case Appending(row) => State(Written(h, d, row, h.length(row)), Pointing(row))
    case Pointing(row) =>
      State(d.(tail := Tail(row.body.sequence, Some(row.digest), Size(h, d))), Cleaning(row))
    case Cleaning(row) =>
      if d.txn == Some(Txn(None, false)) then State(d.(txn := None), Idle) else State(d, phase)
  }

  /** One durable write, one crash, or the start of a commit or of a recovery. An action that is not
      possible changes nothing. */
  ghost function Act(h: Hashes, s: State, a: Action): State {
    var d := s.disk;
    match a
    case Begin(e) =>
      if s.phase.Idle? && d.txn.None? && Readable(h, d) && !e.kind.SnapshotEntry? && !HasSlot(h, d.ledger, SlotOf(h, e)) then
        var tail := LoadTail(h, d);
        State(d.(tail := tail, txn := Some(Txn(None, false))), Journaling(MakeRow(h, tail, e)))
      else s
    case Proceed => Advance(h, d, s.phase)
    case Tear(kept) =>
      if s.phase.Appending? && kept < h.length(s.phase.row) then State(Written(h, d, s.phase.row, kept), Idle) else s
    case DropJournal =>
      if s.phase.Cleaning? && d.txn.Some? then s.(disk := d.(txn := Some(d.txn.value.(journal := None)))) else s
    case DropCopy =>
      if s.phase.Cleaning? && d.txn.Some? then s.(disk := d.(txn := Some(d.txn.value.(copy := false)))) else s
    case Crash => s.(phase := Idle)
    case Recover =>
      if s.phase.Idle? && Journal(d).Some? && Readable(h, d) then
        match Resume(h, d, Journal(d).value)
        case Some(phase) => s.(phase := phase)
        case None => s
      else s
  }

  ghost function Run(h: Hashes, s: State, actions: seq<Action>): State {
    if actions == [] then s else Act(h, Run(h, s, actions[..|actions| - 1]), actions[|actions| - 1])
  }

  /** `init` */
  const EMPTY := State(Disk([], Whole, map[], Tail(0, None, 0), None), Idle)

  /** `add_snapshot` on an empty store. */
  function Opened(h: Hashes, e: Entry): State {
    var row := NextRow(h, [], e);
    State(Disk([row], Whole, map[], Tail(1, Some(row.digest), h.length(row)), None), Idle)
  }

  /** A store begins empty or, once it is compacted, with a snapshot. */
  ghost predicate Initial(h: Hashes, s: State) {
    s == EMPTY || exists e: Entry :: e.kind.SnapshotEntry? && s == Opened(h, e)
  }

  // ---------------------------------------------------------------- what every run keeps

  /** The row is the next one, for a document the ledger does not have. */
  ghost predicate Upcoming(h: Hashes, ledger: seq<Row>, row: Row) {
    && row == NextRow(h, ledger, row.body.entry) && !HasSlot(h, ledger, SlotOf(h, row.body.entry))
    && !row.body.entry.kind.SnapshotEntry?
  }

  predicate Latest(ledger: seq<Row>, row: Row) {
    ledger != [] && ledger[|ledger| - 1] == row
  }

  ghost predicate AllFiled(h: Hashes, ledger: seq<Row>, files: map<Slot, string>) {
    forall i :: 0 <= i < |ledger| ==> Filed(h, files, ledger[i])
  }

  /** A content file belongs to a ledger row, or to the row in the journal. */
  ghost predicate NoStrays(h: Hashes, ledger: seq<Row>, files: map<Slot, string>, journal: Option<Row>) {
    forall slot :: slot in files ==>
      && h.content(files[slot]) == slot.digest
      && (HasSlot(h, ledger, slot) || (journal.Some? && SlotOf(h, journal.value.body.entry) == slot))
  }

  ghost predicate OncePerDocument(h: Hashes, ledger: seq<Row>) {
    forall i, j :: 0 <= i < j < |ledger| ==> SlotOf(h, ledger[i].body.entry) != SlotOf(h, ledger[j].body.entry)
  }

  /** The remembered tail was right at some earlier length, or is right now. */
  ghost predicate OldTail(h: Hashes, ledger: seq<Row>, end: Ending, tail: Tail) {
    || (exists k :: 0 <= k <= |ledger| && tail == TailAt(h, ledger, k))
    || (end.Open? && tail == Tail(|ledger|, LastDigest(ledger), Bytes(h, ledger) - 1))
  }

  ghost predicate Journaled(h: Hashes, ledger: seq<Row>, journal: Option<Row>) {
    journal.Some? ==>
      && (Upcoming(h, ledger, journal.value) || Latest(ledger, journal.value)) && !journal.value.body.entry.kind.SnapshotEntry?
  }

  ghost predicate InPhase(h: Hashes, s: State) {
    var d := s.disk;
    match s.phase
    case Idle => true
    case Journaling(row) => Upcoming(h, d.ledger, row) && d.txn == Some(Txn(None, false))
    case Copying(row) => Upcoming(h, d.ledger, row) && d.txn == Some(Txn(Some(row), false))
    case Writing(row) => Upcoming(h, d.ledger, row) && Journal(d) == Some(row)
    case Appending(row) => Upcoming(h, d.ledger, row) && Journal(d) == Some(row) && Filed(h, d.files, row)
    case Pointing(row) => d.end.Whole? && Latest(d.ledger, row) && Journal(d) == Some(row)
    case Cleaning(row) => Latest(d.ledger, row) && d.txn.Some? && Journal(d) in {None, Some(row)}
  }

  /** What a store whose ledger parses satisfies between any two writes, within its bounds or past them. */
  ghost predicate Sane(h: Hashes, s: State) {
    var d := s.disk;
    && Linked(h, d.ledger) && OncePerDocument(h, d.ledger) && AllFiled(h, d.ledger, d.files)
    && NoStrays(h, d.ledger, d.files, Journal(d)) && OldTail(h, d.ledger, d.end, d.tail) && Journaled(h, d.ledger, Journal(d))
    && (d.end.Open? ==> d.ledger != []) && InPhase(h, s)
  }

  ghost predicate Good(h: Hashes, s: State) {
    Parsed(s.disk) ==> Sane(h, s)
  }

  /** Sequence numbers count from one. */
  ghost predicate Numbered(rows: seq<Row>) {
    forall i :: 0 <= i < |rows| ==> rows[i].body.sequence == i + 1
  }

  lemma LinkedIsNumbered(h: Hashes, rows: seq<Row>)
    requires Linked(h, rows)
    ensures Numbered(rows)
  {
    forall i | 0 <= i < |rows| ensures rows[i].body.sequence == i + 1 { assert LinkedAt(h, rows, i); }
  }
}
