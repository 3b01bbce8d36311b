/** Incremental reads of the ledger (`sync_since`): pages chained by cursors lose and repeat nothing, and a
    cursor is accepted exactly where the ledger still begins as it did when the cursor was given out. */
module Sync {
  import opened Order
  import opened Ledger

  const MAX_SYNC_ENTRIES := 1_000

  datatype Cursor = Cursor(store: string, sequence: int, digest: Option<string>)
  datatype Page = Page(entries: seq<Row>, next: Cursor, hasMore: bool, truncated: bool)
  datatype Failure = BadLimit | InvalidCursor | StaleCursor
  datatype Outcome = Ok(page: Page) | Err(error: Failure)

  /** `_cursor_for`, at a length of the ledger. */
  function CursorAt(store: string, rows: seq<Row>, n: nat): Cursor
    requires n <= |rows|
  {
    Cursor(store, n, LastDigest(rows[..n]))
  }

  /** Why a cursor is turned away, if it is. */
  function Rejects(store: string, rows: seq<Row>, cursor: Option<Cursor>): Option<Failure> {
    match cursor
    case None => None
    case Some(c) =>
      if c.store != store then Some(InvalidCursor)
      else if c.sequence < 0 || c.sequence > |rows| then Some(StaleCursor)
      else if c.sequence == 0 && c.digest.Some? then Some(InvalidCursor)
      else if c.sequence > 0 && c.digest != Some(rows[c.sequence - 1].digest) then Some(StaleCursor)
      else None
  }

  function Kept(rows: seq<Row>, keep: Row -> bool): seq<Row> {
    if rows == [] then []
    else
      var front, last := Kept(rows[..|rows| - 1], keep), rows[|rows| - 1];
      if keep(last) then front + [last] else front
  }

  lemma {:induction false} KeptConcat(a: seq<Row>, b: seq<Row>, keep: Row -> bool)
    ensures Kept(a + b, keep) == Kept(a, keep) + Kept(b, keep)
  {
    if b == [] {
      assert a + b == a;
    } else {
      var n := |b| - 1;
      KeptConcat(a, b[..n], keep);
      assert (a + b)[..|a| + n] == a + b[..n];
    }
  }

  /** `at` lists the places of the wanted rows, in the order of the ledger, and `some` the rows there. */
  ghost predicate Places(rows: seq<Row>, keep: Row -> bool, some: seq<Row>, at: seq<nat>) {
    && |at| == |some| && (forall j, k :: 0 <= j < k < |at| ==> at[j] < at[k])
    && (forall k :: 0 <= k < |at| ==> at[k] < |rows| && some[k] == rows[at[k]] && keep(rows[at[k]]))
    && forall i :: 0 <= i < |rows| && keep(rows[i]) ==> i in at
  }

  /** Exactly the wanted rows, each once, in the order of the ledger. */
  lemma {:induction false} KeptAre(rows: seq<Row>, keep: Row -> bool)
    ensures exists at :: Places(rows, keep, Kept(rows, keep), at)
  {
    if rows == [] {
      var none: seq<nat> := [];
      assert Kept(rows, keep) == [] && Places(rows, keep, Kept(rows, keep), none);
    } else {
      var n := |rows| - 1;
      KeptAre(rows[..n], keep);
      var some := Kept(rows[..n], keep);
      var at :| Places(rows[..n], keep, some, at);
      hide Places;
      if keep(rows[n]) {
        OneMorePlace(rows, keep, some, at);
        assert Kept(rows, keep) == some + [rows[n]];
      } else {
        SamePlaces(rows, keep, some, at);
        assert Kept(rows, keep) == some;
      }
    }
  }

  lemma OneMorePlace(rows: seq<Row>, keep: Row -> bool, some: seq<Row>, at: seq<nat>)
    requires rows != [] && keep(rows[|rows| - 1]) && Places(rows[..|rows| - 1], keep, some, at)
    ensures Places(rows, keep, some + [rows[|rows| - 1]], at + [|rows| - 1])
  {
    var n := |rows| - 1;
    var more := at + [n];
    assert more[|at|] == n;
    forall i | 0 <= i < |rows| && keep(rows[i]) ensures i in more {
      if i < n { assert keep(rows[..n][i]) && i in at; }
    }
  }

  lemma SamePlaces(rows: seq<Row>, keep: Row -> bool, some: seq<Row>, at: seq<nat>)
    requires rows != [] && !keep(rows[|rows| - 1]) && Places(rows[..|rows| - 1], keep, some, at)
    ensures Places(rows, keep, some, at)
  {
    var n := |rows| - 1;
    forall i | 0 <= i < |rows| && keep(rows[i]) ensures i in at { assert keep(rows[..n][i]); }
  }

  // ---------------------------------------------------------------- one page

  /** The page covers a whole stretch of the ledger: every wanted row in it, as many as allowed, and it ends
      only at the limit or at the end. */
  ghost predicate Covers(store: string, rows: seq<Row>, from: nat, limit: nat, keep: Row -> bool, page: Page) {
    && from <= page.next.sequence <= |rows|
    && page.entries == Kept(rows[from..page.next.sequence], keep)
    && page.next == CursorAt(store, rows, page.next.sequence)
    && |page.entries| <= limit
    && (page.hasMore <==> page.next.sequence < |rows|)
    && (page.hasMore ==> |page.entries| == limit && page.next.sequence > from)
    && (page.truncated <==> page.hasMore)
  }

  /** `sync_since` */
  method SyncSince(store: string, rows: seq<Row>, cursor: Option<Cursor>, limit: int, keep: Row -> bool)
    returns (r: Outcome)
    requires Numbered(rows)
    ensures r == Err(BadLimit) <==> limit < 1 || limit > MAX_SYNC_ENTRIES
    ensures 1 <= limit <= MAX_SYNC_ENTRIES ==>
              match Rejects(store, rows, cursor)
              case Some(e) => r == Err(e)
              case None =>
                r.Ok? && Covers(store, rows, if cursor.Some? then cursor.value.sequence else 0, limit, keep, r.page)
  {
    if limit < 1 || limit > MAX_SYNC_ENTRIES {
      return Err(BadLimit);
    }
    var sequence := 0;
    if cursor.Some? {
      var c := cursor.value;
      if c.store != store { return Err(InvalidCursor); }
      if c.sequence < 0 || c.sequence > |rows| { return Err(StaleCursor); }
      if c.sequence == 0 && c.digest.Some? { return Err(InvalidCursor); }
      if c.sequence > 0 && Some(rows[c.sequence - 1].digest) != c.digest { return Err(StaleCursor); }
      sequence := c.sequence;
    }
    var selected: seq<Row> := [];
    var scanned := sequence;
    var i := sequence;
    while i < |rows|
      invariant sequence <= i <= |rows| && scanned == i
      invariant selected == Kept(rows[sequence..i], keep) && |selected| < limit
    {
      var row := rows[i];
      assert rows[sequence..i + 1][..i - sequence] == rows[sequence..i];
      scanned := row.body.sequence;
      i := i + 1;
      if keep(row) {
        selected := selected + [row];
        if |selected| >= limit { break; }
      }
    }
    assert LastDigest(rows[..scanned]) == if scanned > 0 then Some(rows[scanned - 1].digest) else None;
    var next := Cursor(store, scanned, if scanned > 0 then Some(rows[scanned - 1].digest) else None);
    return Ok(Page(selected, next, scanned < |rows|, |selected| >= limit && scanned < |rows|));
  }

  // ---------------------------------------------------------------- chains of pages

  datatype Reading = Reading(rows: seq<Row>, limit: nat, page: Page)

  /** Successive reads of a growing ledger, each from the cursor of the one before, the first from nothing. */
  ghost predicate Chained(store: string, readings: seq<Reading>, keep: Row -> bool) {
    readings == [] ||
    var n := |readings| - 1;
    && Chained(store, readings[..n], keep)
    && (n > 0 ==> readings[n - 1].rows <= readings[n].rows)
    && Covers(store, readings[n].rows, if n == 0 then 0 else Upto(readings[n - 1]), readings[n].limit, keep, readings[n].page)
  }

  function Upto(r: Reading): nat {
    if r.page.next.sequence < 0 then 0 else r.page.next.sequence
  }

  function Entries(readings: seq<Reading>): seq<Row> {
    if readings == [] then [] else Entries(readings[..|readings| - 1]) + readings[|readings| - 1].page.entries
  }

  /** However the ledger grows between reads and whatever the limits, the pages put together are exactly the
      wanted rows up to the last cursor, in order and once each. */
  lemma {:induction false} NothingSkipped(store: string, readings: seq<Reading>, keep: Row -> bool)
    requires readings != [] && Chained(store, readings, keep)
    ensures var last := readings[|readings| - 1];
            && Upto(last) <= |last.rows|
            && Entries(readings) == Kept(last.rows[..Upto(last)], keep)
            && (!last.page.hasMore ==> Entries(readings) == Kept(last.rows, keep))
  {
    hide Kept, CursorAt, Entries;
    var n := |readings| - 1;
    var last := readings[n];
    EntriesLast(readings);
    if n == 0 {
      Resumes([], 0, last.rows, Upto(last), keep);
    } else {
      var front := readings[..n];
      NothingSkipped(store, front, keep);
      assert front[n - 1] == readings[n - 1];
      Resumes(front[n - 1].rows, Upto(front[n - 1]), last.rows, Upto(last), keep);
    }
    assert !last.page.hasMore ==> last.rows[..Upto(last)] == last.rows;
  }

  lemma EntriesLast(readings: seq<Reading>)
    requires readings != []
    ensures Entries(readings) == Entries(readings[..|readings| - 1]) + readings[|readings| - 1].page.entries
    ensures |readings| == 1 ==> Entries(readings[..0]) == []
  {}

  /** Reading on from where an earlier ledger was left. */
  lemma Resumes(earlier: seq<Row>, from: nat, rows: seq<Row>, to: nat, keep: Row -> bool)
    requires from <= |earlier| && earlier <= rows && from <= to <= |rows|
    ensures Kept(earlier[..from], keep) + Kept(rows[from..to], keep) == Kept(rows[..to], keep)
    ensures from == 0 ==> Kept(earlier[..from], keep) == []
  {
    assert earlier[..from] == rows[..from];
    KeptConcat(rows[..from], rows[from..to], keep);
    assert rows[..from] + rows[from..to] == rows[..to];
  }

  // ---------------------------------------------------------------- what a cursor stands for

  /** A cursor given out by a store is accepted for as long as its ledger only grows. */
  lemma CursorsStayGood(store: string, rows: seq<Row>, more: seq<Row>, n: nat)
    requires n <= |rows| && rows <= more
    ensures Rejects(store, more, Some(CursorAt(store, rows, n))) == None
  {
    if n > 0 { assert rows[..n][n - 1] == more[n - 1]; }
  }

  /** Rows are chained by their digests, so one digest fixes everything before it. */
  lemma {:induction false} DigestFixesPrefix(h: Hashes, a: seq<Row>, b: seq<Row>, n: nat)
    requires Sound(h) && Linked(h, a) && Linked(h, b) && 0 < n <= |a| && n <= |b|
    requires a[n - 1].digest == b[n - 1].digest
    ensures a[..n] == b[..n]
  {
    assert LinkedAt(h, a, n - 1) && LinkedAt(h, b, n - 1);
    assert a[n - 1] == b[n - 1];
    if n > 1 {
      assert LastDigest(a[..n - 1]) == Some(a[n - 2].digest);
      assert LastDigest(b[..n - 1]) == Some(b[n - 2].digest);
      DigestFixesPrefix(h, a, b, n - 1);
    }
    assert a[..n] == a[..n - 1] + [a[n - 1]] && b[..n] == b[..n - 1] + [b[n - 1]];
  }

  /** Against any other linked ledger, such as one that a compaction installed, the cursor is accepted exactly
      when the store is still the one that gave it out and the ledger begins with the very rows the reader has
      already seen. */
  lemma AcceptedIffSamePrefix(h: Hashes, store: string, here: string, rows: seq<Row>, other: seq<Row>, n: nat)
    requires Sound(h) && Linked(h, rows) && Linked(h, other) && n <= |rows|
    ensures Rejects(here, other, Some(CursorAt(store, rows, n))) == None <==>
            here == store && n <= |other| && rows[..n] == other[..n]
  {
    if n > 0 {
      assert rows[..n][n - 1] == rows[n - 1];
      if n <= |other| {
        if rows[n - 1].digest == other[n - 1].digest { DigestFixesPrefix(h, rows, other, n); }
        if rows[..n] == other[..n] { assert other[..n][n - 1] == other[n - 1]; }
      }
    } else {
      assert n <= |other| ==> rows[..n] == other[..n];
    }
  }
}
