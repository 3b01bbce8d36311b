/** A bundle made from a valid store is accepted, and importing it elsewhere brings every record's
    lifecycle along. */
module BundleImport {
  import opened Order
  import opened Rearrange
  import opened Records
  import opened Commons
  import opened Bundle
  import Semantic
  import Lifecycle
  import EventAdmission
  import Compaction
  import Retention

  // ---------------------------------------------------------------- what holds of a store

  /** The document is valid and stored under its content digest, a `sha256:` and hexadecimal digits. */
  predicate Sound(o: Oracle, doc: Doc) {
    o.valid(doc) && o.hash(doc) == DigestOf(doc) && HexDigest(DigestOf(doc))
  }

  ghost predicate SoundStore(o: Oracle, records: seq<Record>, events: seq<Lifecycle.Event>) {
    && DistinctDigests(records) && EventAdmission.Logged(Bares(records), events)
    && (forall i :: 0 <= i < |records| ==> Sound(o, RecordDoc(records[i])))
    && (forall i :: 0 <= i < |events| ==> Sound(o, EventDoc(events[i])))
  }

  /** A selection of records with the events about them, as `Create` chooses it, is sound itself. */
  lemma SelectionIsSound(o: Oracle, records: seq<Record>, events: seq<Lifecycle.Event>, selected: seq<Record>)
    requires SoundStore(o, records, events) && DistinctDigests(selected) && forall r :: r in selected ==> r in records
    ensures SoundStore(o, selected, Lifecycle.Keep(events, Compaction.AboutHot(selected)))
  {
    hide Sound, EventAdmission.Logged, Bares, Compaction.AboutHot;
    var keep := Compaction.AboutHot(selected);
    var chosen := Lifecycle.Keep(events, keep);
    FilteredLog(records, selected, events);
    forall i | 0 <= i < |selected| ensures Sound(o, RecordDoc(selected[i])) {
      assert selected[i] in records;
    }
    forall i | 0 <= i < |chosen| ensures Sound(o, EventDoc(chosen[i])) {
      Lifecycle.KeepMembers(events, keep, chosen[i]);
    }
  }

  // ---------------------------------------------------------------- a created bundle is accepted

  function DocOf(records: seq<Record>, events: seq<Lifecycle.Event>, i: nat): Doc
    requires i < |records| + |events|
  {
    if i < |records| then RecordDoc(records[i]) else EventDoc(events[i - |records|])
  }

  /** The i-th file holds the i-th document under its own path, and the i-th member describes it. */
  lemma FileAt(o: Oracle, records: seq<Record>, events: seq<Lifecycle.Event>, i: nat)
    requires i < |records| + |events|
    ensures |MembersOf(o, records, events)| == |FilesOf(records, events)| == |records| + |events|
    ensures var doc := DocOf(records, events, i);
            var path := PathOf(KindOf(doc), DigestOf(doc));
            && FilesOf(records, events)[i] == File(path, doc)
            && MembersOf(o, records, events)[i].path == path
            && MembersOf(o, records, events)[i].(order := None) == Member(path, KindOf(doc), DigestOf(doc), o.size(doc), None)
  {
    hide PathOf;
  }

  lemma DocsDiffer(o: Oracle, records: seq<Record>, events: seq<Lifecycle.Event>, i: nat, j: nat)
    requires SoundStore(o, records, events) && i < j < |records| + |events|
    ensures var a, b := DocOf(records, events, i), DocOf(records, events, j);
            Sound(o, a) && Sound(o, b) && (KindOf(a) != KindOf(b) || DigestOf(a) != DigestOf(b))
  {
    hide Sound, EventAdmission.Logged, Bares;
    EventAdmission.LoggedContentAddressed(Bares(records), events);
  }

  lemma PathsDifferBy(o: Oracle, a: Doc, b: Doc)
    requires Sound(o, a) && Sound(o, b) && (KindOf(a) != KindOf(b) || DigestOf(a) != DigestOf(b))
    ensures PathOf(KindOf(a), DigestOf(a)) != PathOf(KindOf(b), DigestOf(b))
  {
    hide PathOf, HexDigest;
    HexIsDigest(DigestOf(a));
    HexIsDigest(DigestOf(b));
    if PathOf(KindOf(a), DigestOf(a)) == PathOf(KindOf(b), DigestOf(b)) {
      PathsDiffer(KindOf(a), DigestOf(a), KindOf(b), DigestOf(b));
    }
  }

  lemma FilesAreDistinct(o: Oracle, records: seq<Record>, events: seq<Lifecycle.Event>)
    requires SoundStore(o, records, events)
    ensures DistinctPaths(FilesOf(records, events))
    ensures DistinctMembers(MembersOf(o, records, events))
  {
    hide PathOf, SoundStore, FilesOf, MembersOf, Sound, DocOf;
    var files, members := FilesOf(records, events), MembersOf(o, records, events);
    if |records| + |events| > 0 { FileAt(o, records, events, 0); } else { NoFiles(o); }
    forall i, j | 0 <= i < j < |files| ensures files[i].path != files[j].path && members[i].path != members[j].path {
      FileAt(o, records, events, i);
      FileAt(o, records, events, j);
      DocsDiffer(o, records, events, i, j);
      PathsDifferBy(o, DocOf(records, events, i), DocOf(records, events, j));
    }
  }

  lemma NoFiles(o: Oracle)
    ensures FilesOf([], []) == [] && MembersOf(o, [], []) == []
  {}

  lemma HexIsDigest(d: string)
    requires HexDigest(d)
    ensures Retention.IsDigest(d)
  {}

  lemma FileIsSafe(o: Oracle, doc: Doc)
    requires Sound(o, doc)
    ensures var m := PathOf(KindOf(doc), DigestOf(doc)); Safe(m) && m != MANIFEST && Prefix(KindOf(doc)) <= m
  {
    PathIsSafe(KindOf(doc), DigestOf(doc));
  }

  lemma MemberDescribes(o: Oracle, records: seq<Record>, events: seq<Lifecycle.Event>, i: nat)
    requires SoundStore(o, records, events) && i < |records| + |events|
    ensures |MembersOf(o, records, events)| == |FilesOf(records, events)| == |records| + |events|
    ensures var m, f := MembersOf(o, records, events)[i], FilesOf(records, events)[i];
            m.path == f.path && Placed(m) && Matches(o, m, f.doc) && SafeFile(f)
  {
    assert Sound(o, DocOf(records, events, i));
    hide PathOf, HexDigest, SoundStore, Safe, FilesOf, MembersOf, DocOf;
    FileAt(o, records, events, i);
    FileIsSafe(o, DocOf(records, events, i));
  }

  /** The members describe the files one by one. */
  ghost predicate Describe(o: Oracle, members: seq<Member>, files: seq<File>) {
    && |members| == |files|
    && forall i :: 0 <= i < |files| ==>
         members[i].path == files[i].path && Placed(members[i]) && Matches(o, members[i], files[i].doc) && SafeFile(files[i])
  }

  lemma MembersDescribe(o: Oracle, records: seq<Record>, events: seq<Lifecycle.Event>)
    requires SoundStore(o, records, events)
    ensures Describe(o, MembersOf(o, records, events), FilesOf(records, events))
  {
    hide SoundStore, FilesOf, MembersOf, Placed, Matches, SafeFile;
    var members, files := MembersOf(o, records, events), FilesOf(records, events);
    if |records| + |events| > 0 { MemberDescribes(o, records, events, 0); } else { NoFiles(o); }
    forall i | 0 <= i < |files|
      ensures members[i].path == files[i].path && Placed(members[i]) && Matches(o, members[i], files[i].doc) && SafeFile(files[i])
    {
      MemberDescribes(o, records, events, i);
    }
  }

  lemma DescribedMembersOk(o: Oracle, members: seq<Member>, files: seq<File>, listed: seq<Member>, stored: seq<File>)
    requires Describe(o, members, files) && Reorders(listed, members) && Reorders(stored, files)
    ensures forall i :: 0 <= i < |listed| ==> MemberOk(o, stored, listed[i])
    ensures MemberPaths(listed) == Paths(stored)
    ensures forall i :: 0 <= i < |stored| ==> SafeFile(stored[i])
  {
    hide Placed, Matches, SafeFile, Reorders;
    SameMembers(listed, members);
    SameMembers(stored, files);
    forall i | 0 <= i < |listed| ensures MemberOk(o, stored, listed[i]) {
      assert listed[i] in members;
      var k :| 0 <= k < |members| && members[k] == listed[i];
      assert files[k] in stored;
    }
    forall i | 0 <= i < |stored| ensures SafeFile(stored[i]) {
      assert stored[i] in files;
    }
    SamePaths(members, files);
    assert MemberPaths(listed) == MemberPaths(members);
    assert Paths(stored) == Paths(files);
  }

  lemma DescribedIsAcceptable(o: Oracle, b: Bundle, members: seq<Member>, files: seq<File>)
    requires Describe(o, members, files) && DistinctPaths(files) && DistinctMembers(members)
    requires Reorders(b.manifest.members, members) && Reorders(b.files, files)
    requires Small(o, b) && b.manifest.version == VERSION && b.bundleDigest == o.seal(b.manifest)
    ensures Acceptable(o, b)
  {
    hide Total, SafeFile, Describe, MemberOk, MemberPaths, Paths, Reorders;
    DistinctInAnyOrder((f: File) => f.path, files, b.files);
    DistinctInAnyOrder((m: Member) => m.path, members, b.manifest.members);
    DescribedMembersOk(o, members, files, b.manifest.members, b.files);
  }

  /** The bundle built from a sound store, within the limits, passes every check. */
  lemma CreatedIsAccepted(o: Oracle, roots: seq<string>, maxDepth: nat, records: seq<Record>, events: seq<Lifecycle.Event>)
    requires SoundStore(o, records, events) && Small(o, Packed(o, roots, maxDepth, records, events))
    ensures Acceptable(o, Packed(o, roots, maxDepth, records, events))
  {
    hide SoundStore, MembersOf, FilesOf, Sort, Describe, Acceptable, DistinctPaths, DistinctMembers, Small;
    var b := Packed(o, roots, maxDepth, records, events);
    FilesAreDistinct(o, records, events);
    MembersDescribe(o, records, events);
    DescribedIsAcceptable(o, b, MembersOf(o, records, events), FilesOf(records, events));
  }

  lemma SamePaths(members: seq<Member>, files: seq<File>)
    requires |members| == |files| && forall i :: 0 <= i < |files| ==> members[i].path == files[i].path
    ensures MemberPaths(members) == Paths(files)
  {
    forall p | p in Paths(files) ensures p in MemberPaths(members) {
      var f :| f in files && f.path == p;
      var i :| 0 <= i < |files| && files[i] == f;
      assert members[i] in members;
    }
    forall p | p in MemberPaths(members) ensures p in Paths(files) {
      var m :| m in members && m.path == p;
      var i :| 0 <= i < |members| && members[i] == m;
      assert files[i] in files;
    }
  }

  // ---------------------------------------------------------------- the order of import

  function OrderOf(m: Member): int {
    match m.order case None => -1 case Some(n) => n
  }

  /** Records first, then events by their recorded order; ties by path. */
  predicate ImportLe(a: Member, b: Member) {
    if a.kind != b.kind then a.kind.RecordKind?
    else if OrderOf(a) != OrderOf(b) then OrderOf(a) < OrderOf(b)
    else LexLe(a.path, b.path)
  }

  predicate RecordPathLe(a: Record, b: Record) { LexLe(PathOf(RecordKind, a.digest), PathOf(RecordKind, b.digest)) }

  function ByPath(records: seq<Record>): seq<Record> { Sort(RecordPathLe, records) }

  lemma ImportPreorder()
    ensures TotalPreorder(ImportLe) && TotalPreorder(RecordPathLe)
  {
    hide LexLe, PathOf;
    forall x, y ensures ImportLe(x, y) || ImportLe(y, x) { LexTotal(x.path, y.path); }
    forall x, y, z | ImportLe(x, y) && ImportLe(y, z) ensures ImportLe(x, z) {
      if LexLe(x.path, y.path) && LexLe(y.path, z.path) { LexTransitive(x.path, y.path, z.path); }
    }
    forall x, y ensures RecordPathLe(x, y) || RecordPathLe(y, x) {
      LexTotal(PathOf(RecordKind, x.digest), PathOf(RecordKind, y.digest));
    }
    forall x, y, z | RecordPathLe(x, y) && RecordPathLe(y, z) ensures RecordPathLe(x, z) {
      LexTransitive(PathOf(RecordKind, x.digest), PathOf(RecordKind, y.digest), PathOf(RecordKind, z.digest));
    }
  }

  /** Sorting the manifest's members for import lists the records by path and then the events in the order
      of the store they came from. */
  lemma ImportSequence(o: Oracle, records: seq<Record>, events: seq<Lifecycle.Event>, members: seq<Member>)
    requires SoundStore(o, records, events) && Reorders(members, MembersOf(o, records, events))
    ensures Sort(ImportLe, members) == MembersOf(o, ByPath(records), events)
  {
    var target := MembersOf(o, ByPath(records), events);
    ImportPreorder();
    SortSorted(ImportLe, members);
    InImportOrder(o, records, events);
    hide Sort, LexLe;
    MapMultiset(RecordMember(o), ByPath(records), records);
    assert Reorders(target, MembersOf(o, records, events));
    assert TieFree(ImportLe, target) by { NoTies(o, records, events, target); }
    SortedUnique(ImportLe, target, Sort(ImportLe, members));
  }

  lemma InImportOrder(o: Oracle, records: seq<Record>, events: seq<Lifecycle.Event>)
    ensures SortedBy(ImportLe, MembersOf(o, ByPath(records), events))
  {
    ImportPreorder();
    SortSorted(RecordPathLe, records);
    hide Sort, LexLe, PathOf;
    var rs := ByPath(records);
    var target := MembersOf(o, rs, events);
    forall i, j | 0 <= i < j < |target| ensures ImportLe(target[i], target[j]) {
      if j < |rs| { assert RecordPathLe(rs[i], rs[j]); }
    }
  }

  lemma NoTies(o: Oracle, records: seq<Record>, events: seq<Lifecycle.Event>, target: seq<Member>)
    requires SoundStore(o, records, events) && Reorders(target, MembersOf(o, records, events))
    ensures TieFree(ImportLe, target)
  {
    FilesAreDistinct(o, records, events);
    DistinctInAnyOrder((m: Member) => m.path, MembersOf(o, records, events), target);
    hide SoundStore, MembersOf, LexLe, Reorders;
    forall i, j | 0 <= i < |target| && 0 <= j < |target| && ImportLe(target[i], target[j]) && ImportLe(target[j], target[i])
      ensures target[i] == target[j]
    {
      LexAntisymmetric(target[i].path, target[j].path);
    }
  }

  // ---------------------------------------------------------------- importing

  /** Hashes do not collide, and validation compares a document's stored digest with its hash. */
  ghost predicate Trusted(o: Oracle) {
    && (forall a, b :: o.hash(a) == o.hash(b) ==> a == b)
    && (forall doc :: o.valid(doc) ==> Sound(o, doc))
  }

  datatype Import = Import(ok: bool, hot: seq<Record>, events: seq<Lifecycle.Event>)

  /** One `add_record` or `add_event`; nothing follows a refusal. */
  ghost function Step(s: Import, doc: Option<Doc>): Import {
    if !s.ok then s
    else match doc
      case None => s.(ok := false)
      case Some(RecordDoc(r)) => TakeRecord(s, r)
      case Some(EventDoc(e)) => TakeEvent(s, e)
  }

  ghost function TakeRecord(s: Import, r: Record): Import {
    if r in s.hot then s
    else if Semantic.Admissible(r, s.hot) then s.(hot := s.hot + [r])
    else s.(ok := false)
  }

  ghost function TakeEvent(s: Import, e: Lifecycle.Event): Import {
    if !EventAdmission.WellFormed(e) then s.(ok := false)
    else if e.digest in Lifecycle.Digests(s.events) then s
    else if EventAdmission.Accepts(Bares(s.hot), s.events, e) then s.(events := s.events + [e])
    else s.(ok := false)
  }

  ghost function Replay(s: Import, docs: seq<Option<Doc>>): Import {
    if docs == [] then s else Step(Replay(s, docs[..|docs| - 1]), docs[|docs| - 1])
  }

  function DocAt(files: seq<File>, path: string): Option<Doc> {
    if files == [] then None
    else if files[0].path == path then Some(files[0].doc)
    else DocAt(files[1..], path)
  }

  function ImportDocs(b: Bundle): seq<Option<Doc>> {
    Map((m: Member) => DocAt(b.files, m.path), Sort(ImportLe, b.manifest.members))
  }

  lemma {:induction false} DocAtFinds(files: seq<File>, k: nat)
    requires k < |files| && DistinctPaths(files)
    ensures DocAt(files, files[k].path) == Some(files[k].doc)
  {
    if k > 0 { DocAtFinds(files[1..], k - 1); }
  }

  /** Every member to be imported has its document, of its own kind and sound. */
  lemma DocReady(o: Oracle, b: Bundle, data: map<string, Doc>, i: nat)
    requires Acceptable(o, b) && Trusted(o) && Indexes(data, b.files) && i < |b.manifest.members|
    ensures var m := Sort(ImportLe, b.manifest.members)[i];
            && m.path in data && ImportDocs(b)[i] == Some(data[m.path])
            && KindOf(data[m.path]) == m.kind && Sound(o, data[m.path])
  {
    var members := b.manifest.members;
    var m := Sort(ImportLe, members)[i];
    hide Sort, Sound, MemberOk, Acceptable, Indexes, Trusted, DistinctPaths, DocAt;
    ReorderedMember(Sort(ImportLe, members), members, i);
    AcceptedMember(o, b, m);
    MemberFile(o, b.files, data, m);
  }

  lemma AcceptedMember(o: Oracle, b: Bundle, m: Member)
    requires Acceptable(o, b) && m in b.manifest.members
    ensures MemberOk(o, b.files, m) && DistinctPaths(b.files)
  {
    hide MemberOk;
  }

  lemma MemberFile(o: Oracle, files: seq<File>, data: map<string, Doc>, m: Member)
    requires MemberOk(o, files, m) && DistinctPaths(files) && Indexes(data, files) && Trusted(o)
    ensures m.path in data && DocAt(files, m.path) == Some(data[m.path])
    ensures KindOf(data[m.path]) == m.kind && Sound(o, data[m.path])
  {
    hide Placed, Sound, DocAt;
    var k :| 0 <= k < |files| && files[k].path == m.path && Matches(o, m, files[k].doc);
    DocAtFinds(files, k);
  }

  lemma StillAddressed(o: Oracle, added: set<Record>, r: Record)
    requires Trusted(o) && Sound(o, RecordDoc(r)) && forall x :: x in added ==> Sound(o, RecordDoc(x))
    ensures ContentAddressed(added + {r}) && Retention.IsDigest(r.digest)
  {
    forall x, y | x in added + {r} && y in added + {r} && x.digest == y.digest ensures x == y {
      assert o.hash(RecordDoc(x)) == o.hash(RecordDoc(y));
    }
  }

  /** `import_bundle`: a bundle that fails a check touches nothing; otherwise its documents are added one by
      one, and the first refusal ends the import. */
  method ImportBundle(o: Oracle, b: Bundle, store: Store) returns (ok: bool)
    requires store.Valid() && Trusted(o) && forall r :: r in store.added ==> Sound(o, RecordDoc(r))
    modifies store
    ensures store.Valid() && forall r :: r in store.added ==> Sound(o, RecordDoc(r))
    ensures !Acceptable(o, b) ==> !ok && store.hot == old(store.hot) && store.events == old(store.events)
    ensures Acceptable(o, b) ==>
              Import(ok, store.hot, store.events) == Replay(Import(true, old(store.hot), old(store.events)), ImportDocs(b))
    ensures store.pins == old(store.pins) && store.archives == old(store.archives)
  {
    hide Acceptable, Trusted, Sound, Sort, Semantic.Admissible, EventAdmission.Accepts, EventAdmission.WellFormed,
         Bares, ContentAddressed, ImportDocs, Indexes, EventAdmission.Logged, Faithful, Conserved, DistinctDigests, AllDigests,
         Semantic.WellGrown, Lifecycle.Digests, Replay;
    var data := Verify(o, b);
    if data.None? { return false; }
    var members := Sort(ImportLe, b.manifest.members);
    ghost var start, docs := Import(true, store.hot, store.events), ImportDocs(b);
    DocCount(b);
    assert docs[..0] == [] && Replay(start, []) == start by { NothingReplayed(start); }
    for i := 0 to |members|
      invariant store.Valid() && forall r :: r in store.added ==> Sound(o, RecordDoc(r))
      invariant Import(true, store.hot, store.events) == Replay(start, docs[..i])
      invariant store.pins == old(store.pins) && store.archives == old(store.archives)
    {
      DocReady(o, b, data.value, i);
      ReplayOne(start, docs, i);
      var doc := data.value[members[i].path];
      var added;
      if members[i].kind.EventKind? {
        added := store.AddEvent(doc.event);
      } else {
        StillAddressed(o, store.added, doc.record);
        added := store.AddRecord(doc.record);
      }
      if !added {
        ReplayStops(start, docs, i + 1);
        return false;
      }
    }
    assert docs[..|docs|] == docs;
    return true;
  }

  lemma DocCount(b: Bundle)
    ensures |ImportDocs(b)| == |b.manifest.members|
  {}

  lemma NothingReplayed(s: Import)
    ensures Replay(s, []) == s
  {}

  lemma ReplayOne(s: Import, docs: seq<Option<Doc>>, i: nat)
    requires i < |docs|
    ensures Replay(s, docs[..i + 1]) == Step(Replay(s, docs[..i]), docs[i])
  {
    hide Step;
    assert docs[..i + 1][..i] == docs[..i];
  }

  lemma {:induction false} ReplayStops(s: Import, docs: seq<Option<Doc>>, n: nat)
    requires n <= |docs| && !Replay(s, docs[..n]).ok
    ensures Replay(s, docs) == Replay(s, docs[..n])
    decreases |docs|
  {
    if n < |docs| {
      var front := docs[..|docs| - 1];
      assert front[..n] == docs[..n];
      ReplayStops(s, front, n);
    } else {
      assert docs[..n] == docs;
    }
  }

  // ---------------------------------------------------------------- the round trip

  function SomeRecord(r: Record): Option<Doc> { Some(RecordDoc(r)) }

  function SomeEvent(e: Lifecycle.Event): Option<Doc> { Some(EventDoc(e)) }

  const FRESH := Import(true, [], [])

  lemma {:induction false} RecordsReplay(rs: seq<Record>)
    requires DistinctDigests(rs)
    ensures Replay(FRESH, Map(SomeRecord, rs)).ok <==> Semantic.Grown(rs)
    ensures Semantic.Grown(rs) ==> Replay(FRESH, Map(SomeRecord, rs)) == Import(true, rs, [])
  {
    hide Map, Replay, Step, Semantic.Admissible, DistinctDigests;
    var docs := Map(SomeRecord, rs);
    if rs == [] {
      assert docs == [];
      NothingReplayed(FRESH);
    } else {
      var n := |rs| - 1;
      FrontOfDistinct(rs);
      RecordsReplay(rs[..n]);
      assert docs[..n] == Map(SomeRecord, rs[..n]);
      ReplayLast(FRESH, docs);
      if Semantic.Grown(rs[..n]) {
        RecordTaken(rs[..n], rs[n]);
        assert rs == rs[..n] + [rs[n]];
      } else {
        Refusal(Replay(FRESH, docs[..n]), docs[n]);
      }
    }
  }

  lemma FrontOfDistinct(rs: seq<Record>)
    requires DistinctDigests(rs) && rs != []
    ensures DistinctDigests(rs[..|rs| - 1]) && rs[|rs| - 1] !in rs[..|rs| - 1]
  {}

  lemma RecordTaken(front: seq<Record>, r: Record)
    requires r !in front
    ensures var s := Step(Import(true, front, []), SomeRecord(r));
            (s.ok <==> Semantic.Admissible(r, front)) && (s.ok ==> s == Import(true, front + [r], []))
  {
    hide Semantic.Admissible, TakeEvent;
  }

  lemma Refusal(s: Import, doc: Option<Doc>)
    requires !s.ok
    ensures Step(s, doc) == s
  {
    hide TakeRecord, TakeEvent;
  }

  lemma {:induction false} EventsReplay(rs: seq<Record>, events: seq<Lifecycle.Event>)
    requires DistinctDigests(rs) && Semantic.Grown(rs) && EventAdmission.Logged(Bares(rs), events)
    ensures Replay(FRESH, Map(SomeRecord, rs) + Map(SomeEvent, events)) == Import(true, rs, events)
    decreases |events|
  {
    hide Map, Semantic.Grown, Bares, DistinctDigests, Replay, Step, EventAdmission.Logged, EventAdmission.Accepts,
         EventAdmission.WellFormed, Lifecycle.Digests;
    var docs := Map(SomeRecord, rs) + Map(SomeEvent, events);
    if events == [] {
      assert docs == Map(SomeRecord, rs);
      RecordsReplay(rs);
    } else {
      var n := |events| - 1;
      EventAdmission.LastWasAccepted(Bares(rs), events);
      EventsReplay(rs, events[..n]);
      EventTaken(rs, events[..n], events[n]);
      assert events == events[..n] + [events[n]];
      assert docs[..|docs| - 1] == Map(SomeRecord, rs) + Map(SomeEvent, events[..n]);
      assert docs[|docs| - 1] == SomeEvent(events[n]);
      ReplayLast(FRESH, docs);
    }
  }

  lemma EventTaken(rs: seq<Record>, front: seq<Lifecycle.Event>, e: Lifecycle.Event)
    requires EventAdmission.WellFormed(e) && e.digest !in Lifecycle.Digests(front)
    requires EventAdmission.Accepts(Bares(rs), front, e)
    ensures Step(Import(true, rs, front), SomeEvent(e)) == Import(true, rs, front + [e])
  {
    hide EventAdmission.Accepts, EventAdmission.WellFormed, Bares, Lifecycle.Digests, TakeRecord;
  }

  lemma ReplayLast(s: Import, docs: seq<Option<Doc>>)
    requires docs != []
    ensures Replay(s, docs) == Step(Replay(s, docs[..|docs| - 1]), docs[|docs| - 1])
  {}

  /** Importing into a fresh store replays the records by path and then all the events. */
  lemma ImportsInOrder(o: Oracle, roots: seq<string>, maxDepth: nat, records: seq<Record>, events: seq<Lifecycle.Event>)
    requires SoundStore(o, records, events)
    ensures ImportDocs(Packed(o, roots, maxDepth, records, events)) == Map(SomeRecord, ByPath(records)) + Map(SomeEvent, events)
  {
    hide SoundStore, Sort, MembersOf, FilesOf, Map, DistinctPaths, ImportDocs;
    var b := Packed(o, roots, maxDepth, records, events);
    ImportSequence(o, records, events, b.manifest.members);
    FilesAreDistinct(o, records, events);
    UnpackedInOrder(o, records, events, b);
  }

  lemma UnpackedInOrder(o: Oracle, records: seq<Record>, events: seq<Lifecycle.Event>, b: Bundle)
    requires Sort(ImportLe, b.manifest.members) == MembersOf(o, ByPath(records), events)
    requires Reorders(b.files, FilesOf(records, events)) && DistinctPaths(FilesOf(records, events))
    ensures ImportDocs(b) == Map(SomeRecord, ByPath(records)) + Map(SomeEvent, events)
  {
    hide Sort, MembersOf, FilesOf, DocAt;
    var target := MembersOf(o, ByPath(records), events);
    var docs := Map(SomeRecord, ByPath(records)) + Map(SomeEvent, events);
    DistinctInAnyOrder((f: File) => f.path, FilesOf(records, events), b.files);
    TargetCount(o, ByPath(records), events);
    forall i | 0 <= i < |target| ensures DocAt(b.files, target[i].path) == docs[i] {
      hide Map, Reorders;
      var l := Unpacked(o, records, events, b.files, i);
      DocAtFinds(b.files, l);
    }
  }

  lemma TargetCount(o: Oracle, records: seq<Record>, events: seq<Lifecycle.Event>)
    ensures |MembersOf(o, records, events)| == |records| + |events|
  {}

  /** Where the document of the i-th member to be imported is stored. */
  lemma Unpacked(o: Oracle, records: seq<Record>, events: seq<Lifecycle.Event>, files: seq<File>, i: nat) returns (l: nat)
    requires Reorders(files, FilesOf(records, events)) && i < |records| + |events|
    ensures |ByPath(records)| == |records| && |MembersOf(o, ByPath(records), events)| == |records| + |events|
    ensures l < |files| && files[l].path == MembersOf(o, ByPath(records), events)[i].path
    ensures Some(files[l].doc) == (Map(SomeRecord, ByPath(records)) + Map(SomeEvent, events))[i]
  {
    hide Sort, PathOf;
    var rs := ByPath(records);
    FileAt(o, rs, events, i);
    var f := FilesOf(rs, events)[i];
    var k := i;
    if i < |records| {
      ReorderedMember(rs, records, i);
      k :| 0 <= k < |records| && records[k] == rs[i];
    }
    FileAt(o, records, events, k);
    assert FilesOf(records, events)[k] == f;
    SameMembers(files, FilesOf(records, events));
    assert f in files;
    l :| 0 <= l < |files| && files[l] == f;
  }

  /** A fresh store takes the whole bundle exactly when it admits the records one by one in path order. It
      then holds those records and the source's events about them, and for every record, every domain and
      the domain-less view the lifecycle is the one the source store shows. */
  lemma BundleRoundTrip(o: Oracle, records: seq<Record>, events: seq<Lifecycle.Event>, roots: Option<set<string>>,
                        maxDepth: nat, selected: seq<Record>, b: Bundle)
    requires SoundStore(o, records, events) && Bundles(o, records, events, roots, maxDepth, selected, b)
    ensures Small(o, b) ==> Acceptable(o, b)
    ensures var chosen := Lifecycle.Keep(events, Compaction.AboutHot(selected));
            var s := Replay(FRESH, ImportDocs(b));
            && (s.ok <==> Semantic.Grown(ByPath(selected)))
            && (s.ok ==> s.hot == ByPath(selected) && s.events == chosen)
    ensures forall r, domain :: r in selected ==>
              Lifecycle.DeriveLifecycle(Compaction.Bare(r), Lifecycle.Keep(events, Compaction.AboutHot(selected)), domain)
              == Lifecycle.DeriveLifecycle(Compaction.Bare(r), events, domain)
  {
    var chosen := Lifecycle.Keep(events, Compaction.AboutHot(selected));
    hide Packed, Acceptable, Small, ImportDocs, Replay, Semantic.Grown, Lifecycle.DeriveLifecycle, Lifecycle.Keep, Compaction.AboutHot,
         Sort, Bares, EventAdmission.Logged, DistinctDigests, Sound;
    SelectionIsSound(o, records, events, selected);
    ImportsInOrder(o, b.manifest.roots, maxDepth, selected, chosen);
    if Small(o, b) { CreatedIsAccepted(o, b.manifest.roots, maxDepth, selected, chosen); }
    LifecyclesTravel(o, records, events, selected);
    PathOrderLog(records, selected, events);
    FreshReplay(ByPath(selected), chosen);
  }

  lemma LifecyclesTravel(o: Oracle, records: seq<Record>, events: seq<Lifecycle.Event>, selected: seq<Record>)
    requires SoundStore(o, records, events)
    ensures forall r, domain :: r in selected ==>
              Lifecycle.DeriveLifecycle(Compaction.Bare(r), Lifecycle.Keep(events, Compaction.AboutHot(selected)), domain)
              == Lifecycle.DeriveLifecycle(Compaction.Bare(r), events, domain)
  {
    EventAdmission.LoggedContentAddressed(Bares(records), events);
    hide Lifecycle.DeriveLifecycle, Lifecycle.Keep, Compaction.AboutHot, Bares, EventAdmission.Logged, Sound;
    forall r, domain | r in selected
      ensures Lifecycle.DeriveLifecycle(Compaction.Bare(r), Lifecycle.Keep(events, Compaction.AboutHot(selected)), domain)
           == Lifecycle.DeriveLifecycle(Compaction.Bare(r), events, domain)
    {
      Compaction.CompactionKeepsLifecycles(selected, events, r, domain);
    }
  }

  lemma PathOrderLog(records: seq<Record>, selected: seq<Record>, events: seq<Lifecycle.Event>)
    requires DistinctDigests(records) && EventAdmission.Logged(Bares(records), events)
    requires DistinctDigests(selected) && forall r :: r in selected ==> r in records
    ensures DistinctDigests(ByPath(selected))
    ensures EventAdmission.Logged(Bares(ByPath(selected)), Lifecycle.Keep(events, Compaction.AboutHot(selected)))
  {
    hide Sort, EventAdmission.Logged, Bares;
    var rs := ByPath(selected);
    DistinctInAnyOrder((r: Record) => r.digest, selected, rs);
    SameMembers(rs, selected);
    assert Digests(rs) == Digests(selected);
    assert Compaction.AboutHot(rs) == Compaction.AboutHot(selected);
    FilteredLog(records, rs, events);
  }

  lemma FreshReplay(rs: seq<Record>, events: seq<Lifecycle.Event>)
    requires DistinctDigests(rs) && EventAdmission.Logged(Bares(rs), events)
    ensures var s := Replay(FRESH, Map(SomeRecord, rs) + Map(SomeEvent, events));
            (s.ok <==> Semantic.Grown(rs)) && (s.ok ==> s.hot == rs && s.events == events)
  {
    hide Replay, Semantic.Grown, EventAdmission.Logged, Bares, DistinctDigests;
    RecordsReplay(rs);
    if Semantic.Grown(rs) {
      EventsReplay(rs, events);
    } else {
      var docs := Map(SomeRecord, rs) + Map(SomeEvent, events);
      assert docs[..|rs|] == Map(SomeRecord, rs);
      ReplayStops(FRESH, docs, |rs|);
    }
  }

  /** Path order is digest order, not revision order: when the later of two revisions has the smaller path,
      a fresh store takes it first and then refuses the earlier one. */
  lemma LaterRevisionFirstIsRefused(first: Record, second: Record)
    requires first.recordId.Some? && second.recordId == first.recordId && first.digest != second.digest
    requires first.revision == Some(1) && second.revision == Some(2) && second.previousDigest == Some(first.digest)
    requires !RecordPathLe(first, second)
    ensures ByPath([first, second]) == [second, first]
    ensures !Semantic.Grown(ByPath([first, second]))
  {
    SecondFirst(first, second);
    hide Sort, RecordPathLe;
    var both := [second, first];
    assert both[..1] == [second];
    assert Family([second], LogicalId(first)) == [] + [second];
    assert Semantic.LatestOf([second]) == second;
    assert !Semantic.Continues([second], first);
  }

  lemma SecondFirst(first: Record, second: Record)
    requires !RecordPathLe(first, second)
    ensures ByPath([first, second]) == [second, first]
  {
    hide RecordPathLe;
    assert [first, second][1..] == [second] && [second][1..] == [];
  }
}
