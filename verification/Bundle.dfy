/** Commons bundles (bundle.py): packing a closure of records with their events, and the checks an
    untrusted bundle must pass. */
module Bundle {
  import opened Order
  import opened Rearrange
  import opened Records
  import opened Retention
  import opened Commons
  import Closure
  import Lifecycle
  import Compaction
  import Bfs

  const VERSION := "commons-bundle/v0alpha1"
  const MAX_FILES := 2_000
  const MAX_MEMBER_BYTES := 8 * 1024 * 1024
  const MAX_BYTES := 64 * 1024 * 1024
  const MANIFEST := "manifest.json"

  datatype Doc = RecordDoc(record: Record) | EventDoc(event: Lifecycle.Event)
  datatype Kind = RecordKind | EventKind
  datatype Member = Member(path: string, kind: Kind, digest: string, size: nat, order: Option<nat>)
  datatype Manifest = Manifest(version: string, roots: seq<string>, maxDepth: nat, members: seq<Member>)
  datatype File = File(path: string, doc: Doc)

  /** The archive's entries: the manifest with the digest written into it, then the other files. */
  datatype Bundle = Bundle(manifest: Manifest, bundleDigest: string, files: seq<File>)

  /** What canonical JSON, SHA-256 and document validation say about documents. */
  datatype Oracle = Oracle(
    hash: Doc -> string, size: Doc -> nat, valid: Doc -> bool, seal: Manifest -> string, manifestSize: Manifest -> nat)

  function DigestOf(doc: Doc): string {
    match doc case RecordDoc(r) => r.digest case EventDoc(e) => e.digest
  }

  function KindOf(doc: Doc): Kind {
    match doc case RecordDoc(_) => RecordKind case EventDoc(_) => EventKind
  }

  // ---------------------------------------------------------------- paths

  predicate Hex(c: char) { '0' <= c <= '9' || 'a' <= c <= 'f' }

  predicate HexDigest(d: string) {
    IsDigest(d) && forall i :: |"sha256:"| <= i < |d| ==> Hex(d[i])
  }

  function Prefix(kind: Kind): string {
    match kind case RecordKind => "records/" case EventKind => "events/"
  }

  function PathOf(kind: Kind, digest: string): string {
    Prefix(kind) + Stem(digest) + ".json"
  }

  /** The parts of a path between its slashes. */
  function Parts(name: string): seq<string> {
    if name == [] then [[]]
    else
      var rest := Parts(name[1..]);
      if name[0] == '/' then [[]] + rest
      else if rest == [] then [[name[0]]]
      else [[name[0]] + rest[0]] + rest[1..]
  }

  /** `_safe_member_name` */
  predicate Safe(name: string) {
    name != [] && name[0] != '/' && ".." !in Parts(name) && '\\' !in name
  }

  lemma {:induction false} OnePart(name: string)
    requires '/' !in name
    ensures Parts(name) == [name]
  {
    if name != [] {
      OnePart(name[1..]);
      assert name == [name[0]] + name[1..];
    }
  }

  lemma {:induction false} TwoParts(a: string, b: string)
    requires '/' !in a && '/' !in b
    ensures Parts(a + ['/'] + b) == [a, b]
  {
    var name := a + ['/'] + b;
    if a == [] {
      assert name[1..] == b;
      OnePart(b);
    } else {
      assert name[1..] == a[1..] + ['/'] + b && name[0] == a[0];
      TwoParts(a[1..], b);
      assert a == [a[0]] + a[1..];
    }
  }

  lemma StemIsPlain(digest: string)
    requires HexDigest(digest)
    ensures '/' !in Stem(digest) + ".json" && '\\' !in Stem(digest) + ".json" && Stem(digest) + ".json" != ".."
  {
    LeafIsPlain(digest[|"sha256:"|..]);
  }

  lemma LeafIsPlain(stem: string)
    requires forall i :: 0 <= i < |stem| ==> Hex(stem[i])
    ensures '/' !in stem + ".json" && '\\' !in stem + ".json" && stem + ".json" != ".."
  {
    var leaf := stem + ".json";
    forall i | 0 <= i < |leaf| ensures Hex(leaf[i]) || leaf[i] in ".json" {
      if i < |stem| { assert leaf[i] == stem[i]; } else { assert leaf[i] == ".json"[i - |stem|]; }
    }
    assert |leaf| > 2;
  }

  lemma PathIsSafe(kind: Kind, digest: string)
    requires HexDigest(digest)
    ensures Safe(PathOf(kind, digest)) && PathOf(kind, digest) != MANIFEST
    ensures Prefix(kind) <= PathOf(kind, digest)
  {
    hide HexDigest, Stem, Parts;
    var folder := if kind.RecordKind? then "records" else "events";
    var leaf := Stem(digest) + ".json";
    StemIsPlain(digest);
    var path := folder + ['/'] + leaf;
    assert Prefix(kind) == folder + ['/'];
    assert PathOf(kind, digest) == path;
    TwoParts(folder, leaf);
    assert path[0] == folder[0];
  }

  lemma PathsDiffer(a: Kind, c: string, b: Kind, d: string)
    requires IsDigest(c) && IsDigest(d) && PathOf(a, c) == PathOf(b, d)
    ensures a == b && c == d
  {
    var x, y := PathOf(a, c), PathOf(b, d);
    assert x[0] == Prefix(a)[0] && y[0] == Prefix(b)[0];
    var n := |Prefix(a)|;
    assert x[n..|x| - 5] == Stem(c) && y[n..|y| - 5] == Stem(d);
    StemInjective(c, d);
  }

  // ---------------------------------------------------------------- packing

  function RecordMember(o: Oracle): Record -> Member {
    (r: Record) => Member(PathOf(RecordKind, r.digest), RecordKind, r.digest, o.size(RecordDoc(r)), None)
  }

  function EventMember(o: Oracle, e: Lifecycle.Event, order: nat): Member {
    Member(PathOf(EventKind, e.digest), EventKind, e.digest, o.size(EventDoc(e)), Some(order))
  }

  function EventMembers(o: Oracle, events: seq<Lifecycle.Event>): seq<Member> {
    seq(|events|, i requires 0 <= i < |events| => EventMember(o, events[i], i))
  }

  function MembersOf(o: Oracle, records: seq<Record>, events: seq<Lifecycle.Event>): seq<Member> {
    Map(RecordMember(o), records) + EventMembers(o, events)
  }

  function RecordFile(r: Record): File { File(PathOf(RecordKind, r.digest), RecordDoc(r)) }

  function EventFile(e: Lifecycle.Event): File { File(PathOf(EventKind, e.digest), EventDoc(e)) }

  function FilesOf(records: seq<Record>, events: seq<Lifecycle.Event>): seq<File> {
    Map(RecordFile, records) + Map(EventFile, events)
  }

  predicate MemberPathLe(a: Member, b: Member) { LexLe(a.path, b.path) }

  predicate FilePathLe(a: File, b: File) { LexLe(a.path, b.path) }

  /** The bundle of these records and events; members and files are listed by path. */
  function Packed(o: Oracle, roots: seq<string>, maxDepth: nat, records: seq<Record>, events: seq<Lifecycle.Event>): Bundle {
    var manifest := Manifest(VERSION, roots, maxDepth, Sort(MemberPathLe, MembersOf(o, records, events)));
    Bundle(manifest, o.seal(manifest), Sort(FilePathLe, FilesOf(records, events)))
  }

  /** The bundle packs exactly the records within `maxDepth` directed hops of the roots, and exactly the events
      about them, in store order. */
  ghost predicate Bundles(o: Oracle, records: seq<Record>, events: seq<Lifecycle.Event>, roots: Option<set<string>>,
                          maxDepth: nat, selected: seq<Record>, b: Bundle) {
    && DistinctDigests(selected) && (forall r :: r in selected ==> r in records)
    && Digests(selected) == Bfs.Ball(Closure.Directed(records), Closure.Start(records, roots), maxDepth)
    && Closure.ByDigestOrder(selected) && Lists(b.manifest.roots, roots, selected)
    && b == Packed(o, b.manifest.roots, maxDepth, selected, Lifecycle.Keep(events, Compaction.AboutHot(selected)))
  }

  /** The chosen roots in order, or all the digests when none were chosen. */
  predicate Lists(listed: seq<string>, roots: Option<set<string>>, selected: seq<Record>) {
    Ascending(listed) && (set r | r in listed) == match roots case Some(refs) => refs case None => Digests(selected)
  }

  /** `create_bundle` */
  method Create(o: Oracle, records: seq<Record>, events: seq<Lifecycle.Event>, roots: Option<set<string>>, maxDepth: nat)
    returns (b: Bundle)
    requires DistinctDigests(records)
    ensures exists selected :: Bundles(o, records, events, roots, maxDepth, selected, b)
  {
    hide Sort, Bfs.Ball, Closure.Directed, Closure.Start, Lifecycle.Keep, PathOf, DistinctDigests, Digests, Compaction.AboutHot, Sorted, Closure.ByDigestOrder, Lists;
    var found := Closure.Select(records, roots, maxDepth);
    var about := KeepEvents(events, found);
    var members: seq<Member>, files: seq<File> := [], [];
    for i := 0 to |found|
      invariant members == Map(RecordMember(o), found[..i])
      invariant files == Map(RecordFile, found[..i])
    {
      var r := found[i];
      var path := PathOf(RecordKind, r.digest);
      members := members + [Member(path, RecordKind, r.digest, o.size(RecordDoc(r)), None)];
      files := files + [File(path, RecordDoc(r))];
    }
    assert found[..|found|] == found;
    for i := 0 to |about|
      invariant members == Map(RecordMember(o), found) + EventMembers(o, about[..i])
      invariant files == FilesOf(found, about[..i])
    {
      var e := about[i];
      var path := PathOf(EventKind, e.digest);
      members := members + [Member(path, EventKind, e.digest, o.size(EventDoc(e)), Some(i))];
      files := files + [File(path, EventDoc(e))];
    }
    assert about[..|about|] == about;
    var listed := match roots case Some(refs) => Sorted(refs) case None => Sorted(Digests(found));
    SortedLists(roots, found);
    var manifest := Manifest(VERSION, listed, maxDepth, Sort(MemberPathLe, members));
    b := Bundle(manifest, o.seal(manifest), Sort(FilePathLe, files));
    assert Bundles(o, records, events, roots, maxDepth, found, b);
  }

  lemma SortedLists(roots: Option<set<string>>, selected: seq<Record>)
    ensures Lists(match roots case Some(refs) => Sorted(refs) case None => Sorted(Digests(selected)), roots, selected)
  {
    var refs := match roots case Some(refs) => refs case None => Digests(selected);
    SortedAscends(refs);
    hide Sorted;
    assert (set r | r in Sorted(refs)) == refs;
  }

  // ---------------------------------------------------------------- checking

  function Total(o: Oracle, files: seq<File>): nat {
    if files == [] then 0 else Total(o, files[..|files| - 1]) + o.size(files[|files| - 1].doc)
  }

  function Paths(files: seq<File>): set<string> {
    set f | f in files :: f.path
  }

  predicate DistinctPaths(files: seq<File>) {
    forall i, j :: 0 <= i < j < |files| ==> files[i].path != files[j].path
  }

  /** Within the limits for files, members and bytes. */
  predicate Small(o: Oracle, b: Bundle) {
    && |b.files| + 1 <= MAX_FILES && |b.manifest.members| <= MAX_FILES
    && o.manifestSize(b.manifest) <= MAX_MEMBER_BYTES
    && (forall i :: 0 <= i < |b.files| ==> o.size(b.files[i].doc) <= MAX_MEMBER_BYTES)
    && o.manifestSize(b.manifest) + Total(o, b.files) <= MAX_BYTES
  }

  predicate SafeFile(f: File) { Safe(f.path) && f.path != MANIFEST }

  /** What `_read_members` demands. */
  predicate Readable(o: Oracle, b: Bundle) {
    && |b.files| + 1 <= MAX_FILES && o.manifestSize(b.manifest) <= MAX_MEMBER_BYTES
    && (forall i :: 0 <= i < |b.files| ==> FileOk(o, b.files[i]))
    && DistinctPaths(b.files) && o.manifestSize(b.manifest) + Total(o, b.files) <= MAX_BYTES
  }

  /** The files by path. */
  ghost predicate Indexes(data: map<string, Doc>, files: seq<File>) {
    data.Keys == Paths(files) && forall i :: 0 <= i < |files| ==> files[i].path in data && data[files[i].path] == files[i].doc
  }

  lemma {:induction false} TotalGrows(o: Oracle, files: seq<File>, n: nat)
    requires n <= |files|
    ensures Total(o, files[..n]) <= Total(o, files)
    decreases |files|
  {
    if n < |files| {
      TotalGrows(o, files[..|files| - 1], n);
      assert files[..|files| - 1][..n] == files[..n];
    } else {
      assert files[..n] == files;
    }
  }

  predicate FileOk(o: Oracle, f: File) { SafeFile(f) && o.size(f.doc) <= MAX_MEMBER_BYTES }

  method ReadMembers(o: Oracle, b: Bundle) returns (data: Option<map<string, Doc>>)
    ensures data.Some? <==> Readable(o, b)
    ensures data.Some? ==> Indexes(data.value, b.files)
  {
    hide FileOk, Indexes, DistinctPaths, Total;
    var files, head := b.files, o.manifestSize(b.manifest);
    if |files| + 1 > MAX_FILES || head > MAX_MEMBER_BYTES {
      return None;
    }
    var total := head;
    var found: map<string, Doc> := map[];
    ReadNothing(o, files);
    for i := 0 to |files|
      invariant total == head + Total(o, files[..i]) <= MAX_BYTES
      invariant Indexes(found, files[..i]) && DistinctPaths(files[..i])
      invariant forall j :: 0 <= j < i ==> FileOk(o, files[j])
    {
      var f := files[i];
      KeysArePaths(found, files[..i]);
      PathsGrow(files, i);
      ReadOneMore(o, found, files, i);
      if !FileOk(o, f) || f.path in found {
        return None;
      }
      total := total + o.size(f.doc);
      if total > MAX_BYTES {
        return None;
      }
      found := found[f.path := f.doc];
    }
    assert files[..|files|] == files;
    return Some(found);
  }

  lemma ReadNothing(o: Oracle, files: seq<File>)
    ensures Indexes(map[], files[..0]) && DistinctPaths(files[..0]) && Total(o, files[..0]) == 0
  {}

  lemma ReadOneMore(o: Oracle, found: map<string, Doc>, files: seq<File>, i: nat)
    requires i < |files| && Indexes(found, files[..i])
    ensures Total(o, files[..i + 1]) == Total(o, files[..i]) + o.size(files[i].doc) <= Total(o, files)
    ensures files[i].path !in found ==> Indexes(found[files[i].path := files[i].doc], files[..i + 1])
  {
    hide Indexes;
    TotalGrows(o, files, i + 1);
    assert files[..i + 1][..i] == files[..i];
    if files[i].path !in found { IndexOneMore(found, files[..i], files[i]); }
    assert files[..i] + [files[i]] == files[..i + 1];
  }

  lemma IndexOneMore(found: map<string, Doc>, files: seq<File>, f: File)
    requires Indexes(found, files) && f.path !in found
    ensures Indexes(found[f.path := f.doc], files + [f])
  {
    var next, all := found[f.path := f.doc], files + [f];
    assert Paths(all) == Paths(files) + {f.path};
    forall j | 0 <= j < |all| ensures all[j].path in next && next[all[j].path] == all[j].doc {
      if j < |files| { assert all[j] == files[j]; }
    }
  }

  lemma PathsGrow(files: seq<File>, i: nat)
    requires i < |files|
    ensures Paths(files[..i + 1]) == Paths(files[..i]) + {files[i].path}
    ensures files[i].path in Paths(files[..i]) ==> !DistinctPaths(files)
    ensures files[i].path !in Paths(files[..i]) && DistinctPaths(files[..i]) ==> DistinctPaths(files[..i + 1])
  {
    assert files[..i + 1] == files[..i] + [files[i]];
  }

  /** A document matches the member that lists it. */
  predicate Matches(o: Oracle, m: Member, doc: Doc) {
    o.size(doc) == m.size && o.hash(doc) == m.digest && KindOf(doc) == m.kind && o.valid(doc)
  }

  predicate Placed(m: Member) {
    Safe(m.path) && m.path != MANIFEST && Prefix(m.kind) <= m.path
  }

  ghost predicate MemberOk(o: Oracle, files: seq<File>, m: Member) {
    Placed(m) && exists k :: 0 <= k < |files| && files[k].path == m.path && Matches(o, m, files[k].doc)
  }

  function MemberPaths(members: seq<Member>): set<string> {
    set m | m in members :: m.path
  }

  predicate DistinctMembers(members: seq<Member>) {
    forall i, j :: 0 <= i < j < |members| ==> members[i].path != members[j].path
  }

  /** What `verify_bundle` demands: each listed member present, canonical, addressed by its content and
      valid, and nothing unlisted. */
  ghost predicate Acceptable(o: Oracle, b: Bundle) {
    && Readable(o, b) && b.manifest.version == VERSION && b.bundleDigest == o.seal(b.manifest)
    && |b.manifest.members| <= MAX_FILES && DistinctMembers(b.manifest.members)
    && MemberPaths(b.manifest.members) == Paths(b.files)
    && forall i :: 0 <= i < |b.manifest.members| ==> MemberOk(o, b.files, b.manifest.members[i])
  }

  lemma MemberPathsGrow(members: seq<Member>, i: nat)
    requires i < |members|
    ensures MemberPaths(members[..i + 1]) == MemberPaths(members[..i]) + {members[i].path}
    ensures members[i].path in MemberPaths(members[..i]) ==> !DistinctMembers(members)
    ensures members[i].path !in MemberPaths(members[..i]) && DistinctMembers(members[..i]) ==> DistinctMembers(members[..i + 1])
  {
    assert members[..i + 1] == members[..i] + [members[i]];
  }

  lemma MemberLookup(o: Oracle, data: map<string, Doc>, files: seq<File>, m: Member)
    requires Indexes(data, files) && DistinctPaths(files)
    ensures MemberOk(o, files, m) <==> Placed(m) && m.path in data && Matches(o, m, data[m.path])
  {
    hide Placed, Matches;
    if m.path in data {
      var f :| f in files && f.path == m.path;
      var k :| 0 <= k < |files| && files[k] == f;
    }
  }

  method Verify(o: Oracle, b: Bundle) returns (data: Option<map<string, Doc>>)
    ensures data.Some? <==> Acceptable(o, b)
    ensures data.Some? ==> Indexes(data.value, b.files)
  {
    hide Safe, Readable, Indexes, MemberOk, Placed, Matches;
    var read := ReadMembers(o, b);
    if read.None? { return None; }
    var found := read.value;
    var members := b.manifest.members;
    if b.manifest.version != VERSION || b.bundleDigest != o.seal(b.manifest) || |members| > MAX_FILES {
      return None;
    }
    var seen: set<string> := {};
    for i := 0 to |members|
      invariant seen == MemberPaths(members[..i]) && DistinctMembers(members[..i])
      invariant forall j :: 0 <= j < i ==> MemberOk(o, b.files, members[j])
    {
      var m := members[i];
      MemberPathsGrow(members, i);
      ReadableDistinct(o, b);
      MemberLookup(o, found, b.files, m);
      if m.path in seen || !Placed(m) || m.path !in found || !Matches(o, m, found[m.path]) {
        return None;
      }
      seen := seen + {members[i].path};
    }
    assert members[..|members|] == members;
    if seen != found.Keys {
      KeysArePaths(found, b.files);
      return None;
    }
    KeysArePaths(found, b.files);
    return Some(found);
  }

  lemma ReadableDistinct(o: Oracle, b: Bundle)
    requires Readable(o, b)
    ensures DistinctPaths(b.files)
  {}

  lemma KeysArePaths(data: map<string, Doc>, files: seq<File>)
    requires Indexes(data, files)
    ensures data.Keys == Paths(files)
  {}
}
