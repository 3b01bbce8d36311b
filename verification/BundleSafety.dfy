/** What an accepted bundle guarantees to whoever knows its digest: the very documents it was made of, in places
    that lie inside the directory it is unpacked to. */
module BundleSafety {
  import opened Bundle

  /** Digests do not collide: not for manifests, and not for documents that validate, whose stored digest is then
      their own. */
  ghost predicate Unforgeable(o: Oracle) {
    && (forall a, b :: o.seal(a) == o.seal(b) ==> a == b)
    && (forall a, b :: o.valid(a) && o.valid(b) && o.hash(a) == o.hash(b) ==> a == b)
  }

  /** The bundle holds this document under this path. */
  ghost predicate At(b: Bundle, path: string, doc: Doc) {
    exists k :: 0 <= k < |b.files| && b.files[k] == File(path, doc)
  }

  /** Every file of an accepted bundle is listed once, by the digest of a valid document of the listed kind and size,
      and lies in that kind's folder. */
  lemma AcceptedIsListed(o: Oracle, b: Bundle, path: string, doc: Doc)
    requires Acceptable(o, b) && At(b, path, doc)
    ensures exists m :: m in b.manifest.members && m == Member(path, KindOf(doc), o.hash(doc), o.size(doc), m.order)
    ensures o.valid(doc) && doc.RecordDoc? ==> "records/" <= path
    ensures o.valid(doc) && doc.EventDoc? ==> "events/" <= path
    ensures o.valid(doc) && forall other :: At(b, path, other) ==> other == doc
  {
    OneDocPerPath(o, b, path, doc);
    var m := ListedAs(o, b, path, doc);
    MatchesAre(o, m, doc);
    hide Acceptable, Matches, At, Safe;
  }

  lemma OneDocPerPath(o: Oracle, b: Bundle, path: string, doc: Doc)
    requires Acceptable(o, b) && At(b, path, doc)
    ensures forall other :: At(b, path, other) ==> other == doc
  {
    ReadableDistinct(o, b);
    hide Readable, MemberOk;
  }

  lemma ListedAs(o: Oracle, b: Bundle, path: string, doc: Doc) returns (m: Member)
    requires Acceptable(o, b) && At(b, path, doc)
    ensures m in b.manifest.members && m.path == path && Placed(m) && Matches(o, m, doc)
  {
    hide Safe, Matches, Readable, Placed;
    OneDocPerPath(o, b, path, doc);
    var k :| 0 <= k < |b.files| && b.files[k] == File(path, doc);
    assert path in Paths(b.files);
    m :| m in b.manifest.members && m.path == path;
    var i :| 0 <= i < |b.manifest.members| && b.manifest.members[i] == m;
    assert MemberOk(o, b.files, b.manifest.members[i]);
    var l :| 0 <= l < |b.files| && b.files[l].path == m.path && Matches(o, m, b.files[l].doc);
    assert At(b, path, b.files[l].doc);
  }

  lemma MatchesAre(o: Oracle, m: Member, doc: Doc)
    requires Matches(o, m, doc)
    ensures o.valid(doc) && m == Member(m.path, KindOf(doc), o.hash(doc), o.size(doc), m.order)
  {}

  /** Every listed member of an accepted bundle is there. */
  lemma ListedIsThere(o: Oracle, b: Bundle, m: Member)
    requires Acceptable(o, b) && m in b.manifest.members
    ensures exists doc :: At(b, m.path, doc)
  {
    hide Safe, Matches, Readable, Placed;
    var i :| 0 <= i < |b.manifest.members| && b.manifest.members[i] == m;
    assert MemberOk(o, b.files, b.manifest.members[i]);
    var l :| 0 <= l < |b.files| && b.files[l].path == m.path && Matches(o, m, b.files[l].doc);
    assert At(b, m.path, b.files[l].doc);
  }

  /** The bundle digest fixes the bundle: two bundles that both verify and name the same digest have the same manifest
      and hold the same documents under the same paths. */
  lemma TamperEvident(o: Oracle, a: Bundle, b: Bundle, path: string, doc: Doc)
    requires Unforgeable(o) && Acceptable(o, a) && Acceptable(o, b) && a.bundleDigest == b.bundleDigest
    ensures a.manifest == b.manifest
    ensures At(a, path, doc) <==> At(b, path, doc)
  {
    SameManifest(o, a, b);
    hide Acceptable, At, Unforgeable;
    if At(a, path, doc) { CarriedOver(o, a, b, path, doc); }
    if At(b, path, doc) { CarriedOver(o, b, a, path, doc); }
  }

  lemma SameManifest(o: Oracle, a: Bundle, b: Bundle)
    requires Unforgeable(o) && Acceptable(o, a) && Acceptable(o, b) && a.bundleDigest == b.bundleDigest
    ensures a.manifest == b.manifest
  {
    hide Readable, MemberOk;
  }

  lemma CarriedOver(o: Oracle, a: Bundle, b: Bundle, path: string, doc: Doc)
    requires Unforgeable(o) && Acceptable(o, a) && Acceptable(o, b) && a.manifest == b.manifest && At(a, path, doc)
    ensures At(b, path, doc)
  {
    hide Acceptable, At;
    AcceptedIsListed(o, a, path, doc);
    var m :| m in a.manifest.members && m == Member(path, KindOf(doc), o.hash(doc), o.size(doc), m.order);
    ListedIsThere(o, b, m);
    var other :| At(b, m.path, other);
    AcceptedIsListed(o, b, path, other);
    var n :| n in b.manifest.members && n == Member(path, KindOf(other), o.hash(other), o.size(other), n.order);
    OnePerPath(o, b, m, n);
  }

  lemma OnePerPath(o: Oracle, b: Bundle, m: Member, n: Member)
    requires Acceptable(o, b) && m in b.manifest.members && n in b.manifest.members && m.path == n.path
    ensures m == n
  {
    hide Readable, MemberOk;
    var i :| 0 <= i < |b.manifest.members| && b.manifest.members[i] == m;
    var j :| 0 <= j < |b.manifest.members| && b.manifest.members[j] == n;
  }

  /** So whatever is changed, added or taken away among the files of an accepted bundle, it no longer verifies under
      its digest. */
  lemma ChangedIsRefused(o: Oracle, a: Bundle, b: Bundle, path: string, doc: Doc)
    requires Unforgeable(o) && Acceptable(o, a) && a.bundleDigest == b.bundleDigest
    requires !(At(a, path, doc) <==> At(b, path, doc))
    ensures !Acceptable(o, b)
  {
    if Acceptable(o, b) { TamperEvident(o, a, b, path, doc); }
  }

  /** And what is unpacked is bounded: under two thousand files, none of them over eight mebibytes, and not over
      sixty-four together with the manifest. */
  lemma AcceptedIsBounded(o: Oracle, b: Bundle, path: string, doc: Doc)
    requires Acceptable(o, b)
    ensures |b.files| < 2_000 && |b.manifest.members| <= 2_000
    ensures At(b, path, doc) ==> o.size(doc) <= 8 * 1024 * 1024
    ensures o.manifestSize(b.manifest) + Total(o, b.files) <= 64 * 1024 * 1024
    ensures o.manifestSize(b.manifest) <= 8 * 1024 * 1024
  {
    hide Safe, Total, MemberOk;
  }

  // ---------------------------------------------------------------- paths stay inside

  /** Two dots stand between slashes, or at an end of the path, at position `i`. */
  predicate ClimbsAt(name: string, i: nat) {
    && i + 2 <= |name| && name[i] == '.' && name[i + 1] == '.'
    && (i == 0 || name[i - 1] == '/') && (i + 2 == |name| || name[i + 2] == '/')
  }

  /** The path check refuses exactly the empty, the absolute, those with a backslash and those that climb. */
  lemma SafeIff(name: string)
    ensures Safe(name) <==>
            name != [] && name[0] != '/' && '\\' !in name && forall i :: 0 <= i < |name| ==> !ClimbsAt(name, i)
  {
    FirstPart(name);
    LaterParts(name);
    assert Parts(name) == [Parts(name)[0]] + Parts(name)[1..];
  }

  function FirstSlash(name: string): (k: nat)
    ensures k <= |name| && (k < |name| ==> name[k] == '/') && forall i :: 0 <= i < k ==> name[i] != '/'
  {
    if name == [] || name[0] == '/' then 0 else 1 + FirstSlash(name[1..])
  }

  lemma {:induction false} FirstPart(name: string)
    ensures Parts(name) != [] && Parts(name)[0] == name[..FirstSlash(name)]
    ensures Parts(name)[0] == ".." <==> ClimbsAt(name, 0)
  {
    if name != [] { FirstPart(name[1..]); }
    FirstClimbs(name, FirstSlash(name));
    hide ClimbsAt;
  }

  lemma FirstClimbs(name: string, k: nat)
    requires k <= |name| && (k < |name| ==> name[k] == '/') && forall i :: 0 <= i < k ==> name[i] != '/'
    ensures name[..k] == ".." <==> ClimbsAt(name, 0)
  {
    if k == 2 { assert name[..k] == [name[0], name[1]]; }
    if ClimbsAt(name, 0) { assert k >= 2; }
  }

  lemma {:induction false} LaterParts(name: string)
    ensures Parts(name) != []
    ensures ".." in Parts(name)[1..] <==> exists i :: 0 < i < |name| && ClimbsAt(name, i)
  {
    if name != [] {
      var tail := name[1..];
      FirstPart(tail);
      LaterParts(tail);
      forall i | 0 <= i < |tail| ensures ClimbsAt(name, i + 1) <==> ClimbsAt(tail, i) && (i > 0 || name[0] == '/') {}
      if i :| 0 <= i < |tail| && ClimbsAt(tail, i) && (i > 0 || name[0] == '/') { assert ClimbsAt(name, i + 1); }
      if i :| 0 < i < |name| && ClimbsAt(name, i) { assert ClimbsAt(tail, i - 1); }
      if name[0] == '/' {
        assert Parts(name)[1..] == Parts(tail) == [Parts(tail)[0]] + Parts(tail)[1..];
      } else {
        assert Parts(name)[1..] == Parts(tail)[1..];
      }
    }
  }
}
