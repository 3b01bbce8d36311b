/** The canonical value is a fixed point, and the content digest ignores the digest it is stored under. */
module CanonicalIdentity {
  import opened Order
  import opened Rearrange
  import opened TextBytes
  import opened Canonical
  import opened CanonicalEquivalence

  // ---------------------------------------------------------------- fixed point

  lemma TextPreorder()
    ensures TotalPreorder(TextLe)
  {
    forall x, y ensures TextLe(x, y) || TextLe(y, x) {
      ByteOrderIsTextOrder(Encode(x), Encode(y));
      ByteOrderIsTextOrder(Encode(y), Encode(x));
      LexTotal(Encode(x), Encode(y));
    }
    forall x, y, z | TextLe(x, y) && TextLe(y, z) ensures TextLe(x, z) {
      ByteOrderIsTextOrder(Encode(x), Encode(y));
      ByteOrderIsTextOrder(Encode(y), Encode(z));
      ByteOrderIsTextOrder(Encode(x), Encode(z));
      LexTransitive(Encode(x), Encode(y), Encode(z));
    }
  }

  /** Canonicalizing a canonical value changes nothing. */
  lemma {:induction false} Idempotent(v: Json, path: Path)
    ensures Canonicalize(Canonicalize(v, path), path) == Canonicalize(v, path)
    decreases v
  {
    match v
    case Arr(items) => IdempotentArr(items, path);
    case Obj(fields) =>
      var done := Canonicalize(v, path).fields;
      forall i | 0 <= i < |fields| ensures Canonicalize(done[i].value, path + [done[i].key]) == done[i].value {
        Idempotent(fields[i].value, path + [fields[i].key]);
      }
      assert Canonicalize(Obj(done), path).fields == done;
    case _ =>
  }

  lemma {:induction false} IdempotentArr(items: seq<Json>, path: Path)
    ensures Canonicalize(Canonicalize(Arr(items), path), path) == Canonicalize(Arr(items), path)
    decreases Arr(items), 0
  {
    var done := seq(|items|, i requires 0 <= i < |items| => Canonicalize(items[i], path));
    var out := Canonicalize(Arr(items), path).items;
    assert out == if path in UNORDERED then Sort(TextLe, done) else done;
    forall i | 0 <= i < |out| ensures Canonicalize(out[i], path) == out[i] {
      assert out[i] in multiset(out) && multiset(out) == multiset(done);
      var k := Member(out[i], done);
      Idempotent(items[k], path);
    }
    if path in UNORDERED {
      TextPreorder();
      SortSorted(TextLe, done);
      SortOfSorted(TextLe, out);
    }
    FixedItems(out, path);
  }

  lemma FixedItems(items: seq<Json>, path: Path)
    requires forall i :: 0 <= i < |items| ==> Canonicalize(items[i], path) == items[i]
    requires path in UNORDERED ==> Sort(TextLe, items) == items
    ensures Canonicalize(Arr(items), path) == Arr(items)
  {
    assert seq(|items|, i requires 0 <= i < |items| => Canonicalize(items[i], path)) == items;
  }

  lemma {:induction false} CanonicalWellFormed(v: Json, path: Path)
    requires WellFormed(v)
    ensures WellFormed(Canonicalize(v, path))
    decreases v
  {
    match v
    case Arr(items) =>
      var done := seq(|items|, i requires 0 <= i < |items| => Canonicalize(items[i], path));
      var out := Canonicalize(v, path).items;
      forall i | 0 <= i < |out| ensures WellFormed(out[i]) {
        assert out[i] in multiset(out) && multiset(out) == multiset(done);
        var k := Member(out[i], done);
        CanonicalWellFormed(items[k], path);
      }
    case Obj(fields) =>
      var done := Canonicalize(v, path).fields;
      forall i | 0 <= i < |done| ensures WellFormed(done[i].value) {
        CanonicalWellFormed(fields[i].value, path + [fields[i].key]);
      }
    case _ =>
  }

  /** The canonical value means what the value means, and has its text. */
  lemma CanonicalIsEquivalent(v: Json)
    requires WellFormed(v)
    ensures Equivalent(v, Canonicalize(v, []), [])
    ensures CanonicalJson(Canonicalize(v, [])) == CanonicalJson(v)
  {
    Idempotent(v, []);
    SameBytesIffEquivalent(v, Canonicalize(v, []));
  }

  // ---------------------------------------------------------------- digests

  const DIGEST := "contentDigest"
  const METADATA := "metadata"

  /** `fields.pop(key, None)` */
  function Without(fields: seq<Field>, key: string): seq<Field> {
    if fields == [] then []
    else if fields[0].key == key then Without(fields[1..], key)
    else [fields[0]] + Without(fields[1..], key)
  }

  /** `fields[key] = value`: in place when the key is there, at the end otherwise. */
  function With(fields: seq<Field>, key: string, value: Json): seq<Field> {
    if fields == [] then [Field(key, value)]
    else if fields[0].key == key then [Field(key, value)] + fields[1..]
    else [fields[0]] + With(fields[1..], key, value)
  }

  function StripMetadata(x: Field): Field {
    if x.key == METADATA && x.value.Obj? then Field(METADATA, Obj(Without(x.value.fields, DIGEST))) else x
  }

  /** The envelope without the digests it carries about itself. */
  function Stripped(fields: seq<Field>): seq<Field> {
    Without(Map(StripMetadata, fields), DIGEST)
  }

  function IdentityProjection(v: Json): Option<Json> {
    match Canonicalize(v, [])
    case Obj(fields) => Some(Obj(Stripped(fields)))
    case _ => None
  }

  function CanonicalDigest(hash: seq<Byte> -> string, v: Json): Option<string> {
    match IdentityProjection(v)
    case Some(w) => Some("sha256:" + hash(Utf8(Encode(w))))
    case None => None
  }

  ghost predicate Injective(hash: seq<Byte> -> string) {
    forall a, b :: hash(a) == hash(b) ==> a == b
  }

  /** Canonical fields, place by place. */
  function FieldAt(path: Path): Field -> Field {
    (x: Field) => Field(x.key, Canonicalize(x.value, path + [x.key]))
  }

  lemma ObjCanonical(fields: seq<Field>, path: Path)
    ensures Canonicalize(Obj(fields), path) == Obj(Map(FieldAt(path), fields))
  {
    assert Map(FieldAt(path), fields) == seq(|fields|, i requires 0 <= i < |fields| =>
      Field(fields[i].key, Canonicalize(fields[i].value, path + [fields[i].key])));
  }

  /** Canonicalizing keeps keys, so it does not matter which comes first. */
  lemma {:induction false} WithoutCommutes(f: Field -> Field, fields: seq<Field>, key: string)
    requires forall i :: 0 <= i < |fields| ==> f(fields[i]).key == fields[i].key
    ensures Without(Map(f, fields), key) == Map(f, Without(fields, key))
  {
    hide Map;
    if fields == [] {
      assert Map(f, fields) == [];
    } else {
      MapCons(f, fields);
      WithoutCommutes(f, fields[1..], key);
      assert Map(f, fields)[1..] == Map(f, fields[1..]);
      if fields[0].key != key { MapCons(f, [fields[0]] + Without(fields[1..], key)); }
    }
  }

  lemma StripCommutes(x: Field)
    ensures StripMetadata(FieldAt([])(x)) == FieldAt([])(StripMetadata(x))
  {
    if x.key == METADATA && x.value.Obj? {
      var f := FieldAt([METADATA]);
      assert [] + [METADATA] == [METADATA];
      ObjCanonical(x.value.fields, [METADATA]);
      ObjCanonical(Without(x.value.fields, DIGEST), [METADATA]);
      WithoutCommutes(f, x.value.fields, DIGEST);
    }
  }

  lemma StrippedCommutes(fields: seq<Field>)
    ensures Canonicalize(Obj(Stripped(fields)), []) == Obj(Stripped(Map(FieldAt([]), fields)))
  {
    var f := FieldAt([]);
    forall i | 0 <= i < |fields| ensures StripMetadata(f(fields[i])) == f(StripMetadata(fields[i])) {
      StripCommutes(fields[i]);
    }
    assert Map(StripMetadata, Map(f, fields)) == Map(f, Map(StripMetadata, fields));
    WithoutCommutes(f, Map(StripMetadata, fields), DIGEST);
    ObjCanonical(Stripped(fields), []);
  }

  /** The digest is taken over the canonical text of the stripped envelope. */
  lemma DigestOfStripped(hash: seq<Byte> -> string, fields: seq<Field>)
    ensures CanonicalDigest(hash, Obj(fields)) == Some("sha256:" + hash(CanonicalJson(Obj(Stripped(fields)))))
  {
    ObjCanonical(fields, []);
    StrippedCommutes(fields);
  }

  lemma {:induction false} WithoutWellFormed(fields: seq<Field>, key: string)
    requires WellFormed(Obj(fields))
    ensures WellFormed(Obj(Without(fields, key)))
    ensures forall i :: 0 <= i < |Without(fields, key)| ==> Without(fields, key)[i] in fields
  {
    if fields != [] {
      WithoutWellFormed(fields[1..], key);
    }
  }

  lemma StrippedWellFormed(fields: seq<Field>)
    requires WellFormed(Obj(fields))
    ensures WellFormed(Obj(Stripped(fields)))
  {
    var s := Map(StripMetadata, fields);
    forall i | 0 <= i < |s| ensures WellFormed(s[i].value) && s[i].key == fields[i].key {
      if fields[i].value.Obj? { WithoutWellFormed(fields[i].value.fields, DIGEST); }
    }
    WithoutWellFormed(s, DIGEST);
  }

  /** Two envelopes share a digest exactly when they are equivalent apart from the digests they carry. */
  lemma SameDigestIffSameContent(hash: seq<Byte> -> string, v: seq<Field>, w: seq<Field>)
    requires Injective(hash) && WellFormed(Obj(v))
    ensures CanonicalDigest(hash, Obj(v)) == CanonicalDigest(hash, Obj(w))
       <==> Equivalent(Obj(Stripped(v)), Obj(Stripped(w)), [])
  {
    DigestOfStripped(hash, v);
    DigestOfStripped(hash, w);
    StrippedWellFormed(v);
    SameBytesIffEquivalent(Obj(Stripped(v)), Obj(Stripped(w)));
    var a, b := hash(CanonicalJson(Obj(Stripped(v)))), hash(CanonicalJson(Obj(Stripped(w))));
    assert ("sha256:" + a)[7..] == a && ("sha256:" + b)[7..] == b;
  }

  lemma {:induction false} WithoutWith(fields: seq<Field>, key: string, value: Json)
    ensures Without(With(fields, key, value), key) == Without(fields, key)
  {
    if fields != [] { WithoutWith(fields[1..], key, value); }
  }

  lemma {:induction false} MapWith(fields: seq<Field>, value: Json)
    ensures Map(StripMetadata, With(fields, DIGEST, value)) == With(Map(StripMetadata, fields), DIGEST, value)
  {
    hide Map;
    if fields == [] {
      assert Map(StripMetadata, fields) == [];
      assert Map(StripMetadata, [Field(DIGEST, value)]) == [Field(DIGEST, value)];
    } else {
      MapCons(StripMetadata, fields);
      MapWith(fields[1..], value);
      assert Map(StripMetadata, fields)[1..] == Map(StripMetadata, fields[1..]);
      MapCons(StripMetadata, With(fields, DIGEST, value));
      assert With(fields, DIGEST, value)[1..] ==
             if fields[0].key == DIGEST then fields[1..] else With(fields[1..], DIGEST, value);
    }
  }

  /** Storing any digest in the envelope leaves its digest as it was. */
  lemma StoredDigestIsIgnored(hash: seq<Byte> -> string, fields: seq<Field>, stored: string)
    ensures CanonicalDigest(hash, Obj(With(fields, "contentDigest", Str(stored)))) == CanonicalDigest(hash, Obj(fields))
  {
    MapWith(fields, Str(stored));
    WithoutWith(Map(StripMetadata, fields), DIGEST, Str(stored));
    DigestOfStripped(hash, fields);
    DigestOfStripped(hash, With(fields, DIGEST, Str(stored)));
  }

  /** Likewise for the digest kept inside the metadata object. */
  lemma MetadataDigestIsIgnored(hash: seq<Byte> -> string, fields: seq<Field>, k: nat, stored: string)
    requires k < |fields| && fields[k].key == "metadata" && fields[k].value.Obj?
    ensures var inner := With(fields[k].value.fields, "contentDigest", Str(stored));
            CanonicalDigest(hash, Obj(fields[k := Field("metadata", Obj(inner))])) == CanonicalDigest(hash, Obj(fields))
  {
    var inner := With(fields[k].value.fields, DIGEST, Str(stored));
    var other := fields[k := Field(METADATA, Obj(inner))];
    WithoutWith(fields[k].value.fields, DIGEST, Str(stored));
    assert Map(StripMetadata, other) == Map(StripMetadata, fields);
    DigestOfStripped(hash, fields);
    DigestOfStripped(hash, other);
  }
}
