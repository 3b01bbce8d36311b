/** Canonical JSON (canonical.py): a normal form that sorts arrays at a few listed paths, its text,
    and the content digest taken over it. */
module Canonical {
  import opened Order
  import opened Rearrange
  import opened JsonText
  import opened TextBytes

  datatype Field = Field(key: string, value: Json)
  datatype Json =
    | Null
    | Bool(truth: bool)
    | Num(number: int)
    | Str(text: string)
    | Arr(items: seq<Json>)
    | Obj(fields: seq<Field>)

  type Path = seq<string>

  /** The arrays whose order carries no meaning. */
  const UNORDERED: set<Path> := {
    ["evidence"], ["relationships"], ["dependencies"], ["affectedContracts"],
    ["scope", "reviewWhen"], ["provenance", "sourceRecords"], ["provenance", "ancestry"]
  }

  predicate DistinctKeys(fields: seq<Field>) {
    forall i, j :: 0 <= i < j < |fields| ==> fields[i].key != fields[j].key
  }

  /** A dictionary holds each key once; its order of insertion is kept. */
  predicate WellFormed(v: Json) {
    match v
    case Arr(items) => forall i :: 0 <= i < |items| ==> WellFormed(items[i])
    case Obj(fields) => DistinctKeys(fields) && forall i :: 0 <= i < |fields| ==> WellFormed(fields[i].value)
    case _ => true
  }

  // ---------------------------------------------------------------- text

  datatype Entry = Entry(key: string, text: string)

  function EntryText(e: Entry): string { Quote(e.key) + [':'] + e.text }

  predicate KeyLe(a: Entry, b: Entry) { LexLe(a.key, b.key) }

  function Brackets(ts: seq<string>): string { ['['] + Join(ts) + [']'] }

  function Braces(es: seq<Entry>): string { ['{'] + Join(Map(EntryText, Sort(KeyLe, es))) + ['}'] }

  /** `json.dumps` with sorted keys and no spaces. */
  function Encode(v: Json): string {
    match v
    case Null => "null"
    case Bool(b) => if b then "true" else "false"
    case Num(n) => IntText(n)
    case Str(s) => Quote(s)
    case Arr(items) => Brackets(seq(|items|, i requires 0 <= i < |items| => Encode(items[i])))
    case Obj(fields) =>
      Braces(seq(|fields|, i requires 0 <= i < |fields| => Entry(fields[i].key, Encode(fields[i].value))))
  }

  /** The sort key is the encoded item. */
  predicate TextLe(v: Json, w: Json) { BytesLe(Utf8(Encode(v)), Utf8(Encode(w))) }

  function Canonicalize(v: Json, path: Path): Json
    decreases v
  {
    match v
    case Arr(items) =>
      var done := seq(|items|, i requires 0 <= i < |items| => Canonicalize(items[i], path));
      Arr(if path in UNORDERED then Sort(TextLe, done) else done)
    case Obj(fields) =>
      Obj(seq(|fields|, i requires 0 <= i < |fields| =>
        Field(fields[i].key, Canonicalize(fields[i].value, path + [fields[i].key]))))
    case _ => v
  }

  function CanonicalJson(v: Json): seq<Byte> { Utf8(Encode(Canonicalize(v, []))) }

  // ---------------------------------------------------------------- the text in one pass

  function Ordered(path: Path, ts: seq<string>): seq<string> {
    if path in UNORDERED then Sort(LexLe, ts) else ts
  }

  /** The canonical text without building the canonical value first. */
  function CanonText(v: Json, path: Path): string
    decreases v
  {
    match v
    case Arr(items) =>
      Brackets(Ordered(path, seq(|items|, i requires 0 <= i < |items| => CanonText(items[i], path))))
    case Obj(fields) =>
      Braces(seq(|fields|, i requires 0 <= i < |fields| =>
        Entry(fields[i].key, CanonText(fields[i].value, path + [fields[i].key]))))
    case _ => Encode(v)
  }

  function TextAt(path: Path): Json -> string { v => CanonText(v, path) }

  function EntryAt(path: Path): Field -> Entry {
    (x: Field) => Entry(x.key, CanonText(x.value, path + [x.key]))
  }

  lemma ArrText(items: seq<Json>, path: Path)
    ensures CanonText(Arr(items), path) == Brackets(Ordered(path, Map(TextAt(path), items)))
  {
    assert Map(TextAt(path), items) == seq(|items|, i requires 0 <= i < |items| => CanonText(items[i], path));
  }

  lemma ObjText(fields: seq<Field>, path: Path)
    ensures CanonText(Obj(fields), path) == Braces(Map(EntryAt(path), fields))
  {
    assert Map(EntryAt(path), fields) == seq(|fields|, i requires 0 <= i < |fields| =>
      Entry(fields[i].key, CanonText(fields[i].value, path + [fields[i].key])));
  }

  lemma ArrEncoded(items: seq<Json>)
    ensures Encode(Arr(items)) == Brackets(Map(Encode, items))
  {
    assert Map(Encode, items) == seq(|items|, i requires 0 <= i < |items| => Encode(items[i]));
  }

  lemma TextOrder(items: seq<Json>)
    ensures forall v, w :: v in items && w in items ==> TextLe(v, w) == LexLe(Encode(v), Encode(w))
  {
    forall v, w | v in items && w in items ensures TextLe(v, w) == LexLe(Encode(v), Encode(w)) {
      ByteOrderIsTextOrder(Encode(v), Encode(w));
    }
  }

  /** Encoding the canonical value is the one-pass text. */
  lemma {:induction false} OnePass(v: Json, path: Path)
    ensures Encode(Canonicalize(v, path)) == CanonText(v, path)
    decreases v
  {
    match v
    case Arr(items) =>
      var done := seq(|items|, i requires 0 <= i < |items| => Canonicalize(items[i], path));
      forall i | 0 <= i < |items| ensures Encode(done[i]) == CanonText(items[i], path) {
        OnePass(items[i], path);
      }
      assert Map(Encode, done) == Map(TextAt(path), items);
      ArrText(items, path);
      if path in UNORDERED {
        TextOrder(done);
        SortNatural(Encode, TextLe, LexLe, done);
        ArrEncoded(Sort(TextLe, done));
      } else {
        ArrEncoded(done);
      }
    case Obj(fields) =>
      var done := Canonicalize(v, path).fields;
      forall i | 0 <= i < |fields| ensures Encode(done[i].value) == CanonText(fields[i].value, path + [fields[i].key]) {
        OnePass(fields[i].value, path + [fields[i].key]);
      }
      ObjText(fields, path);
      assert Map(EntryAt(path), fields) ==
             seq(|done|, i requires 0 <= i < |done| => Entry(done[i].key, Encode(done[i].value)));
    case _ =>
  }
}
