/** What is written is read back: the reader of RFC 8259 takes the text and the bytes of any value to that value, with
    every object's keys in the order in which they were written. */
module JsonRoundTrip {
  import opened Order
  import opened Rearrange
  import opened JsonText
  import opened TextBytes
  import opened Canonical
  import opened JsonReader

  // ---------------------------------------------------------------- bytes

  lemma PointIsRead(c: char, rest: seq<Byte>)
    ensures FirstPoint(EncodePoint(c) + rest) == Some((c, |EncodePoint(c)|))
  {
    TextBytes.Digits(c as int);
  }

  lemma {:induction false} Utf8IsRead(s: string)
    ensures FromUtf8(Utf8(s)) == Some(s)
  {
    if s != [] {
      var b, rest := EncodePoint(s[0]), Utf8(s[1..]);
      PointIsRead(s[0], rest);
      Utf8IsRead(s[1..]);
      hide FirstPoint, EncodePoint;
      assert (b + rest)[|b|..] == rest;
      assert s == [s[0]] + s[1..];
    }
  }

  // ---------------------------------------------------------------- strings

  lemma HexIsRead(n: nat)
    requires n < 16
    ensures HexValue(HexDigit(n)) == Some(n)
  {}

  lemma EscapeIsRead(c: char, x: string)
    ensures OneChar(EscapeChar(c) + x) == Parsed(c, x) && (EscapeChar(c) + x)[0] != '"'
  {
    var e := EscapeChar(c);
    assert (e + x)[0] == e[0] && (e + x)[|e|..] == x;
    if e[0] == '\\' {
      assert (e + x)[1] == e[1];
      if e[1] == 'u' { UnitIsRead(c, x); }
    }
  }

  lemma UnitIsRead(c: char, x: string)
    requires c < ' ' && |EscapeChar(c)| == 6
    ensures Escaped((EscapeChar(c) + x)[2..]) == Parsed(c, x)
  {
    var n := c as int;
    var t := (EscapeChar(c) + x)[2..];
    assert t == ['0', '0', HexDigit(n / 16), HexDigit(n % 16)] + x;
    HexIsRead(n / 16);
    HexIsRead(n % 16);
    assert Unit(t) == Some(n);
    assert t[4..] == x;
  }

  lemma {:induction false} CharsAreRead(s: string, x: string)
    ensures Chars(Escape(s) + ['"'] + x) == Parsed(s, x)
    decreases |s|
  {
    EscapeEnds(s, x);
    if s != [] {
      hide EscapeChar, OneChar, Escape;
      EscapeIsRead(s[0], Escape(s[1..]) + ['"'] + x);
      CharsAreRead(s[1..], x);
      assert s == [s[0]] + s[1..];
    }
  }

  lemma QuotedIsRead(s: string, x: string)
    ensures Quote(s) + x == ['"'] + (Escape(s) + ['"'] + x)
    ensures Chars(Escape(s) + ['"'] + x) == Parsed(s, x)
  {
    hide Chars, Escape;
    CharsAreRead(s, x);
  }

  // ---------------------------------------------------------------- numbers

  lemma {:induction false} DigitsAreRead(n: nat, x: string)
    ensures ReadDigits(0, NatText(n) + x) == ReadDigits(n, x)
    decreases n
  {
    if n < 10 {
      OneDigit(0, n, x);
    } else {
      DigitsAreRead(n / 10, [Digit(n % 10)] + x);
      OneDigit(n / 10, n % 10, x);
      assert NatText(n) + x == NatText(n / 10) + ([Digit(n % 10)] + x);
    }
  }

  lemma OneDigit(n: nat, d: nat, x: string)
    requires d < 10
    ensures ReadDigits(n, [Digit(d)] + x) == ReadDigits(n * 10 + d, x)
  {
    assert ([Digit(d)] + x)[1..] == x;
  }

  lemma {:induction false} FirstDigit(n: nat)
    ensures NatText(n) != [] && IsDigit(NatText(n)[0]) && (NatText(n)[0] == '0' <==> n == 0)
  {
    if n >= 10 { FirstDigit(n / 10); }
  }

  /** What may follow a value. */
  predicate Stops(rest: string) { rest == [] || rest[0] in {',', ']', '}'} }

  lemma NaturalIsRead(n: nat, x: string)
    requires Stops(x)
    ensures Natural(NatText(n) + x) == Parsed(n, x)
  {
    var t := NatText(n) + x;
    FirstDigit(n);
    DigitsAreRead(n, x);
    assert t[0] == NatText(n)[0];
    assert ReadDigits(0, t) == ReadDigits(t[0] as int - '0' as int, t[1..]);
    if n == 0 { assert t[1..] == x; }
  }

  lemma NumberIsRead(n: int, x: string)
    requires Stops(x)
    ensures Number(IntText(n) + x) == Parsed(n, x)
  {
    hide Natural, NatText;
    if n < 0 {
      assert IntText(n) + x == ['-'] + (NatText(-n) + x);
      assert (['-'] + (NatText(-n) + x))[1..] == NatText(-n) + x;
      NaturalIsRead(-n, x);
    } else {
      FirstDigit(n);
      assert (NatText(n) + x)[0] == NatText(n)[0];
      NaturalIsRead(n, x);
    }
  }

  // ---------------------------------------------------------------- values

  /** Wherever the text stands, it is read as this value and nothing else is touched. */
  ghost predicate Reads(t: string, v: Json) {
    && t != [] && !Blank(t[0]) && t[0] !in {']', '}'}
    && forall rest :: Stops(rest) ==> Value(t + rest) == Parsed(v, rest)
  }

  lemma NotSkipped(s: string)
    requires s != [] && !Blank(s[0])
    ensures Skip(s) == s
  {}

  lemma ValueOfString(u: string)
    ensures Value(['"'] + u) == match Chars(u) case Bad => Bad case Parsed(text, rest) => Parsed(Str(text), rest)
  {
    hide Chars;
    var t := ['"'] + u;
    assert t[1..] == u;
    NotSkipped(t);
  }

  lemma ValueOfArray(u: string)
    requires u != [] && !Blank(u[0])
    ensures Value(['['] + u) ==
            if u[0] == ']' then Parsed(Arr([]), u[1..])
            else match Items(u) case Bad => Bad case Parsed(items, rest) => Parsed(Arr(items), rest)
  {
    hide Items;
    var t := ['['] + u;
    assert t[1..] == u;
    NotSkipped(t);
    NotSkipped(u);
  }

  lemma ValueOfObject(u: string)
    requires u != [] && !Blank(u[0])
    ensures Value(['{'] + u) ==
            if u[0] == '}' then Parsed(Obj([]), u[1..])
            else match Members(u) case Bad => Bad case Parsed(fields, rest) => Parsed(Obj(fields), rest)
  {
    hide Members;
    var t := ['{'] + u;
    assert t[1..] == u;
    NotSkipped(t);
    NotSkipped(u);
  }

  lemma ValueOfNumber(t: string)
    requires t != [] && (t[0] == '-' || IsDigit(t[0]))
    ensures Value(t) == match Number(t) case Bad => Bad case Parsed(n, rest) => Parsed(Num(n), rest)
  {
    hide Number;
    NotSkipped(t);
    assert "null"[0] == 'n' && "true"[0] == 't' && "false"[0] == 'f';
  }

  lemma StrReads(s: string)
    ensures Reads(Quote(s), Str(s))
  {
    hide Value, Chars, Escape;
    forall rest | Stops(rest) ensures Value(Quote(s) + rest) == Parsed(Str(s), rest) {
      QuotedIsRead(s, rest);
      ValueOfString(Escape(s) + ['"'] + rest);
    }
  }

  lemma NumReads(n: int)
    ensures Reads(IntText(n), Num(n))
  {
    IntTextSign(n);
    IntTextFirst(n);
    hide Value, Number, IntText;
    forall rest | Stops(rest) ensures Value(IntText(n) + rest) == Parsed(Num(n), rest) {
      assert (IntText(n) + rest)[0] == IntText(n)[0];
      NumberIsRead(n, rest);
      ValueOfNumber(IntText(n) + rest);
    }
  }

  lemma IntTextFirst(n: int)
    ensures IntText(n) != [] && (IntText(n)[0] == '-' || IsDigit(IntText(n)[0]))
  {
    FirstDigit(if n < 0 then -n else n);
  }

  lemma WordReads(word: string, v: Json)
    requires (word, v) in {("null", Null), ("true", Bool(true)), ("false", Bool(false))}
    ensures Reads(word, v)
  {
    forall rest | Stops(rest) ensures Value(word + rest) == Parsed(v, rest) {
      var t := word + rest;
      assert t[0] == word[0] && t[..|word|] == word && t[|word|..] == rest;
      NotSkipped(t);
    }
  }

  ghost predicate AllRead(ts: seq<string>, vs: seq<Json>) {
    |ts| == |vs| && forall i :: 0 <= i < |ts| ==> Reads(ts[i], vs[i])
  }

  lemma {:induction false} ItemsAreRead(ts: seq<string>, vs: seq<Json>, rest: string)
    requires AllRead(ts, vs) && ts != []
    ensures Items(Join(ts) + [']'] + rest) == Parsed(vs, rest)
    decreases |ts|
  {
    hide Reads;
    JoinTail(ts);
    var x := After(ts) + [']'] + rest;
    assert Join(ts) + [']'] + rest == ts[0] + x;
    FirstRead(ts[0], vs[0], x);
    NotSkipped(x);
    if |ts| > 1 {
      assert x[1..] == Join(ts[1..]) + [']'] + rest;
      ItemsAreRead(ts[1..], vs[1..], rest);
      assert vs == [vs[0]] + vs[1..];
    } else {
      assert x[1..] == rest;
      assert vs == [vs[0]];
    }
    hide Value, Skip, Join;
  }

  lemma FirstRead(t: string, v: Json, x: string)
    requires Reads(t, v) && Stops(x)
    ensures Value(t + x) == Parsed(v, x)
  {
    hide Value;
  }

  lemma ArrReads(ts: seq<string>, vs: seq<Json>)
    requires AllRead(ts, vs)
    ensures Reads(Brackets(ts), Arr(vs))
  {
    hide Items, Join, Value, AllRead;
    forall rest | Stops(rest) ensures Value(Brackets(ts) + rest) == Parsed(Arr(vs), rest) {
      ArrIsRead(ts, vs, rest);
      assert Brackets(ts) + rest == ['['] + (Join(ts) + [']'] + rest);
    }
  }

  lemma ArrIsRead(ts: seq<string>, vs: seq<Json>, rest: string)
    requires AllRead(ts, vs) && Stops(rest)
    ensures Value(['['] + (Join(ts) + [']'] + rest)) == Parsed(Arr(vs), rest)
  {
    hide Items, Value;
    var u := Join(ts) + [']'] + rest;
    if ts == [] {
      assert u == [']'] + rest && u[1..] == rest;
    } else {
      ItemsAreRead(ts, vs, rest);
      JoinTail(ts);
      assert u[0] == ts[0][0];
    }
    ValueOfArray(u);
  }

  /** Entries whose texts are read as the values of these fields. */
  ghost predicate AllMembers(es: seq<Entry>, fields: seq<Field>) {
    |es| == |fields| && forall i :: 0 <= i < |es| ==> es[i].key == fields[i].key && Reads(es[i].text, fields[i].value)
  }

  lemma MemberIsRead(e: Entry, v: Json, x: string)
    requires Reads(e.text, v) && Stops(x)
    ensures KeyAndValue(EntryText(e) + x) == Parsed(Field(e.key, v), x)
  {
    hide Chars, Value, Reads, Escape;
    var u := [':'] + (e.text + x);
    var inner := Escape(e.key) + ['"'] + u;
    assert EntryText(e) + x == Quote(e.key) + u;
    QuotedIsRead(e.key, u);
    assert (['"'] + inner)[1..] == inner && u[1..] == e.text + x;
    NotSkipped(['"'] + inner);
    NotSkipped(u);
    FirstRead(e.text, v, x);
  }

  lemma {:induction false} MembersAreRead(es: seq<Entry>, fields: seq<Field>, rest: string)
    requires AllMembers(es, fields) && es != []
    ensures Members(Join(Map(EntryText, es)) + ['}'] + rest) == Parsed(fields, rest)
    decreases |es|
  {
    hide Reads, EntryText, Join;
    var ts := Map(EntryText, es);
    JoinTail(ts);
    var x := After(ts) + ['}'] + rest;
    assert Join(ts) + ['}'] + rest == EntryText(es[0]) + x;
    AfterStops(ts, ['}'] + rest);
    MemberIsRead(es[0], fields[0].value, x);
    NotSkipped(x);
    if |es| > 1 {
      assert ts[1..] == Map(EntryText, es[1..]);
      assert x[1..] == Join(ts[1..]) + ['}'] + rest;
      MembersAreRead(es[1..], fields[1..], rest);
      assert fields == [fields[0]] + fields[1..];
    } else {
      assert x[1..] == rest;
      assert fields == [fields[0]];
    }
    hide KeyAndValue, Skip;
  }

  lemma AfterStops(ts: seq<string>, rest: string)
    requires ts != [] && Stops(rest) && rest != []
    ensures var x := After(ts) + rest; x != [] && Stops(x) && !Blank(x[0]) && x[0] == if |ts| > 1 then ',' else rest[0]
  {}

  lemma ObjReads(es: seq<Entry>, fields: seq<Field>)
    requires AllMembers(es, fields)
    ensures Reads(['{'] + Join(Map(EntryText, es)) + ['}'], Obj(fields))
  {
    hide Join, Map, Value, AllMembers;
    var body := Join(Map(EntryText, es));
    forall rest | Stops(rest) ensures Value(['{'] + body + ['}'] + rest) == Parsed(Obj(fields), rest) {
      ObjIsRead(es, fields, rest);
      assert ['{'] + body + ['}'] + rest == ['{'] + (body + ['}'] + rest);
    }
  }

  lemma ObjIsRead(es: seq<Entry>, fields: seq<Field>, rest: string)
    requires AllMembers(es, fields) && Stops(rest)
    ensures Value(['{'] + (Join(Map(EntryText, es)) + ['}'] + rest)) == Parsed(Obj(fields), rest)
  {
    hide Members, Value, Reads;
    var ts := Map(EntryText, es);
    var u := Join(ts) + ['}'] + rest;
    if es == [] {
      assert u == ['}'] + rest && u[1..] == rest;
    } else {
      MembersAreRead(es, fields, rest);
      JoinTail(ts);
      assert u[0] == ts[0][0] == '"';
    }
    ValueOfObject(u);
  }

  // ---------------------------------------------------------------- the value behind a text

  predicate FieldLe(x: Field, y: Field) { LexLe(x.key, y.key) }

  /** The value as read from its text: every object's keys in the order in which they were written. */
  function KeySorted(v: Json): Json {
    match v
    case Arr(items) => Arr(seq(|items|, i requires 0 <= i < |items| => KeySorted(items[i])))
    case Obj(fields) =>
      Obj(Sort(FieldLe, seq(|fields|, i requires 0 <= i < |fields| => Field(fields[i].key, KeySorted(fields[i].value)))))
    case _ => v
  }

  function SortedField(x: Field): Field { Field(x.key, KeySorted(x.value)) }

  function WrittenField(x: Field): Entry { Entry(x.key, Encode(x.value)) }

  lemma KeySortedObj(fields: seq<Field>)
    ensures KeySorted(Obj(fields)) == Obj(Sort(FieldLe, Map(SortedField, fields)))
    ensures KeySorted(Obj(fields)) == Obj(Map(SortedField, Sort(FieldLe, fields)))
  {
    assert Map(SortedField, fields) ==
           seq(|fields|, i requires 0 <= i < |fields| => Field(fields[i].key, KeySorted(fields[i].value)));
    SortNatural(SortedField, FieldLe, FieldLe, fields);
  }

  lemma EncodedObj(fields: seq<Field>)
    ensures Encode(Obj(fields)) == ['{'] + Join(Map(EntryText, Map(WrittenField, Sort(FieldLe, fields)))) + ['}']
  {
    assert Map(WrittenField, fields) ==
           seq(|fields|, i requires 0 <= i < |fields| => Entry(fields[i].key, Encode(fields[i].value)));
    SortNatural(WrittenField, FieldLe, KeyLe, fields);
    hide Join, Sort;
  }

  /** Reading the text of any value gives that value, keys in the order of the text. */
  lemma {:induction false} EncodedReads(v: Json)
    ensures Reads(Encode(v), KeySorted(v))
    decreases v
  {
    match v
    case Null => WordReads("null", Null);
    case Bool(b) => WordReads(if b then "true" else "false", v);
    case Num(n) => NumReads(n);
    case Str(s) => StrReads(s);
    case Arr(items) =>
      hide Reads;
      forall i | 0 <= i < |items| ensures Reads(Encode(items[i]), KeySorted(items[i])) { EncodedReads(items[i]); }
      ArrEncoded(items);
      ArrReads(Map(Encode, items), KeySorted(v).items);
    case Obj(fields) =>
      hide Reads;
      forall i | 0 <= i < |fields| ensures Reads(Encode(fields[i].value), KeySorted(fields[i].value)) {
        EncodedReads(fields[i].value);
      }
      FieldsRead(fields);
      EncodedObj(fields);
      KeySortedObj(fields);
      ObjReads(Map(WrittenField, Sort(FieldLe, fields)), Map(SortedField, Sort(FieldLe, fields)));
  }

  lemma FieldsRead(fields: seq<Field>)
    requires forall i :: 0 <= i < |fields| ==> Reads(Encode(fields[i].value), KeySorted(fields[i].value))
    ensures AllMembers(Map(WrittenField, Sort(FieldLe, fields)), Map(SortedField, Sort(FieldLe, fields)))
  {
    hide Reads, Encode, KeySorted;
    var s := Sort(FieldLe, fields);
    forall i | 0 <= i < |s| ensures Reads(Encode(s[i].value), KeySorted(s[i].value)) {
      assert s[i] in multiset(s);
      var j :| 0 <= j < |fields| && fields[j] == s[i];
    }
  }

  lemma DocumentIsRead(v: Json)
    ensures Document(Encode(v)) == Some(KeySorted(v))
  {
    EncodedReads(v);
    hide Encode, KeySorted, Value;
    assert Encode(v) + [] == Encode(v);
    FirstRead(Encode(v), KeySorted(v), []);
  }

  // ---------------------------------------------------------------- dictionaries

  lemma {:induction false} PutNew(fields: seq<Field>, x: Field)
    requires forall i :: 0 <= i < |fields| ==> fields[i].key != x.key
    ensures Put(fields, x) == fields + [x]
  {
    if fields != [] {
      PutNew(fields[1..], x);
      assert fields == [fields[0]] + fields[1..];
    }
  }

  lemma {:induction false} DictIsSame(fields: seq<Field>)
    requires DistinctKeys(fields)
    ensures Dict(fields) == fields
  {
    if fields != [] {
      var n := |fields| - 1;
      DictIsSame(fields[..n]);
      PutNew(fields[..n], fields[n]);
      assert fields == fields[..n] + [fields[n]];
    }
  }

  lemma {:induction false} AsDictsIsSame(v: Json)
    requires WellFormed(v)
    ensures AsDicts(v) == v
    decreases v
  {
    match v
    case Arr(items) =>
      forall i | 0 <= i < |items| ensures AsDicts(items[i]) == items[i] { AsDictsIsSame(items[i]); }
      assert AsDicts(v).items == items;
    case Obj(fields) =>
      var same := seq(|fields|, i requires 0 <= i < |fields| => Field(fields[i].key, AsDicts(fields[i].value)));
      forall i | 0 <= i < |fields| ensures same[i] == fields[i] { AsDictsIsSame(fields[i].value); }
      assert same == fields;
      DictIsSame(fields);
    case _ =>
  }

  lemma {:induction false} KeySortedWellFormed(v: Json)
    requires WellFormed(v)
    ensures WellFormed(KeySorted(v))
    decreases v
  {
    match v
    case Arr(items) =>
      forall i | 0 <= i < |items| ensures WellFormed(KeySorted(items[i])) { KeySortedWellFormed(items[i]); }
    case Obj(fields) =>
      forall i | 0 <= i < |fields| ensures WellFormed(KeySorted(fields[i].value)) { KeySortedWellFormed(fields[i].value); }
      SortedFieldsWellFormed(fields);
    case _ =>
  }

  lemma SortedFieldsWellFormed(fields: seq<Field>)
    requires DistinctKeys(fields) && forall i :: 0 <= i < |fields| ==> WellFormed(KeySorted(fields[i].value))
    ensures WellFormed(KeySorted(Obj(fields)))
  {
    hide KeySorted, Sort;
    KeySortedObj(fields);
    var s, t := Map(SortedField, fields), Sort(FieldLe, Map(SortedField, fields));
    DistinctInAnyOrder((x: Field) => x.key, s, t);
    forall i | 0 <= i < |t| ensures WellFormed(t[i].value) {
      assert t[i] in multiset(t);
      var j :| 0 <= j < |s| && s[j] == t[i];
    }
  }

  /** The program's reader undoes its writer. */
  lemma LoadsUndoes(v: Json)
    requires WellFormed(v)
    ensures Loads(Utf8(Encode(v))) == Some(KeySorted(v))
  {
    hide Encode, Document, KeySorted;
    Utf8IsRead(Encode(v));
    DocumentIsRead(v);
    KeySortedWellFormed(v);
    AsDictsIsSame(KeySorted(v));
  }

  /** A text determines its value, up to the order of keys. */
  lemma TextDeterminesValue(v: Json, w: Json)
    requires Utf8(Encode(v)) == Utf8(Encode(w))
    ensures KeySorted(v) == KeySorted(w)
  {
    hide Encode, Document, KeySorted;
    Utf8IsRead(Encode(v));
    Utf8IsRead(Encode(w));
    DocumentIsRead(v);
    DocumentIsRead(w);
  }
}
