/** What two values with the same canonical text have in common, and what the text keeps of a value. */
module CanonicalEquivalence {
  import opened Order
  import opened Rearrange
  import opened JsonText
  import opened TextBytes
  import opened Canonical

  /** Equal up to the order of object keys and of the arrays at the unordered paths.
      The right-hand value is put in the left-hand one's order and then compared place by place. */
  ghost predicate Equivalent(v: Json, w: Json, path: Path)
    decreases v
  {
    match v
    case Arr(items) =>
      && w.Arr?
      && exists u: seq<Json> :: Reorders(u, w.items) && (path !in UNORDERED ==> u == w.items) && |u| == |items|
           && forall i :: 0 <= i < |items| ==> Equivalent(items[i], u[i], path)
    case Obj(fields) =>
      && w.Obj?
      && exists u: seq<Field> :: Reorders(u, w.fields) && |u| == |fields|
           && forall i :: 0 <= i < |fields| ==>
                && fields[i].key == u[i].key
                && Equivalent(fields[i].value, u[i].value, path + [fields[i].key])
    case _ => v == w
  }

  // ---------------------------------------------------------------- orders

  lemma LexPreorder()
    ensures TotalPreorder(LexLe) && TotalPreorder(KeyLe)
  {
    forall x, y ensures LexLe(x, y) || LexLe(y, x) { LexTotal(x, y); }
    forall x, y, z | LexLe(x, y) && LexLe(y, z) ensures LexLe(x, z) { LexTransitive(x, y, z); }
  }

  /** Sorting texts forgets their order. */
  lemma SortedTextsAgree(s: seq<string>, t: seq<string>)
    requires Reorders(s, t)
    ensures Sort(LexLe, s) == Sort(LexLe, t)
  {
    LexPreorder();
    SortSorted(LexLe, s);
    SortSorted(LexLe, t);
    var a := Sort(LexLe, s);
    forall i, j | 0 <= i < |a| && 0 <= j < |a| && LexLe(a[i], a[j]) && LexLe(a[j], a[i]) ensures a[i] == a[j] {
      LexAntisymmetric(a[i], a[j]);
    }
    SortedUnique(LexLe, a, Sort(LexLe, t));
  }

  predicate KeysDiffer(es: seq<Entry>) {
    forall i, j :: 0 <= i < j < |es| ==> es[i].key != es[j].key
  }

  lemma SortedEntriesAgree(s: seq<Entry>, t: seq<Entry>)
    requires Reorders(s, t) && KeysDiffer(s)
    ensures Sort(KeyLe, s) == Sort(KeyLe, t)
  {
    LexPreorder();
    SortSorted(KeyLe, s);
    SortSorted(KeyLe, t);
    var a := Sort(KeyLe, s);
    forall i, j | 0 <= i < |a| && 0 <= j < |a| && KeyLe(a[i], a[j]) && KeyLe(a[j], a[i]) ensures a[i] == a[j] {
      LexAntisymmetric(a[i].key, a[j].key);
      assert a[i] in multiset(a) && a[j] in multiset(a);
      var k := Member(a[i], s);
      var l := Member(a[j], s);
    }
    SortedUnique(KeyLe, a, Sort(KeyLe, t));
  }

  // ---------------------------------------------------------------- every text is balanced

  ghost predicate BalancedEntries(es: seq<Entry>) {
    forall i :: 0 <= i < |es| ==> Balanced(es[i].text)
  }

  lemma SortBalanced(ts: seq<string>)
    requires AllBalanced(ts)
    ensures AllBalanced(Sort(LexLe, ts))
  {
    hide Balanced;
    var s := Sort(LexLe, ts);
    forall i | 0 <= i < |s| ensures Balanced(s[i]) {
      assert s[i] in multiset(s);
      var k := Member(s[i], ts);
    }
  }

  lemma EntryTextsBalanced(es: seq<Entry>)
    requires BalancedEntries(es)
    ensures AllBalanced(Map(EntryText, Sort(KeyLe, es)))
  {
    hide Balanced;
    var s := Sort(KeyLe, es);
    forall i | 0 <= i < |s| ensures Balanced(EntryText(s[i])) {
      assert s[i] in multiset(s);
      var k := Member(s[i], es);
      QuoteBalanced(s[i].key);
      PlainBalanced([':']);
      BalancedConcat(Quote(s[i].key), [':']);
      BalancedConcat(Quote(s[i].key) + [':'], s[i].text);
    }
  }

  lemma WordsBalanced()
    ensures Balanced("null") && Balanced("true") && Balanced("false")
  {
    hide Balanced;
    PlainBalanced("null");
    PlainBalanced("true");
    PlainBalanced("false");
  }

  lemma {:induction false} TextBalanced(v: Json, path: Path)
    ensures Balanced(CanonText(v, path))
    decreases v
  {
    hide Balanced, Nested, Plain, Sort, Join;
    match v
    case Arr(items) =>
      var ts := Map(TextAt(path), items);
      forall i | 0 <= i < |items| ensures Balanced(ts[i]) { TextBalanced(items[i], path); }
      if path in UNORDERED { SortBalanced(ts); }
      ArrText(items, path);
      JoinNested(Ordered(path, ts));
      Enclose('[', Join(Ordered(path, ts)), ']');
    case Obj(fields) =>
      var es := Map(EntryAt(path), fields);
      forall i | 0 <= i < |fields| ensures Balanced(es[i].text) {
        TextBalanced(fields[i].value, path + [fields[i].key]);
      }
      ObjText(fields, path);
      EntryTextsBalanced(es);
      JoinNested(Map(EntryText, Sort(KeyLe, es)));
      Enclose('{', Join(Map(EntryText, Sort(KeyLe, es))), '}');
    case Num(n) => IntTextPlain(n); PlainBalanced(IntText(n));
    case Str(s) => QuoteBalanced(s);
    case _ => WordsBalanced();
  }

  lemma TextsBalanced(items: seq<Json>, path: Path)
    ensures AllBalanced(Ordered(path, Map(TextAt(path), items)))
  {
    hide Balanced;
    var ts := Map(TextAt(path), items);
    forall i | 0 <= i < |ts| ensures Balanced(ts[i]) { TextBalanced(items[i], path); }
    if path in UNORDERED { SortBalanced(ts); }
  }

  lemma EntriesBalanced(fields: seq<Field>, path: Path)
    ensures BalancedEntries(Map(EntryAt(path), fields))
  {
    hide Balanced;
    forall i | 0 <= i < |fields| ensures Balanced(EntryAt(path)(fields[i]).text) {
      TextBalanced(fields[i].value, path + [fields[i].key]);
    }
  }

  // ---------------------------------------------------------------- reading a text back

  lemma Unwrap(a: char, s: string, b: char, t: string)
    requires [a] + s + [b] == [a] + t + [b]
    ensures s == t
  {
    var x, y := [a] + s + [b], [a] + t + [b];
    assert x[1..|x| - 1] == s && y[1..|y| - 1] == t;
  }

  lemma BracketsInjective(ts: seq<string>, us: seq<string>)
    requires AllBalanced(ts) && AllBalanced(us) && Brackets(ts) == Brackets(us)
    ensures ts == us
  {
    Unwrap('[', Join(ts), ']', Join(us));
    JoinInjective(ts, us);
  }

  lemma EntryTextInjective(d: Entry, e: Entry)
    requires EntryText(d) == EntryText(e)
    ensures d == e
  {
    assert EntryText(d) == Quote(d.key) + ([':'] + d.text);
    assert EntryText(e) == Quote(e.key) + ([':'] + e.text);
    QuoteUnique(d.key, e.key, [':'] + d.text, [':'] + e.text);
    assert ([':'] + d.text)[1..] == d.text && ([':'] + e.text)[1..] == e.text;
  }

  lemma BracesInjective(ds: seq<Entry>, es: seq<Entry>)
    requires BalancedEntries(ds) && BalancedEntries(es) && Braces(ds) == Braces(es)
    ensures Reorders(ds, es)
  {
    hide BalancedEntries;
    EntryTextsBalanced(ds);
    EntryTextsBalanced(es);
    var s, t := Sort(KeyLe, ds), Sort(KeyLe, es);
    Unwrap('{', Join(Map(EntryText, s)), '}', Join(Map(EntryText, t)));
    JoinInjective(Map(EntryText, s), Map(EntryText, t));
    forall i | 0 <= i < |s| ensures s[i] == t[i] {
      assert Map(EntryText, s)[i] == Map(EntryText, t)[i];
      EntryTextInjective(s[i], t[i]);
    }
    assert s == t;
  }

  /** The kinds of value can be told apart by the first character of the text. */
  function Mark(v: Json): char {
    match v
    case Null => 'n'
    case Bool(b) => if b then 't' else 'f'
    case Num(_) => '0'
    case Str(_) => '"'
    case Arr(_) => '['
    case Obj(_) => '{'
  }

  lemma FirstChar(v: Json, path: Path)
    ensures var t := CanonText(v, path); t != [] && (if v.Num? then t[0] in "-0123456789" else t[0] == Mark(v))
  {
    hide Join, Sort, Map;
    if v.Num? { IntTextSign(v.number); }
  }

  lemma SameKind(v: Json, w: Json, path: Path)
    requires CanonText(v, path) == CanonText(w, path)
    ensures Mark(v) == Mark(w)
  {
    hide CanonText;
    FirstChar(v, path);
    FirstChar(w, path);
  }

  // ---------------------------------------------------------------- equal texts, equivalent values

  /** Values with the same canonical text are equal up to key order and unordered arrays. */
  lemma {:induction false} SameTextIsEquivalent(v: Json, w: Json, path: Path)
    requires CanonText(v, path) == CanonText(w, path)
    ensures Equivalent(v, w, path)
    decreases v
  {
    SameKind(v, w, path);
    match v
    case Arr(items) => SameArr(items, w.items, path);
    case Obj(fields) => SameObj(fields, w.fields, path);
    case Num(n) => IntTextInjective(n, w.number);
    case Str(s) =>
      assert Quote(s) + [] == Quote(s) && Quote(w.text) + [] == Quote(w.text);
      QuoteUnique(s, w.text, [], []);
    case _ =>
  }

  lemma {:induction false} SameArr(items: seq<Json>, others: seq<Json>, path: Path)
    requires CanonText(Arr(items), path) == CanonText(Arr(others), path)
    ensures Equivalent(Arr(items), Arr(others), path)
    decreases Arr(items), 0
  {
    hide Sort, Join, Map, CanonText, AllBalanced;
    var f := TextAt(path);
    ArrText(items, path);
    ArrText(others, path);
    TextsBalanced(items, path);
    TextsBalanced(others, path);
    BracketsInjective(Ordered(path, Map(f, items)), Ordered(path, Map(f, others)));
    var u := others;
    if path in UNORDERED { u := Align(f, Map(f, items), others); }
    forall i | 0 <= i < |items| ensures Equivalent(items[i], u[i], path) {
      assert Map(f, items)[i] == Map(f, u)[i];
      SameTextIsEquivalent(items[i], u[i], path);
    }
  }

  lemma {:induction false} SameObj(fields: seq<Field>, others: seq<Field>, path: Path)
    requires CanonText(Obj(fields), path) == CanonText(Obj(others), path)
    ensures Equivalent(Obj(fields), Obj(others), path)
    decreases Obj(fields), 0
  {
    hide Sort, Join, Map, CanonText, BalancedEntries;
    var f := EntryAt(path);
    ObjText(fields, path);
    ObjText(others, path);
    EntriesBalanced(fields, path);
    EntriesBalanced(others, path);
    BracesInjective(Map(f, fields), Map(f, others));
    var u := Align(f, Map(f, fields), others);
    forall i | 0 <= i < |fields|
      ensures fields[i].key == u[i].key
      ensures Equivalent(fields[i].value, u[i].value, path + [fields[i].key])
    {
      assert Map(f, fields)[i] == Map(f, u)[i];
      SameTextIsEquivalent(fields[i].value, u[i].value, path + [fields[i].key]);
    }
  }

  // ---------------------------------------------------------------- and back

  lemma {:induction false} EquivalentHaveSameText(v: Json, w: Json, path: Path)
    requires WellFormed(v) && Equivalent(v, w, path)
    ensures CanonText(v, path) == CanonText(w, path)
    decreases v
  {
    match v
    case Arr(items) => EquivalentArr(items, w.items, path);
    case Obj(fields) => EquivalentObj(fields, w.fields, path);
    case _ =>
  }

  lemma {:induction false} EquivalentArr(items: seq<Json>, others: seq<Json>, path: Path)
    requires WellFormed(Arr(items)) && Equivalent(Arr(items), Arr(others), path)
    ensures CanonText(Arr(items), path) == CanonText(Arr(others), path)
    decreases Arr(items), 0
  {
    hide Sort, Join, Map, CanonText;
    var u :| Reorders(u, others) && (path !in UNORDERED ==> u == others) && |u| == |items|
             && forall i :: 0 <= i < |items| ==> Equivalent(items[i], u[i], path);
    var f := TextAt(path);
    forall i | 0 <= i < |items| ensures f(items[i]) == f(u[i]) {
      EquivalentHaveSameText(items[i], u[i], path);
    }
    ReorderedItems(items, u, others, path);
  }

  lemma ReorderedItems(items: seq<Json>, u: seq<Json>, others: seq<Json>, path: Path)
    requires Reorders(u, others) && (path !in UNORDERED ==> u == others) && |u| == |items|
    requires forall i :: 0 <= i < |items| ==> TextAt(path)(items[i]) == TextAt(path)(u[i])
    ensures CanonText(Arr(items), path) == CanonText(Arr(others), path)
  {
    hide Sort, Join, Map, CanonText;
    var f := TextAt(path);
    assert Map(f, items) == Map(f, u);
    if path in UNORDERED {
      MapMultiset(f, u, others);
      SortedTextsAgree(Map(f, u), Map(f, others));
    }
    ArrText(items, path);
    ArrText(others, path);
  }

  lemma {:induction false} EquivalentObj(fields: seq<Field>, others: seq<Field>, path: Path)
    requires WellFormed(Obj(fields)) && Equivalent(Obj(fields), Obj(others), path)
    ensures CanonText(Obj(fields), path) == CanonText(Obj(others), path)
    decreases Obj(fields), 0
  {
    hide Sort, Join, Map, CanonText;
    var u: seq<Field> :| Reorders(u, others) && |u| == |fields|
             && forall i :: 0 <= i < |fields| ==>
                  && fields[i].key == u[i].key
                  && Equivalent(fields[i].value, u[i].value, path + [fields[i].key]);
    var f := EntryAt(path);
    forall i | 0 <= i < |fields| ensures f(fields[i]) == f(u[i]) {
      EquivalentHaveSameText(fields[i].value, u[i].value, path + [fields[i].key]);
    }
    ReorderedFields(fields, u, others, path);
  }

  lemma ReorderedFields(fields: seq<Field>, u: seq<Field>, others: seq<Field>, path: Path)
    requires DistinctKeys(fields) && Reorders(u, others) && |u| == |fields|
    requires forall i :: 0 <= i < |fields| ==> EntryAt(path)(fields[i]) == EntryAt(path)(u[i])
    ensures CanonText(Obj(fields), path) == CanonText(Obj(others), path)
  {
    hide Sort, Join, Map, CanonText;
    var f := EntryAt(path);
    assert Map(f, fields) == Map(f, u);
    MapMultiset(f, u, others);
    SortedEntriesAgree(Map(f, fields), Map(f, others));
    ObjText(fields, path);
    ObjText(others, path);
  }

  /** The normal form decides equivalence: same bytes exactly for equivalent values. */
  lemma SameBytesIffEquivalent(v: Json, w: Json)
    requires WellFormed(v)
    ensures CanonicalJson(v) == CanonicalJson(w) <==> Equivalent(v, w, [])
  {
    OnePass(v, []);
    OnePass(w, []);
    if CanonicalJson(v) == CanonicalJson(w) { Utf8Injective(CanonText(v, []), CanonText(w, [])); SameTextIsEquivalent(v, w, []); }
    if Equivalent(v, w, []) { EquivalentHaveSameText(v, w, []); }
  }
}
