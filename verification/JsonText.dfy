/** The characters that canonical JSON is written in: string escapes, decimal integers, and why a
    comma-separated list of JSON texts can be read back in only one way. */
module JsonText {
  // ---------------------------------------------------------------- strings

  function HexDigit(n: nat): char
    requires n < 16
  {
    "0123456789abcdef"[n]
  }

  /** `json.dumps` with `ensure_ascii=False`: only quotes, backslashes and control characters. */
  function EscapeChar(c: char): string {
    if c == '"' then ['\\', '"']
    else if c == '\\' then ['\\', '\\']
    else if c == '\n' then ['\\', 'n']
    else if c == '\r' then ['\\', 'r']
    else if c == '\t' then ['\\', 't']
    else if c == '\U{8}' then ['\\', 'b']
    else if c == '\U{C}' then ['\\', 'f']
    else if c < ' ' then ['\\', 'u', '0', '0', HexDigit((c as int) / 16), HexDigit((c as int) % 16)]
    else [c]
  }

  function Escape(s: string): string {
    if s == [] then [] else EscapeChar(s[0]) + Escape(s[1..])
  }

  function Quote(s: string): string {
    ['"'] + Escape(s) + ['"']
  }

  lemma HexDigitInjective(m: nat, n: nat)
    requires m < 16 && n < 16 && HexDigit(m) == HexDigit(n)
    ensures m == n
  {}

  /** Escaped characters can be told apart, whatever follows. */
  lemma EscapeCharUnique(a: char, b: char, x: string, y: string)
    requires EscapeChar(a) + x == EscapeChar(b) + y
    ensures a == b && x == y
  {
    var p, q := EscapeChar(a), EscapeChar(b);
    assert (p + x)[0] == p[0] && (q + y)[0] == q[0];
    if p[0] == '\\' {
      assert (p + x)[1] == p[1] && (q + y)[1] == q[1];
      if p[1] == 'u' {
        assert (p + x)[4] == p[4] && (q + y)[4] == q[4];
        assert (p + x)[5] == p[5] && (q + y)[5] == q[5];
        HexDigitInjective((a as int) / 16, (b as int) / 16);
        HexDigitInjective((a as int) % 16, (b as int) % 16);
        assert a as int == b as int;
      }
    }
    assert a == b;
    assert (p + x)[|p|..] == x && (q + y)[|q|..] == y;
  }

  /** What is left of a quoted string starts with a quote exactly when nothing is left inside. */
  lemma EscapeEnds(a: string, x: string)
    ensures (Escape(a) + ['"'] + x)[0] == '"' <==> a == []
    ensures a == [] ==> (Escape(a) + ['"'] + x)[1..] == x
    ensures a != [] ==> Escape(a) + ['"'] + x == EscapeChar(a[0]) + (Escape(a[1..]) + ['"'] + x)
  {
    if a == [] {
      assert Escape(a) + ['"'] + x == ['"'] + x;
    } else {
      assert Escape(a) + ['"'] + x == EscapeChar(a[0]) + (Escape(a[1..]) + ['"'] + x);
    }
  }

  /** A quoted string can be told apart, whatever follows its closing quote. */
  lemma {:induction false} EscapeUnique(a: string, b: string, x: string, y: string)
    requires Escape(a) + ['"'] + x == Escape(b) + ['"'] + y
    ensures a == b && x == y
    decreases |a|
  {
    hide EscapeChar;
    EscapeEnds(a, x);
    EscapeEnds(b, y);
    if a != [] {
      EscapeCharUnique(a[0], b[0], Escape(a[1..]) + ['"'] + x, Escape(b[1..]) + ['"'] + y);
      EscapeUnique(a[1..], b[1..], x, y);
      assert a == [a[0]] + a[1..] && b == [b[0]] + b[1..];
    }
  }

  lemma QuoteUnique(a: string, b: string, x: string, y: string)
    requires Quote(a) + x == Quote(b) + y
    ensures a == b && x == y
  {
    var p, q := Escape(a) + ['"'] + x, Escape(b) + ['"'] + y;
    assert Quote(a) + x == ['"'] + p && Quote(b) + y == ['"'] + q;
    assert (['"'] + p)[1..] == p && (['"'] + q)[1..] == q;
    EscapeUnique(a, b, x, y);
  }

  // ---------------------------------------------------------------- integers

  function Digit(n: nat): char
    requires n < 10
  {
    "0123456789"[n]
  }

  function NatText(n: nat): string {
    if n < 10 then [Digit(n)] else NatText(n / 10) + [Digit(n % 10)]
  }

  function IntText(n: int): string {
    if n < 0 then ['-'] + NatText(-n) else NatText(n)
  }

  lemma DigitInjective(m: nat, n: nat)
    requires m < 10 && n < 10 && Digit(m) == Digit(n)
    ensures m == n
  {}

  lemma {:induction false} NatTextDigits(n: nat)
    ensures NatText(n) != [] && forall i :: 0 <= i < |NatText(n)| ==> '0' <= NatText(n)[i] <= '9'
  {
    if n >= 10 { NatTextDigits(n / 10); }
  }

  lemma {:induction false} NatTextInjective(m: nat, n: nat)
    requires NatText(m) == NatText(n)
    ensures m == n
  {
    NatTextDigits(m / 10);
    NatTextDigits(n / 10);
    var s := NatText(m);
    assert s[|s| - 1] == Digit(m % 10) == Digit(n % 10);
    DigitInjective(m % 10, n % 10);
    if m >= 10 && n >= 10 {
      assert s[..|s| - 1] == NatText(m / 10) == NatText(n / 10);
      NatTextInjective(m / 10, n / 10);
    }
  }

  lemma IntTextSign(n: int)
    ensures IntText(n) != [] && (IntText(n)[0] == '-' <==> n < 0)
    ensures IntText(n)[0] in "-0123456789"
    ensures n < 0 ==> IntText(n)[1..] == NatText(-n)
  {
    NatTextDigits(if n < 0 then -n else n);
  }

  lemma IntTextInjective(m: int, n: int)
    requires IntText(m) == IntText(n)
    ensures m == n
  {
    IntTextSign(m);
    IntTextSign(n);
    if m < 0 { NatTextInjective(-m, -n); } else { NatTextInjective(m, n); }
  }

  // ---------------------------------------------------------------- reading brackets

  /** Where a reader stands: how many brackets are open, and whether inside a string. */
  datatype Reader = Reader(depth: int, inString: bool, escaped: bool)

  const START := Reader(0, false, false)

  function Read(r: Reader, c: char): Reader {
    if r.inString then
      if r.escaped then r.(escaped := false)
      else if c == '\\' then r.(escaped := true)
      else if c == '"' then r.(inString := false)
      else r
    else if c == '"' then Reader(r.depth, true, false)
    else if c == '[' || c == '{' then r.(depth := r.depth + 1)
    else if c == ']' || c == '}' then r.(depth := r.depth - 1)
    else r
  }

  function ReadAll(r: Reader, s: string): Reader {
    if s == [] then r else Read(ReadAll(r, s[..|s| - 1]), s[|s| - 1])
  }

  lemma {:induction false} ReadConcat(r: Reader, a: string, b: string)
    ensures ReadAll(r, a + b) == ReadAll(ReadAll(r, a), b)
  {
    if b == [] {
      assert a + b == a;
    } else {
      ReadConcat(r, a, b[..|b| - 1]);
      assert (a + b)[..|a + b| - 1] == a + b[..|b| - 1];
    }
  }

  lemma {:induction false} ReadDeeper(r: Reader, s: string, k: int)
    ensures ReadAll(r.(depth := r.depth + k), s) == ReadAll(r, s).(depth := ReadAll(r, s).depth + k)
  {
    if s != [] { ReadDeeper(r, s[..|s| - 1], k); }
  }

  /** The text never closes more than it opened, ends where it began, and has no comma of its own. */
  ghost predicate Balanced(s: string) {
    && s != [] && ReadAll(START, s) == START
    && forall i :: 0 <= i < |s| ==>
         ReadAll(START, s[..i]).depth >= 0 && (ReadAll(START, s[..i]) == START ==> s[i] != ',')
  }

  /** Reading a prefix of `a + b`. */
  lemma ReadPrefix(r: Reader, a: string, b: string, i: nat)
    requires i <= |a| + |b|
    ensures ReadAll(r, (a + b)[..i]) ==
            if i <= |a| then ReadAll(r, a[..i]) else ReadAll(ReadAll(r, a), b[..i - |a|])
  {
    if i <= |a| {
      assert (a + b)[..i] == a[..i];
    } else {
      assert (a + b)[..i] == a + b[..i - |a|];
      ReadConcat(r, a, b[..i - |a|]);
    }
  }

  // ---------------------------------------------------------------- lists

  /** `",".join(...)` */
  function Join(ts: seq<string>): string {
    if ts == [] then []
    else if |ts| == 1 then ts[0]
    else ts[0] + [','] + Join(ts[1..])
  }

  ghost predicate AllBalanced(ts: seq<string>) {
    forall i :: 0 <= i < |ts| ==> Balanced(ts[i])
  }

  /** A list of balanced texts can be read back in only one way. */
  lemma {:induction false} JoinInjective(ts: seq<string>, us: seq<string>)
    requires AllBalanced(ts) && AllBalanced(us) && Join(ts) == Join(us)
    ensures ts == us
    decreases |ts|
  {
    if ts == [] || us == [] {
      if ts != [] { JoinNotEmpty(ts); }
      if us != [] { JoinNotEmpty(us); }
    } else {
      SameFirst(ts, us);
      JoinTail(ts);
      JoinTail(us);
      JoinInjective(ts[1..], us[1..]);
      assert ts == [ts[0]] + ts[1..] && us == [us[0]] + us[1..];
    }
  }

  lemma JoinNotEmpty(ts: seq<string>)
    requires AllBalanced(ts) && ts != []
    ensures Join(ts) != []
  {
    assert Balanced(ts[0]);
  }

  /** What follows the first text: nothing, or a comma and the rest. */
  function After(ts: seq<string>): string
    requires ts != []
  {
    if |ts| == 1 then [] else [','] + Join(ts[1..])
  }

  lemma JoinTail(ts: seq<string>)
    requires ts != []
    ensures Join(ts) == ts[0] + After(ts)
    ensures |ts| > 1 ==> After(ts)[1..] == Join(ts[1..])
  {
    if |ts| == 1 { assert ts[0] + [] == ts[0]; } else { assert ts[0] + [','] + Join(ts[1..]) == ts[0] + ([','] + Join(ts[1..])); }
  }

  lemma SameFirst(ts: seq<string>, us: seq<string>)
    requires AllBalanced(ts) && AllBalanced(us) && ts != [] && us != [] && Join(ts) == Join(us)
    ensures ts[0] == us[0] && After(ts) == After(us)
    ensures |ts| == 1 <==> |us| == 1
    ensures Join(ts[1..]) == Join(us[1..])
  {
    JoinTail(ts);
    JoinTail(us);
    assert Balanced(ts[0]) && Balanced(us[0]);
    FirstNotShorter(ts[0], us[0], After(ts), After(us));
    FirstNotShorter(us[0], ts[0], After(us), After(ts));
    assert (ts[0] + After(ts))[..|ts[0]|] == ts[0] && (us[0] + After(us))[..|us[0]|] == us[0];
    assert (ts[0] + After(ts))[|ts[0]|..] == After(ts) && (us[0] + After(us))[|us[0]|..] == After(us);
    assert |ts| == 1 ==> ts[1..] == [];
    assert |us| == 1 ==> us[1..] == [];
  }

  lemma BalancedEnds(t: string)
    requires Balanced(t)
    ensures ReadAll(START, t) == START
  {}

  /** A balanced text has no comma where all its brackets and quotes are closed. */
  lemma NoTopComma(u: string, n: nat)
    requires Balanced(u) && n < |u| && ReadAll(START, u[..n]) == START
    ensures u[n] != ','
  {}

  /** So it cannot be cut short just before a comma. */
  lemma FirstNotShorter(t: string, u: string, x: string, y: string)
    requires Balanced(t) && Balanced(u) && t + x == u + y
    requires x == [] || x[0] == ','
    ensures |t| >= |u|
  {
    hide Balanced;
    BalancedEnds(t);
    if |t| < |u| {
      assert (t + x)[..|t|] == t && (u + y)[..|t|] == u[..|t|];
      assert (t + x)[|t|] == x[0] && (u + y)[|t|] == u[|t|];
      NoTopComma(u, |t|);
    }
  }

  // ---------------------------------------------------------------- which texts are balanced

  /** Like `Balanced`, but commas are allowed at the top. */
  ghost predicate Nested(s: string) {
    && ReadAll(START, s) == START
    && forall i :: 0 <= i < |s| ==> ReadAll(START, s[..i]).depth >= 0
  }

  lemma NestedConcat(a: string, b: string)
    requires Nested(a) && Nested(b)
    ensures Nested(a + b)
  {
    ReadConcat(START, a, b);
    forall i | 0 <= i < |a + b| ensures ReadAll(START, (a + b)[..i]).depth >= 0 {
      ReadPrefix(START, a, b, i);
      if i >= |a| { assert a[..|a|] == a && b[..0] == []; }
    }
  }

  lemma BalancedConcat(a: string, b: string)
    requires Balanced(a) && Balanced(b)
    ensures Balanced(a + b)
  {
    ReadConcat(START, a, b);
    forall i | 0 <= i < |a + b|
      ensures ReadAll(START, (a + b)[..i]).depth >= 0
      ensures ReadAll(START, (a + b)[..i]) == START ==> (a + b)[i] != ','
    {
      ReadPrefix(START, a, b, i);
      if i >= |a| { assert a[..|a|] == a && b[..0] == []; }
    }
  }

  lemma {:induction false} JoinNested(ts: seq<string>)
    requires AllBalanced(ts)
    ensures Nested(Join(ts))
  {
    if ts != [] {
      assert Balanced(ts[0]);
      if |ts| > 1 {
        JoinNested(ts[1..]);
        ReadOne(START, ',');
        NestedConcat(ts[0], [',']);
        NestedConcat(ts[0] + [','], Join(ts[1..]));
      }
    }
  }

  lemma ReadOne(r: Reader, c: char)
    ensures ReadAll(r, [c]) == Read(r, c)
    ensures forall i :: 0 <= i < 1 ==> ReadAll(r, [c][..i]) == r
  {
    assert [c][..0] == [];
  }

  /** Brackets around a nested text make a balanced one. */
  lemma Enclose(open: char, s: string, close: char)
    requires open in "[{" && close in "]}" && Nested(s)
    ensures Balanced([open] + s + [close])
  {
    var t := [open] + s;
    EnclosedRead(open, s, close);
    hide Nested;
    forall i | 0 <= i < |t + [close]|
      ensures ReadAll(START, (t + [close])[..i]).depth >= 0
      ensures ReadAll(START, (t + [close])[..i]) == START ==> (t + [close])[i] != ','
    {
      assert (t + [close])[..i] == t[..i];
      if i > 0 { Inside(open, s, i); }
    }
  }

  lemma EnclosedRead(open: char, s: string, close: char)
    requires open in "[{" && close in "]}" && Nested(s)
    ensures ReadAll(START, [open] + s + [close]) == START
  {
    ReadOne(START, open);
    ReadConcat(START, [open], s);
    ReadDeeper(START, s, 1);
    ReadConcat(START, [open] + s, [close]);
    ReadOne(Reader(1, false, false), close);
  }

  lemma Inside(open: char, s: string, i: nat)
    requires open in "[{" && Nested(s) && 0 < i <= |s| + 1
    ensures ReadAll(START, ([open] + s)[..i]).depth >= 1
  {
    assert ([open] + s)[..i] == [open] + s[..i - 1];
    ReadOne(START, open);
    ReadConcat(START, [open], s[..i - 1]);
    ReadDeeper(START, s[..i - 1], 1);
    assert s[..|s|] == s;
  }

  const QUOTED := Reader(0, true, false)

  /** A reader inside a string stays at depth zero and inside until the closing quote. */
  lemma EscapeCharRead(c: char, i: nat)
    requires i <= |EscapeChar(c)|
    ensures ReadAll(QUOTED, EscapeChar(c)[..i]).inString && ReadAll(QUOTED, EscapeChar(c)[..i]).depth == 0
    ensures ReadAll(QUOTED, EscapeChar(c)) == QUOTED
  {
    var s := EscapeChar(c);
    assert forall k :: 0 < k <= |s| ==> s[..k][..k - 1] == s[..k - 1];
    assert s[..|s|] == s && s[..0] == [];
    assert ReadAll(QUOTED, s[..1]) == Read(QUOTED, s[0]);
    if |s| > 1 {
      assert ReadAll(QUOTED, s[..2]) == QUOTED;
      if |s| > 2 {
        assert ReadAll(QUOTED, s[..3]) == QUOTED;
        assert ReadAll(QUOTED, s[..4]) == QUOTED;
        assert ReadAll(QUOTED, s[..5]) == QUOTED;
        assert ReadAll(QUOTED, s[..6]) == QUOTED;
      }
    }
  }

  lemma {:induction false} EscapeRead(s: string, i: nat)
    requires i <= |Escape(s)|
    ensures ReadAll(QUOTED, Escape(s)[..i]).inString && ReadAll(QUOTED, Escape(s)[..i]).depth == 0
    ensures ReadAll(QUOTED, Escape(s)) == QUOTED
    decreases |s|
  {
    hide EscapeChar;
    if s == [] {
      assert Escape(s)[..i] == [];
    } else {
      var a, b := EscapeChar(s[0]), Escape(s[1..]);
      EscapeCharRead(s[0], if i <= |a| then i else 0);
      EscapeRead(s[1..], if i <= |a| then 0 else i - |a|);
      ReadConcat(QUOTED, a, b);
      ReadPrefix(QUOTED, a, b, i);
    }
  }

  lemma QuoteBalanced(s: string)
    ensures Balanced(Quote(s))
  {
    var e := Escape(s);
    var t := ['"'] + e;
    ReadOne(START, '"');
    EscapeRead(s, 0);
    ReadConcat(START, ['"'], e);
    ReadConcat(START, t, ['"']);
    ReadOne(QUOTED, '"');
    forall i | 0 <= i < |t + ['"']|
      ensures ReadAll(START, (t + ['"'])[..i]).depth >= 0
      ensures ReadAll(START, (t + ['"'])[..i]) == START ==> (t + ['"'])[i] != ','
    {
      assert (t + ['"'])[..i] == t[..i];
      if i > 0 {
        assert t[..i] == ['"'] + e[..i - 1];
        ReadConcat(START, ['"'], e[..i - 1]);
        EscapeRead(s, i - 1);
      }
    }
  }

  /** Letters, digits and the like leave the reader where it was. */
  predicate Plain(s: string) {
    forall i :: 0 <= i < |s| ==> s[i] !in "\"[]{},"
  }

  lemma {:induction false} PlainRead(s: string)
    requires Plain(s)
    ensures ReadAll(START, s) == START
  {
    if s != [] { PlainRead(s[..|s| - 1]); }
  }

  lemma PlainBalanced(s: string)
    requires Plain(s) && s != []
    ensures Balanced(s)
  {
    PlainRead(s);
    forall i | 0 <= i < |s| ensures ReadAll(START, s[..i]) == START { PlainRead(s[..i]); }
  }

  lemma IntTextPlain(n: int)
    ensures Plain(IntText(n)) && IntText(n) != []
  {
    NatTextDigits(if n < 0 then -n else n);
  }
}
