/** Reading JSON: UTF-8 as in RFC 3629, the grammar and the escapes of RFC 8259, and Python's dictionaries, in which the
    last of several equal keys decides. Fractions and exponents, and escapes of half a surrogate pair, are refused. */
module JsonReader {
  import opened Order
  import opened TextBytes
  import opened Canonical

  // ---------------------------------------------------------------- bytes to characters

  predicate Continues(b: Byte) { 0x80 <= b < 0xC0 }

  /** The six bits that a continuation byte carries. */
  function Tail6(b: Byte): int { b as int - 0x80 }

  /** The first character of some bytes, and how many bytes it takes. */
  function FirstPoint(b: seq<Byte>): (r: Option<(char, nat)>)
    ensures r.Some? ==> 0 < r.value.1 <= |b|
  {
    if b == [] then None
    else if b[0] < 0x80 then Some((b[0] as char, 1))
    else if |b| < 2 || !Continues(b[1]) then None
    else if 0xC2 <= b[0] < 0xE0 then Some((((b[0] as int - 0xC0) * 0x40 + Tail6(b[1])) as char, 2))
    else if |b| < 3 || !Continues(b[2]) then None
    else if 0xE0 <= b[0] < 0xF0 then
      var n := (b[0] as int - 0xE0) * 0x1000 + Tail6(b[1]) * 0x40 + Tail6(b[2]);
      if 0x800 <= n < 0xD800 || 0xE000 <= n then Some((n as char, 3)) else None
    else if |b| < 4 || !Continues(b[3]) || b[0] < 0xF0 then None
    else
      var n := (b[0] as int - 0xF0) * 0x40000 + Tail6(b[1]) * 0x1000 + Tail6(b[2]) * 0x40 + Tail6(b[3]);
      if 0x10000 <= n < 0x110000 then Some((n as char, 4)) else None
  }

  /** `bytes.decode("utf-8")` */
  function FromUtf8(b: seq<Byte>): Option<string> {
    if b == [] then Some([])
    else match FirstPoint(b)
      case None => None
      case Some((c, n)) => match FromUtf8(b[n..]) case None => None case Some(s) => Some([c] + s)
  }

  // ---------------------------------------------------------------- strings

  /** What was read, and the text after it. */
  datatype Parsed<+T> = Parsed(value: T, rest: string) | Bad

  predicate Blank(c: char) { c == ' ' || c == '\t' || c == '\n' || c == '\r' }

  function Skip(s: string): (r: string)
    ensures |r| <= |s|
  {
    if s != [] && Blank(s[0]) then Skip(s[1..]) else s
  }

  /** The escapes of one letter. */
  function Short(c: char): Option<char> {
    match c
    case '"' => Some('"')
    case '\\' => Some('\\')
    case '/' => Some('/')
    case 'b' => Some('\U{8}')
    case 'f' => Some('\U{C}')
    case 'n' => Some('\U{A}')
    case 'r' => Some('\U{D}')
    case 't' => Some('\U{9}')
    case _ => None
  }

  function HexValue(c: char): (n: Option<nat>)
    ensures n.Some? ==> n.value < 16
  {
    if '0' <= c <= '9' then Some(c as int - '0' as int)
    else if 'a' <= c <= 'f' then Some(c as int - 'a' as int + 10)
    else if 'A' <= c <= 'F' then Some(c as int - 'A' as int + 10)
    else None
  }

  /** Four hexadecimal digits. */
  function Unit(s: string): (n: Option<nat>)
    ensures n.Some? ==> |s| >= 4 && n.value < 0x10000
  {
    if |s| < 4 then None
    else match (HexValue(s[0]), HexValue(s[1]), HexValue(s[2]), HexValue(s[3]))
      case (Some(a), Some(b), Some(c), Some(d)) => Some(((a * 16 + b) * 16 + c) * 16 + d)
      case _ => None
  }

  /** What follows `\u`: one unit, or a surrogate pair. */
  function Escaped(s: string): (p: Parsed<char>)
    ensures p.Parsed? ==> |p.rest| < |s|
  {
    match Unit(s)
    case None => Bad
    case Some(n) =>
      if n < 0xD800 || 0xE000 <= n then Parsed(n as char, s[4..])
      else if n >= 0xDC00 || |s| < 6 || s[4] != '\\' || s[5] != 'u' then Bad
      else match Unit(s[6..])
        case None => Bad
        case Some(m) =>
          if 0xDC00 <= m < 0xE000 then Parsed((0x10000 + (n - 0xD800) * 0x400 + (m - 0xDC00)) as char, s[10..]) else Bad
  }

  /** One character of a string; control characters must be escaped. */
  function OneChar(s: string): (p: Parsed<char>)
    ensures p.Parsed? ==> |p.rest| < |s|
  {
    if s == [] || s[0] == '"' || s[0] < ' ' then Bad
    else if s[0] != '\\' then Parsed(s[0], s[1..])
    else if |s| < 2 then Bad
    else if s[1] == 'u' then Escaped(s[2..])
    else match Short(s[1]) case Some(c) => Parsed(c, s[2..]) case None => Bad
  }

  /** The characters up to the closing quote. */
  function Chars(s: string): (p: Parsed<string>)
    ensures p.Parsed? ==> |p.rest| < |s|
    decreases |s|
  {
    if s != [] && s[0] == '"' then Parsed([], s[1..])
    else match OneChar(s)
      case Bad => Bad
      case Parsed(c, rest) =>
        match Chars(rest) case Bad => Bad case Parsed(cs, after) => Parsed([c] + cs, after)
  }

  // ---------------------------------------------------------------- numbers

  predicate IsDigit(c: char) { '0' <= c <= '9' }

  /** Decimal digits, read on from `n`. */
  function ReadDigits(n: nat, s: string): (r: (nat, string))
    ensures |r.1| <= |s|
    decreases |s|
  {
    if s != [] && IsDigit(s[0]) then ReadDigits(n * 10 + (s[0] as int - '0' as int), s[1..]) else (n, s)
  }

  /** No leading zeros. */
  function Natural(s: string): (p: Parsed<nat>)
    ensures p.Parsed? ==> |p.rest| < |s|
  {
    if s == [] || !IsDigit(s[0]) then Bad
    else
      var (n, rest) := if s[0] == '0' then (0, s[1..]) else ReadDigits(s[0] as int - '0' as int, s[1..]);
      if rest != [] && rest[0] in {'.', 'e', 'E'} then Bad else Parsed(n, rest)
  }

  function Number(s: string): (p: Parsed<int>)
    ensures p.Parsed? ==> |p.rest| < |s|
  {
    if s != [] && s[0] == '-' then match Natural(s[1..]) case Bad => Bad case Parsed(n, rest) => Parsed(0 - n as int, rest)
    else match Natural(s) case Bad => Bad case Parsed(n, rest) => Parsed(n, rest)
  }

  // ---------------------------------------------------------------- values

  function Value(s: string): (p: Parsed<Json>)
    ensures p.Parsed? ==> |p.rest| < |s|
    decreases |s|, 0
  {
    var t := Skip(s);
    if t == [] then Bad
    else if t[0] == '"' then match Chars(t[1..]) case Bad => Bad case Parsed(text, rest) => Parsed(Str(text), rest)
    else if t[0] == '[' then
      var u := Skip(t[1..]);
      if u != [] && u[0] == ']' then Parsed(Arr([]), u[1..])
      else match Items(u) case Bad => Bad case Parsed(items, rest) => Parsed(Arr(items), rest)
    else if t[0] == '{' then
      var u := Skip(t[1..]);
      if u != [] && u[0] == '}' then Parsed(Obj([]), u[1..])
      else match Members(u) case Bad => Bad case Parsed(fields, rest) => Parsed(Obj(fields), rest)
    else if "null" <= t then Parsed(Null, t[4..])
    else if "true" <= t then Parsed(Bool(true), t[4..])
    else if "false" <= t then Parsed(Bool(false), t[5..])
    else match Number(t) case Bad => Bad case Parsed(n, rest) => Parsed(Num(n), rest)
  }

  /** The items of an array up to its closing bracket. */
  function Items(s: string): (p: Parsed<seq<Json>>)
    ensures p.Parsed? ==> |p.rest| < |s|
    decreases |s|, 1
  {
    match Value(s)
    case Bad => Bad
    case Parsed(v, after) =>
      var t := Skip(after);
      if t == [] then Bad
      else if t[0] == ']' then Parsed([v], t[1..])
      else if t[0] != ',' then Bad
      else match Items(t[1..]) case Bad => Bad case Parsed(vs, rest) => Parsed([v] + vs, rest)
  }

  /** A key, a colon and a value. */
  function KeyAndValue(s: string): (p: Parsed<Field>)
    ensures p.Parsed? ==> |p.rest| < |s|
    decreases |s|, 1
  {
    var t := Skip(s);
    if t == [] || t[0] != '"' then Bad
    else match Chars(t[1..])
      case Bad => Bad
      case Parsed(key, after) =>
        var u := Skip(after);
        if u == [] || u[0] != ':' then Bad
        else match Value(u[1..]) case Bad => Bad case Parsed(v, rest) => Parsed(Field(key, v), rest)
  }

  /** The members of an object up to its closing brace. */
  function Members(s: string): (p: Parsed<seq<Field>>)
    ensures p.Parsed? ==> |p.rest| < |s|
    decreases |s|, 2
  {
    match KeyAndValue(s)
    case Bad => Bad
    case Parsed(x, after) =>
      var t := Skip(after);
      if t == [] then Bad
      else if t[0] == '}' then Parsed([x], t[1..])
      else if t[0] != ',' then Bad
      else match Members(t[1..]) case Bad => Bad case Parsed(xs, rest) => Parsed([x] + xs, rest)
  }

  /** One value and nothing after it but blanks. */
  function Document(s: string): Option<Json> {
    match Value(s) case Bad => None case Parsed(v, rest) => if Skip(rest) == [] then Some(v) else None
  }

  // ---------------------------------------------------------------- dictionaries

  /** A key that is there already keeps its place and takes the new value. */
  function Put(fields: seq<Field>, x: Field): seq<Field> {
    if fields == [] then [x]
    else if fields[0].key == x.key then [x] + fields[1..]
    else [fields[0]] + Put(fields[1..], x)
  }

  function Dict(fields: seq<Field>): seq<Field> {
    if fields == [] then [] else Put(Dict(fields[..|fields| - 1]), fields[|fields| - 1])
  }

  function AsDicts(v: Json): Json {
    match v
    case Arr(items) => Arr(seq(|items|, i requires 0 <= i < |items| => AsDicts(items[i])))
    case Obj(fields) =>
      Obj(Dict(seq(|fields|, i requires 0 <= i < |fields| => Field(fields[i].key, AsDicts(fields[i].value)))))
    case _ => v
  }

  /** `json.loads(raw.decode("utf-8"))` */
  function Loads(raw: seq<Byte>): Option<Json> {
    match FromUtf8(raw)
    case None => None
    case Some(text) => match Document(text) case None => None case Some(v) => Some(AsDicts(v))
  }
}
