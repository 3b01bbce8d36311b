/** UTF-8, and why sorting texts by their bytes is sorting them by their characters. */
module TextBytes {
  import opened Order

  type Byte = x: int | 0 <= x < 256

  function Tail(n: nat): Byte { 128 + n % 64 }

  function EncodePoint(c: char): seq<Byte> {
    var n := c as int;
    if n < 0x80 then [n]
    else if n < 0x800 then [192 + n / 64, Tail(n)]
    else if n < 0x10000 then [224 + n / 4096, Tail(n / 64), Tail(n)]
    else assert n < 0x110000; [240 + n / 262144, Tail(n / 4096), Tail(n / 64), Tail(n)]
  }

  function Utf8(s: string): (r: seq<Byte>)
    ensures |r| >= |s|
  {
    if s == [] then [] else PointBytes(s[0]); EncodePoint(s[0]) + Utf8(s[1..])
  }

  /** Python's `<=` on bytes. */
  predicate BytesLe(a: seq<Byte>, b: seq<Byte>) {
    if a == [] then true
    else if b == [] then false
    else if a[0] != b[0] then a[0] < b[0]
    else BytesLe(a[1..], b[1..])
  }

  lemma {:induction false} BytesDiffer(a: seq<Byte>, b: seq<Byte>, k: nat)
    requires k < |a| && k < |b| && a[..k] == b[..k] && a[k] < b[k]
    ensures BytesLe(a, b) && !BytesLe(b, a)
    decreases k
  {
    if k > 0 {
      assert a[0] == a[..k][0] && b[0] == b[..k][0];
      assert a[1..][..k - 1] == a[..k][1..] && b[1..][..k - 1] == b[..k][1..];
      BytesDiffer(a[1..], b[1..], k - 1);
    }
  }

  lemma {:induction false} BytesAfter(p: seq<Byte>, a: seq<Byte>, b: seq<Byte>)
    ensures BytesLe(p + a, p + b) <==> BytesLe(a, b)
  {
    if p == [] {
      assert p + a == a && p + b == b;
    } else {
      assert (p + a)[1..] == p[1..] + a && (p + b)[1..] == p[1..] + b;
      BytesAfter(p[1..], a, b);
    }
  }

  lemma Sixty4(n: nat)
    ensures n == 64 * (n / 64) + n % 64
  {}

  lemma Digits(n: nat)
    ensures n == 64 * (n / 64) + n % 64
    ensures n / 64 == 64 * (n / 4096) + n / 64 % 64
    ensures n / 4096 == 64 * (n / 262144) + n / 4096 % 64
  {
    Sixty4(n / 64);
    Sixty4(n / 4096);
    assert n / 64 / 64 == n / 4096;
    assert n / 4096 / 64 == n / 262144;
  }

  /** How many bytes a character takes grows with it, and so does the first byte between lengths. */
  lemma Lengths(a: char, b: char)
    requires a < b
    ensures |EncodePoint(a)| <= |EncodePoint(b)|
    ensures |EncodePoint(a)| < |EncodePoint(b)| ==> EncodePoint(a)[0] < EncodePoint(b)[0]
  {}

  lemma FirstDifference(a: char, b: char) returns (k: nat)
    requires a < b && |EncodePoint(a)| == |EncodePoint(b)|
    ensures var x, y := EncodePoint(a), EncodePoint(b);
            k < |x| && x[k] < y[k] && forall i :: 0 <= i < k ==> x[i] == y[i]
  {
    var m, n := a as int, b as int;
    Digits(m);
    Digits(n);
    if m < 0x80 {
      k := 0;
    } else if m < 0x800 {
      k := if m / 64 < n / 64 then 0 else 1;
    } else if m < 0x10000 {
      k := if m / 4096 < n / 4096 then 0 else if m / 64 < n / 64 then 1 else 2;
    } else {
      k := if m / 262144 < n / 262144 then 0 else if m / 4096 < n / 4096 then 1 else if m / 64 < n / 64 then 2 else 3;
    }
  }

  /** The first byte in which two characters differ tells which is the smaller, whatever follows. */
  lemma PointOrder(a: char, b: char, s: seq<Byte>, t: seq<Byte>)
    requires a < b
    ensures BytesLe(EncodePoint(a) + s, EncodePoint(b) + t) && !BytesLe(EncodePoint(b) + t, EncodePoint(a) + s)
  {
    var x, y := EncodePoint(a), EncodePoint(b);
    Lengths(a, b);
    var k := 0;
    if |x| == |y| { k := FirstDifference(a, b); }
    hide EncodePoint;
    assert (x + s)[..k] == x[..k] == y[..k] == (y + t)[..k];
    BytesDiffer(x + s, y + t, k);
  }

  /** Sorting by bytes is sorting by characters. */
  lemma {:induction false} ByteOrderIsTextOrder(s: string, t: string)
    ensures BytesLe(Utf8(s), Utf8(t)) <==> LexLe(s, t)
    decreases |s|
  {
    hide EncodePoint;
    if s == [] {
    } else if t == [] {
      PointBytes(s[0]);
    } else if s[0] == t[0] {
      BytesAfter(EncodePoint(s[0]), Utf8(s[1..]), Utf8(t[1..]));
      ByteOrderIsTextOrder(s[1..], t[1..]);
    } else if s[0] < t[0] {
      PointOrder(s[0], t[0], Utf8(s[1..]), Utf8(t[1..]));
    } else {
      PointOrder(t[0], s[0], Utf8(t[1..]), Utf8(s[1..]));
    }
  }

  lemma PointBytes(c: char)
    ensures EncodePoint(c) != []
  {}

  lemma {:induction false} BytesReflexive(a: seq<Byte>)
    ensures BytesLe(a, a)
  {
    if a != [] { BytesReflexive(a[1..]); }
  }

  lemma Utf8Injective(s: string, t: string)
    requires Utf8(s) == Utf8(t)
    ensures s == t
  {
    BytesReflexive(Utf8(s));
    ByteOrderIsTextOrder(s, t);
    ByteOrderIsTextOrder(t, s);
    LexAntisymmetric(s, t);
  }
}
