/** The local service's frames (local_service.py): a four-byte length and a canonical JSON object,
    read from a stream that delivers its bytes in chunks of any size. */
module Framing {
  import opened Order
  import opened Rearrange
  import opened TextBytes
  import opened Canonical
  import opened CanonicalEquivalence
  import opened JsonReader
  import opened JsonRoundTrip
  import opened CanonicalIdentity

  datatype Failure = FrameTruncated | FrameInvalid | ResponseLimitExceeded | LengthOverflow
  datatype Outcome<T> = Ok(value: T) | Err(error: Failure)

  // ---------------------------------------------------------------- reading what was written

  /** A reader that gives back what was written, whatever it does with other texts; `Loads` is one. */
  ghost predicate Undoes(loads: seq<Byte> -> Option<Json>) {
    forall v :: WellFormed(v) ==> loads(Utf8(Encode(v))) == Some(KeySorted(v))
  }

  /** Sorting the keys does not show in the canonical text. */
  lemma {:induction false} KeySortedText(v: Json, path: Path)
    requires WellFormed(v)
    ensures CanonText(KeySorted(v), path) == CanonText(v, path)
    decreases v
  {
    hide Sort, Brackets, Braces, CanonText;
    match v
    case Arr(items) =>
      var ks := KeySorted(v).items;
      forall i | 0 <= i < |items| ensures TextAt(path)(items[i]) == TextAt(path)(ks[i]) { KeySortedText(items[i], path); }
      ReorderedItems(items, ks, ks, path);
    case Obj(fields) =>
      var ks := Map(SortedField, fields);
      KeySortedObj(fields);
      forall i | 0 <= i < |fields| ensures EntryAt(path)(fields[i]) == EntryAt(path)(ks[i]) {
        KeySortedText(fields[i].value, path + [fields[i].key]);
      }
      ReorderedFields(fields, ks, Sort(FieldLe, ks), path);
    case _ =>
  }

  lemma LoadsIsOne()
    ensures Undoes(Loads)
  {
    hide Loads, KeySorted, Encode;
    forall v | WellFormed(v) ensures Loads(Utf8(Encode(v))) == Some(KeySorted(v)) { LoadsUndoes(v); }
  }

  // ---------------------------------------------------------------- frames

  const LENGTH_LIMIT := 0x1_0000_0000

  /** `struct.pack("!I", n)` */
  function Pack(n: nat): (h: seq<Byte>)
    requires n < LENGTH_LIMIT
    ensures |h| == 4
  {
    [n / 0x100_0000, n / 0x1_0000 % 256, n / 256 % 256, n % 256]
  }

  /** `struct.unpack("!I", h)` */
  function Unpack(h: seq<Byte>): (n: nat)
    requires |h| == 4
    ensures n < LENGTH_LIMIT
  {
    (((h[0] as int) * 256 + h[1]) * 256 + h[2]) * 256 + h[3]
  }

  lemma PackUnpack(n: nat)
    requires n < LENGTH_LIMIT
    ensures Unpack(Pack(n)) == n
  {
    assert n / 256 == n / 0x1_0000 * 256 + n / 256 % 256;
    assert n / 0x1_0000 == n / 0x100_0000 * 256 + n / 0x1_0000 % 256;
  }

  lemma UnpackPack(h: seq<Byte>)
    requires |h| == 4
    ensures Pack(Unpack(h)) == h
  {
    var n := Unpack(h);
    assert n / 256 == ((h[0] as int) * 256 + h[1]) * 256 + h[2];
    assert n / 0x1_0000 == (h[0] as int) * 256 + h[1];
    assert n / 0x100_0000 == h[0];
  }

  /** A number in network order: the first byte weighs most. */
  function BigEndian(b: seq<Byte>): int {
    if b == [] then 0 else BigEndian(b[..|b| - 1]) * 256 + b[|b| - 1]
  }

  /** What sending `v` puts on the wire. */
  function Frame(v: Json): seq<Byte>
    requires |CanonicalJson(v)| < LENGTH_LIMIT
  {
    Pack(|CanonicalJson(v)|) + CanonicalJson(v)
  }

  /** Four bytes that say how long the text is, and the text. */
  lemma FrameIs(v: Json)
    requires |CanonicalJson(v)| < LENGTH_LIMIT
    ensures BigEndian(Frame(v)[..4]) == |CanonicalJson(v)| && Frame(v)[4..] == CanonicalJson(v)
  {
    hide Pack, CanonicalJson;
    var h := Pack(|CanonicalJson(v)|);
    assert Frame(v)[..4] == h;
    PackUnpack(|CanonicalJson(v)|);
    UnpackIsBigEndian(h);
  }

  function Refused(v: Json, maximum: nat): Option<Failure> {
    if |CanonicalJson(v)| > maximum then Some(ResponseLimitExceeded)
    else if |CanonicalJson(v)| >= LENGTH_LIMIT then Some(LengthOverflow)
    else None
  }

  function Decode(loads: seq<Byte> -> Option<Json>, raw: seq<Byte>): Outcome<Json> {
    match loads(raw)
    case None => Err(FrameInvalid)
    case Some(v) => if v.Obj? && CanonicalJson(v) == raw then Ok(v) else Err(FrameInvalid)
  }

  /** What a receiver makes of the bytes still to come, and how many of them it takes. */
  function Received(loads: seq<Byte> -> Option<Json>, bytes: seq<Byte>, maximum: nat): (Outcome<Json>, nat) {
    if |bytes| < 4 then (Err(FrameTruncated), |bytes|)
    else
      var size := Unpack(bytes[..4]);
      if size < 2 || size > maximum then (Err(FrameInvalid), 4)
      else if |bytes| < 4 + size then (Err(FrameTruncated), |bytes|)
      else (Decode(loads, bytes[4..4 + size]), 4 + size)
  }

  /** Four bytes of length, then that many bytes. Too few of either is a truncation; a length of less than an empty
      object, or over the maximum, is refused without reading on; and what follows is taken as long as announced,
      whether or not it is the canonical text of an object. */
  lemma ReceivedIs(loads: seq<Byte> -> Option<Json>, bytes: seq<Byte>, maximum: nat)
    ensures |bytes| < 4 ==> Received(loads, bytes, maximum) == (Err(FrameTruncated), |bytes|)
    ensures |bytes| >= 4 ==>
              var size := BigEndian(bytes[..4]);
              if size < |"{}"| || size > maximum then Received(loads, bytes, maximum) == (Err(FrameInvalid), 4)
              else if |bytes| - 4 < size then Received(loads, bytes, maximum) == (Err(FrameTruncated), |bytes|)
              else
                var (r, taken) := Received(loads, bytes, maximum);
                && taken == 4 + size && (r.Err? ==> r == Err(FrameInvalid))
                && (r.Ok? <==> loads(bytes[4..taken]).Some? && loads(bytes[4..taken]).value.Obj?
                               && CanonicalJson(loads(bytes[4..taken]).value) == bytes[4..taken])
  {
    hide CanonicalJson;
    if |bytes| >= 4 { UnpackIsBigEndian(bytes[..4]); }
  }

  lemma UnpackIsBigEndian(h: seq<Byte>)
    requires |h| == 4
    ensures BigEndian(h) == Unpack(h)
  {
    assert h[..4] == h;
    forall k | 0 <= k < 4 ensures BigEndian(h[..k + 1]) == BigEndian(h[..k]) * 256 + h[k] { assert h[..k + 1][..k] == h[..k]; }
    assert BigEndian(h[..0]) == 0 && BigEndian(h[..1]) == h[0];
    assert BigEndian(h[..2]) == (h[0] as int) * 256 + h[1];
    assert BigEndian(h[..3]) == ((h[0] as int) * 256 + h[1]) * 256 + h[2];
  }

  lemma ObjectBytes(v: Json)
    requires v.Obj?
    ensures |CanonicalJson(v)| >= 2
  {}

  /** Whatever follows it, a frame that was sent is received as the canonical value, and exactly that
      frame is consumed. */
  lemma SentIsReceived(v: Json, rest: seq<Byte>, sendLimit: nat, receiveLimit: nat)
    requires WellFormed(v) && v.Obj?
    requires Refused(v, sendLimit) == None && |CanonicalJson(v)| <= receiveLimit
    ensures Received(Loads, Frame(v) + rest, receiveLimit) == (Ok(KeySorted(Canonicalize(v, []))), |Frame(v)|)
    ensures Equivalent(v, KeySorted(Canonicalize(v, [])), [])
  {
    hide CanonicalJson, KeySorted, Canonicalize, Undoes, WellFormed, Equivalent, Received, Pack, Loads;
    ObjectBytes(v);
    ReadBack(v);
    LoadsIsOne();
    Loaded(Loads, v);
    Deframed(Loads, CanonicalJson(v), rest, receiveLimit);
    assert Frame(v) + rest == Pack(|CanonicalJson(v)|) + CanonicalJson(v) + rest;
  }

  lemma Deframed(loads: seq<Byte> -> Option<Json>, raw: seq<Byte>, rest: seq<Byte>, maximum: nat)
    requires 2 <= |raw| <= maximum && |raw| < LENGTH_LIMIT
    ensures Received(loads, Pack(|raw|) + raw + rest, maximum) == (Decode(loads, raw), 4 + |raw|)
  {
    hide Decode, Pack, Unpack;
    var bytes := Pack(|raw|) + raw + rest;
    assert bytes[..4] == Pack(|raw|);
    PackUnpack(|raw|);
    assert bytes[4..4 + |raw|] == raw;
  }

  lemma Loaded(loads: seq<Byte> -> Option<Json>, v: Json)
    requires Undoes(loads) && WellFormed(v) && v.Obj?
    ensures loads(CanonicalJson(v)) == Some(KeySorted(Canonicalize(v, [])))
    ensures KeySorted(Canonicalize(v, [])).Obj?
  {
    hide Encode, WellFormed;
    CanonicalWellFormed(v, []);
  }

  lemma ReadBack(v: Json)
    requires WellFormed(v)
    ensures CanonicalJson(KeySorted(Canonicalize(v, []))) == CanonicalJson(v)
    ensures Equivalent(v, KeySorted(Canonicalize(v, [])), [])
  {
    var c := Canonicalize(v, []);
    CanonicalWellFormed(v, []);
    KeySortedText(c, []);
    OnePass(KeySorted(c), []);
    OnePass(c, []);
    CanonicalIsEquivalent(v);
    SameBytesIffEquivalent(v, KeySorted(c));
  }

  /** Every accepted frame is, byte for byte, what sending the received value would have produced. */
  lemma ReceivedWasSent(loads: seq<Byte> -> Option<Json>, bytes: seq<Byte>, maximum: nat)
    requires Received(loads, bytes, maximum).0.Ok?
    ensures var (r, n) := Received(loads, bytes, maximum);
            r.value.Obj? && Refused(r.value, maximum) == None && n <= |bytes| && bytes[..n] == Frame(r.value)
  {
    var size := Unpack(bytes[..4]);
    UnpackPack(bytes[..4]);
    assert bytes[..4 + size] == bytes[..4] + bytes[4..4 + size];
  }

  /** Any two receivers that disagree about nothing but their JSON reader accept the same values. */
  lemma FramesAreUnambiguous(one: seq<Byte> -> Option<Json>, two: seq<Byte> -> Option<Json>, bytes: seq<Byte>, maximum: nat)
    requires Undoes(one) && Undoes(two)
    requires Received(one, bytes, maximum).0.Ok? && WellFormed(Received(one, bytes, maximum).0.value)
    ensures Received(two, bytes, maximum) == Received(one, bytes, maximum)
  {
    var v := Received(one, bytes, maximum).0.value;
    var raw := CanonicalJson(v);
    CanonicalWellFormed(v, []);
    assert one(raw) == two(raw);
  }

  // ---------------------------------------------------------------- the stream

  function Flat(chunks: seq<seq<Byte>>): seq<Byte> {
    if chunks == [] then [] else chunks[0] + Flat(chunks[1..])
  }

  /** A connected socket: what the peer's bytes arrive as, and what was sent to the peer. */
  class Stream {
    var incoming: seq<seq<Byte>>
    var sent: seq<Byte>

    ghost predicate Valid()
      reads this
    {
      forall i :: 0 <= i < |incoming| ==> incoming[i] != []
    }

    ghost function Pending(): seq<Byte>
      reads this
    {
      Flat(incoming)
    }

    constructor (chunks: seq<seq<Byte>>)
      requires forall i :: 0 <= i < |chunks| ==> chunks[i] != []
      ensures Valid() && incoming == chunks && sent == []
    {
      incoming, sent := chunks, [];
    }

    /** `recv`: at least one byte and at most `max`, or nothing once the peer has closed. */
    method Recv(max: nat) returns (chunk: seq<Byte>)
      requires Valid() && max > 0
      modifies this`incoming
      ensures Valid() && |chunk| <= max
      ensures old(Pending()) == chunk + Pending()
      ensures chunk == [] ==> old(Pending()) == []
    {
      if incoming == [] { return []; }
      var first := incoming[0];
      if |first| <= max {
        chunk := first;
        incoming := incoming[1..];
      } else {
        chunk := first[..max];
        incoming := [first[max..]] + incoming[1..];
        assert first == first[..max] + first[max..];
        assert incoming[1..] == old(incoming)[1..];
      }
    }

    method ReadExact(size: nat) returns (r: Outcome<seq<Byte>>)
      requires Valid()
      modifies this`incoming
      ensures Valid()
      ensures if size <= |old(Pending())|
              then r == Ok(old(Pending())[..size]) && Pending() == old(Pending())[size..]
              else r == Err(FrameTruncated) && Pending() == []
    {
      ghost var all := Pending();
      var chunks: seq<seq<Byte>> := [];
      var remaining: nat := size;
      while remaining != 0
        invariant Valid()
        invariant all == Flat(chunks) + Pending()
        invariant |Flat(chunks)| + remaining == size
      {
        var chunk := Recv(remaining);
        if chunk == [] {
          return Err(FrameTruncated);
        }
        FlatAppend(chunks, chunk);
        chunks := chunks + [chunk];
        remaining := remaining - |chunk|;
      }
      return Ok(Flat(chunks));
    }

    /** One frame is taken off the stream, or the stream is left where the frame went wrong. */
    method ReceiveFrame(loads: seq<Byte> -> Option<Json>, maximum: nat) returns (r: Outcome<Json>)
      requires Valid()
      modifies this`incoming
      ensures Valid()
      ensures var (expected, taken) := Received(loads, old(Pending()), maximum);
              taken <= |old(Pending())| && r == expected && Pending() == old(Pending())[taken..]
    {
      ghost var all := Pending();
      var header := ReadExact(4);
      if header.Err? {
        return Err(header.error);
      }
      var size := Unpack(header.value);
      if size < 2 || size > maximum {
        return Err(FrameInvalid);
      }
      var raw := ReadExact(size);
      if raw.Err? {
        return Err(raw.error);
      }
      assert all[4..][..size] == all[4..4 + size];
      assert all[4..][size..] == all[4 + size..];
      r := Decode(loads, raw.value);
    }

    method SendFrame(v: Json, maximum: nat) returns (r: Outcome<()>)
      modifies this`sent
      ensures match Refused(v, maximum)
              case Some(e) => r == Err(e) && sent == old(sent)
              case None => r == Ok(()) && sent == old(sent) + Frame(v)
    {
      var raw := CanonicalJson(v);
      if |raw| > maximum {
        return Err(ResponseLimitExceeded);
      }
      if |raw| >= LENGTH_LIMIT {
        return Err(LengthOverflow);
      }
      sent := sent + (Pack(|raw|) + raw);
      return Ok(());
    }
  }

  lemma {:induction false} FlatAppend(chunks: seq<seq<Byte>>, chunk: seq<Byte>)
    ensures Flat(chunks + [chunk]) == Flat(chunks) + chunk
  {
    if chunks == [] {
      assert [chunk][1..] == [];
    } else {
      assert (chunks + [chunk])[1..] == chunks[1..] + [chunk];
      FlatAppend(chunks[1..], chunk);
    }
  }
}
