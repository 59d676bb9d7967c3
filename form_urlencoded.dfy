/**
 * The application/x-www-form-urlencoded format of the WHATWG URL Standard
 * (section 5.1, parsing; section 5.2, serializing) and the parts of the
 * `URLSearchParams` interface the landing page uses: construction from a
 * query string, `get`, `append` and `toString`. A parameter list is a
 * sequence of (name, value) tuples, kept in insertion order.
 */
module FormUrlencoded {
  import opened Wrappers
  import Utf8

  type byte = Utf8.byte
  type Tuples = seq<(string, string)>

  const Amp: byte := 0x26
  const Equals: byte := 0x3D
  const Plus: byte := 0x2B
  const Space: byte := 0x20
  const Percent: byte := 0x25

  // ---------------------------------------------------------------- lookup

  /**
   * `URLSearchParams.get(name)`: the value of the first tuple whose name is
   * `name`, or null when there is none.
   */
  function First(tuples: Tuples, name: string): (r: Option<string>)
    ensures r == None <==> forall i :: 0 <= i < |tuples| ==> tuples[i].0 != name
    ensures r.Some? ==> exists i :: 0 <= i < |tuples| && tuples[i] == (name, r.value)
                                    && forall j :: 0 <= j < i ==> tuples[j].0 != name
    decreases |tuples|
  {
    if tuples == [] then None
    else if tuples[0].0 == name then Some(tuples[0].1)
    else
      var r := First(tuples[1..], name);
      assert forall i :: 1 <= i < |tuples| ==> tuples[i] == tuples[1..][i - 1];
      r
  }

  // ----------------------------------------------------------- serializing

  /** The bytes the urlencoded byte serializer leaves as they are: `*-._`, digits and ASCII letters. */
  predicate Unreserved(b: byte) {
    b == 0x2A || b == 0x2D || b == 0x2E || (0x30 <= b <= 0x39)
    || (0x41 <= b <= 0x5A) || b == 0x5F || (0x61 <= b <= 0x7A)
  }

  /** The bytes a serialized component can contain. */
  predicate Serialized(b: byte) {
    Unreserved(b) || b == Plus || b == Percent
  }

  /** An upper-case hexadecimal digit. */
  function HexDigit(n: int): (b: byte)
    requires 0 <= n < 16
    ensures IsHex(b) && HexValue(b) == n
  {
    if n < 10 then (0x30 + n) as byte else (0x41 + n - 10) as byte
  }

  predicate IsHex(b: byte) {
    (0x30 <= b <= 0x39) || (0x41 <= b <= 0x46) || (0x61 <= b <= 0x66)
  }

  function HexValue(b: byte): int
    requires IsHex(b)
  {
    if b <= 0x39 then b as int - 0x30
    else if b <= 0x46 then b as int - 0x41 + 10
    else b as int - 0x61 + 10
  }

  /** One byte as the serializer writes it: space as `+`, unreserved bytes as themselves, others as `%XX`. */
  function EncodeByte(b: byte): (r: seq<byte>)
    ensures forall k :: 0 <= k < |r| ==> Serialized(r[k])
  {
    if b == Space then [Plus]
    else if Unreserved(b) then [b]
    else [Percent, HexDigit(b as int / 16), HexDigit(b as int % 16)]
  }

  /** Percent-encoding of a byte sequence with the urlencoded set and space as plus. */
  function PercentEncode(bs: seq<byte>): (r: seq<byte>)
    ensures forall k :: 0 <= k < |r| ==> Serialized(r[k])
  {
    if bs == [] then [] else EncodeByte(bs[0]) + PercentEncode(bs[1..])
  }

  /** A name or a value: UTF-8 encoded, then percent-encoded. */
  function EncodeComponent(s: string): seq<byte> {
    PercentEncode(Utf8.Encode(s))
  }

  function EncodeTuple(t: (string, string)): seq<byte> {
    EncodeComponent(t.0) + [Equals] + EncodeComponent(t.1)
  }

  /** The serializer: `name=value` for each tuple, in order, joined by `&`. */
  function SerializeBytes(tuples: Tuples): seq<byte>
    decreases |tuples|
  {
    if tuples == [] then []
    else if |tuples| == 1 then EncodeTuple(tuples[0])
    else EncodeTuple(tuples[0]) + [Amp] + SerializeBytes(tuples[1..])
  }

  /** Every byte the serializer writes is ASCII, so it is also a character. */
  function AsString(bs: seq<byte>): (s: string)
    ensures |s| == |bs|
    ensures forall i :: 0 <= i < |bs| ==> s[i] as int == bs[i] as int
  {
    seq(|bs|, i requires 0 <= i < |bs| => bs[i] as char)
  }

  /** `URLSearchParams.toString()`. */
  function Serialize(tuples: Tuples): string {
    AsString(SerializeBytes(tuples))
  }

  // --------------------------------------------------------------- parsing

  /** The index of the first `x` in `bs`, or `|bs|` when there is none. */
  function IndexOf(bs: seq<byte>, x: byte): (i: nat)
    ensures i <= |bs|
    ensures i < |bs| ==> bs[i] == x
    ensures forall j :: 0 <= j < i ==> bs[j] != x
    decreases |bs|
  {
    if bs == [] then 0
    else if bs[0] == x then 0
    else 1 + IndexOf(bs[1..], x)
  }

  /** Every `+` becomes a space. */
  function PlusToSpace(bs: seq<byte>): (r: seq<byte>)
    ensures |r| == |bs|
    ensures forall i :: 0 <= i < |bs| ==> r[i] == (if bs[i] == Plus then Space else bs[i])
  {
    seq(|bs|, i requires 0 <= i < |bs| => if bs[i] == Plus then Space else bs[i])
  }

  /**
   * Percent-decoding: `%` followed by two hexadecimal digits becomes the byte
   * they spell; every other byte, a lone `%` included, is kept.
   */
  function PercentDecode(bs: seq<byte>): (r: seq<byte>)
    ensures |r| <= |bs|
    decreases |bs|
  {
    if bs == [] then []
    else if bs[0] == Percent && |bs| >= 3 && IsHex(bs[1]) && IsHex(bs[2]) then
      [(HexValue(bs[1]) * 16 + HexValue(bs[2])) as byte] + PercentDecode(bs[3..])
    else
      [bs[0]] + PercentDecode(bs[1..])
  }

  function DecodeComponent(bs: seq<byte>): string {
    Utf8.Decode(PercentDecode(PlusToSpace(bs)))
  }

  /** A non-empty `&`-free segment: the name runs up to the first `=`, the value is everything after it. */
  function ParseTuple(seg: seq<byte>): (string, string) {
    var i := IndexOf(seg, Equals);
    var name := seg[..i];
    var value := if i < |seg| then seg[i + 1..] else [];
    (DecodeComponent(name), DecodeComponent(value))
  }

  /** The urlencoded parser: split on `&`, skip empty segments, parse the others. */
  function ParseBytes(bs: seq<byte>): Tuples
    decreases |bs|
  {
    if bs == [] then []
    else
      var i := IndexOf(bs, Amp);
      var seg := bs[..i];
      var rest := if i < |bs| then bs[i + 1..] else [];
      (if seg == [] then [] else [ParseTuple(seg)]) + ParseBytes(rest)
  }

  /** `new URLSearchParams(init)` for a string: a leading `?` is dropped, the rest is UTF-8 encoded and parsed. */
  function Parse(init: string): Tuples {
    var query := if |init| > 0 && init[0] == '?' then init[1..] else init;
    ParseBytes(Utf8.Encode(query))
  }

  // ------------------------------------------------------------ round trip

  lemma PercentDecodeEncodedByte(b: byte, rest: seq<byte>)
    ensures PercentDecode(PlusToSpace(EncodeByte(b)) + rest) == [b] + PercentDecode(rest)
  {
    var e := PlusToSpace(EncodeByte(b)) + rest;
    if b == Space || Unreserved(b) {
      assert e[1..] == rest;
    } else {
      assert e[3..] == rest;
      assert b as int == (b as int / 16) * 16 + b as int % 16;
    }
  }

  /** Percent-decoding undoes the byte serializer, `+` for space included. */
  lemma {:induction false} PercentDecodeEncode(bs: seq<byte>)
    ensures PercentDecode(PlusToSpace(PercentEncode(bs))) == bs
  {
    if bs != [] {
      var head, tail := EncodeByte(bs[0]), PercentEncode(bs[1..]);
      assert PlusToSpace(head + tail) == PlusToSpace(head) + PlusToSpace(tail);
      PercentDecodeEncodedByte(bs[0], PlusToSpace(tail));
      PercentDecodeEncode(bs[1..]);
    }
  }

  /** A name or value survives serialization and parsing unchanged. */
  lemma DecodeEncodeComponent(s: string)
    ensures DecodeComponent(EncodeComponent(s)) == s
  {
    PercentDecodeEncode(Utf8.Encode(s));
    Utf8.DecodeEncode(s);
  }

  /** Finding a separator that is preceded by a stretch without it. */
  lemma IndexOfAfter(x: seq<byte>, sep: byte, y: seq<byte>)
    requires forall k :: 0 <= k < |x| ==> x[k] != sep
    ensures IndexOf(x + [sep] + y, sep) == |x|
    ensures IndexOf(x, sep) == |x|
  {
    var bs := x + [sep] + y;
    var i := IndexOf(bs, sep);
    assert bs[|x|] == sep;
    assert forall k :: 0 <= k < |x| ==> bs[k] == x[k];
  }

  lemma ParseEncodedTuple(t: (string, string))
    ensures ParseTuple(EncodeTuple(t)) == t
  {
    var n, v := EncodeComponent(t.0), EncodeComponent(t.1);
    var seg := n + [Equals] + v;
    IndexOfAfter(n, Equals, v);
    assert seg[..|n|] == n;
    assert seg[|n| + 1..] == v;
    DecodeEncodeComponent(t.0);
    DecodeEncodeComponent(t.1);
  }

  /** A serialized tuple contains no `&` and is never empty. */
  lemma EncodedTupleShape(t: (string, string))
    ensures EncodeTuple(t) != []
    ensures forall k :: 0 <= k < |EncodeTuple(t)| ==> EncodeTuple(t)[k] != Amp
  {
    var n, v := EncodeComponent(t.0), EncodeComponent(t.1);
    assert EncodeTuple(t)[|n|] == Equals;
    forall k | 0 <= k < |EncodeTuple(t)| ensures EncodeTuple(t)[k] != Amp {
      if k < |n| {
        assert EncodeTuple(t)[k] == n[k];
      } else if k > |n| {
        assert EncodeTuple(t)[k] == v[k - |n| - 1];
      }
    }
  }

  /** Parsing a non-empty, `&`-free segment followed by `&` and more input. */
  lemma ParseBytesSegment(seg: seq<byte>, rest: seq<byte>)
    requires seg != []
    requires forall k :: 0 <= k < |seg| ==> seg[k] != Amp
    ensures ParseBytes(seg + [Amp] + rest) == [ParseTuple(seg)] + ParseBytes(rest)
    ensures ParseBytes(seg) == [ParseTuple(seg)]
  {
    var bs := seg + [Amp] + rest;
    IndexOfAfter(seg, Amp, rest);
    assert bs[..|seg|] == seg;
    assert bs[|seg| + 1..] == rest;
    assert seg[..|seg|] == seg;
  }

  /** One inductive step of the round trip: a tuple in front of a list that already reads back. */
  lemma ParseSerializeCons(t: (string, string), rest: Tuples)
    requires rest != [] ==> ParseBytes(SerializeBytes(rest)) == rest
    ensures ParseBytes(SerializeBytes([t] + rest)) == [t] + rest
  {
    var e := EncodeTuple(t);
    var tuples := [t] + rest;
    assert tuples[0] == t && tuples[1..] == rest;
    EncodedTupleShape(t);
    ParseEncodedTuple(t);
    if rest == [] {
      ParseBytesSegment(e, []);
      assert SerializeBytes(tuples) == e;
    } else {
      ParseBytesSegment(e, SerializeBytes(rest));
      assert SerializeBytes(tuples) == e + [Amp] + SerializeBytes(rest);
    }
  }

  /** Round trip: parsing the serialization of a tuple list gives the same list. */
  lemma {:induction false} ParseSerializeBytes(tuples: Tuples)
    ensures ParseBytes(SerializeBytes(tuples)) == tuples
    decreases |tuples|
  {
    if tuples != [] {
      if |tuples| > 1 {
        ParseSerializeBytes(tuples[1..]);
      }
      ParseSerializeCons(tuples[0], tuples[1..]);
      assert [tuples[0]] + tuples[1..] == tuples;
    }
  }

  lemma EncodedTupleAscii(t: (string, string))
    ensures forall k :: 0 <= k < |EncodeTuple(t)| ==> EncodeTuple(t)[k] < 0x80
  {
    var n, v := EncodeComponent(t.0), EncodeComponent(t.1);
    forall k | 0 <= k < |EncodeTuple(t)| ensures EncodeTuple(t)[k] < 0x80 {
      if k < |n| {
        assert EncodeTuple(t)[k] == n[k];
      } else if k > |n| {
        assert EncodeTuple(t)[k] == v[k - |n| - 1];
      }
    }
  }

  predicate Ascii(bs: seq<byte>) {
    forall k :: 0 <= k < |bs| ==> bs[k] < 0x80
  }

  lemma AsciiJoin(x: seq<byte>, sep: byte, y: seq<byte>)
    requires Ascii(x) && sep < 0x80 && Ascii(y)
    ensures Ascii(x + [sep] + y)
  {
    forall k | 0 <= k < |x + [sep] + y| ensures (x + [sep] + y)[k] < 0x80 {
      if k < |x| {
        assert (x + [sep] + y)[k] == x[k];
      } else if k > |x| {
        assert (x + [sep] + y)[k] == y[k - |x| - 1];
      }
    }
  }

  /** The serializer writes only ASCII bytes. */
  lemma {:induction false} SerializeBytesAscii(tuples: Tuples)
    ensures forall k :: 0 <= k < |SerializeBytes(tuples)| ==> SerializeBytes(tuples)[k] < 0x80
    decreases |tuples|
  {
    if tuples != [] {
      EncodedTupleAscii(tuples[0]);
      if |tuples| > 1 {
        SerializeBytesAscii(tuples[1..]);
        AsciiJoin(EncodeTuple(tuples[0]), Amp, SerializeBytes(tuples[1..]));
      }
    }
  }

  /** Parsing a serialized list reads back the bytes the serializer wrote. */
  lemma EncodeSerialized(tuples: Tuples)
    ensures Utf8.Encode(Serialize(tuples)) == SerializeBytes(tuples)
  {
    var bs := SerializeBytes(tuples);
    var s := AsString(bs);
    SerializeBytesAscii(tuples);
    Utf8.EncodeAscii(s);
    var e := Utf8.Encode(s);
    assert |e| == |bs|;
    forall i | 0 <= i < |bs| ensures e[i] == bs[i] {
      assert e[i] as int == s[i] as int == bs[i] as int;
    }
  }

  /** A string of ASCII characters that the serializer writes as themselves. */
  predicate Plain(s: string) {
    forall i :: 0 <= i < |s| ==> s[i] as int < 0x80 && Unreserved(s[i] as int as byte)
  }

  lemma {:induction false} PercentEncodeUnreserved(bs: seq<byte>)
    requires forall i :: 0 <= i < |bs| ==> Unreserved(bs[i])
    ensures PercentEncode(bs) == bs
  {
    if bs != [] {
      PercentEncodeUnreserved(bs[1..]);
    }
  }

  /** A plain component is serialized verbatim. */
  lemma EncodeComponentPlain(s: string)
    requires Plain(s)
    ensures AsString(EncodeComponent(s)) == s
  {
    Utf8.EncodeAscii(s);
    var e := Utf8.Encode(s);
    forall i | 0 <= i < |e| ensures Unreserved(e[i]) {
      assert e[i] == s[i] as int as byte;
    }
    PercentEncodeUnreserved(e);
  }

  lemma AsStringConcat(x: seq<byte>, y: seq<byte>)
    ensures AsString(x + y) == AsString(x) + AsString(y)
  {
  }

  /** A plain tuple serializes to `name=value`. */
  lemma EncodeTuplePlain(t: (string, string))
    requires Plain(t.0) && Plain(t.1)
    ensures AsString(EncodeTuple(t)) == t.0 + "=" + t.1
  {
    EncodeComponentPlain(t.0);
    EncodeComponentPlain(t.1);
    AsStringConcat(EncodeComponent(t.0) + [Equals], EncodeComponent(t.1));
    AsStringConcat(EncodeComponent(t.0), [Equals]);
  }

  /** Two plain tuples serialize to `a=b&c=e`. */
  lemma SerializePlainPair(a: string, b: string, c: string, e: string)
    requires Plain(a) && Plain(b) && Plain(c) && Plain(e)
    ensures Serialize([(a, b), (c, e)]) == a + "=" + b + "&" + c + "=" + e
  {
    var t := [(a, b), (c, e)];
    assert t[1..] == [(c, e)];
    assert SerializeBytes(t) == EncodeTuple((a, b)) + [Amp] + EncodeTuple((c, e));
    EncodeTuplePlain((a, b));
    EncodeTuplePlain((c, e));
    AsStringConcat(EncodeTuple((a, b)) + [Amp], EncodeTuple((c, e)));
    AsStringConcat(EncodeTuple((a, b)), [Amp]);
  }

  /** A serialization never starts with `?`: its first byte is `=` or a serialized byte. */
  lemma SerializeNoLeadingQuestionMark(tuples: Tuples)
    ensures Serialize(tuples) != [] ==> Serialize(tuples)[0] != '?'
  {
    var bs := SerializeBytes(tuples);
    if bs != [] {
      EncodedTupleShape(tuples[0]);
      assert bs[0] == EncodeTuple(tuples[0])[0];
      if tuples[0].0 == [] {
        assert EncodeTuple(tuples[0])[0] == Equals;
      } else {
        assert EncodeTuple(tuples[0])[0] == EncodeComponent(tuples[0].0)[0];
      }
      assert Serialize(tuples)[0] as int == bs[0] as int;
    }
  }

  /**
   * What `new URLSearchParams("?" + params.toString())` holds is exactly
   * what `params` held: names, values and order.
   */
  lemma ParseSerialize(tuples: Tuples)
    ensures Parse(Serialize(tuples)) == tuples
    ensures Parse("?" + Serialize(tuples)) == tuples
  {
    var s := Serialize(tuples);
    EncodeSerialized(tuples);
    ParseSerializeBytes(tuples);
    SerializeNoLeadingQuestionMark(tuples);
    assert ("?" + s)[1..] == s;
  }

  // ------------------------------------------------------- URLSearchParams

  /** A `URLSearchParams` object: an ordered list of tuples that `append` extends in place. */
  class SearchParams {
    var list: Tuples

    /** `new URLSearchParams()`. */
    constructor ()
      ensures list == []
    {
      list := [];
    }

    /** `append(name, value)` adds a tuple at the end, even if the name is already present. */
    method Append(name: string, value: string)
      modifies this
      ensures list == old(list) + [(name, value)]
    {
      list := list + [(name, value)];
    }

    function ToString(): string
      reads this
    {
      Serialize(list)
    }
  }
}
