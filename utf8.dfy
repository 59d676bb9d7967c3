/**
 * UTF-8 as the WHATWG Encoding Standard defines it: the encoder used when a
 * string is percent-encoded, and "UTF-8 decode without BOM" (replacement
 * error mode) used when a query string is parsed. Strings are sequences of
 * Unicode scalar values, which is what `URLSearchParams` works on once a
 * JavaScript string has been converted to a USVString.
 */
module Utf8 {

  newtype byte = b: int | 0 <= b < 256

  /** U+FFFD, emitted for every malformed byte sequence. */
  const Replacement: char := '\U{FFFD}'

  predicate InRange(b: byte, lo: int, hi: int) {
    lo <= b as int <= hi
  }

  /** The UTF-8 encoding of one code point: one to four bytes. */
  function EncodeChar(c: char): (r: seq<byte>)
    ensures 1 <= |r| <= 4
    ensures (|r| == 1) == (c as int < 0x80)
    ensures r[0] as int < 0x80 || 0xC2 <= r[0] as int <= 0xF4
    ensures forall k :: 1 <= k < |r| ==> InRange(r[k], 0x80, 0xBF)
  {
    var cp := c as int;
    if cp < 0x80 then
      [cp as byte]
    else if cp < 0x800 then
      [(0xC0 + cp / 64) as byte, (0x80 + cp % 64) as byte]
    else if cp < 0x1_0000 then
      [(0xE0 + cp / 4096) as byte, (0x80 + cp / 64 % 64) as byte, (0x80 + cp % 64) as byte]
    else
      [(0xF0 + cp / 262144) as byte, (0x80 + cp / 4096 % 64) as byte,
       (0x80 + cp / 64 % 64) as byte, (0x80 + cp % 64) as byte]
  }

  /** The UTF-8 encoding of a string, code point by code point. */
  function Encode(s: string): (r: seq<byte>)
    ensures |r| >= |s|
    ensures s == [] <==> r == []
  {
    if s == [] then [] else EncodeChar(s[0]) + Encode(s[1..])
  }

  /**
   * UTF-8 decoding in replacement mode. A lead byte announces how many
   * continuation bytes follow; the first continuation byte's range is
   * narrowed after E0, ED, F0 and F4 (no overlong forms, no surrogates,
   * nothing above U+10FFFF). A byte that does not fit ends the malformed
   * sequence: one U+FFFD is emitted for the bytes consumed so far and the
   * offending byte is read again as a lead byte. Running out of input in
   * the middle of a sequence also gives one U+FFFD.
   */
  function Decode(bs: seq<byte>): (r: string)
    ensures |r| <= |bs|
    decreases |bs|
  {
    if |bs| == 0 then ""
    else
      var b0 := bs[0] as int;
      if b0 < 0x80 then
        [b0 as char] + Decode(bs[1..])
      else if 0xC2 <= b0 <= 0xDF then
        if |bs| >= 2 && InRange(bs[1], 0x80, 0xBF) then
          [((b0 - 0xC0) * 64 + (bs[1] as int - 0x80)) as char] + Decode(bs[2..])
        else
          [Replacement] + Decode(bs[1..])
      else if 0xE0 <= b0 <= 0xEF then
        var lo := if b0 == 0xE0 then 0xA0 else 0x80;
        var hi := if b0 == 0xED then 0x9F else 0xBF;
        if |bs| >= 2 && InRange(bs[1], lo, hi) then
          if |bs| >= 3 && InRange(bs[2], 0x80, 0xBF) then
            [((b0 - 0xE0) * 4096 + (bs[1] as int - 0x80) * 64 + (bs[2] as int - 0x80)) as char]
              + Decode(bs[3..])
          else
            [Replacement] + Decode(bs[2..])
        else
          [Replacement] + Decode(bs[1..])
      else if 0xF0 <= b0 <= 0xF4 then
        var lo := if b0 == 0xF0 then 0x90 else 0x80;
        var hi := if b0 == 0xF4 then 0x8F else 0xBF;
        if |bs| >= 2 && InRange(bs[1], lo, hi) then
          if |bs| >= 3 && InRange(bs[2], 0x80, 0xBF) then
            if |bs| >= 4 && InRange(bs[3], 0x80, 0xBF) then
              [((b0 - 0xF0) * 262144 + (bs[1] as int - 0x80) * 4096
                + (bs[2] as int - 0x80) * 64 + (bs[3] as int - 0x80)) as char]
                + Decode(bs[4..])
            else
              [Replacement] + Decode(bs[3..])
          else
            [Replacement] + Decode(bs[2..])
        else
          [Replacement] + Decode(bs[1..])
      else
        [Replacement] + Decode(bs[1..])
  }

  lemma DecodeEncodeTwo(c: char, rest: seq<byte>)
    requires 0x80 <= c as int < 0x800
    ensures Decode(EncodeChar(c) + rest) == [c] + Decode(rest)
  {
    var cp := c as int;
    var bs := EncodeChar(c) + rest;
    assert bs[2..] == rest;
    assert cp == (cp / 64) * 64 + cp % 64;
  }

  lemma DecodeEncodeThree(c: char, rest: seq<byte>)
    requires 0x800 <= c as int < 0x1_0000
    ensures Decode(EncodeChar(c) + rest) == [c] + Decode(rest)
  {
    var cp := c as int;
    var bs := EncodeChar(c) + rest;
    assert bs[3..] == rest;
    var q := cp / 64;
    assert cp == q * 64 + cp % 64;
    assert q == (q / 64) * 64 + q % 64;
    assert cp / 4096 == q / 64;
  }

  lemma DecodeEncodeFour(c: char, rest: seq<byte>)
    requires 0x1_0000 <= c as int
    ensures Decode(EncodeChar(c) + rest) == [c] + Decode(rest)
  {
    var cp := c as int;
    var bs := EncodeChar(c) + rest;
    assert bs[4..] == rest;
    var q := cp / 64;
    var q2 := q / 64;
    assert cp == q * 64 + cp % 64;
    assert q == q2 * 64 + q % 64;
    assert q2 == (q2 / 64) * 64 + q2 % 64;
    assert cp / 4096 == q2;
    assert cp / 262144 == q2 / 64;
  }

  /** Decoding the encoding of one code point gives that code point back and leaves the rest alone. */
  lemma DecodeEncodeChar(c: char, rest: seq<byte>)
    ensures Decode(EncodeChar(c) + rest) == [c] + Decode(rest)
  {
    var cp := c as int;
    if cp < 0x80 {
      assert (EncodeChar(c) + rest)[1..] == rest;
    } else if cp < 0x800 {
      DecodeEncodeTwo(c, rest);
    } else if cp < 0x1_0000 {
      DecodeEncodeThree(c, rest);
    } else {
      DecodeEncodeFour(c, rest);
    }
  }

  /** Round trip: decoding an encoded string gives the string back. */
  lemma {:induction false} DecodeEncode(s: string)
    ensures Decode(Encode(s)) == s
  {
    if s != [] {
      DecodeEncodeChar(s[0], Encode(s[1..]));
      DecodeEncode(s[1..]);
    }
  }

  /** A string whose code points are all below U+0080 encodes to the same numbers, one byte each. */
  lemma {:induction false} EncodeAscii(s: string)
    requires forall i :: 0 <= i < |s| ==> s[i] as int < 0x80
    ensures |Encode(s)| == |s|
    ensures forall i :: 0 <= i < |s| ==> Encode(s)[i] as int == s[i] as int
  {
    if s != [] {
      EncodeAscii(s[1..]);
    }
  }
}
