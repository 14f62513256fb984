/**
 * `rawurlencode` and `rawurldecode`: percent-encoding as in section 2.1 of
 * RFC 3986, leaving only the unreserved characters of section 2.3 (ALPHA,
 * DIGIT, '-', '.', '_', '~') as they are. PHP encodes the bytes of a string;
 * a string here is a sequence of Unicode characters, so its bytes are its
 * UTF-8 encoding.
 */
module Percent {
  import opened Php

  /** The UTF-8 encoding of one character (section 3 of RFC 3629). */
  function Utf8(c: char): (bs: seq<byte>)
    ensures 1 <= |bs| <= 4
    ensures (c as int < 0x80) <==> |bs| == 1
    ensures c as int < 0x80 ==> bs == [c as int as byte]
  {
    var n := c as int;
    if n < 0x80 then [n as byte]
    else if n < 0x800 then [(0xC0 + n / 0x40) as byte, (0x80 + n % 0x40) as byte]
    else if n < 0x10000 then
      [(0xE0 + n / 0x1000) as byte, (0x80 + (n / 0x40) % 0x40) as byte, (0x80 + n % 0x40) as byte]
    else
      [(0xF0 + n / 0x40000) as byte, (0x80 + (n / 0x1000) % 0x40) as byte,
       (0x80 + (n / 0x40) % 0x40) as byte, (0x80 + n % 0x40) as byte]
  }

  function Utf8String(s: string): seq<byte> {
    if s == [] then [] else Utf8(s[0]) + Utf8String(s[1..])
  }

  /** The unreserved characters of section 2.3 of RFC 3986. */
  predicate Unreserved(c: char) {
    ('A' <= c <= 'Z') || ('a' <= c <= 'z') || ('0' <= c <= '9') || c == '-' || c == '_' || c == '.' || c == '~'
  }

  /** The upper-case hex digit `rawurlencode` writes for d. */
  function HexDigit(d: nat): (c: char)
    requires d < 16
    ensures IsUpperHexDigit(c)
  {
    if d < 10 then (48 + d) as char else (55 + d) as char
  }

  predicate IsUpperHexDigit(c: char) {
    ('0' <= c <= '9') || ('A' <= c <= 'F')
  }

  predicate IsHexDigit(c: char) {
    ('0' <= c <= '9') || ('a' <= c <= 'f') || ('A' <= c <= 'F')
  }

  function HexValue(c: char): (d: nat)
    requires IsHexDigit(c)
    ensures d < 16
  {
    if '0' <= c <= '9' then c as int - '0' as int
    else if 'a' <= c <= 'f' then c as int - 'a' as int + 10
    else c as int - 'A' as int + 10
  }

  /** One byte as `rawurlencode` writes it: itself if unreserved, else `%` and two upper-case hex digits. */
  function EncodeByte(b: byte): (s: string)
    ensures |s| == 1 || |s| == 3
  {
    var c := b as int as char;
    if Unreserved(c) then [c] else ['%', HexDigit(b as int / 16), HexDigit(b as int % 16)]
  }

  function Encode(bs: seq<byte>): string {
    if bs == [] then [] else EncodeByte(bs[0]) + Encode(bs[1..])
  }

  /** `rawurlencode((string) $value)` for the string form of a value. */
  function RawUrlEncode(s: string): string {
    Encode(Utf8String(s))
  }

  /**
   * `rawurldecode`: a `%` followed by two hex digits (either case) is one byte;
   * any other character stands for its own bytes ('+' included).
   */
  function Decode(s: string): seq<byte>
    decreases |s|
  {
    if s == [] then []
    else if s[0] == '%' && |s| >= 3 && IsHexDigit(s[1]) && IsHexDigit(s[2]) then
      [(HexValue(s[1]) * 16 + HexValue(s[2])) as byte] + Decode(s[3..])
    else Utf8(s[0]) + Decode(s[1..])
  }

  /** Text made only of unreserved characters and `%HH` triplets with upper-case hex digits. */
  predicate WellEncoded(s: string)
    decreases |s|
  {
    if s == [] then true
    else if Unreserved(s[0]) then WellEncoded(s[1..])
    else |s| >= 3 && s[0] == '%' && IsUpperHexDigit(s[1]) && IsUpperHexDigit(s[2]) && WellEncoded(s[3..])
  }

  // ---------------------------------------------------------------------------
  // Properties
  // ---------------------------------------------------------------------------

  lemma HexDigitsRoundTrip(b: byte)
    ensures IsHexDigit(HexDigit(b as int / 16)) && IsHexDigit(HexDigit(b as int % 16))
    ensures HexValue(HexDigit(b as int / 16)) * 16 + HexValue(HexDigit(b as int % 16)) == b as int
  {
  }

  /** Decoding the encoding of one byte, followed by anything, yields that byte first. */
  lemma DecodeEncodedByte(b: byte, rest: string)
    ensures Decode(EncodeByte(b) + rest) == [b] + Decode(rest)
  {
    var s := EncodeByte(b) + rest;
    var c := b as int as char;
    if Unreserved(c) {
      assert s[0] == c && s[1..] == rest;
    } else {
      HexDigitsRoundTrip(b);
      assert s[0] == '%' && s[3..] == rest;
    }
  }

  /** `rawurldecode` undoes `rawurlencode`: decoding gives back the bytes that were encoded. */
  lemma {:induction false} DecodeEncode(bs: seq<byte>)
    ensures Decode(Encode(bs)) == bs
  {
    if bs != [] {
      DecodeEncode(bs[1..]);
      DecodeEncodedByte(bs[0], Encode(bs[1..]));
    }
  }

  /** The encoding contains nothing but unreserved characters and `%HH` triplets. */
  lemma {:induction false} EncodeIsWellEncoded(bs: seq<byte>)
    ensures WellEncoded(Encode(bs))
  {
    if bs != [] {
      EncodeIsWellEncoded(bs[1..]);
      var e := EncodeByte(bs[0]);
      var s := e + Encode(bs[1..]);
      if |e| == 1 {
        assert s[1..] == Encode(bs[1..]);
      } else {
        assert s[3..] == Encode(bs[1..]);
      }
    }
  }

  /** The cookie round trip: decoding `rawurlencode(s)` gives the bytes of s. */
  lemma RawUrlRoundTrip(s: string)
    ensures Decode(RawUrlEncode(s)) == Utf8String(s)
    ensures WellEncoded(RawUrlEncode(s))
  {
    DecodeEncode(Utf8String(s));
    EncodeIsWellEncoded(Utf8String(s));
  }

  /** Unreserved text is left as it is. */
  lemma {:induction false} UnreservedUnchanged(s: string)
    requires forall i :: 0 <= i < |s| ==> Unreserved(s[i])
    ensures RawUrlEncode(s) == s
  {
    if s != [] {
      UnreservedUnchanged(s[1..]);
      assert s[0] as int < 0x80;
      assert Utf8String(s) == [s[0] as int as byte] + Utf8String(s[1..]);
      assert s == [s[0]] + s[1..];
    }
  }
}
