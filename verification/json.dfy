/**
 * The JSON text of the error body: `json_encode` of
 * `['error' => ['code' => int, 'type' => string, 'message' => string]]` with
 * `JSON_UNESCAPED_UNICODE`. Strings are written between double quotes with
 * `"` and `\` escaped, `/` written as `\/` (slashes are not left unescaped),
 * backspace, form feed, newline, carriage return and tab in their short forms,
 * other control characters as `\u00xx` with lower-case hex digits, and
 * U+2028 / U+2029 as `\u2028` / `\u2029`; every other character is written
 * as it is.
 *
 * `ReadString` and `ParseErrorBody` read such text back; they are the partner
 * definitions the round-trip lemmas relate the writer to.
 */
module Json {
  import opened Wrappers
  import opened Php
  import Percent

  function LowerHexDigit(d: nat): (c: char)
    requires d < 16
    ensures Percent.IsHexDigit(c) && Percent.HexValue(c) == d
  {
    if d < 10 then (48 + d) as char else (87 + d) as char
  }

  /** How `json_encode` writes one character inside a string. */
  function EscapeChar(c: char): (e: string)
    ensures 1 <= |e|
    ensures |e| == 1 <==> e == [c]
    ensures |e| == 1 || e[0] == '\\'
  {
    if c == '"' then "\\\""
    else if c == '\\' then "\\\\"
    else if c == '/' then "\\/"
    else if c == '\U{8}' then "\\b"
    else if c == '\U{C}' then "\\f"
    else if c == '\n' then "\\n"
    else if c == '\r' then "\\r"
    else if c == '\t' then "\\t"
    else if c as int < 0x20 then ['\\', 'u', '0', '0', LowerHexDigit(c as int / 16), LowerHexDigit(c as int % 16)]
    else if c == '\U{2028}' then "\\u2028"
    else if c == '\U{2029}' then "\\u2029"
    else [c]
  }

  function Escape(s: string): string {
    if s == [] then [] else EscapeChar(s[0]) + Escape(s[1..])
  }

  /** The characters `json_encode` writes unchanged. */
  predicate Plain(c: char) {
    c != '"' && c != '\\' && c != '/' && c as int >= 0x20 && c != '\U{2028}' && c != '\U{2029}'
  }

  // ---------------------------------------------------------------------------
  // Reading strings back
  // ---------------------------------------------------------------------------

  /** The character a two-character escape `\x` stands for. */
  function ShortEscape(x: char): Option<char> {
    if x == '"' then Some('"')
    else if x == '\\' then Some('\\')
    else if x == '/' then Some('/')
    else if x == 'b' then Some('\U{8}')
    else if x == 'f' then Some('\U{C}')
    else if x == 'n' then Some('\n')
    else if x == 'r' then Some('\r')
    else if x == 't' then Some('\t')
    else None
  }

  predicate IsCharCode(v: int) {
    (0 <= v < 0xD800) || (0xE000 <= v < 0x11_0000)
  }

  /** The value of the four hex digits of a `\uXXXX` escape. */
  function HexQuad(a: char, b: char, c: char, d: char): int
    requires Percent.IsHexDigit(a) && Percent.IsHexDigit(b) && Percent.IsHexDigit(c) && Percent.IsHexDigit(d)
  {
    ((Percent.HexValue(a) * 16 + Percent.HexValue(b)) * 16 + Percent.HexValue(c)) * 16 + Percent.HexValue(d)
  }

  function Prepend(c: char, o: Option<(string, string)>): Option<(string, string)> {
    match o
    case None => None
    case Some((t, rest)) => Some(([c] + t, rest))
  }

  /**
   * Reads the inside of a JSON string up to its closing quote: the text it
   * denotes and what follows the quote. None when the quote never comes, an
   * escape is malformed or a raw control character appears.
   */
  function ReadString(s: string): Option<(string, string)>
    decreases |s|
  {
    if s == [] then None
    else if s[0] == '"' then Some(([], s[1..]))
    else if s[0] == '\\' then
      if |s| < 2 then None
      else if ShortEscape(s[1]).Some? then Prepend(ShortEscape(s[1]).value, ReadString(s[2..]))
      else if s[1] == 'u' && |s| >= 6 && Percent.IsHexDigit(s[2]) && Percent.IsHexDigit(s[3])
              && Percent.IsHexDigit(s[4]) && Percent.IsHexDigit(s[5])
              && IsCharCode(HexQuad(s[2], s[3], s[4], s[5])) then
        Prepend(HexQuad(s[2], s[3], s[4], s[5]) as char, ReadString(s[6..]))
      else None
    else if s[0] as int < 0x20 then None
    else Prepend(s[0], ReadString(s[1..]))
  }

  /** Reading the escape of one character gives back that character, then reading goes on. */
  lemma ReadEscapedChar(c: char, t: string)
    ensures ReadString(EscapeChar(c) + t) == Prepend(c, ReadString(t))
  {
    var e := EscapeChar(c);
    if |e| == 1 {
      ReadPlainChar(c, t);
    } else if |e| == 2 {
      ReadShortEscape(c, t);
    } else if c as int < 0x20 {
      ReadControlEscape(c, t);
    } else {
      ReadSeparatorEscape(c, t);
    }
  }

  lemma ReadPlainChar(c: char, t: string)
    requires |EscapeChar(c)| == 1
    ensures ReadString(EscapeChar(c) + t) == Prepend(c, ReadString(t))
  {
    assert EscapeChar(c) == [c];
    assert c != '"' && c != '\\' && c as int >= 0x20;
    var s := [c] + t;
    assert s[0] == c && s[1..] == t;
  }

  lemma ReadShortEscape(c: char, t: string)
    requires |EscapeChar(c)| == 2
    ensures ReadString(EscapeChar(c) + t) == Prepend(c, ReadString(t))
  {
    var e := EscapeChar(c);
    var s := e + t;
    assert ShortEscape(e[1]) == Some(c);
    assert s[0] == '\\' && s[1] == e[1] && s[2..] == t;
  }

  lemma ReadControlEscape(c: char, t: string)
    requires c as int < 0x20 && |EscapeChar(c)| == 6
    ensures ReadString(EscapeChar(c) + t) == Prepend(c, ReadString(t))
  {
    var hi, lo := LowerHexDigit(c as int / 16), LowerHexDigit(c as int % 16);
    assert EscapeChar(c) == ['\\', 'u', '0', '0', hi, lo];
    var s := ['\\', 'u', '0', '0', hi, lo] + t;
    assert s[0] == '\\' && s[1] == 'u' && s[2] == '0' && s[3] == '0' && s[4] == hi && s[5] == lo && s[6..] == t;
    assert ShortEscape('u') == None;
    assert HexQuad('0', '0', hi, lo) == c as int;
  }

  lemma ReadSeparatorEscape(c: char, t: string)
    requires c == '\U{2028}' || c == '\U{2029}'
    ensures ReadString(EscapeChar(c) + t) == Prepend(c, ReadString(t))
  {
    var d := if c == '\U{2028}' then '8' else '9';
    assert EscapeChar(c) == ['\\', 'u', '2', '0', '2', d];
    var s := ['\\', 'u', '2', '0', '2', d] + t;
    assert s[0] == '\\' && s[1] == 'u' && s[2] == '2' && s[3] == '0' && s[4] == '2' && s[5] == d && s[6..] == t;
    assert ShortEscape('u') == None;
    assert HexQuad('2', '0', '2', d) == c as int;
  }

  /** Reading an escaped string followed by its closing quote gives back the string and what follows. */
  lemma {:induction false} ReadEscape(m: string, rest: string)
    ensures ReadString(Escape(m) + ("\"" + rest)) == Some((m, rest))
  {
    if m == [] {
      assert Escape(m) + ("\"" + rest) == "\"" + rest;
      ReadClosingQuote(rest);
    } else {
      var tail := Escape(m[1..]) + ("\"" + rest);
      EscapeCons(m, "\"" + rest);
      ReadEscape(m[1..], rest);
      ReadEscapedChar(m[0], tail);
      assert [m[0]] + m[1..] == m;
    }
  }

  lemma ReadClosingQuote(rest: string)
    ensures ReadString("\"" + rest) == Some(([], rest))
  {
    assert ("\"" + rest)[0] == '"' && ("\"" + rest)[1..] == rest;
  }

  lemma EscapeCons(m: string, x: string)
    requires m != []
    ensures Escape(m) + x == EscapeChar(m[0]) + (Escape(m[1..]) + x)
  {
    assert Escape(m) == EscapeChar(m[0]) + Escape(m[1..]);
    ConcatAssoc(EscapeChar(m[0]), Escape(m[1..]), x);
  }

  lemma ConcatAssoc(a: string, b: string, c: string)
    ensures (a + b) + c == a + (b + c)
  {
  }

  /** Text made of plain characters is written unchanged. */
  lemma {:induction false} PlainUnchanged(s: string)
    requires forall i :: 0 <= i < |s| ==> Plain(s[i])
    ensures Escape(s) == s
  {
    if s != [] {
      PlainUnchanged(s[1..]);
      assert s == [s[0]] + s[1..];
    }
  }

  /** No unescaped quote: the escape of a string contains no `"` that is not preceded by `\`. */
  lemma {:induction false} EscapeHasNoBareQuote(s: string)
    ensures forall i :: 0 <= i < |Escape(s)| && Escape(s)[i] == '"' ==> i > 0 && Escape(s)[i - 1] == '\\'
  {
    if s != [] {
      EscapeHasNoBareQuote(s[1..]);
      var e, t := EscapeChar(s[0]), Escape(s[1..]);
      assert Escape(s) == e + t;
      forall i | 0 <= i < |e + t| && (e + t)[i] == '"'
        ensures i > 0 && (e + t)[i - 1] == '\\'
      {
        if i >= |e| {
          assert (e + t)[i] == t[i - |e|];
          if i - |e| > 0 {
            assert (e + t)[i - 1] == t[i - |e| - 1];
          }
        }
      }
    }
  }

  // ---------------------------------------------------------------------------
  // The error body
  // ---------------------------------------------------------------------------

  const BodyStart := "{\"error\":{\"code\":"
  const TypeKey := ",\"type\":\""
  const MessageKey := ",\"message\":\""
  const BodyClose := "}}"

  /** `{"error":{"code":C,"type":"T","message":"M"}}` with T and M escaped. */
  function ErrorBody(code: int, kind: string, message: string): string {
    BodyStart + (IntToString(code) + (TypeKey + (Escape(kind) + ("\"" +
      (MessageKey + (Escape(message) + ("\"" + BodyClose)))))))
  }

  /** Reads the code, type and message back from an error body. */
  function ParseErrorBody(s: string): Option<(int, string, string)> {
    if StartsWith(s, BodyStart) then ParseCode(s[|BodyStart|..]) else None
  }

  /** The code runs up to the first ',', which opens the type member. */
  function ParseCode(a: string): Option<(int, string, string)> {
    var digits := BeforeFirst(a, ',');
    match ParseInt(digits)
    case None => None
    case Some(code) => ParseType(code, a[|digits|..])
  }

  function ParseType(code: int, b: string): Option<(int, string, string)> {
    if !StartsWith(b, TypeKey) then None
    else
      match ReadString(b[|TypeKey|..])
      case None => None
      case Some((kind, c)) => ParseMessage(code, kind, c)
  }

  /** What follows the type's closing quote: the message member, then the two closing braces. */
  function ParseMessage(code: int, kind: string, c: string): Option<(int, string, string)> {
    if !StartsWith(c, MessageKey) then None
    else
      match ReadString(c[|MessageKey|..])
      case None => None
      case Some((message, d)) => if d == BodyClose then Some((code, kind, message)) else None
  }

  lemma {:induction false} BeforeFirstStops(x: string, y: string, c: char)
    requires c !in x && y != [] && y[0] == c
    ensures BeforeFirst(x + y, c) == x
  {
    var s := x + y;
    var r := BeforeFirst(s, c);
    assert s[|x|] == c;
    assert forall i :: 0 <= i < |x| ==> s[i] == x[i];
    assert |r| == |x|;
    assert r == s[..|x|] == x;
  }

  lemma StartsWithPrefix(p: string, t: string)
    ensures StartsWith(p + t, p) && (p + t)[|p|..] == t
  {
    assert (p + t)[..|p|] == p;
  }

  /** The error body reads back as the code, type and message it was written from. */
  lemma ErrorBodyRoundTrip(code: int, kind: string, message: string)
    ensures ParseErrorBody(ErrorBody(code, kind, message)) == Some((code, kind, message))
  {
    var c := MessageKey + (Escape(message) + ("\"" + BodyClose));
    var tail1 := TypeKey + (Escape(kind) + ("\"" + c));
    var a := IntToString(code) + tail1;
    StartsWithPrefix(BodyStart, a);
    CodeRoundTrip(code, tail1);
    TypeRoundTrip(code, kind, c);
    MessageRoundTrip(code, kind, message);
  }

  lemma CodeRoundTrip(code: int, tail1: string)
    requires StartsWith(tail1, ",")
    ensures ParseCode(IntToString(code) + tail1) == ParseType(code, tail1)
  {
    var digits := IntToString(code);
    assert ',' !in digits;
    BeforeFirstStops(digits, tail1, ',');
    IntToStringRoundTrip(code);
    StartsWithPrefix(digits, tail1);
  }

  lemma TypeRoundTrip(code: int, kind: string, c: string)
    ensures ParseType(code, TypeKey + (Escape(kind) + ("\"" + c))) == ParseMessage(code, kind, c)
  {
    StartsWithPrefix(TypeKey, Escape(kind) + ("\"" + c));
    ReadEscape(kind, c);
  }

  lemma MessageRoundTrip(code: int, kind: string, message: string)
    ensures ParseMessage(code, kind, MessageKey + (Escape(message) + ("\"" + BodyClose)))
         == Some((code, kind, message))
  {
    StartsWithPrefix(MessageKey, Escape(message) + ("\"" + BodyClose));
    ReadEscape(message, BodyClose);
  }

  /** Different failures give different bodies. */
  lemma ErrorBodyInjective(c1: int, t1: string, m1: string, c2: int, t2: string, m2: string)
    requires ErrorBody(c1, t1, m1) == ErrorBody(c2, t2, m2)
    ensures c1 == c2 && t1 == t2 && m1 == m2
  {
    ErrorBodyRoundTrip(c1, t1, m1);
    ErrorBodyRoundTrip(c2, t2, m2);
  }
}
