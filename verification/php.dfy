/**
 * The PHP runtime vocabulary the HTTP component relies on: the shape of a PHP
 * value, the string cast of a scalar, `empty()`, decimal rendering of integers
 * and the ASCII string functions (`strtolower`, `strtoupper`, `trim`,
 * `rtrim`, `basename`, `pathinfo`, `explode`) used by the views.
 */
module Php {
  import opened Wrappers

  newtype byte = x: int | 0 <= x < 256

  /** The key of a PHP array element. */
  datatype ArrayKey = IntKey(n: int) | StrKey(k: string)

  /**
   * A PHP value. A float is carried by the text PHP's string cast gives it
   * (no float arithmetic is modelled); an object is known by its class name and
   * by whether it implements `Stringable` (has `__toString`).
   */
  datatype Value =
    | Null
    | Bool(b: bool)
    | Int(i: int)
    | Float(text: string)
    | Str(s: string)
    | Arr(items: seq<(ArrayKey, Value)>)
    | Object(className: string, stringable: bool)
    | Resource(resourceType: string)

  /** PHP's `is_scalar`: bool, int, float or string (null is not scalar). */
  predicate IsScalar(v: Value) {
    v.Bool? || v.Int? || v.Float? || v.Str?
  }

  /** PHP's `(string)` cast of a scalar. */
  function StringCast(v: Value): string
    requires IsScalar(v)
  {
    match v
    case Bool(b) => if b then "1" else ""
    case Int(i) => IntToString(i)
    case Float(t) => t
    case Str(s) => s
  }

  /** PHP's `get_debug_type`. */
  function DebugType(v: Value): string {
    match v
    case Null => "null"
    case Bool(_) => "bool"
    case Int(_) => "int"
    case Float(_) => "float"
    case Str(_) => "string"
    case Arr(_) => "array"
    case Object(c, _) => c
    case Resource(t) => "resource (" + t + ")"
  }

  /** PHP's `empty()` of a value that exists. */
  predicate IsEmpty(v: Value) {
    match v
    case Null => true
    case Bool(b) => !b
    case Int(i) => i == 0
    case Float(t) => t == "0" || t == "-0"
    case Str(s) => s == "" || s == "0"
    case Arr(items) => items == []
    case Object(_, _) => false
    case Resource(_) => false
  }

  /** The truth value PHP gives a string in a condition. */
  predicate StringIsTruthy(s: string) {
    s != "" && s != "0"
  }

  // ---------------------------------------------------------------------------
  // Decimal integers
  // ---------------------------------------------------------------------------

  predicate IsDigit(c: char) {
    '0' <= c <= '9'
  }

  function DigitChar(d: nat): (c: char)
    requires d < 10
    ensures IsDigit(c)
  {
    (48 + d) as char
  }

  function DigitValue(c: char): (d: nat)
    requires IsDigit(c)
    ensures d < 10
  {
    c as int - 48
  }

  /** Decimal digits of a natural number, most significant first, no leading zero. */
  function NatToString(n: nat): (r: string)
    ensures |r| > 0
    ensures forall i :: 0 <= i < |r| ==> IsDigit(r[i])
    decreases n
  {
    if n < 10 then [DigitChar(n)] else NatToString(n / 10) + [DigitChar(n % 10)]
  }

  /** The string PHP produces for an int: an optional minus sign, then the digits. */
  function IntToString(i: int): (r: string)
    ensures |r| > 0
    ensures forall k :: 0 <= k < |r| ==> IsDigit(r[k]) || (k == 0 && r[k] == '-')
  {
    if i < 0 then "-" + NatToString(-i) else NatToString(i)
  }

  predicate AllDigits(s: string) {
    forall i :: 0 <= i < |s| ==> IsDigit(s[i])
  }

  /** The value of a run of decimal digits. */
  function ParseDigits(s: string): nat
    requires AllDigits(s)
    decreases |s|
  {
    if s == [] then 0 else ParseDigits(s[..|s| - 1]) * 10 + DigitValue(s[|s| - 1])
  }

  /** Reads back an integer written by `IntToString`; None for any other text. */
  function ParseInt(s: string): Option<int> {
    if |s| > 1 && s[0] == '-' && AllDigits(s[1..]) then Some(-(ParseDigits(s[1..]) as int))
    else if |s| > 0 && AllDigits(s) then Some(ParseDigits(s))
    else None
  }

  lemma {:induction false} ParseDigitsOfNatToString(n: nat)
    ensures ParseDigits(NatToString(n)) == n
    decreases n
  {
    var s := NatToString(n);
    if n >= 10 {
      ParseDigitsOfNatToString(n / 10);
      assert s[..|s| - 1] == NatToString(n / 10);
    }
  }

  /** Rendering an int and reading it back gives the same int. */
  lemma IntToStringRoundTrip(i: int)
    ensures ParseInt(IntToString(i)) == Some(i)
  {
    var s := IntToString(i);
    if i < 0 {
      ParseDigitsOfNatToString(-i);
      assert s[1..] == NatToString(-i);
    } else {
      ParseDigitsOfNatToString(i);
      assert s[0] != '-';
    }
  }

  // ---------------------------------------------------------------------------
  // ASCII string functions
  // ---------------------------------------------------------------------------

  predicate IsAsciiUpper(c: char) {
    'A' <= c <= 'Z'
  }

  predicate IsAsciiLower(c: char) {
    'a' <= c <= 'z'
  }

  function ToLowerChar(c: char): char {
    if IsAsciiUpper(c) then (c as int + 32) as char else c
  }

  function ToUpperChar(c: char): char {
    if IsAsciiLower(c) then (c as int - 32) as char else c
  }

  /** `strtolower`: ASCII letters only, every other character unchanged. */
  function ToLower(s: string): (r: string)
    ensures |r| == |s|
  {
    seq(|s|, i requires 0 <= i < |s| => ToLowerChar(s[i]))
  }

  /** `strtoupper`: ASCII letters only, every other character unchanged. */
  function ToUpper(s: string): (r: string)
    ensures |r| == |s|
  {
    seq(|s|, i requires 0 <= i < |s| => ToUpperChar(s[i]))
  }

  /** `str_replace` of one character by another. */
  function ReplaceChar(s: string, from: char, to: char): (r: string)
    ensures |r| == |s|
  {
    seq(|s|, i requires 0 <= i < |s| => if s[i] == from then to else s[i])
  }

  /** `str_starts_with`. */
  predicate StartsWith(s: string, prefix: string) {
    |prefix| <= |s| && s[..|prefix|] == prefix
  }

  /** The characters `trim` removes by default. */
  predicate IsTrimmed(c: char) {
    c == ' ' || c == '\t' || c == '\n' || c == '\r' || c == '\0' || c == '\U{B}'
  }

  function TrimLeft(s: string): (r: string)
    ensures |r| <= |s| && r == s[|s| - |r|..]
    ensures r == [] || !IsTrimmed(r[0])
    decreases |s|
  {
    if s != [] && IsTrimmed(s[0]) then TrimLeft(s[1..]) else s
  }

  function TrimRight(s: string): (r: string)
    ensures |r| <= |s| && r == s[..|r|]
    ensures r == [] || !IsTrimmed(r[|r| - 1])
    decreases |s|
  {
    if s != [] && IsTrimmed(s[|s| - 1]) then TrimRight(s[..|s| - 1]) else s
  }

  /** `trim` with its default character list. */
  function Trim(s: string): string {
    TrimRight(TrimLeft(s))
  }

  /** Trimming only removes characters: whatever the result holds, the input held. */
  lemma TrimKeepsChars(s: string, c: char)
    ensures c in Trim(s) ==> c in s
  {
    var l := TrimLeft(s);
    var r := TrimRight(l);
    if c in r {
      var i :| 0 <= i < |r| && r[i] == c;
      assert r[i] == l[i];
      assert l[i] == s[|s| - |l| + i];
    }
  }

  /** `rtrim($s, $c)` for a single character. */
  function RTrimChar(s: string, c: char): (r: string)
    ensures |r| <= |s| && r == s[..|r|]
    ensures r == [] || r[|r| - 1] != c
    ensures forall i :: |r| <= i < |s| ==> s[i] == c
    decreases |s|
  {
    if s != [] && s[|s| - 1] == c then RTrimChar(s[..|s| - 1], c) else s
  }

  /** The part of `s` after the last `c`, or all of `s` when there is none. */
  function AfterLast(s: string, c: char): (r: string)
    ensures c !in r
    ensures |r| <= |s| && r == s[|s| - |r|..]
    ensures |r| < |s| ==> s[|s| - |r| - 1] == c
    decreases |s|
  {
    if s == [] then []
    else if s[|s| - 1] == c then []
    else
      var t := AfterLast(s[..|s| - 1], c);
      AfterLastStep(s, c, t);
      t + [s[|s| - 1]]
  }

  /** One more character that is not `c` extends the part after the last `c`. */
  lemma AfterLastStep(s: string, c: char, t: string)
    requires s != [] && s[|s| - 1] != c
    requires c !in t
    requires |t| <= |s| - 1 && t == s[..|s| - 1][|s| - 1 - |t|..]
    requires |t| < |s| - 1 ==> s[..|s| - 1][|s| - 1 - |t| - 1] == c
    ensures var r := t + [s[|s| - 1]];
            && c !in r
            && |r| <= |s| && r == s[|s| - |r|..]
            && (|r| < |s| ==> s[|s| - |r| - 1] == c)
  {
    var r := t + [s[|s| - 1]];
    assert s[|s| - |r|..] == s[..|s| - 1][|s| - 1 - |t|..] + [s[|s| - 1]];
  }

  /** The part of `s` before the first `c`: element 0 of `explode($c, $s)`. */
  function BeforeFirst(s: string, c: char): (r: string)
    ensures c !in r
    ensures |r| <= |s| && r == s[..|r|]
    ensures |r| < |s| ==> s[|r|] == c
    decreases |s|
  {
    if s == [] then [] else if s[0] == c then [] else [s[0]] + BeforeFirst(s[1..], c)
  }

  /** `basename` on a '/'-separated path: trailing slashes dropped, then the last component. */
  function Basename(path: string): (r: string)
    ensures '/' !in r
  {
    AfterLast(RTrimChar(path, '/'), '/')
  }

  /** `pathinfo($path, PATHINFO_EXTENSION)`: what follows the last '.' of the basename, or "". */
  function Extension(path: string): (r: string)
    ensures '.' !in r && '/' !in r
  {
    var base := Basename(path);
    if '.' in base then AfterLast(base, '.') else ""
  }
}
