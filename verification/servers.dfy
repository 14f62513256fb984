/**
 * The server view: the request's server and execution environment. Its `set`
 * accepts only strings, arrays and null; its getters read well-known keys with
 * a fallback; `getClientIp` believes the first `X-Forwarded-For` address only
 * when the direct peer is a trusted proxy; `getHeaders` turns every `HTTP_*`
 * key into a header name on top of two default headers.
 *
 * `getHeader` reads the process-wide server array rather than the view's own
 * bag, so that array is its explicit `env` argument. Whether a text is an IP
 * address (`filter_var(..., FILTER_VALIDATE_IP)` being truthy) is the `validIp`
 * argument.
 */
module Servers {
  import opened Wrappers
  import opened Php
  import opened Failures
  import P = Parameters

  type Server = P.Bag<Value>

  const MethodGet := "GET"
  const DefaultUri := "/"
  const TrustedProxies := ["192.168.1.1"]

  /** A value may be stored by `set`/`headers` only when it is a string, an array or null. */
  predicate Storable(v: Value) {
    v.Str? || v.Arr? || v.Null?
  }

  /** `set` (through `headers`): a typed parameter rejects anything else with a `TypeError`. */
  function Set(s: Server, k: string, v: Value): (r: Outcome<Server>)
    requires P.Valid(s)
    ensures r.Ok? <==> Storable(v)
    ensures r.Ok? ==> P.Valid(r.value) && P.ToMap(r.value) == P.ToMap(s)[k := v]
    ensures r.Ok? ==> P.KeysOf(r.value.entries)
                      == if k in P.ToMap(s) then P.KeysOf(s.entries) else P.KeysOf(s.entries) + [k]
    ensures r.Err? ==> r.error.className == TypeErrorClass
  {
    if Storable(v) then Ok(P.Set(s, k, v))
    else Err(TypeError("Cook\\Component\\Http\\Server::headers(): Argument #2 ($value) must be of type array|string|null"))
  }

  /** A value returned through a `string` return type: anything but a string is a `TypeError`. */
  function ReturnString(v: Value): (r: Outcome<string>)
    ensures r.Ok? <==> v.Str?
    ensures r.Ok? ==> r.value == v.s
    ensures r.Err? ==> r.error.className == TypeErrorClass
  {
    if v.Str? then Ok(v.s) else Err(TypeError("Return value must be of type string, " + DebugType(v) + " returned"))
  }

  /** A value returned through a `?string` return type. */
  function ReturnNullable(v: Value): (r: Outcome<Option<string>>)
    ensures r == Ok(None) <==> v.Null?
    ensures r.Ok? <==> v.Null? || v.Str?
    ensures v.Str? ==> r == Ok(Some(v.s))
    ensures r.Err? ==> r.error.className == TypeErrorClass
  {
    if v.Null? then Ok(None)
    else if v.Str? then Ok(Some(v.s))
    else Err(TypeError("Return value must be of type ?string, " + DebugType(v) + " returned"))
  }

  /** What a key reads as: its stored value, or null when it is absent (the bag's default). */
  function Entry(s: Server, k: string): (v: Value)
    ensures k !in P.ToMap(s) ==> v == Null
    ensures k in P.ToMap(s) ==> v == P.ToMap(s)[k]
  {
    P.Get(s, k, Null)
  }

  /** `get($key) ?? $fallback` returned as a string. */
  function StringOr(s: Server, k: string, fallback: string): (r: Outcome<string>)
    ensures Entry(s, k).Null? ==> r == Ok(fallback)
    ensures Entry(s, k).Str? ==> r == Ok(Entry(s, k).s)
    ensures !Entry(s, k).Null? && !Entry(s, k).Str? ==> r.Err? && r.error.className == TypeErrorClass
  {
    var v := Entry(s, k);
    if v.Null? then Ok(fallback) else ReturnString(v)
  }

  /** `getRequestMethod`: the stored method, "GET" when absent or null. */
  function RequestMethod(s: Server): (r: Outcome<string>)
    ensures Entry(s, "REQUEST_METHOD").Null? ==> r == Ok("GET")
    ensures Entry(s, "REQUEST_METHOD").Str? ==> r == Ok(Entry(s, "REQUEST_METHOD").s)
    ensures r.Err? <==> !Entry(s, "REQUEST_METHOD").Null? && !Entry(s, "REQUEST_METHOD").Str?
  {
    StringOr(s, "REQUEST_METHOD", MethodGet)
  }

  /** `getRequestUri`: the stored URI, "/" when absent or null. */
  function RequestUri(s: Server): (r: Outcome<string>)
    ensures Entry(s, "REQUEST_URI").Null? ==> r == Ok("/")
    ensures Entry(s, "REQUEST_URI").Str? ==> r == Ok(Entry(s, "REQUEST_URI").s)
    ensures r.Err? <==> !Entry(s, "REQUEST_URI").Null? && !Entry(s, "REQUEST_URI").Str?
  {
    StringOr(s, "REQUEST_URI", DefaultUri)
  }

  /** A getter that returns the entry under `k` through a `?string` return type. */
  function NullableEntry(s: Server, k: string): (r: Outcome<Option<string>>)
    ensures r == Ok(None) <==> (k !in P.ToMap(s) || P.ToMap(s)[k] == Null)
    ensures k in P.ToMap(s) && P.ToMap(s)[k].Str? ==> r == Ok(Some(P.ToMap(s)[k].s))
    ensures r.Err? <==> k in P.ToMap(s) && !P.ToMap(s)[k].Null? && !P.ToMap(s)[k].Str?
  {
    ReturnNullable(Entry(s, k))
  }

  /** `getHost`: the `HTTP_HOST` entry, null when it is absent or null. */
  function Host(s: Server): (r: Outcome<Option<string>>)
    ensures r == Ok(None) <==> Entry(s, "HTTP_HOST").Null?
    ensures Entry(s, "HTTP_HOST").Str? ==> r == Ok(Some(Entry(s, "HTTP_HOST").s))
    ensures r.Err? ==> r.error.className == TypeErrorClass
  {
    NullableEntry(s, "HTTP_HOST")
  }

  /** `getServerPort`: the `SERVER_PORT` entry, null when it is absent or null. */
  function ServerPort(s: Server): (r: Outcome<Option<string>>)
    ensures r == Ok(None) <==> Entry(s, "SERVER_PORT").Null?
    ensures Entry(s, "SERVER_PORT").Str? ==> r == Ok(Some(Entry(s, "SERVER_PORT").s))
    ensures r.Err? ==> r.error.className == TypeErrorClass
  {
    NullableEntry(s, "SERVER_PORT")
  }

  /** `getUserAgent`: the `HTTP_USER_AGENT` entry, null when it is absent or null. */
  function UserAgent(s: Server): (r: Outcome<Option<string>>)
    ensures r == Ok(None) <==> Entry(s, "HTTP_USER_AGENT").Null?
    ensures Entry(s, "HTTP_USER_AGENT").Str? ==> r == Ok(Some(Entry(s, "HTTP_USER_AGENT").s))
    ensures r.Err? ==> r.error.className == TypeErrorClass
  {
    NullableEntry(s, "HTTP_USER_AGENT")
  }

  /** `getReferer`: the `HTTP_REFERER` entry, null when it is absent or null. */
  function Referer(s: Server): (r: Outcome<Option<string>>)
    ensures r == Ok(None) <==> Entry(s, "HTTP_REFERER").Null?
    ensures Entry(s, "HTTP_REFERER").Str? ==> r == Ok(Some(Entry(s, "HTTP_REFERER").s))
    ensures r.Err? ==> r.error.className == TypeErrorClass
  {
    NullableEntry(s, "HTTP_REFERER")
  }

  /** `getScriptName`: the `SCRIPT_NAME` entry, null when it is absent or null. */
  function ScriptName(s: Server): (r: Outcome<Option<string>>)
    ensures r == Ok(None) <==> Entry(s, "SCRIPT_NAME").Null?
    ensures Entry(s, "SCRIPT_NAME").Str? ==> r == Ok(Some(Entry(s, "SCRIPT_NAME").s))
    ensures r.Err? ==> r.error.className == TypeErrorClass
  {
    NullableEntry(s, "SCRIPT_NAME")
  }

  /** `getServerAddress`: the `SERVER_ADDR` entry, null when it is absent or null. */
  function ServerAddress(s: Server): (r: Outcome<Option<string>>)
    ensures r == Ok(None) <==> Entry(s, "SERVER_ADDR").Null?
    ensures Entry(s, "SERVER_ADDR").Str? ==> r == Ok(Some(Entry(s, "SERVER_ADDR").s))
    ensures r.Err? ==> r.error.className == TypeErrorClass
  {
    NullableEntry(s, "SERVER_ADDR")
  }

  /** The address the first element of `X-Forwarded-For` names, surrounding blanks removed. */
  function FirstForwarded(xff: string): (ip: string)
    ensures ',' !in ip
  {
    var first := BeforeFirst(xff, ',');
    TrimKeepsChars(first, ',');
    Trim(first)
  }

  /**
   * `getClientIp`: when the direct peer (`REMOTE_ADDR`) is a trusted proxy and
   * the first forwarded address is valid, that address; otherwise the peer's
   * own address (or null). The forwarded list must then be a string: `explode`
   * takes no null or array under strict types.
   */
  function ClientIp(s: Server, validIp: string -> bool): (r: Outcome<Option<string>>)
    ensures Entry(s, "REMOTE_ADDR") !in TrustedTokens() ==> r == ReturnNullable(Entry(s, "REMOTE_ADDR"))
    ensures Entry(s, "REMOTE_ADDR") in TrustedTokens() ==>
              if !Entry(s, "HTTP_X_FORWARDED_FOR").Str? then r.Err? && r.error.className == TypeErrorClass
              else
                var ip := FirstForwarded(Entry(s, "HTTP_X_FORWARDED_FOR").s);
                r == Ok(Some(if validIp(ip) then ip else Entry(s, "REMOTE_ADDR").s))
  {
    var remote := Entry(s, "REMOTE_ADDR");
    if remote in TrustedTokens() then
      var xff := Entry(s, "HTTP_X_FORWARDED_FOR");
      if !xff.Str? then
        Err(TypeError("explode(): Argument #2 ($string) must be of type string, " + DebugType(xff) + " given"))
      else
        var ip := FirstForwarded(xff.s);
        if validIp(ip) then Ok(Some(ip)) else ReturnNullable(remote)
    else
      ReturnNullable(remote)
  }

  /**
   * `getClientIp` as evidently intended: a request from the trusted proxy that
   * carries no forwarded list (or one that is not a string) is answered with
   * the peer's own address instead of failing inside `explode`.
   */
  function ClientIpIntended(s: Server, validIp: string -> bool): (r: Outcome<Option<string>>)
    ensures Entry(s, "HTTP_X_FORWARDED_FOR").Str? ==> r == ClientIp(s, validIp)
    ensures !Entry(s, "HTTP_X_FORWARDED_FOR").Str? ==> r == ReturnNullable(Entry(s, "REMOTE_ADDR"))
  {
    var remote := Entry(s, "REMOTE_ADDR");
    var xff := Entry(s, "HTTP_X_FORWARDED_FOR");
    if remote in TrustedTokens() && xff.Str? then
      var ip := FirstForwarded(xff.s);
      if validIp(ip) then Ok(Some(ip)) else ReturnNullable(remote)
    else
      ReturnNullable(remote)
  }

  /** The trusted proxies as PHP values: `in_array(..., true)` compares type and content. */
  function TrustedTokens(): (ts: seq<Value>)
    ensures forall v :: v in ts <==> v.Str? && v.s in TrustedProxies
  {
    [Str(TrustedProxies[0])]
  }

  /** `getProtocol`: "https" when `HTTPS` is non-empty and not exactly the string "off". */
  function Protocol(s: Server): (r: string)
    ensures r == "https" || r == "http"
  {
    var https := Entry(s, "HTTPS");
    if !IsEmpty(https) && https != Str("off") then "https" else "http"
  }

  // ---------------------------------------------------------------------------
  // Header names
  // ---------------------------------------------------------------------------

  /** The characters `ucwords` treats as word separators by default. */
  predicate IsWordDelimiter(c: char) {
    c == ' ' || c == '\t' || c == '\r' || c == '\n' || c == '\U{C}' || c == '\U{B}'
  }

  /** `ucwords`: upper-case the first character and every character after a delimiter. */
  function Ucwords(s: string): (r: string)
    ensures |r| == |s|
  {
    seq(|s|, i requires 0 <= i < |s| => if i == 0 || IsWordDelimiter(s[i - 1]) then ToUpperChar(s[i]) else s[i])
  }

  /** The header name `getHeaders` derives from the part of a key after `HTTP_`. */
  function HeaderName(suffix: string): (name: string)
    ensures |name| == |suffix|
  {
    ReplaceChar(Ucwords(ToLower(ReplaceChar(suffix, '_', ' '))), ' ', '-')
  }

  const HttpPrefix := "HTTP_"

  /** The key `getHeader` looks up for a header name. */
  function HeaderKey(name: string): (k: string)
    ensures StartsWith(k, HttpPrefix)
    ensures |k| == |name| + 5
  {
    HttpPrefix + ToUpper(ReplaceChar(name, '-', '_'))
  }

  /** `getDefaultHeaders`. */
  function DefaultHeaders(): (h: P.Bag<Value>)
    ensures P.Valid(h) && P.Count(h) == 2
    ensures P.ToMap(h) == map["Content-Type" := Str("text/html"),
                              "Cache-Control" := Str("no-cache, no-store, must-revalidate")]
  {
    P.Bag([("Content-Type", Str("text/html")), ("Cache-Control", Str("no-cache, no-store, must-revalidate"))])
  }

  /** The header an entry contributes, when its key starts with `HTTP_`. */
  predicate IsHeaderEntry(e: (string, Value)) {
    StartsWith(e.0, HttpPrefix)
  }

  /** The `foreach` of `getHeaders`: each `HTTP_*` entry, in order, is written under its header name. */
  function Overlay(acc: P.Bag<Value>, es: seq<(string, Value)>): (r: P.Bag<Value>)
    requires P.Valid(acc)
    ensures P.Valid(r)
    decreases |es|
  {
    if es == [] then acc
    else if IsHeaderEntry(es[0]) then Overlay(P.Set(acc, HeaderName(es[0].0[5..]), es[0].1), es[1..])
    else Overlay(acc, es[1..])
  }

  /** `getHeaders`. */
  function Headers(s: Server): (h: P.Bag<Value>)
    ensures P.Valid(h)
    ensures "Content-Type" in P.ToMap(h) && "Cache-Control" in P.ToMap(h)
  {
    OverlayMeaning(DefaultHeaders(), s.entries, "Content-Type");
    OverlayMeaning(DefaultHeaders(), s.entries, "Cache-Control");
    Overlay(DefaultHeaders(), s.entries)
  }

  /** `getHeader`: `$env[HeaderKey($name)] ?? null`, returned as `?string`. */
  function Header(env: P.Bag<Value>, name: string): (r: Outcome<Option<string>>)
    ensures HeaderKey(name) !in P.ToMap(env) ==> r == Ok(None)
    ensures HeaderKey(name) in P.ToMap(env) ==> r == ReturnNullable(P.ToMap(env)[HeaderKey(name)])
  {
    ReturnNullable(P.Get(env, HeaderKey(name), Null))
  }

  // ---------------------------------------------------------------------------
  // Reference meaning of getHeaders
  // ---------------------------------------------------------------------------

  /** The value of the last `HTTP_*` entry whose header name is `n`, if any. */
  function LastFor(es: seq<(string, Value)>, n: string): Option<Value> {
    if es == [] then None
    else match LastFor(es[1..], n)
      case Some(v) => Some(v)
      case None => if IsHeaderEntry(es[0]) && HeaderName(es[0].0[5..]) == n then Some(es[0].1) else None
  }

  /** What the overlay holds under a name: the last matching entry, else what it started with. */
  lemma {:induction false} OverlayMeaning(acc: P.Bag<Value>, es: seq<(string, Value)>, n: string)
    requires P.Valid(acc)
    ensures n in P.ToMap(Overlay(acc, es)) <==> n in P.ToMap(acc) || LastFor(es, n).Some?
    ensures LastFor(es, n).Some? ==> P.ToMap(Overlay(acc, es))[n] == LastFor(es, n).value
    ensures LastFor(es, n).None? && n in P.ToMap(acc) ==> P.ToMap(Overlay(acc, es))[n] == P.ToMap(acc)[n]
    decreases |es|
  {
    if es != [] {
      var rest := LastFor(es[1..], n);
      if IsHeaderEntry(es[0]) {
        var h := HeaderName(es[0].0[5..]);
        var acc' := P.Set(acc, h, es[0].1);
        assert Overlay(acc, es) == Overlay(acc', es[1..]);
        assert P.ToMap(acc') == P.ToMap(acc)[h := es[0].1];
        OverlayMeaning(acc', es[1..], n);
        assert LastFor(es, n) == if rest.Some? then rest else if h == n then Some(es[0].1) else None;
      } else {
        assert Overlay(acc, es) == Overlay(acc, es[1..]);
        OverlayMeaning(acc, es[1..], n);
        assert LastFor(es, n) == rest;
      }
    }
  }

  /** Names `getHeaders` reports are the defaults' and those of `HTTP_*` keys; the last such key wins. */
  lemma HeadersMeaning(s: Server, n: string)
    ensures n in P.ToMap(Headers(s)) <==> n in P.ToMap(DefaultHeaders()) || LastFor(s.entries, n).Some?
    ensures LastFor(s.entries, n).Some? ==> P.ToMap(Headers(s))[n] == LastFor(s.entries, n).value
    ensures (LastFor(s.entries, n).None? && n in P.ToMap(DefaultHeaders()))
              ==> P.ToMap(Headers(s))[n] == P.ToMap(DefaultHeaders())[n]
  {
    OverlayMeaning(DefaultHeaders(), s.entries, n);
  }

  /** With no `HTTP_*` entry the headers are exactly the defaults, in their order. */
  lemma {:induction false} NoHttpEntriesGivesDefaults(acc: P.Bag<Value>, es: seq<(string, Value)>)
    requires P.Valid(acc)
    requires forall i :: 0 <= i < |es| ==> !IsHeaderEntry(es[i])
    ensures Overlay(acc, es) == acc
  {
    if es != [] {
      assert !IsHeaderEntry(es[0]);
      NoHttpEntriesGivesDefaults(acc, es[1..]);
    }
  }

  // ---------------------------------------------------------------------------
  // Properties
  // ---------------------------------------------------------------------------

  /** A stored method or URI is returned as it is; absent or null ones read as "GET" and "/". */
  lemma RequestDefaults(s: Server, m: string, u: string)
    requires P.Valid(s)
    ensures RequestMethod(P.Bag([])) == Ok("GET") && RequestUri(P.Bag([])) == Ok("/")
    ensures RequestMethod(P.Set(s, "REQUEST_METHOD", Str(m))) == Ok(m)
    ensures RequestUri(P.Set(s, "REQUEST_URI", Str(u))) == Ok(u)
    ensures RequestMethod(P.Set(s, "REQUEST_METHOD", Null)) == Ok("GET")
  {
  }

  /**
   * A peer that is not a trusted proxy cannot choose its reported address:
   * whatever `X-Forwarded-For` holds, the result is the peer's own address.
   */
  lemma UntrustedPeerIgnoresForwarded(s: Server, xff: Value, validIp: string -> bool)
    requires P.Valid(s)
    requires Entry(s, "REMOTE_ADDR") != Str("192.168.1.1")
    ensures ClientIp(P.Set(s, "HTTP_X_FORWARDED_FOR", xff), validIp) == ClientIp(s, validIp)
    ensures ClientIp(s, validIp) == ReturnNullable(Entry(s, "REMOTE_ADDR"))
  {
    assert Entry(P.Set(s, "HTTP_X_FORWARDED_FOR", xff), "REMOTE_ADDR") == Entry(s, "REMOTE_ADDR");
  }

  /** Whatever is reported is either a valid forwarded address or the peer's own one. */
  lemma ClientIpIsPeerOrValid(s: Server, validIp: string -> bool)
    ensures var r := ClientIp(s, validIp);
            r.Ok? && r.value.Some? ==> validIp(r.value.value) || Entry(s, "REMOTE_ADDR") == Str(r.value.value)
  {
  }

  /** Behind the trusted proxy, the first listed address is used, blanks trimmed. */
  lemma TrustedProxyForwardsFirst(validIp: string -> bool)
    requires validIp("203.0.113.7")
    ensures ClientIp(P.Bag([("REMOTE_ADDR", Str("192.168.1.1")),
                            ("HTTP_X_FORWARDED_FOR", Str(" 203.0.113.7 , 10.0.0.1"))]), validIp)
         == Ok(Some("203.0.113.7"))
  {
    FirstForwardedExample();
  }

  /**
   * As written, a request from the trusted proxy without `X-Forwarded-For`
   * fails with a `TypeError`; the intended reading answers with the proxy's
   * address.
   */
  lemma TrustedPeerWithoutForwardedList(validIp: string -> bool)
    ensures ClientIp(P.Bag([("REMOTE_ADDR", Str("192.168.1.1"))]), validIp).Err?
    ensures ClientIpIntended(P.Bag([("REMOTE_ADDR", Str("192.168.1.1"))]), validIp) == Ok(Some("192.168.1.1"))
  {
  }

  /**
   * The intended `getClientIp` fails only when the peer address itself cannot
   * be returned as `?string`, and otherwise reports the peer or a valid
   * forwarded address.
   */
  lemma ClientIpIntendedFailsOnlyOnPeer(s: Server, validIp: string -> bool)
    ensures var r := ClientIpIntended(s, validIp);
            && (r.Err? <==> !Entry(s, "REMOTE_ADDR").Null? && !Entry(s, "REMOTE_ADDR").Str?)
            && (r.Ok? && r.value.Some? ==> validIp(r.value.value) || Entry(s, "REMOTE_ADDR") == Str(r.value.value))
  {
  }

  lemma FirstForwardedExample()
    ensures FirstForwarded(" 203.0.113.7 , 10.0.0.1") == "203.0.113.7"
  {
    FirstSegmentExample();
    TrimExample();
  }

  lemma FirstSegmentExample()
    ensures BeforeFirst(" 203.0.113.7 , 10.0.0.1", ',') == " 203.0.113.7 "
  {
    assert " 203.0.113.7 , 10.0.0.1" == " 203.0.113.7 " + ", 10.0.0.1";
    BeforeFirstOfPrefix(" 203.0.113.7 ", ", 10.0.0.1");
  }

  lemma TrimExample()
    ensures Trim(" 203.0.113.7 ") == "203.0.113.7"
  {
    TrimLeftExample();
    TrimRightExample();
  }

  lemma TrimLeftExample()
    ensures TrimLeft(" 203.0.113.7 ") == "203.0.113.7 "
  {
    assert " 203.0.113.7 "[1..] == "203.0.113.7 ";
    assert TrimLeft(" 203.0.113.7 ") == TrimLeft("203.0.113.7 ");
  }

  lemma TrimRightExample()
    ensures TrimRight("203.0.113.7 ") == "203.0.113.7"
  {
    assert "203.0.113.7 "[..11] == "203.0.113.7";
    assert TrimRight("203.0.113.7 ") == TrimRight("203.0.113.7");
  }

  lemma {:induction false} BeforeFirstOfPrefix(a: string, b: string)
    requires ',' !in a && b != [] && b[0] == ','
    ensures BeforeFirst(a + b, ',') == a
  {
    var s := a + b;
    var r := BeforeFirst(s, ',');
    assert s[|a|] == ',';
    assert forall i :: 0 <= i < |a| ==> s[i] == a[i];
    assert |r| == |a|;
    assert r == s[..|a|] == a;
  }

  /** After `HTTPS` is set to v, the protocol is https exactly when v is non-empty and not the string "off". */
  lemma ProtocolFollowsHttps(s: Server, v: Value)
    requires P.Valid(s)
    ensures Protocol(P.Set(s, "HTTPS", v)) == "https" <==> !IsEmpty(v) && v != Str("off")
  {
    assert Entry(P.Set(s, "HTTPS", v), "HTTPS") == v;
  }

  /** A server holding only `HTTPS` = v. */
  function HttpsOnly(v: Value): Server {
    P.Bag([("HTTPS", v)])
  }

  /** "on" and "1" mean https; absent, "", "0" and "off" mean http. */
  lemma ProtocolCases()
    ensures Protocol(P.Bag([])) == "http"
    ensures Protocol(HttpsOnly(Str("on"))) == "https"
    ensures Protocol(HttpsOnly(Str("1"))) == "https"
    ensures Protocol(HttpsOnly(Str("off"))) == "http"
    ensures Protocol(HttpsOnly(Str("0"))) == "http"
    ensures Protocol(HttpsOnly(Str(""))) == "http"
  {
  }

  /** `getHeader` ignores the case of the name it is given. */
  lemma HeaderKeyIgnoresCase(name: string)
    ensures HeaderKey(ToLower(name)) == HeaderKey(name)
    ensures HeaderKey(ToUpper(name)) == HeaderKey(name)
  {
    assert ToUpper(ReplaceChar(ToLower(name), '-', '_')) == ToUpper(ReplaceChar(name, '-', '_'));
    assert ToUpper(ReplaceChar(ToUpper(name), '-', '_')) == ToUpper(ReplaceChar(name, '-', '_'));
  }

  /** A key suffix `getHeaders` and `getHeader` agree on: no lower-case letter, no '-', no space. */
  predicate CanonicalSuffix(t: string) {
    forall i :: 0 <= i < |t| ==> !IsAsciiLower(t[i]) && t[i] != '-' && t[i] != ' '
  }

  /**
   * The name `getHeaders` reports for a key leads `getHeader` back to that key,
   * as long as the key's suffix is in the usual upper-case, underscore form.
   */
  lemma HeaderNameRoundTrip(t: string)
    requires CanonicalSuffix(t)
    ensures HeaderKey(HeaderName(t)) == HttpPrefix + t
  {
    var k := ToUpper(ReplaceChar(HeaderName(t), '-', '_'));
    forall i | 0 <= i < |t| ensures k[i] == t[i] {
      HeaderNameAt(t, i);
    }
    assert k == t;
  }

  /** One character of a canonical suffix survives the trip to a header name and back. */
  lemma HeaderNameAt(t: string, i: nat)
    requires CanonicalSuffix(t) && i < |t|
    ensures ToUpper(ReplaceChar(HeaderName(t), '-', '_'))[i] == t[i]
  {
    var x := t[i];
    var a := ReplaceChar(t, '_', ' ');
    var b := ToLower(a);
    var c := Ucwords(b);
    var n := ReplaceChar(c, ' ', '-');
    var up := i == 0 || IsWordDelimiter(b[i - 1]);
    assert ToUpper(ReplaceChar(n, '-', '_'))[i] == ToUpperChar(if n[i] == '-' then '_' else n[i]);
    assert n[i] == if c[i] == ' ' then '-' else c[i];
    UcwordsAt(b, i);
    assert b[i] == ToLowerChar(a[i]);
    assert a[i] == if x == '_' then ' ' else x by {
      assert !IsAsciiLower(x) && x != '-' && x != ' ';
    }
    CharRoundTrip(x, up);
  }

  lemma UcwordsAt(s: string, i: nat)
    requires i < |s|
    ensures Ucwords(s)[i] == if i == 0 || IsWordDelimiter(s[i - 1]) then ToUpperChar(s[i]) else s[i]
  {
  }

  lemma CharRoundTrip(x: char, up: bool)
    requires !IsAsciiLower(x) && x != '-' && x != ' '
    ensures var a := if x == '_' then ' ' else x;
            var b := ToLowerChar(a);
            var c := if up then ToUpperChar(b) else b;
            var n := if c == ' ' then '-' else c;
            ToUpperChar(if n == '-' then '_' else n) == x
  {
  }

  /** So a header listed by `getHeaders` is found by `getHeader` under its reported name. */
  lemma ReportedNameIsFound(env: P.Bag<Value>, t: string)
    requires CanonicalSuffix(t)
    ensures Header(env, HeaderName(t)) == ReturnNullable(Entry(env, HttpPrefix + t))
  {
    HeaderNameRoundTrip(t);
  }

  /** `CONTENT_TYPE` is reported as `Content-Type`. */
  lemma HeaderNameExample()
    ensures HeaderName("CONTENT_TYPE") == "Content-Type"
  {
    HeaderNameSteps();
    UcwordsExample();
  }

  lemma HeaderNameSteps()
    ensures ReplaceChar("CONTENT_TYPE", '_', ' ') == "CONTENT TYPE"
    ensures ToLower("CONTENT TYPE") == "content type"
    ensures ReplaceChar("Content Type", ' ', '-') == "Content-Type"
  {
  }

  lemma UcwordsExample()
    ensures Ucwords("content type") == "Content Type"
  {
  }

  /** `content-type` is looked up under `HTTP_CONTENT_TYPE`. */
  lemma HeaderKeyExample()
    ensures HeaderKey("content-type") == "HTTP_CONTENT_TYPE"
  {
    assert ReplaceChar("content-type", '-', '_') == "content_type";
    UpperExample();
  }

  lemma UpperExample()
    ensures ToUpper("content_type") == "CONTENT_TYPE"
  {
  }

  /** A header that is not in the environment reads as null. */
  lemma MissingHeaderIsNull(name: string)
    ensures Header(P.Bag([]), name) == Ok(None)
  {
  }
}
