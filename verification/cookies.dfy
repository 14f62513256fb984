/**
 * The cookie jar. `set` accepts only scalar values, percent-encodes their
 * string form, records the cookie's attributes and asks the transport to emit a
 * `Set-Cookie`; `delete` expires a cookie it knows about one hour in the past
 * with the attributes recorded when it was set, and forgets it.
 *
 * The attribute records live in a class-wide (static) array shared by every jar:
 * here it is the `Registry` passed in and returned. The clock is the `now`
 * argument and each `setcookie` call is a `Directive` in the returned list.
 * Neither operation touches the jar's own parameter bag.
 */
module Cookies {
  import opened Wrappers
  import opened Php
  import opened Failures
  import Percent

  datatype CookieRecord = CookieRecord(
    value: string, expires: int, path: string, domain: string,
    secure: bool, httpOnly: bool, sameSite: string)

  /** One `setcookie($name, $value, [...attributes])` call. */
  datatype Directive = SetCookie(
    name: string, value: string, expires: int, path: string, domain: string,
    secure: bool, httpOnly: bool, sameSite: string)

  /** The trailing, defaulted arguments of `set`: lifetime in seconds and the attributes. */
  datatype Options = Options(
    expire: int, path: string, domain: string, secure: bool, httpOnly: bool, sameSite: string)

  /** `expire = 0, path = '/', domain = '', secure = true, httponly = true, samesite = 'Strict'`. */
  const DefaultOptions := Options(0, "/", "", true, true, "Strict")

  /** How long before `now` a deleted cookie is made to expire. */
  const DeletionLag := 3600

  const NotScalarMessage := "Cookie value must be a scalar value."

  type Registry = map<string, CookieRecord>

  /** The directive that transmits a recorded cookie. */
  function DirectiveFor(name: string, r: CookieRecord): Directive {
    SetCookie(name, r.value, r.expires, r.path, r.domain, r.secure, r.httpOnly, r.sameSite)
  }

  /** `set`: raise for a non-scalar value; otherwise record and emit the encoded cookie. */
  function Set(reg: Registry, now: int, name: string, value: Value, opts: Options)
    : (r: Outcome<(Registry, Directive)>)
    ensures r.Err? <==> !IsScalar(value)
    ensures r.Err? ==> r.error == InvalidArgumentException(NotScalarMessage)
    ensures r.Ok? ==>
      var (reg', d) := r.value;
      && name in reg'
      && reg' == reg[name := reg'[name]]
      && reg'[name].value == Percent.RawUrlEncode(StringCast(value))
      && Percent.Decode(reg'[name].value) == Percent.Utf8String(StringCast(value))
      && Percent.WellEncoded(reg'[name].value)
      && reg'[name].expires == now + opts.expire
      && reg'[name].path == opts.path && reg'[name].domain == opts.domain
      && reg'[name].secure == opts.secure && reg'[name].httpOnly == opts.httpOnly
      && reg'[name].sameSite == opts.sameSite
      && d == DirectiveFor(name, reg'[name])
  {
    if !IsScalar(value) then
      Err(InvalidArgumentException(NotScalarMessage))
    else
      var encoded := Percent.RawUrlEncode(StringCast(value));
      Percent.RawUrlRoundTrip(StringCast(value));
      var record := CookieRecord(encoded, now + opts.expire, opts.path, opts.domain,
                                 opts.secure, opts.httpOnly, opts.sameSite);
      Ok((reg[name := record], DirectiveFor(name, record)))
  }

  /** `delete`: a known cookie is expired in the past and forgotten; an unknown name is ignored. */
  function Delete(reg: Registry, now: int, name: string): (r: (Registry, seq<Directive>))
    ensures name !in reg ==> r == (reg, [])
    ensures name in reg ==>
      && r.0 == reg - {name}
      && r.1 == [SetCookie(name, "", now - DeletionLag, reg[name].path, reg[name].domain,
                           reg[name].secure, reg[name].httpOnly, reg[name].sameSite)]
  {
    if name in reg then
      var rec := reg[name];
      (reg - {name}, [SetCookie(name, "", now - DeletionLag, rec.path, rec.domain,
                                rec.secure, rec.httpOnly, rec.sameSite)])
    else
      (reg, [])
  }

  /**
   * The expiry `set` evidently means: a lifetime of 0 asks for a session
   * cookie, which `setcookie` expresses as an expiry of 0; any other lifetime
   * counts from `now`.
   */
  function IntendedExpiry(now: int, expire: int): (e: int)
    ensures expire == 0 ==> e == 0
    ensures expire != 0 ==> e - now == expire
  {
    if expire == 0 then 0 else now + expire
  }

  /** `set` with the intended expiry; everything else as written. */
  function SetIntended(reg: Registry, now: int, name: string, value: Value, opts: Options)
    : (r: Outcome<(Registry, Directive)>)
    ensures r.Err? <==> Set(reg, now, name, value, opts).Err?
    ensures r.Ok? ==>
      var (reg', d) := r.value;
      var (asWritten, _) := Set(reg, now, name, value, opts).value;
      && name in reg'
      && reg'[name] == asWritten[name].(expires := IntendedExpiry(now, opts.expire))
      && reg' == reg[name := reg'[name]]
      && d == DirectiveFor(name, reg'[name])
  {
    match Set(reg, now, name, value, opts)
    case Err(f) => Err(f)
    case Ok((written, _)) =>
      var record := written[name].(expires := IntendedExpiry(now, opts.expire));
      Ok((reg[name := record], DirectiveFor(name, record)))
  }

  // ---------------------------------------------------------------------------
  // Properties
  // ---------------------------------------------------------------------------

  /** Setting a name twice keeps only the second record (last write wins); other names are untouched. */
  lemma SetTwiceLastWins(reg: Registry, t1: int, t2: int, name: string, other: string,
                         v1: Value, v2: Value, o1: Options, o2: Options)
    requires IsScalar(v1) && IsScalar(v2)
    ensures var first := Set(reg, t1, name, v1, o1).value.0;
            var second := Set(first, t2, name, v2, o2).value.0;
            && second[name] == Set(reg, t2, name, v2, o2).value.0[name]
            && (other != name ==> (other in second <==> other in reg))
            && (other != name && other in reg ==> second[other] == reg[other])
  {
  }

  /**
   * Deleting a cookie right after setting it emits an expiry strictly before
   * the deletion time, carrying the path, domain and flags given at set time,
   * and leaves the registry without that name.
   */
  lemma SetThenDelete(reg: Registry, t1: int, t2: int, name: string, value: Value, opts: Options)
    requires IsScalar(value)
    ensures var afterSet := Set(reg, t1, name, value, opts).value.0;
            var (afterDelete, ds) := Delete(afterSet, t2, name);
            && name !in afterDelete
            && |ds| == 1
            && ds[0].expires < t2
            && ds[0].value == ""
            && ds[0].path == opts.path && ds[0].domain == opts.domain
            && ds[0].secure == opts.secure && ds[0].httpOnly == opts.httpOnly
            && ds[0].sameSite == opts.sameSite
  {
  }

  /** The defaults are the secure posture: secure, HTTP-only, SameSite=Strict, path '/'. */
  lemma DefaultsAreSecure(reg: Registry, now: int, name: string, value: Value)
    requires IsScalar(value)
    ensures var rec := Set(reg, now, name, value, DefaultOptions).value.0[name];
            rec.secure && rec.httpOnly && rec.sameSite == "Strict" && rec.path == "/"
            && rec.domain == "" && rec.expires == now
  {
  }

  /**
   * As written, the default lifetime (documented as a session cookie) sends an
   * expiry equal to the current time, so the cookie expires at once; the
   * intended reading sends 0, a session cookie.
   */
  lemma DefaultLifetimeExpiresAtOnce(reg: Registry, now: int, name: string, value: Value)
    requires IsScalar(value)
    ensures Set(reg, now, name, value, DefaultOptions).value.1.expires == now
    ensures SetIntended(reg, now, name, value, DefaultOptions).value.1.expires == 0
  {
  }

  /** The intended `set` still percent-encodes the value and keeps every attribute given. */
  lemma SetIntendedKeepsAttributes(reg: Registry, now: int, name: string, value: Value, opts: Options)
    requires IsScalar(value)
    ensures var rec := SetIntended(reg, now, name, value, opts).value.0[name];
            && Percent.Decode(rec.value) == Percent.Utf8String(StringCast(value))
            && rec.path == opts.path && rec.domain == opts.domain
            && rec.secure == opts.secure && rec.httpOnly == opts.httpOnly && rec.sameSite == opts.sameSite
            && (opts.expire == 0 ==> rec.expires == 0)
            && (opts.expire != 0 ==> rec.expires == now + opts.expire)
  {
  }

  /** A rejected value records nothing: the registry the caller holds is the one it had. */
  lemma NonScalarRejected(reg: Registry, now: int, name: string, opts: Options)
    ensures Set(reg, now, name, Arr([(IntKey(0), Str("array_value"))]), opts).Err?
    ensures Set(reg, now, name, Null, opts).Err?
  {
  }

  /** Integers are cookies too: `set('n', 42)` stores "42". */
  lemma IntegerValueIsItsDigits(reg: Registry, now: int)
    ensures Set(reg, now, "n", Int(42), DefaultOptions).value.0["n"].value == "42"
  {
    assert IntToString(42) == "42";
    Percent.UnreservedUnchanged("42");
  }
}
