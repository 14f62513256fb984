/**
 * The validated view used for the query string and the request body: a
 * parameter bag whose `set` and `get` accept only null, a scalar, an array
 * (its elements are not inspected) or a `Stringable` object, and raise a
 * `BadRequestException` for anything else. The constructor is inherited from
 * the bag and stores its array without checking it.
 */
module Methods {
  import opened Wrappers
  import opened Php
  import opened Failures
  import P = Parameters

  const SetMethodName := "Cook\\Component\\Http\\Method::set"
  const GetMethodName := "Cook\\Component\\Http\\Method::get"

  /** The values the view lets through. */
  predicate Acceptable(v: Value) {
    v.Null? || IsScalar(v) || v.Arr? || (v.Object? && v.stringable)
  }

  /**
   * The message of the raised exception: it names the key when one is given
   * and PHP finds it truthy, otherwise the calling method and the value's type.
   */
  function RejectionMessage(v: Value, methodName: string, key: string): string {
    if StringIsTruthy(key) then
      "The value for the key \"" + key + "\" is not scalar or Stringable."
    else
      "The value passed to \"" + methodName + "\" must be scalar, array, or Stringable. Received type: \""
      + DebugType(v) + "\"."
  }

  /** `validateValue`: None when the value passes, the exception otherwise. */
  function Validate(v: Value, methodName: string, key: string): (r: Option<Failure>)
    ensures r.None? <==> Acceptable(v)
    ensures r.Some? ==> r.value.family == BadRequest && r.value.className == BadRequestClass
    ensures r.Some? ==> r.value.message == RejectionMessage(v, methodName, key)
  {
    if !v.Null? && !IsScalar(v) && !v.Arr? && !(v.Object? && v.stringable) then
      Some(BadRequestException(RejectionMessage(v, methodName, key)))
    else
      None
  }

  /** `set`: validate first; an invalid value leaves the bag as it was. */
  function Set(b: P.Bag<Value>, k: string, v: Value): (r: Outcome<P.Bag<Value>>)
    requires P.Valid(b)
    ensures r.Ok? <==> Acceptable(v)
    ensures r.Ok? ==> P.Valid(r.value) && P.ToMap(r.value) == P.ToMap(b)[k := v]
    ensures r.Ok? ==> P.KeysOf(r.value.entries)
                      == if k in P.ToMap(b) then P.KeysOf(b.entries) else P.KeysOf(b.entries) + [k]
    ensures r.Err? ==> r.error == BadRequestException(RejectionMessage(v, SetMethodName, ""))
  {
    match Validate(v, SetMethodName, "")
    case Some(f) => Err(f)
    case None => Ok(P.Set(b, k, v))
  }

  /**
   * `get`: the default is validated before the lookup (so an invalid default
   * raises even when the key is present), then the value found is validated.
   */
  function Get(b: P.Bag<Value>, k: string, default: Value): (r: Outcome<Value>)
    ensures !Acceptable(default) ==> r == Err(BadRequestException(RejectionMessage(default, GetMethodName, "")))
    ensures Acceptable(default) && k !in P.ToMap(b) ==> r == Ok(default)
    ensures Acceptable(default) && k in P.ToMap(b) ==>
              r == if Acceptable(P.ToMap(b)[k]) then Ok(P.ToMap(b)[k])
                   else Err(BadRequestException(RejectionMessage(P.ToMap(b)[k], GetMethodName, k)))
  {
    match Validate(default, GetMethodName, "")
    case Some(f) => Err(f)
    case None =>
      var value := P.Get(b, k, default);
      match Validate(value, GetMethodName, k)
      case Some(f) => Err(f)
      case None => Ok(value)
  }

  // ---------------------------------------------------------------------------
  // Properties
  // ---------------------------------------------------------------------------

  /** A value accepted by `set` is read back unchanged by `get`, whatever valid default is given. */
  lemma SetThenGet(b: P.Bag<Value>, k: string, v: Value, default: Value)
    requires P.Valid(b)
    requires Acceptable(v) && Acceptable(default)
    ensures Set(b, k, v).Ok?
    ensures Get(Set(b, k, v).value, k, default) == Ok(v)
  {
  }

  /** `set` of a rejected value raises and stores nothing. */
  lemma RejectedSetStoresNothing(b: P.Bag<Value>, k: string, v: Value)
    requires P.Valid(b)
    requires !Acceptable(v)
    ensures Set(b, k, v).Err? && Set(b, k, v).error.family == BadRequest
  {
  }

  /** Arrays pass whatever they hold: an array holding a plain object is accepted. */
  lemma ArrayElementsNotInspected(b: P.Bag<Value>, k: string)
    requires P.Valid(b)
    ensures Set(b, k, Arr([(IntKey(0), Object("stdClass", false))])).Ok?
  {
  }

  /**
   * An invalid value can enter through the unvalidated constructor; it is
   * rejected only when read, with the message naming its key.
   */
  lemma ConstructorBypassCaughtByGet(k: string)
    requires StringIsTruthy(k)
    ensures Get(P.New([(k, Object("stdClass", false))]), k, Null)
         == Err(BadRequestException("The value for the key \"" + k + "\" is not scalar or Stringable."))
  {
    P.ConstructThenAll([(k, Object("stdClass", false))], 0, Null);
  }

  /** An invalid default raises even when the key holds a valid value. */
  lemma InvalidDefaultRaisesEvenWhenPresent(b: P.Bag<Value>, k: string, default: Value)
    requires k in P.ToMap(b) && Acceptable(P.ToMap(b)[k])
    requires !Acceptable(default)
    ensures Get(b, k, default) == Err(BadRequestException(RejectionMessage(default, GetMethodName, "")))
  {
  }
}
