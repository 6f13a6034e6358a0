/** Responses from the core and their accessors (src/response.rs). */
module Responses {
  import opened Wrappers
  import opened JsonValues

  /** A response holds the decoded JSON as it arrived. */
  datatype Response = Response(data: Json)

  datatype InvalidJsonError = InvalidJsonError

  /** The value of property `prop`, if the data is an object that has it. */
  function Get(r: Response, prop: string): Option<Json> {
    match r.data
    case Object(obj) => if prop in obj then Some(obj[prop]) else None
    case _ => None
  }

  /** The value of `prop`, or `default` when there is none. */
  function GetOr(r: Response, prop: string, default: Json): (v: Json)
    ensures Get(r, prop).None? ==> v == default
    ensures Get(r, prop).Some? ==> v == Get(r, prop).value
  {
    match Get(r, prop)
    case Some(val) => val
    case None => default
  }

  /** The string value of `prop`, if it exists and is a string. */
  function GetStr(r: Response, prop: string): Option<string> {
    match Get(r, prop)
    case Some(Str(s)) => Some(s)
    case _ => None
  }

  /** The string value of `prop`, or `default` when there is none. */
  function GetStrOr(r: Response, prop: string, default: string): (v: string)
    ensures GetStr(r, prop).None? ==> v == default
    ensures GetStr(r, prop).Some? ==> v == GetStr(r, prop).value
  {
    match GetStr(r, prop)
    case Some(s) => s
    case None => default
  }

  /** Whether `prop` holds a string (a property of another type reports false). */
  predicate Has(r: Response, prop: string) {
    match GetStr(r, prop)
    case Some(_) => true
    case None => false
  }

  /** Whether `success` is the JSON boolean `true`. */
  predicate HasSuccess(r: Response) {
    match Get(r, "success")
    case Some(Boolean(true)) => true
    case _ => false
  }

  /** A locally made failure: `success` is false and `reason` is the message. */
  function ForFail(msg: string): (r: Response)
    ensures !HasSuccess(r)
    ensures GetStr(r, "reason") == Some(msg)
    ensures Get(r, "success") == Some(Boolean(false))
  {
    Response(Object(map["success" := Boolean(false), "reason" := Str(msg)]))
  }

  /** A locally made success. */
  function ForSuccess(): (r: Response)
    ensures HasSuccess(r)
    ensures !Has(r, "reason")
  {
    Response(Object(map["success" := Boolean(true)]))
  }

  /** Building a response from JSON never fails and keeps the data as it is. */
  function FromJson(data: Json): (r: Result<Response, InvalidJsonError>)
    ensures r.Success? && r.value.data == data
  {
    Success(Response(data))
  }

  /** Data that is not an object has no properties at all. */
  lemma GetOnNonObject(r: Response, prop: string)
    requires !r.data.Object?
    ensures Get(r, prop).None? && GetStr(r, prop).None? && !Has(r, prop) && !HasSuccess(r)
  {
  }

  /** `GetStr` is `Some(s)` exactly when `prop` exists and holds the string `s`. */
  lemma GetStrIff(r: Response, prop: string, s: string)
    ensures GetStr(r, prop) == Some(s) <==> Get(r, prop) == Some(Str(s))
  {
  }

  /** `Has` agrees with `GetStr`: numbers, booleans, arrays, objects and null report false. */
  lemma HasIffString(r: Response, prop: string)
    ensures Has(r, prop) <==> GetStr(r, prop).Some?
    ensures Has(r, prop) <==> Get(r, prop).Some? && Get(r, prop).value.Str?
  {
  }

  /** `HasSuccess` holds exactly when `success` is the boolean `true`. */
  lemma HasSuccessIff(r: Response)
    ensures HasSuccess(r) <==> r.data.Object? && "success" in r.data.obj && r.data.obj["success"] == Boolean(true)
  {
  }

  /** A response answers every lookup as the data it was built from does. */
  lemma FromJsonKeepsProperties(data: Json, prop: string)
    ensures FromJson(data).Success?
    ensures Get(FromJson(data).value, prop) == if data.Object? && prop in data.obj then Some(data.obj[prop]) else None
    ensures HasSuccess(FromJson(data).value) <==>
              data.Object? && "success" in data.obj && data.obj["success"] == Boolean(true)
  {
  }

  /**
    `GetOr` on the data: the property's value when the data is an object that
    has it, `default` otherwise; on locally made responses it gives back the
    reason that was put in, or the default.
   */
  lemma GetOrOnData(r: Response, prop: string, default: Json, msg: string)
    ensures r.data.Object? && prop in r.data.obj ==> GetOr(r, prop, default) == r.data.obj[prop]
    ensures !(r.data.Object? && prop in r.data.obj) ==> GetOr(r, prop, default) == default
    ensures GetOr(ForFail(msg), "reason", default) == Str(msg)
    ensures GetOr(ForSuccess(), "reason", default) == default
  {
  }

  /**
    `GetStrOr` agrees with `Has`: when `Has` holds, the result is the string
    stored under `prop`; otherwise it is the default.
   */
  lemma GetStrOrHas(r: Response, prop: string, default: string, msg: string)
    ensures Has(r, prop) ==> Get(r, prop) == Some(Str(GetStrOr(r, prop, default)))
    ensures !Has(r, prop) ==> GetStrOr(r, prop, default) == default
    ensures GetStrOr(ForFail(msg), "reason", default) == msg
    ensures GetStrOr(ForSuccess(), "reason", default) == default
  {
  }
}
