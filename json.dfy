/**
 * Decoded JSON, as `json_decode($text, true)` hands it to the SDK: objects
 * become associative arrays, modelled here as maps from keys to values.
 */
module Json {
  import opened Wrappers

  /** One decoded JSON value (numbers are integers only). */
  datatype Json =
    | JNull
    | JBool(b: bool)
    | JNumber(n: int)
    | JString(s: string)
    | JArray(items: seq<Json>)
    | JObject(fields: map<string, Json>)

  /** A decoded JSON object: the type of request variables and of successful replies. */
  type Body = map<string, Json>

  /**
   * An error-response body whose "message" entry, if any, is null or a string.
   * Only such bodies can reach the exception constructors without a PHP TypeError.
   */
  predicate MessageWellTyped(r: Body) {
    "message" in r ==> r["message"].JNull? || r["message"].JString?
  }

  type Response = r: Body | MessageWellTyped(r) witness map[]

  /** `$response['message']` under `??`: null for a null response, a missing key or a null entry. */
  function MessageOf(response: Option<Response>): (m: Option<string>)
    ensures m.Some? <==> response.Some? && "message" in response.value && response.value["message"] != JNull
    ensures m.Some? ==> response.value["message"] == JString(m.value)
  {
    match response
    case None => None
    case Some(r) =>
      if "message" in r && r["message"].JString? then Some(r["message"].s) else None
  }
}
