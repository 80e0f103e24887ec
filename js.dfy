/**
 * What a request handler can produce: JavaScript exceptions (as an `Outcome` instead of a throw)
 * and the HTTP responses the handlers write.
 */
module Js {
  import opened Wrappers
  import opened JsonValue
  import JsonText

  /** A thrown `Error`: its `name`, its `message`, and the `status`/`data` some errors carry. */
  datatype JsError = JsError(name: string, message: string, status: Option<int>, data: Option<Json>)

  /** A call that returns a value or throws. */
  datatype Outcome<+T> = Ok(value: T) | Throw(error: JsError)

  /** `new Error(message)`. */
  function Error(message: string): JsError {
    JsError("Error", message, None, None)
  }

  /** The error `JSON.parse` throws on text that is not JSON. */
  const SyntaxError: JsError := JsError("SyntaxError", "Unexpected token in JSON", None, None)

  /** The error reading a property of `null` or `undefined` throws. */
  function TypeError(message: string): JsError {
    JsError("TypeError", message, None, None)
  }

  /** The error `fetch` rejects with when no response arrives. */
  const NetworkError: JsError := JsError("TypeError", "fetch failed", None, None)

  /** `JSON.parse(s)`, throwing on malformed text. */
  function JsonParse(s: string): (r: Outcome<Json>)
    ensures r.Ok? <==> JsonText.Parse(s).Some?
    ensures r.Ok? ==> r.value == JsonText.Parse(s).value && WellFormed(r.value)
  {
    match JsonText.Parse(s)
    case Some(j) => Ok(j)
    case None => Throw(SyntaxError)
  }

  // ---------------------------------------------------------------- responses

  /** The body a handler sends: none (`res.end()`), JSON, plain text, or an HTML page (which may display a code). */
  datatype Body = NoBody | JsonBody(value: Json) | TextBody(text: string) | HtmlPage(code: Option<string>)

  /** Status, body and, for a redirect, the `Location` header. */
  datatype Response = Response(status: int, body: Body, location: Option<string>)

  /** `res.status(status).json(value)` / `NextResponse.json(value, {status})`. */
  function JsonResponse(status: int, value: Json): Response {
    Response(status, JsonBody(value), None)
  }

  /** What the framework answers when a handler throws: a bare 500. */
  const Unhandled: Response := Response(500, NoBody, None)

  /** A 302 to `url`. */
  function Redirect(url: string): Response {
    Response(302, NoBody, Some(url))
  }

  /** `{error: e, error_description: d}`. */
  function ErrorObject(e: string, d: string): Json {
    Record([("error", Some(Str(e))), ("error_description", Some(Str(d)))])
  }
}
