/**
 * The Strava HTTP API as the core sees it through `fetch`: every request is recorded in `sent`, and
 * the answers come from a scripted queue `replies` (an empty queue means the network failed).
 */
module Remote {
  import opened Wrappers
  import opened JsonValue
  import opened Js
  import FormUrlEncoded

  /** A response (status, status text, body text), or no response at all. */
  datatype Reply = Reply(status: int, statusText: string, body: string) | NetworkFailure

  /** A request: method, URL, form body (for the token endpoint) and bearer token (for API calls). */
  datatype Request = Request(verb: string, url: string, form: FormUrlEncoded.Pairs, bearer: Option<string>)

  /** `res.ok`. */
  predicate Ok2xx(status: int) {
    200 <= status <= 299
  }

  /** `await res.json()`. */
  function BodyJson(r: Reply): Outcome<Json>
    requires r.Reply?
  {
    JsonParse(r.body)
  }

  const TokenUrl: string := "https://www.strava.com/oauth/token"
  const ApiBase: string := "https://www.strava.com/api/v3"

  /** A form POST to the token endpoint. */
  function TokenRequest(form: FormUrlEncoded.Pairs): Request {
    Request("POST", TokenUrl, form, None)
  }

  /** The answer the next request gets. */
  function Next(replies: seq<Reply>): Reply {
    if replies == [] then NetworkFailure else replies[0]
  }

  /** The answers left for later requests. */
  function Rest(replies: seq<Reply>): seq<Reply> {
    if replies == [] then [] else replies[1..]
  }

  /** What `fetch` resolves to: the response, or a rejection when none arrived. */
  function Fetched(reply: Reply): Outcome<Reply> {
    if reply.NetworkFailure? then Throw(NetworkError) else Ok(reply)
  }

  class Provider {
    var replies: seq<Reply>
    var sent: seq<Request>

    constructor (replies0: seq<Reply>)
      ensures replies == replies0 && sent == []
    {
      replies := replies0;
      sent := [];
    }

    /** `fetch(req)`: records the request and takes the next scripted answer. */
    method Fetch(req: Request) returns (r: Outcome<Reply>)
      modifies this
      ensures sent == old(sent) + [req]
      ensures replies == Rest(old(replies))
      ensures r == Fetched(Next(old(replies)))
    {
      sent := sent + [req];
      r := Fetched(Next(replies));
      replies := Rest(replies);
    }
  }
}
