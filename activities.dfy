/**
 * The recent-activities endpoint (api/activities.js): an app token in `Authorization: Bearer ...`
 * names the athlete, whose provider token is resolved (and refreshed when needed); the activities of
 * the last 28 days are then fetched page by page, 100 per page, stopping after the first short page
 * and after five pages at most.
 */
module Activities {
  import opened Wrappers
  import opened JsonValue
  import opened Js
  import opened Kv
  import opened Remote
  import Decimal
  import FormUrlEncoded
  import LegacyEnv
  import LegacyStore

  const PerPage: nat := 100
  const MaxPages: nat := 5
  /** Twenty-eight days, in seconds. */
  const Window: nat := 28 * 24 * 60 * 60

  /** The `after` bound: 28 days before `now`, in whole seconds. */
  function After(nowMs: nat): int {
    nowMs / 1000 - Window
  }

  // ---------------------------------------------------------------- one page

  /** The request for one page of activities. */
  function PageRequest(access: string, after: int, page: nat): Request {
    Request("GET", ApiBase + "/athlete/activities?" + PageQueryText(after, page), [], Some(access))
  }

  /** `after=<after>&per_page=100&page=<page>`. */
  function PageQueryText(after: int, page: nat): string {
    "after=" + Decimal.IntToString(after) + "&per_page=100&page=" + Decimal.IntToString(page)
  }

  /** The parameters of one page's query, in the order the handler builds them. */
  function PageParams(after: int, page: nat): FormUrlEncoded.Pairs {
    [("after", Decimal.IntToString(after)), ("per_page", Decimal.IntToString(PerPage)), ("page", Decimal.IntToString(page))]
  }

  /** The query written out is what `URLSearchParams` serializes the parameters to: nothing needs escaping. */
  lemma PageQuery(after: int, page: nat)
    ensures PageQueryText(after, page) == FormUrlEncoded.Serialize(PageParams(after, page))
  {
    var a, n := Decimal.IntToString(after), Decimal.IntToString(page);
    DecimalPlain(after);
    DecimalPlain(page);
    PlainNames();
    FormUrlEncoded.PlainTriple("after", a, "per_page", Decimal.IntToString(PerPage), "page", n);
  }

  lemma PlainNames()
    ensures FormUrlEncoded.Plain("after") && FormUrlEncoded.Plain("per_page") && FormUrlEncoded.Plain("page")
    ensures Decimal.IntToString(PerPage) == "100" && FormUrlEncoded.Plain("100")
    ensures "after" + "=" == "after="
    ensures "&" + "per_page" + "=" + "100" + "&" + "page" + "=" == "&per_page=100&page="
  {
  }

  lemma DecimalPlain(i: int)
    ensures FormUrlEncoded.Plain(Decimal.IntToString(i))
  {
    Decimal.IntToStringChars(i);
  }

  /** The requests for pages 1 to `n`, in order. */
  function PageRequests(access: string, after: int, n: nat): (rs: seq<Request>)
    ensures |rs| == n
  {
    if n == 0 then [] else PageRequests(access, after, n - 1) + [PageRequest(access, after, n)]
  }

  /** The `k`-th request asks for page `k + 1`, with the same token and window. */
  lemma {:induction false} PageRequestsAt(access: string, after: int, n: nat, k: nat)
    requires k < n
    ensures PageRequests(access, after, n)[k] == PageRequest(access, after, k + 1)
  {
    if k < n - 1 {
      PageRequestsAt(access, after, n - 1, k);
    }
  }

  /** What the pages fetched so far amount to: the items in order, an error answer, or a throw. */
  datatype Listing = Listed(items: seq<Json>) | Failed(status: int, body: Json) | Thrown(error: JsError)

  /**
   * What `out.push(...arr)` appends: the elements of an array, the characters of a string (each as a
   * one-character string); any other value is not iterable.
   */
  function Spread(arr: Json): Option<seq<Json>> {
    match arr
    case Arr(items) => Some(items)
    case Str(s) => Some(seq(|s|, i requires 0 <= i < |s| => Str([s[i]])))
    case _ => None
  }

  const NotIterable: JsError := TypeError("arr is not iterable")

  /**
   * One page: a failed fetch or an unparsable body throws (the body is read before the status is
   * looked at); a non-2xx status is answered with that status and body; otherwise its items.
   */
  function PageOutcome(reply: Reply): (l: Listing)
    ensures l.Failed? ==> reply.Reply? && !Ok2xx(reply.status) && l.status == reply.status
    ensures l.Listed? ==> reply.Reply? && Ok2xx(reply.status)
  {
    match Fetched(reply)
    case Throw(e) => Thrown(e)
    case Ok(r) =>
      match BodyJson(r)
      case Throw(e) => Thrown(e)
      case Ok(arr) =>
        if !Ok2xx(r.status) then Failed(r.status, arr)
        else match Spread(arr)
          case None => Thrown(NotIterable)
          case Some(items) => Listed(items)
  }

  /** Whether another page follows page `page`: this one was full and the guard is not reached. */
  predicate Continues(o: Listing, page: nat) {
    o.Listed? && |o.items| >= PerPage && page + 1 <= MaxPages
  }

  // ---------------------------------------------------------------- the pagination

  /** The outcome of each answer the provider holds, in order. */
  function Pages(replies: seq<Reply>): seq<Listing> {
    seq(|replies|, i requires 0 <= i < |replies| => PageOutcome(replies[i]))
  }

  /** The outcome of the next page; with no answer left, the fetch rejects. */
  function First(os: seq<Listing>): Listing {
    if os == [] then Thrown(NetworkError) else os[0]
  }

  /** What is left of `xs` after `n` items are consumed. */
  function Drop<T>(xs: seq<T>, n: nat): seq<T> {
    if n <= |xs| then xs[n..] else []
  }

  /** The page the loop reads after `k` earlier pages is the next page outcome, in both views. */
  lemma PageAt(replies: seq<Reply>, k: nat)
    ensures PageOutcome(Next(Drop(replies, k))) == First(Drop(Pages(replies), k))
    ensures Rest(Drop(replies, k)) == Drop(replies, k + 1)
  {
    if k < |replies| {
      assert Drop(replies, k)[0] == replies[k];
    }
  }

  /** The listing built from page `page` on, the pages having the outcomes `os`. */
  function Paginate(os: seq<Listing>, page: nat): Listing
    requires 1 <= page <= MaxPages
    decreases MaxPages - page
  {
    var o := First(os);
    if !Continues(o, page) then o
    else Glue(o.items, Paginate(Drop(os, 1), page + 1))
  }

  /** Earlier pages' items in front of a listing; a failure or throw drops them. */
  function Glue(items: seq<Json>, l: Listing): Listing {
    if l.Listed? then Listed(items + l.items) else l
  }

  /** How many pages are fetched from page `page` on. */
  function PageCount(os: seq<Listing>, page: nat): nat
    requires 1 <= page <= MaxPages
    decreases MaxPages - page
  {
    if !Continues(First(os), page) then 1 else 1 + PageCount(Drop(os, 1), page + 1)
  }

  /** At least one and at most five pages are fetched. */
  lemma {:induction false} PageCountBound(os: seq<Listing>, page: nat)
    requires 1 <= page <= MaxPages
    ensures 1 <= PageCount(os, page) <= MaxPages + 1 - page
    decreases MaxPages - page
  {
    if Continues(First(os), page) {
      PageCountBound(Drop(os, 1), page + 1);
    }
  }

  /** The items of the first `n` pages, as a reference: page after page, each page's items in order. */
  function Flatten(os: seq<Listing>, n: nat): seq<Json> {
    if n == 0 then []
    else (if First(os).Listed? then First(os).items else []) + Flatten(Drop(os, 1), n - 1)
  }

  /** A successful listing is the concatenation of the fetched pages, in fetch order. */
  lemma {:induction false} PaginateConcat(os: seq<Listing>, page: nat)
    requires 1 <= page <= MaxPages
    ensures Paginate(os, page).Listed? ==> Paginate(os, page).items == Flatten(os, PageCount(os, page))
    decreases MaxPages - page
  {
    if Continues(First(os), page) {
      PaginateConcat(Drop(os, 1), page + 1);
    } else {
      assert Flatten(Drop(os, 1), 0) == [];
    }
  }

  lemma GlueAssoc(a: seq<Json>, b: seq<Json>, l: Listing)
    ensures Glue(a, Glue(b, l)) == Glue(a + b, l)
  {
    if l.Listed? {
      assert a + (b + l.items) == (a + b) + l.items;
    }
  }

  /** A listing that is not a success is exactly the outcome of the last page fetched: earlier items are dropped. */
  lemma {:induction false} PaginateFailure(os: seq<Listing>, page: nat)
    requires 1 <= page <= MaxPages
    ensures !Paginate(os, page).Listed? ==>
      PageCount(os, page) >= 1 && Paginate(os, page) == First(Drop(os, PageCount(os, page) - 1))
    decreases MaxPages - page
  {
    if Continues(First(os), page) {
      PaginateFailure(Drop(os, 1), page + 1);
      PageCountBound(Drop(os, 1), page + 1);
      var k := PageCount(Drop(os, 1), page + 1) - 1;
      assert Drop(Drop(os, 1), k) == Drop(os, k + 1);
    }
  }

  /** A page of the provider holds at most `per_page` items. */
  predicate Honours(o: Listing) {
    o.Listed? ==> |o.items| <= PerPage
  }

  /** When the provider honours `per_page`, a listing has at most 100 items per page fetched, so at most 500. */
  lemma {:induction false} PaginateBound(os: seq<Listing>, page: nat)
    requires 1 <= page <= MaxPages
    requires forall i | 0 <= i < |os| :: Honours(os[i])
    ensures Paginate(os, page).Listed? ==> |Paginate(os, page).items| <= PerPage * PageCount(os, page)
    ensures Paginate(os, page).Listed? ==> |Paginate(os, page).items| <= PerPage * (MaxPages + 1 - page)
    decreases MaxPages - page
  {
    assert Honours(First(os)) by {
      if os != [] { assert Honours(os[0]); }
    }
    PageCountBound(os, page);
    if Continues(First(os), page) {
      assert forall i | 0 <= i < |Drop(os, 1)| :: Honours(Drop(os, 1)[i]) by {
        forall i | 0 <= i < |Drop(os, 1)| ensures Honours(Drop(os, 1)[i]) {
          assert Drop(os, 1)[i] == os[i + 1];
        }
      }
      PaginateBound(Drop(os, 1), page + 1);
    }
  }

  /**
   * The loop: pages 1, 2, ... with `per_page=100`, stopping after the first page holding fewer
   * than 100 items or after the fifth page; a failed page ends the loop with that page's outcome.
   */
  method FetchActivities(p: Provider, access: string, after: int) returns (r: Listing)
    modifies p
    ensures r == Paginate(Pages(old(p.replies)), 1)
    ensures p.sent == old(p.sent) + PageRequests(access, after, PageCount(Pages(old(p.replies)), 1))
    ensures p.replies == Drop(old(p.replies), PageCount(Pages(old(p.replies)), 1))
  {
    var page: nat := 1;
    var out: seq<Json> := [];
    var stop := false;
    r := Listed([]);
    while !stop
      invariant page <= MaxPages + 1
      invariant !stop ==> Progress(old(p.replies), old(p.sent), p.replies, p.sent, page, out, access, after)
      invariant stop ==> Finished(old(p.replies), old(p.sent), p.replies, p.sent, access, after, r)
      decreases MaxPages + 1 - page, !stop
    {
      r, stop, page, out := Step(p, access, after, page, out, old(p.replies), old(p.sent));
    }
  }

  /** The loop invariant: pages 1 to `page - 1` are fetched, and `out` holds their items. */
  ghost predicate Progress(replies0: seq<Reply>, sent0: seq<Request>, replies: seq<Reply>, sent: seq<Request>,
                           page: nat, out: seq<Json>, access: string, after: int)
  {
    && Gathered(Pages(replies0), page, out)
    && sent == sent0 + PageRequests(access, after, page - 1)
    && replies == Drop(replies0, page - 1)
  }

  /** What the loop leaves behind once it stops. */
  ghost predicate Finished(replies0: seq<Reply>, sent0: seq<Request>, replies: seq<Reply>, sent: seq<Request>,
                           access: string, after: int, r: Listing)
  {
    var n := PageCount(Pages(replies0), 1);
    && r == Paginate(Pages(replies0), 1)
    && sent == sent0 + PageRequests(access, after, n)
    && replies == Drop(replies0, n)
  }

  /** Pages 1 to `page - 1` of `os` were full, and `out` holds their items. */
  ghost predicate Gathered(os: seq<Listing>, page: nat, out: seq<Json>) {
    && 1 <= page <= MaxPages
    && Glue(out, Paginate(Drop(os, page - 1), page)) == Paginate(os, 1)
    && PageCount(os, 1) == page - 1 + PageCount(Drop(os, page - 1), page)
  }

  /** A full page below the guard: the loop goes on to the next page. */
  lemma Advance(os: seq<Listing>, page: nat, out: seq<Json>)
    requires Gathered(os, page, out)
    requires Continues(First(Drop(os, page - 1)), page)
    ensures Gathered(os, page + 1, out + First(Drop(os, page - 1)).items)
  {
    var rest := Drop(os, page - 1);
    assert Drop(rest, 1) == Drop(os, page);
    GlueAssoc(out, First(rest).items, Paginate(Drop(rest, 1), page + 1));
  }

  /** A failed, short or fifth page: the loop ends with the listing `Paginate` gives. */
  lemma Finish(os: seq<Listing>, page: nat, out: seq<Json>)
    requires Gathered(os, page, out)
    requires !Continues(First(Drop(os, page - 1)), page)
    ensures var o := First(Drop(os, page - 1));
      Paginate(os, 1) == if o.Listed? then Listed(out + o.items) else o
    ensures PageCount(os, 1) == page
  {
  }

  /** One iteration: fetch page `page` and decide on its outcome. */
  method Step(p: Provider, access: string, after: int, page: nat, out: seq<Json>,
              ghost replies0: seq<Reply>, ghost sent0: seq<Request>)
    returns (r: Listing, stop: bool, page': nat, out': seq<Json>)
    requires Progress(replies0, sent0, p.replies, p.sent, page, out, access, after)
    modifies p
    ensures page <= page' <= page + 1
    ensures !stop ==> page' == page + 1 && Progress(replies0, sent0, p.replies, p.sent, page', out', access, after)
    ensures stop ==> Finished(replies0, sent0, p.replies, p.sent, access, after, r)
  {
    var o := FetchNth(p, access, after, page, replies0, sent0);
    r, stop, page', out' := Decide(Pages(replies0), page, out, o);
  }

  /**
   * The loop body after the fetch: a failed page stops with its outcome; its items are appended; a
   * short page, or reaching the guard, stops with the items gathered.
   */
  method Decide(ghost os: seq<Listing>, page: nat, out: seq<Json>, o: Listing)
    returns (r: Listing, stop: bool, page': nat, out': seq<Json>)
    requires Gathered(os, page, out) && o == First(Drop(os, page - 1))
    ensures page' == page + 1 || (stop && page' == page)
    ensures !stop ==> Gathered(os, page', out')
    ensures stop ==> r == Paginate(os, 1) && PageCount(os, 1) == page
  {
    page', out' := page, out;
    if !o.Listed? {
      Finish(os, page, out);
      return o, true, page', out';
    }
    out' := out + o.items;
    if |o.items| < PerPage {
      Finish(os, page, out);
      return Listed(out'), true, page', out';
    }
    page' := page + 1;
    if page' > MaxPages {
      Finish(os, page, out);
      return Listed(out'), true, page', out';
    }
    Advance(os, page, out);
    r, stop := o, false;
  }

  /** Page `page`'s fetch, seen as the outcome of the `page`-th answer the provider held and as the `page`-th request. */
  method FetchNth(p: Provider, access: string, after: int, page: nat, ghost replies0: seq<Reply>, ghost sent0: seq<Request>)
    returns (o: Listing)
    requires 1 <= page && p.replies == Drop(replies0, page - 1)
    requires p.sent == sent0 + PageRequests(access, after, page - 1)
    modifies p
    ensures o == First(Drop(Pages(replies0), page - 1))
    ensures p.sent == sent0 + PageRequests(access, after, page)
    ensures p.replies == Drop(replies0, page)
  {
    PageAt(replies0, page - 1);
    o := FetchPage(p, access, after, page);
  }

  /** One iteration's request and answer. */
  method FetchPage(p: Provider, access: string, after: int, page: nat) returns (o: Listing)
    modifies p
    ensures o == PageOutcome(Next(old(p.replies)))
    ensures p.sent == old(p.sent) + [PageRequest(access, after, page)]
    ensures p.replies == Rest(old(p.replies))
  {
    var res := p.Fetch(PageRequest(access, after, page));
    if res.Throw? {
      return Thrown(res.error);
    }
    var arr := BodyJson(res.value);
    if arr.Throw? {
      return Thrown(arr.error);
    }
    if !Ok2xx(res.value.status) {
      return Failed(res.value.status, arr.value);
    }
    var items := Spread(arr.value);
    if items.None? {
      return Thrown(NotIterable);
    }
    o := Listed(items.value);
  }

  // ---------------------------------------------------------------- the handler

  /** The catch block: a token the verifier calls malformed answers 401, every other error 500. */
  function Failure(e: JsError): Response {
    JsonResponse(if e.name == "JsonWebTokenError" then 401 else 500,
                 Record([("error", Some(Str("activities_failed"))), ("details", Some(Str(e.message)))]))
  }

  /** The answer for a listing. */
  function Answer(l: Listing): Response {
    match l
    case Listed(items) => JsonResponse(200, Arr(items))
    case Failed(status, body) => JsonResponse(status, body)
    case Thrown(e) => Failure(e)
  }

  const MissingToken: Response := JsonResponse(401, Record([("error", Some(Str("missing_token")))]))
  const NoStravaToken: Response := JsonResponse(401, Record([("error", Some(Str("no_strava_token")))]))

  /** `auth.startsWith('Bearer ') ? auth.slice(7) : null`, with an absent header read as ''. */
  function AppJwt(authorization: Option<string>): Option<string> {
    var auth := if authorization.Some? then authorization.value else "";
    if |auth| >= 7 && auth[..7] == "Bearer " then Some(auth[7..]) else None
  }

  /** Destructuring `{ sub }` out of a `null` payload throws. */
  const NullPayload: JsError := TypeError("Cannot destructure property 'sub' of null")

  /**
   * `GET /api/activities`. Without a bearer token nothing is verified, read or fetched; a token the
   * verifier rejects answers 401 or 500 by the error's name; otherwise the athlete's provider token is
   * resolved and, when there is one, the activities listing is the answer.
   */
  method Handler(kv: Store, p: Provider, env: LegacyEnv.Env, verify: LegacyEnv.Verifier, verb: string,
                 authorization: Option<string>, nowMs: nat) returns (res: Response)
    modifies kv`entries, kv`log, p
    ensures verb != "GET" ==> res == Response(405, NoBody, None) && kv.log == old(kv.log) && p.sent == old(p.sent)
    ensures var jwt := AppJwt(authorization);
      verb == "GET" && (jwt.None? || jwt.value == "") ==>
        res == MissingToken && kv.log == old(kv.log) && p.sent == old(p.sent) && kv.entries == old(kv.entries)
    ensures var jwt := AppJwt(authorization);
      verb == "GET" && jwt.Some? && jwt.value != "" ==>
        match verify(jwt.value, LegacyEnv.JwtSecret(env))
        case Rejected(name, message) =>
          res == Failure(JsError(name, message, None, None)) && kv.log == old(kv.log) && p.sent == old(p.sent)
        case Verified(payload) =>
          if payload.Null? then res == Failure(NullPayload) && kv.log == old(kv.log) && p.sent == old(p.sent)
          else Served(p, old(kv.down), old(kv.entries), old(p.sent), old(p.replies), env, Get(payload, "sub"), nowMs, res)
  {
    if verb != "GET" {
      return Response(405, NoBody, None);
    }
    var jwt := AppJwt(authorization);
    if jwt.None? || jwt.value == "" {
      return MissingToken;
    }
    match verify(jwt.value, LegacyEnv.JwtSecret(env)) {
      case Rejected(name, message) =>
        res := Failure(JsError(name, message, None, None));
      case Verified(payload) =>
        if payload.Null? {
          res := Failure(NullPayload);
        } else {
          res := Serve(kv, p, env, Get(payload, "sub"), nowMs);
        }
    }
  }

  /**
   * What the athlete `sub` is answered, from the store's and the provider's states before the
   * resolver ran: the resolver's error, `no_strava_token` when it yields no token, or the listing
   * fetched with the token after the resolver's own requests.
   */
  ghost predicate Served(p: Provider, down: bool, entries0: map<string, Entry>, sent0: seq<Request>, replies0: seq<Reply>,
                         env: LegacyEnv.Env, sub: Option<Json>, nowMs: nat, res: Response)
    reads p
  {
    var access := LegacyStore.Resolved(down, entries0, env, sub, nowMs, replies0);
    var sent1 := sent0 + LegacyStore.ResolverSent(down, entries0, env, sub, nowMs);
    var replies1 := LegacyStore.RepliesLeft(down, entries0, env, sub, nowMs, replies0);
    && (access.Throw? ==> res == Failure(access.error))
    && (access.Ok? && !Truthy(access.value) ==> res == NoStravaToken && p.sent == sent1)
    && (access.Ok? && Truthy(access.value) ==>
          var token := JsString(access.value.value);
          && res == Answer(Paginate(Pages(replies1), 1))
          && p.sent == sent1 + PageRequests(token, After(nowMs), PageCount(Pages(replies1), 1)))
  }

  method Serve(kv: Store, p: Provider, env: LegacyEnv.Env, sub: Option<Json>, nowMs: nat) returns (res: Response)
    modifies kv`entries, kv`log, p
    ensures Served(p, old(kv.down), old(kv.entries), old(p.sent), old(p.replies), env, sub, nowMs, res)
  {
    var access := LegacyStore.GetValidAccessToken(kv, p, env, sub, nowMs);
    match access {
      case Throw(e) => res := Failure(e);
      case Ok(a) =>
        if !Truthy(a) {
          res := NoStravaToken;
        } else {
          var listing := FetchActivities(p, JsString(a.value), After(nowMs));
          res := Answer(listing);
        }
    }
  }
}
