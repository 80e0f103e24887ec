# stravagptfaby OAuth bridge and token lifecycle, in Dafny

stravagptfaby connects a ChatGPT custom assistant to Strava. An OAuth bridge sends the user to Strava, receives the
authorization code on a callback, exchanges it for Strava tokens and stores them in an Upstash Redis store. The
assistant is then handed a one-time code, which it redeems for an application JWT. Later API calls carry that JWT
as a bearer token. The server resolves it to the athlete's Strava access token and refreshes the token shortly
before it expires. The repository holds two generations of this flow:

- the older `api/` handlers (`api/_store.js`, `api/_strava.js`, `api/oauth/*`, `api/token.js`, `api/_auth.js`,
  `api/activities.js`);
- the newer Next.js routes (`lib/redis.ts`, `lib/tokens.ts`, `lib/strava.ts`, `config/env.ts`, `lib/utils.ts`,
  `app/api/oauth/*`).

Each generation is modelled as written, and the divergences between them are kept: 90 versus 60 second refresh
windows, different fallbacks when a refresh answer lacks a field, and different key namespaces.

The model is sequential; every handler is one request:

- **The key-value store** is one `Kv.Store` object: a map from key to (value, optional expiry instant), a flag for
  "unreachable during this request", and the log of calls it received. That log is what the ordering contracts
  speak of: tokens are saved before the one-time code is issued, and the state is deleted only after the save.
- **Strava's HTTP endpoints** are a `Remote.Provider` object holding the queue of replies it will give and the log of
  requests it was sent.
- **JWT signing and verification, the random bytes and `Date.now()`** are parameters.
- **JavaScript values** are the `JsonValue.Json` datatype, with `Option<Json>` for a possibly-`undefined` value.
  Object spread, truthiness and `String(x)` are written out over it.
- **The codecs the handlers rely on** are defined and proved. These are JSON text, base64url, UTF-8, decimal
  integers, `application/x-www-form-urlencoded` and a WHATWG-style URL parser. Their round trips carry the
  state, one-time-code and authorize-URL properties.

Module by source file:

| module | file |
|---|---|
| `Kv` | `kv_store.dfy` |
| `Remote` | `provider.dfy` |
| `RedisHelpers` | `redis_helpers.dfy` |
| `Tokens` | `tokens.dfy` |
| `LegacyStore` | `legacy_store.dfy` |
| `LegacyStrava` | `legacy_strava.dfy` |
| `OneTimeCodes` | `one_time_codes.dfy` |
| `LegacyAuthorize` | `legacy_authorize.dfy` |
| `LegacyCallback` | `legacy_callback.dfy` |
| `CallbackRoute` | `callback_route.dfy` |
| `OAuthToken` | `oauth_token.dfy` |
| `AppToken` | `app_token.dfy` |
| `AppAuth` | `app_auth.dfy` |
| `Env` | `env_config.dfy` |
| `StravaClient` | `strava_client.dfy` |
| `Activities` | `activities.dfy` |
| `TokenRoute` | `token_route.dfy` |
| `OpenAiAuthorize` | `openai_authorize.dfy` |
| `Utils` | `utils.dfy` |

The older handlers' environment variables are in `LegacyEnv` (`legacy_env.dfy`). JavaScript errors and responses
are in `Js` (`js.dfy`).

## Model

| member | source | states |
|---|---|---|
| Kv.Lookup | lib/redis.ts:59-66 | A read finds a value exactly when the key holds an entry whose expiry has not passed, and the value is the one stored |
| Kv.WrittenLookup | lib/redis.ts:48-51 | A written key reads back its text until its expiry, and every other key reads as before |
| Kv.WrittenExpires | lib/redis.ts:48-49 | A key written with `EX ttl` reads as absent from `ttl` seconds after the write on |
| Kv.Store.Get | lib/redis.ts:61 | GET logs the call and answers the live value, or fails while the store is unreachable |
| Kv.Store.Set | lib/redis.ts:49-51 | SET logs the call, replaces the entry (with the expiry given, or none) and answers "OK"; an unreachable store changes nothing |
| Kv.Store.Del | lib/redis.ts:70 | DEL logs the call, removes exactly that key and answers 1 when it was live, 0 otherwise |
| Remote.Provider.Fetch | lib/strava.ts:46-55 | A request is appended to the sent log and answered with the next scripted reply; with no reply the fetch rejects |
| RedisHelpers.KeysDistinct | lib/redis.ts:20-24 | The `state:`, `tokens:` and `athleteIndex:` namespaces never produce the same key |
| RedisHelpers.KeysInjective | lib/redis.ts:20-24 | Each key builder is one-to-one (for athlete ids, up to their printed form) |
| RedisHelpers.Expiry | lib/redis.ts:48-51 | An expiry is requested exactly when the TTL is positive, and it is that TTL |
| RedisHelpers.TtlArgument | lib/redis.ts:42-46 | An explicit TTL is used as given; without one the TTL is the configuration's default (`Env.DefaultTtlSeconds`), and an invalid configuration throws its error |
| RedisHelpers.SetStr | lib/redis.ts:42-57 | `setStr` writes the key with the expiry rule above; a store failure is swallowed into null and writes nothing |
| RedisHelpers.GetStr | lib/redis.ts:59-66 | `getStr` yields the live value, or null when the key is absent, expired or the store fails |
| RedisHelpers.DelKey | lib/redis.ts:68-75 | `delKey` removes exactly its key and yields the count, or 0 when the store fails |
| RedisHelpers.ReadJsonSerialized | lib/redis.ts:84-96 | Text written by `setJSON` is read back by `getJSON` as the value that was serialized |
| RedisHelpers.ReadJsonMalformed | lib/redis.ts:95-100 | Stored text that is not JSON is read as null |
| RedisHelpers.JsonRoundTrip | lib/redis.ts:78-101 | `setJSON` then `getJSON` before expiry gives the value back, and leaves every other key as it was |
| RedisHelpers.SetJson | lib/redis.ts:78-90 | `setJSON` stores the JSON text of the value under the key with the TTL argument's expiry |
| RedisHelpers.GetJson | lib/redis.ts:92-101 | `getJSON` is null for a missing key or a store failure, otherwise the parse of the stored text |
| RedisHelpers.SaveOAuthState | lib/redis.ts:104-110 | The state record is stored as JSON under `state:{state}` |
| RedisHelpers.ReadOAuthState | lib/redis.ts:112-114 | The state record is read back from `state:{state}` and nothing else is touched |
| RedisHelpers.DeleteOAuthState | lib/redis.ts:116-118 | Exactly the key `state:{state}` is removed |
| RedisHelpers.StampedFields | lib/redis.ts:125-126 | The saved record's `updatedAt` is the current time whatever the caller passed; every other field is the caller's |
| RedisHelpers.SavedTokensReadBack | lib/redis.ts:120-132 | `saveTokens` then `readTokens` gives the stamped record back |
| RedisHelpers.SaveTokens | lib/redis.ts:120-128 | The stamped record is written under `tokens:{athleteId}` with the TTL argument's expiry |
| RedisHelpers.ReadTokens | lib/redis.ts:130-132 | The record is read from `tokens:{athleteId}` |
| RedisHelpers.DeleteTokens | lib/redis.ts:134-136 | Exactly the key `tokens:{athleteId}` is removed |
| RedisHelpers.IndexRoundTrip | lib/redis.ts:140-146 | The decimal text written for an athlete id reads back as that number |
| RedisHelpers.SaveAthleteIndex | lib/redis.ts:139-141 | The athlete id is written as decimal text under `athleteIndex:{userId}` with the default TTL |
| RedisHelpers.ReadAthleteIndex | lib/redis.ts:143-146 | The stored id is returned as a number, or null when none is stored or the store fails |
| RedisHelpers.DeleteAthleteIndex | lib/redis.ts:148-150 | Exactly the key `athleteIndex:{userId}` is removed |
| RedisHelpers.AthleteIndexRoundTrip | lib/redis.ts:139-146 | Saving an index then reading it before expiry yields the athlete id; a missing index yields null |
| Tokens.Mask | lib/tokens.ts:25-30 | The masked text has the same length; the first four characters are kept only when the text is longer than four, and every other character is '*' |
| Tokens.MaskToken | lib/tokens.ts:25-30 | A falsy value comes back as it is; a string is masked; an array of at most four items becomes that many '*'; any other truthy value throws a TypeError, having no `slice` |
| Tokens.MaskFieldFind | lib/tokens.ts:20-21 | Masking one field fails exactly when that field's token cannot be masked, and otherwise changes that field alone |
| Tokens.RedactTokensFields | lib/tokens.ts:17-23 | A falsy input is returned unchanged; a truthy token that is neither a string nor an array makes it throw the TypeError; otherwise only a present access_token and refresh_token are masked, and every other field is kept |
| Tokens.MapTokenResponse | lib/tokens.ts:66-75 | The mapping succeeds exactly when the provider's answer is not null (reading `r.athlete` on null throws) |
| Tokens.MapTokenResponseFields | lib/tokens.ts:66-75 | The record copies access_token, the rotated refresh_token, expires_at and scope, takes athlete_id from athlete.id and stamps updatedAt |
| Tokens.MapTokenResponseOnly | lib/tokens.ts:66-75 | The mapped record has no other property |
| Tokens.RefreshOutcome | lib/tokens.ts:93-94 | A refresh yields a mapped record only when the configuration is valid |
| Tokens.RefusedRefresh | lib/tokens.ts:93-114 | A refresh the provider refuses, or that gets no reply, is rethrown |
| Tokens.Rethrown | lib/tokens.ts:106-113 | A success passes through; a failure is rethrown, except that a current record whose redaction throws replaces the error by that TypeError |
| Tokens.RethrownStringTokens | lib/tokens.ts:106-113 | A record whose tokens are strings keeps the refresh's own error |
| Tokens.TryRefresh | lib/tokens.ts:78-115 | One refresh is sent with the stored refresh token; success saves the mapped record and returns it; a failure is rethrown as the catch block leaves it and nothing is written |
| Tokens.GetValidAccessToken | lib/tokens.ts:36-50 | No stored record throws after one read and no request; more than 90 seconds left returns the stored token after one read, with no request and no write; otherwise exactly one refresh consuming one reply, then a save and the new token, or the rethrown error with nothing written. The store's log and entries are given on every branch |
| Tokens.ForceRefreshAccessToken | lib/tokens.ts:53-58 | Throws with one read and no request when no record is stored. Otherwise posts the refresh whatever the expiry; on failure it throws with the store untouched, and on success it saves the refreshed record under the athlete's key (unless the store is unreachable) and returns its access token |
| Tokens.RevokeTokens | lib/tokens.ts:61-63 | Exactly the athlete's `tokens:` key is removed |
| LegacyStore.TokKeyApart | api/_store.js:7 | The `strava:tokens:` namespace never meets the state, token or athlete-index keys of lib/redis.ts |
| LegacyStore.SaveTokens | api/_store.js:11-17 | A falsy sub throws before any write; otherwise the JSON text is stored under `strava:tokens:{sub}` with no expiry |
| LegacyStore.GetTokens | api/_store.js:19-25 | A falsy sub gives null without reading the store; otherwise the stored record, JSON-parsed whenever the client hands back a string |
| LegacyStore.StringDocumentDecoded | api/_store.js:24 | A record the client hands back as an already-decoded string is JSON-parsed, exactly as stored text is |
| LegacyStore.SavedRecordReadBack | api/_store.js:14-24 | What `saveTokens` wrote is read back by `getTokens` for as long as the entry exists |
| LegacyStore.MergedFind | api/_store.js:29-30 | In the merge, `updates` wins on shared keys and every other key keeps its current value ({} when absent) |
| LegacyStore.UpdateTokens | api/_store.js:27-34 | The merge is saved and returned; any failure propagates |
| LegacyStore.RefreshReply | api/_store.js:54-63 | A refresh yields a record only for a 2xx reply |
| LegacyStore.RefreshTokens | api/_store.js:36-64 | A missing client id or secret throws before anything is sent; otherwise one refresh form is posted |
| LegacyStore.RefusedRefresh | api/_store.js:55-59 | A non-2xx refresh throws, whatever the body says |
| LegacyStore.RefreshedFieldsFind | api/_store.js:61-63 | The refresh result carries the five fields of the provider's answer |
| LegacyStore.RefreshedFieldsOnly | api/_store.js:61-63 | The refresh result has no other field |
| LegacyStore.RenewedFields | api/_store.js:82-88 | The saved record takes the four token fields of the refresh and keeps the old athlete exactly when the answer's is falsy |
| LegacyStore.RenewedOnly | api/_store.js:82-88 | The saved record has no other field |
| LegacyStore.GetValidAccessToken | api/_store.js:66-90 | No access token gives null; an expiry more than 60 seconds away returns the stored token with no request; otherwise refresh, save the renewed record and return the new token, with a failed refresh saving nothing |
| LegacyStrava.RefreshedFields | api/_strava.js:37-43 | The refreshed record takes the new access token and expiry and always keeps the old athlete |
| LegacyStrava.RefreshedFallbacks | api/_strava.js:39-41 | The old refresh token and scope are kept when the provider sends falsy ones |
| LegacyStrava.RefreshReply | api/_strava.js:32-36 | A refresh yields a record only for a 2xx reply |
| LegacyStrava.RefreshAnswer | api/_strava.js:33-43 | A parsed answer yields the refreshed record only for a 2xx status |
| LegacyStrava.RefreshIfNeeded | api/_strava.js:14-46 | A record more than 60 seconds from expiry is returned unchanged with no request and no write; otherwise one refresh, and the refreshed record is saved before it is returned; a failed refresh saves nothing |
| LegacyStrava.RequestRefresh | api/_strava.js:21-36 | Exactly one refresh request is sent and its reply decides the outcome |
| LegacyStrava.ApiReply | api/_strava.js:65-72 | A non-2xx answer throws `strava_fetch_failed` carrying its status; only a 2xx answer yields data |
| LegacyStrava.ApiReplyBody | api/_strava.js:65-72 | A failed call's error carries the parsed body, or {} when the body is not JSON |
| LegacyStrava.StravaFetch | api/_strava.js:48-74 | A path without a leading '/' is refused before the store is read; a record without access token throws `no_strava_tokens` before any request; otherwise the call is made with a fresh or refreshed token |
| LegacyStrava.FetchWith | api/_strava.js:55-73 | A fresh record is used as it is; an expiring one is refreshed before the call |
| LegacyStrava.CallApi | api/_strava.js:56-73 | One GET with the record's bearer token is sent and its reply decides the outcome |
| OneTimeCodes.CodeShape | api/oauth/_oneTimeStore.js:10-16 | A code is 32 URL-safe characters without padding and decodes back to its 24 random bytes |
| OneTimeCodes.CodeKeyApart | api/oauth/_oneTimeStore.js:17 | `otc:` keys never meet the token, state or athlete-index keys |
| OneTimeCodes.Issue | api/oauth/_oneTimeStore.js:14-21 | `otc:{code}` is written with the subject and a 180-second expiry, and the code is returned |
| OneTimeCodes.Consume | api/oauth/_oneTimeStore.js:23-34 | An absent, expired or empty entry gives null and deletes nothing; a present one is deleted and its subject returned; only `otc:{code}` is touched |
| OneTimeCodes.IssuedLookup | api/oauth/_oneTimeStore.js:18 | An issued code reads back its subject for 180 seconds and is gone from then on |
| OneTimeCodes.ConsumeTwice | api/oauth/_oneTimeStore.js:26-33 | Run one after the other, a second consume of the same code yields null |
| OneTimeCodes.IssueThenConsume | api/oauth/_oneTimeStore.js:14-34 | A code consumed within three minutes of issue yields the subject it was issued for |
| LegacyAuthorize.UnparsableRedirect | api/oauth/authorize.js:12-17 | Text that is not a URL is never an allowed return URI |
| LegacyAuthorize.B64url | api/oauth/authorize.js:10 | The packed state uses only URL-safe characters |
| LegacyAuthorize.NormalizeScopeSpaceFree | api/oauth/authorize.js:34 | The normalised scope contains no white space |
| LegacyAuthorize.NormalizeScopeFixed | api/oauth/authorize.js:34 | A scope without white space is left as it is |
| LegacyAuthorize.NormalizeScopeIdempotent | api/oauth/authorize.js:34 | Normalising twice is normalising once |
| LegacyAuthorize.NormalizeScopeRun | api/oauth/authorize.js:34 | A run of white space between two scope words becomes exactly one comma |
| LegacyAuthorize.ScopeDefault | api/oauth/authorize.js:34 | Without a scope, `read,activity:read_all` is used unchanged |
| LegacyAuthorize.HandlerMethods | api/oauth/authorize.js:22-24 | Methods other than GET and POST are answered 405 |
| LegacyAuthorize.BackslashHostRefused | api/oauth/authorize.js:12-17 | For https a `\` ends the host, so an untrusted host followed by `\` is refused whatever follows, an '@' and a trusted host included |
| LegacyAuthorize.EvilBackslashRefused | api/oauth/authorize.js:12-17 | `https://evil.com\@chat.openai.com/oauth/callback` is refused |
| LegacyAuthorize.UntrustedRedirectRefused | api/oauth/authorize.js:39-45 | A missing or untrusted return URI is answered 400 `missing_redirect_uri`, with no redirect |
| LegacyAuthorize.AuthorizeUrlReadsBack | api/oauth/authorize.js:50-60 | The authorize URL parses to Strava's endpoint and its query reads back as the parameter list |
| LegacyAuthorize.AllowedRedirectAuthorizes | api/oauth/authorize.js:47-67 | An allowed return URI gives a 302 to Strava whose redirect_uri is the bridge's callback (never the tool's), whose scope is the normalised scope and whose state is the packed record |
| LegacyCallback.StateRoundTrip | api/oauth/callback.js:11-15 | `safeParseState` inverts the authorize endpoint's packing |
| LegacyCallback.StateFallback | api/oauth/callback.js:11-15 | Text that is neither base64url JSON nor JSON reads as {} |
| LegacyCallback.BackUrlExists | api/oauth/callback.js:17-25 | A back URL exists exactly for a parsable URI on one of the three hosts; the path is not checked |
| LegacyCallback.AllowedHasBackUrl | api/oauth/callback.js:17-20 | Every return URI the authorize endpoint accepts has a back URL |
| LegacyCallback.BackUrlReadsBack | api/oauth/callback.js:21-23 | The back URL keeps the tool's host and path, sets `code` to the one-time code, and sets `state` only for a truthy tool state |
| LegacyCallback.ExchangeData | api/oauth/callback.js:54-59 | Exchange data exists only when a response arrived |
| LegacyCallback.StateUnpacks | api/oauth/callback.js:44-84 | The callback reads back the return URI and tool state that the authorize endpoint packed |
| LegacyCallback.AuthorizedStateLands | api/oauth/callback.js:84-89 | A state packed for an allowed return URI lands with a 302 on that URI's host and path, carrying the one-time code |
| LegacyCallback.Handler | api/oauth/callback.js:27-104 | Non-GET gives 405 and missing configuration 500, both with nothing sent; a missing code gives 400 before the exchange; a failed exchange or an answer without athlete id gives 502 and persists nothing |
| LegacyCallback.Persist | api/oauth/callback.js:71-99 | Tokens are saved before the one-time code is issued, then the browser lands on the back URL or the fallback page with the code |
| LegacyCallback.Save | api/oauth/callback.js:72-81 | The token record is written under the athlete's key, then the code naming the athlete; an unreachable store fails the first write and no code is issued |
| CallbackRoute.ToolReturn | app/api/oauth/callback/route.ts:59-81 | The answer is a 302 exactly when the record holds a parsable return URI; otherwise the fallback page |
| CallbackRoute.ToolReturnRedirects | app/api/oauth/callback/route.ts:60-69 | A return URI already in its serialized form is where the browser lands, unchanged |
| CallbackRoute.ToolReturnSerialized | app/api/oauth/callback/route.ts:60-69 | Any other parsable return URI lands re-serialized: printable ASCII only, percent-encoded, and parsing back to the same URL |
| CallbackRoute.ToolReturnText | app/api/oauth/callback/route.ts:60-76 | Any non-empty return text redirects to its parsed form, or gives the fallback page when it does not parse |
| CallbackRoute.Exchanged | app/api/oauth/callback/route.ts:43-44 | An exchange yields tokens only for a 2xx reply |
| CallbackRoute.ExchangedAthlete | app/api/oauth/callback/route.ts:43-47 | The tokens are saved under the athlete id of the provider's answer |
| CallbackRoute.RefusedExchange | app/api/oauth/callback/route.ts:43-89 | A refused or missing reply leaves nothing to save |
| CallbackRoute.Handle | app/api/oauth/callback/route.ts:13-90 | An `error` parameter gives 400 before any lookup; a missing code or state gives 400; an unknown state gives 400 with no exchange |
| CallbackRoute.Complete | app/api/oauth/callback/route.ts:40-89 | A failed exchange answers 500 and leaves the store untouched, so the state stays; otherwise the tokens are saved and then the state deleted |
| CallbackRoute.Exchange | app/api/oauth/callback/route.ts:43-44 | Without a configuration nothing is sent; otherwise one exchange is posted and its reply mapped |
| OAuthToken.ParseBody | api/oauth/token.js:15-37 | A null result only comes from a JSON body whose text is `null` |
| OAuthToken.FormBodyCode | api/oauth/token.js:18-22 | A form-encoded body made of a code reads back as that code |
| OAuthToken.FormBodyText | api/oauth/token.js:18-22 | A form-encoded text body gives its `code` parameter, or '' |
| OAuthToken.JsonBodyCode | api/oauth/token.js:28-31 | A JSON body made of a code reads back as that code unless the content type also says form |
| OAuthToken.QueryCode | api/oauth/token.js:34-36 | Without a recognised body type the code comes from the query string |
| OAuthToken.Handler | api/oauth/token.js:39-78 | Non-POST gives 405 with no store access; an empty code gives 400 `invalid_request` before anything is consumed; otherwise the code is redeemed |
| OAuthToken.Redeem | api/oauth/token.js:56-73 | A code with no live subject gives 400 `invalid_grant`; a live one is removed and answered with a seven-day bearer token for that subject |
| OAuthToken.StaysConsumed | api/oauth/token.js:56-63 | A code that yields nothing, or has been removed, yields nothing at any later time |
| OAuthToken.PresentTwice | api/oauth/token.js:56-63 | The same code presented twice in a row is refused the second time |
| AppToken.Body | api/token.js:13 | A text body is parsed as JSON, empty text as {}, malformed text throwing; any other truthy body passes through |
| AppToken.EmptyTextBody | api/token.js:13 | An empty text body reads as {} and so carries no code |
| AppToken.Handler | api/token.js:8-38 | Non-POST gives 405; malformed text gives 500 before anything is consumed; a missing code gives 400 `invalid_request`; otherwise the code is redeemed |
| AppToken.Redeem | api/token.js:22-33 | A code with no live subject gives 400 `invalid_grant`; a live one is removed and answered with `{token, token_type, expires_in}` for that subject |
| AppAuth.BearerToken | api/_auth.js:11 | The extracted token has no leading or trailing white space |
| AppAuth.BearerRoundTrip | api/_auth.js:8-11 | `Bearer` in any letter case, white space, then a trimmed token gives exactly that token back |
| AppAuth.VerifyAppAuth | api/_auth.js:6-19 | No bearer header gives `missing_bearer`; a rejected token `invalid_token`; a payload without truthy sub `invalid_sub`; otherwise ok with `String(sub)` |
| AppAuth.VerifyOutcomes | api/_auth.js:11-18 | For a well-formed header, the outcome follows the verifier's verdict on exactly its token |
| Env.Validate | config/env.ts:7-46 | An environment passes exactly when NODE_ENV, if set, names a known environment, both URLs are set and parse, and the client id, secret and store token are non-empty. A configuration that passes holds those variables and the optional TTL unchanged |
| Env.ValidateDefaults | config/env.ts:24-31 | An unset redirect path, scope or NODE_ENV takes its default; a set one is kept |
| Env.ValidateRequires | config/env.ts:10-41 | Any missing required variable fails validation |
| Env.TrimTrailingSlashes | config/env.ts:95 | The result is the input less its run of trailing '/', and does not end in '/' |
| Env.TrimSlashesOf | config/env.ts:95 | A base followed by any number of slashes trims back to the base |
| Env.LeadingSlash | config/env.ts:96-98 | The path always starts with '/' |
| Env.RedirectUriJoin | config/env.ts:92-100 | The redirect URI is the trimmed base and the path joined by exactly one '/' |
| Env.RedirectUriDefault | config/env.ts:24-27 | With the default path the redirect URI is the base followed by `/api/oauth/callback` |
| Env.DefaultTtlOfDecimal | config/env.ts:108-110 | A TTL written as decimal digits is read back as that number of seconds |
| Env.DefaultTtlFallback | config/env.ts:111-112 | An unset, empty or non-numeric TTL gives 2592000 seconds |
| Env.EnvCache.GetEnv | config/env.ts:56-85 | The first valid configuration is cached and returned from then on; a failed validation throws and caches nothing |
| Env.GetEnvTwice | config/env.ts:56-58 | A second call returns the same configuration as a successful first one |
| StravaClient.AuthorizeParamsGet | lib/strava.ts:29-38 | The redirect_uri parameter is the configured redirect URI and the state is the given one |
| StravaClient.AuthorizeUrlReadsBack | lib/strava.ts:27-40 | The authorize URL parses to Strava's endpoint and its query reads back as the six parameters, in order |
| StravaClient.AuthorizeUrlInjective | lib/strava.ts:37-40 | Different states give different URLs |
| StravaClient.TokenResult | lib/strava.ts:57-63 | The token endpoint yields a body only for a 2xx reply; otherwise it throws |
| StravaClient.ExchangeCodeForToken | lib/strava.ts:43-64 | The configuration is read first, then one form with grant_type authorization_code is posted |
| StravaClient.RefreshAccessToken | lib/strava.ts:66-87 | The configuration is read first, then one form with grant_type refresh_token and the given token is posted |
| StravaClient.PostToken | lib/strava.ts:46-63 | One POST to the token endpoint, whose reply decides the outcome |
| Activities.PageQuery | api/activities.js:38-43 | The page query is `after`, `per_page=100` and `page`, form-encoded |
| Activities.PageRequestsAt | api/activities.js:37-46 | The k-th request asks for page k+1 with the same token and window |
| Activities.PageOutcome | api/activities.js:46-51 | A non-2xx page is answered with its status and body; a 2xx page yields its items |
| Activities.PageAt | api/activities.js:37-47 | The page read after k earlier pages is the next reply's outcome |
| Activities.PageCountBound | api/activities.js:56-61 | At least one and at most five pages are fetched |
| Activities.PaginateConcat | api/activities.js:53 | A successful listing is the concatenation of the fetched pages, in fetch order |
| Activities.PaginateFailure | api/activities.js:48-51 | A failed listing is exactly the last page's outcome: earlier items are dropped |
| Activities.PaginateBound | api/activities.js:56-61 | When the provider honours `per_page`, a listing has at most 500 items |
| Activities.FetchActivities | api/activities.js:31-62 | The loop returns the paginated listing, sends exactly the requests for pages 1 to the page count, and consumes that many replies |
| Activities.Advance | api/activities.js:53-57 | A full page below the guard moves the loop on to the next page |
| Activities.Finish | api/activities.js:48-61 | A failed, short or fifth page ends the loop with the listing |
| Activities.Step | api/activities.js:37-61 | One iteration keeps the loop invariant or ends with the listing |
| Activities.Decide | api/activities.js:48-61 | The branch order of the loop body: failure, append, short page, guard |
| Activities.FetchNth | api/activities.js:38-47 | Page `page` is fetched as the `page`-th request and answer |
| Activities.FetchPage | api/activities.js:38-47 | One page request is sent and its reply's outcome returned |
| Activities.Handler | api/activities.js:8-71 | Non-GET gives 405; no bearer gives 401 `missing_token` with nothing verified or read; a malformed JWT gives 401 and any other error 500 |
| Activities.Serve | api/activities.js:23-65 | No provider token gives 401 `no_strava_token`; otherwise the listing fetched with the token is the answer |
| TokenRoute.GrantFormFields | app/api/oauth/token/route.ts:30-38 | A code is exchanged even when a refresh token is present; only without a code is the refresh token used |
| TokenRoute.Granted | app/api/oauth/token/route.ts:30-38 | A grant yields tokens only for a 2xx reply |
| TokenRoute.GrantedTokens | app/api/oauth/token/route.ts:30-51 | The success answer is `{ok: true, tokens}` with athlete_id from the provider's athlete.id |
| TokenRoute.Post | app/api/oauth/token/route.ts:13-56 | A body that is not JSON, or is null, answers 500 before anything is sent; neither code nor refresh token gives 400 |
| TokenRoute.Grant | app/api/oauth/token/route.ts:21-55 | One form is posted; a failure answers 500 and writes nothing; a success is saved under `athlete_id` exactly when that is truthy |
| TokenRoute.Obtain | app/api/oauth/token/route.ts:30-38 | The exchange or the refresh is posted, then its answer mapped |
| OpenAiAuthorize.StateReused | app/api/oauth/openai-authorize/route.ts:29 | A caller's state is reused as it is; only a missing or empty one is generated |
| OpenAiAuthorize.AuthorizeUrlReadsBack | app/api/oauth/openai-authorize/route.ts:38-47 | The provider receives exactly the six parameters, the assistant's redirect URI and the forwarded state among them |
| OpenAiAuthorize.Handle | app/api/oauth/openai-authorize/route.ts:16-57 | Without a scope, an invalid configuration throws (500) before anything else; a missing redirect_uri gives 400 and saves nothing; otherwise `{user_id, tool_redirect_uri, createdAt}` is saved under the chosen state before the 302 to the provider |
| Utils.AfterTimestamp | lib/utils.ts:16-19 | The bound is the whole second at or before `days` days (default 28) ago |
| Utils.AfterMonotone | lib/utils.ts:17-18 | A larger `days` never gives a later bound |
| Utils.AfterWholeDays | lib/utils.ts:16-19 | The bound is the current second less `days` × 86400 |
| Utils.AfterDefault | lib/utils.ts:16-19 | The default window is the one api/activities.js computes for itself |
| Utils.JsonOk | lib/utils.ts:22-24 | The answer is JSON with the given status, 200 by default |
| Utils.JsonOkFields | lib/utils.ts:22-24 | The answer reads `ok: true` and carries the data |
| Utils.JsonError | lib/utils.ts:26-31 | The answer is a JSON object with the given status, 500 by default |
| Utils.JsonErrorFields | lib/utils.ts:26-31 | `meta` wins over `ok` and `error`; without it `ok` is false and `error` the message |
| Base64Url.DecodeEncode | api/oauth/callback.js:12 | Decoding base64url text gives back the bytes that were encoded |
| Utf8.DecodeEncode | api/oauth/callback.js:12 | Decoding UTF-8 gives back the text that was encoded |
| JsonTextRoundTrip.SerializeParse | lib/redis.ts:84-96 | Parsing the JSON text of a value gives the value back |
| FormUrlEncoded.ParseSerialize | api/oauth/token.js:20-21 | Parsing a serialized parameter list gives the list back |
| FormUrlEncoded.SetGet | api/oauth/callback.js:21-22 | After `set`, the name has exactly one value, the one set |
| WhatwgUrl.ParseHref | app/api/oauth/callback/route.ts:64-69 | A well-formed URL's href parses back to that URL |
| WhatwgUrl.ParseValid | app/api/oauth/callback/route.ts:64-69 | Whatever parses is well-formed (lower-case scheme and special host, encoded components, rooted path), and its href parses back to it |
| WhatwgUrl.BackslashEndsHost | api/oauth/authorize.js:14 | For a special scheme a `\` ends the host as '/' does: no credentials are read from what follows, and the path starts with '/' |
| WhatwgUrl.SpaceInPath | app/api/oauth/callback/route.ts:64-68 | A space in a path is serialized as `%20` |
| WhatwgUrl.SetSearchParamGet | api/oauth/callback.js:21-22 | Setting a search parameter makes it read back as the value set and leaves other names alone |
| Decimal.IntToStringRoundTrip | lib/redis.ts:140-145 | `Number(String(id))` is the id |

## Left out

- Network I/O is not modelled. The `fetch` calls to Strava and the Upstash client are the scripted `Remote.Provider` and `Kv.Store` objects.
- Store failures are all-or-nothing. An unreachable store fails every call of the request, so a store that fails partway through a request is not modelled.
- The Upstash client's own serialization is not modelled. Writes store text, and a read may also hand back an already-decoded document (`Kv.Value.Doc`).
- The lazy `redis()` singleton is not modelled: every helper takes the store as a parameter.
- JWT signing and verification are function parameters (`LegacyEnv.Signer`, `LegacyEnv.Verifier`), as are the random bytes of a one-time code and the random state of openai-authorize.
- Time is a parameter. `Date.now()` is one epoch-millisecond value per request.
- The zod schema is reduced to what the code relies on: enum membership, URL parsability and non-empty strings. Its error formatting is not modelled.
- Numbers are integers. Floats and NaN are not modelled, except that a missing expiry never counts as "soon". `parseInt` is exact, with no 2^53 precision limit.
- `JsonText.Parse`, `Activities.PageOutcome` and `StravaClient.TokenResult`: any body holding a non-integer number (a fraction or an exponent) is a parse failure in the model. Such an activities page is answered 500, and such a token reply throws as an unparsable one would.
- `Tokens.Mask`: counts characters rather than UTF-16 code units.
- `Activities.Decide`: a string page spreads one item per character rather than per UTF-16 code unit.
- Object spread covers objects only. Spreading a string or an array into an object is not modelled (`JsonValue.OwnFields`).
- `JsonText.Parse`: a `\u` escape of a lone surrogate (such as `"\uD800"` with no low surrogate after it) makes the text unparsable, where `JSON.parse` accepts it. A Dafny `char` cannot hold a lone surrogate. `RedisHelpers.GetJson` therefore gives null for such text where the source gives a value.
- `JsonValue.NumberOfText`: only blank text and optionally signed decimal integers are numbers. `Number(...)` also reads the `0x`, `0o` and `0b` literals, fractions, exponents and `Infinity`, which the model reads as NaN. A stored `expires_at` written that way never counts as expiring soon in `Tokens.ExpiresSoon` and always counts as expired in `LegacyStore.StillValid`. An athlete index written that way reads as NaN in `RedisHelpers.ReadAthleteIndex`.
- `Tokens.MaskToken`: an object token with its own `length` property is treated like any other object, so masking it throws. The source would compare that property with 4 and could return a run of '*' instead.
- `Base64Url.Decode` follows Node's lenient decoder: it reads both the URL-safe and the standard alphabet, skips any other character and stops at the first '='. A lone trailing character gives no byte.
- `WhatwgUrl.Parse`: follows the WHATWG basic URL parser, without a base URL, for hierarchical URLs. It trims leading and trailing C0 controls and spaces and removes TAB, LF and CR. It treats `\` as '/' for special schemes and skips any run of slashes after a special scheme. It splits credentials at the last '@', lower-cases special hosts, drops the default port and percent-encodes every component with its encode set. Some inputs give `None` although Node would accept them or would rewrite them first: hosts with non-ASCII characters or '%' (IDNA and percent-decoding of hosts), hosts with an `xn--` label, IPv6 literals, IPv4 addresses written other than as four decimal octets (hex, octal or fewer parts), paths with a `.` or `..` segment (also `%2e` forms), the `file` scheme, and non-special URLs without `//` (opaque paths).
- Logging (lib/logger.ts, api/_log.js) is not modelled. `genReqId` is not modelled either.
- The HTML text of the fallback pages is not modelled; `renderFallbackHtml` is only a fallback answer. The legacy fallback page records only the one-time code it shows.
- `stravaFetch` is modelled for GET without `init` headers or body. Its refresh path and guards are complete.
- The texts of thrown error messages follow the source where a response or test reads them, and are otherwise approximate.
- A Next.js route that throws is answered with a bare 500 (`Js.Unhandled`). A `NextResponse.json` whose status is out of range would throw a `RangeError`; this is not modelled.
- Response headers other than `Location` are not modelled.
- `Activities.PaginateBound`: the at-most-500 bound needs the provider to honour `per_page=100`. The code itself appends whatever a page holds.
- Concurrency is not modelled. Refreshes can race, and the read-then-delete of one-time codes and state records is not atomic. `OneTimeCodes.ConsumeTwice` and `OAuthToken.PresentTwice` therefore claim at-most-once use only for calls made one after the other.
- lib/normalize.ts is not part of this model. It does floating-point arithmetic and week computations on `Date`.
- The debug, relay, link and thin proxy routes are not part of this model. Nor are app/api/debug/flush-tokens/route.ts, api/me.js and api/ping.js.
- `fetchActivities` in lib/strava.ts is not part of this model.
- `isProd` in config/env.ts is not part of this model.
