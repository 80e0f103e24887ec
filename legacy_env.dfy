/**
 * What the `api/` handlers read from the process environment when their module loads
 * (`PUBLIC_BASE_URL`, `STRAVA_CLIENT_ID`, `STRAVA_CLIENT_SECRET`, `JWT_SECRET`), and the app-token
 * signer and verifier (jsonwebtoken), which the model takes as given functions.
 */
module LegacyEnv {
  import opened Wrappers
  import opened JsonValue

  /** The variables as read; `None` is an unset variable. */
  datatype Env = Env(base: Option<string>, clientId: Option<string>, clientSecret: Option<string>, jwtSecret: Option<string>)

  /** A set, non-empty variable (the handlers test `!CID`, `!BASE`, ...). */
  predicate Present(v: Option<string>) {
    v.Some? && v.value != ""
  }

  /** `String(v)` for a variable: an unset one reads "undefined". */
  function TextOf(v: Option<string>): string {
    if v.Some? then v.value else "undefined"
  }

  /** `process.env.JWT_SECRET || 'change-me'`. */
  function JwtSecret(e: Env): string {
    if Present(e.jwtSecret) then e.jwtSecret.value else "change-me"
  }

  /** The provider-facing callback, `${BASE}/api/oauth/callback`. */
  function CallbackUri(base: string): string {
    base + "/api/oauth/callback"
  }

  /** App tokens last seven days (`expiresIn: '7d'`, `expires_in: 7 * 24 * 3600`). */
  const AppTokenLifetime: nat := 7 * 24 * 3600

  /** The outcome of `jwt.verify`: the payload, or the error it throws (its `name` and `message`). */
  datatype Verification = Verified(payload: Json) | Rejected(name: string, message: string)

  /** `jwt.sign(payload, secret, { expiresIn })`. */
  type Signer = (Json, string, nat) -> string

  /** `jwt.verify(token, secret)`. */
  type Verifier = (string, string) -> Verification

  /** `jwt.sign({ sub }, JWT_SECRET, { expiresIn: '7d' })`: the app token for a subject. */
  function AppToken(sign: Signer, e: Env, sub: string): string {
    sign(Record([("sub", Some(Str(sub)))]), JwtSecret(e), AppTokenLifetime)
  }
}
