/**
 * App-token authentication of the `api/` handlers (api/_auth.js): an `Authorization: Bearer <jwt>`
 * header, the bearer word in any letter case, is verified with the app secret and must carry a `sub`.
 */
module AppAuth {
  import opened Wrappers
  import opened JsonValue
  import WhatwgUrl
  import LegacyEnv

  /** `{ok: true, sub}` or `{ok: false, error}`. */
  datatype AuthResult = Authorized(sub: string) | Refused(error: string)

  const BearerWord: string := "bearer"

  /** `/^Bearer\s+/i.test(h)`: the word in any ASCII letter case, then at least one white-space character. */
  predicate HasBearer(h: string) {
    |h| > 6 && WhatwgUrl.Lower(h[..6]) == BearerWord && IsJsSpace(h[6])
  }

  /** `h.replace(/^Bearer\s+/i, '').trim()`: the word and the whole run of white space after it go, then the end is trimmed. */
  function BearerToken(h: string): (t: string)
    requires HasBearer(h)
    ensures t == [] || (!IsJsSpace(t[0]) && !IsJsSpace(t[|t| - 1]))
  {
    Trim(TrimStart(h[6..]))
  }

  /** The header a client builds from a token with no surrounding white space gives that token back. */
  lemma BearerRoundTrip(word: string, gap: string, token: string)
    requires |word| == 6 && WhatwgUrl.Lower(word) == BearerWord
    requires gap != [] && forall i | 0 <= i < |gap| :: IsJsSpace(gap[i])
    requires token == [] || (!IsJsSpace(token[0]) && !IsJsSpace(token[|token| - 1]))
    ensures HasBearer(word + gap + token)
    ensures BearerToken(word + gap + token) == token
  {
    var h := word + gap + token;
    assert h[..6] == word;
    assert h[6] == gap[0];
    assert h[6..] == gap + token;
    SkipSpaces(gap, token);
    TrimmedAlready(token);
  }

  lemma {:induction false} SkipSpaces(gap: string, rest: string)
    requires forall i | 0 <= i < |gap| :: IsJsSpace(gap[i])
    requires rest == [] || !IsJsSpace(rest[0])
    ensures TrimStart(gap + rest) == rest
    decreases |gap|
  {
    if gap == [] {
      assert gap + rest == rest;
    } else {
      assert (gap + rest)[1..] == gap[1..] + rest;
      SkipSpaces(gap[1..], rest);
    }
  }

  lemma TrimmedAlready(t: string)
    requires t == [] || (!IsJsSpace(t[0]) && !IsJsSpace(t[|t| - 1]))
    ensures Trim(t) == t
  {
  }

  /**
   * `verifyAppAuth(req)` with the two spellings of the header: no bearer header is `missing_bearer`,
   * a token the verifier rejects `invalid_token`, a payload without a truthy `sub` `invalid_sub`, and
   * otherwise the request is authorized as `String(sub)`.
   */
  function VerifyAppAuth(authorization: Option<string>, capitalized: Option<string>, e: LegacyEnv.Env,
                         verify: LegacyEnv.Verifier): (r: AuthResult)
    ensures var h := if LegacyEnv.Present(authorization) then authorization else capitalized;
      && (r == Refused("missing_bearer") <==> !(LegacyEnv.Present(h) && HasBearer(h.value)))
      && (r.Authorized? ==>
            var v := verify(BearerToken(h.value), LegacyEnv.JwtSecret(e));
            v.Verified? && Truthy(Get(v.payload, "sub")) && r.sub == JsString(Get(v.payload, "sub").value))
  {
    var h := if LegacyEnv.Present(authorization) then authorization else capitalized;
    if !LegacyEnv.Present(h) || !HasBearer(h.value) then Refused("missing_bearer")
    else
      match verify(BearerToken(h.value), LegacyEnv.JwtSecret(e))
      case Rejected(_, _) => Refused("invalid_token")
      case Verified(payload) =>
        if !Truthy(Get(payload, "sub")) then Refused("invalid_sub")
        else Authorized(JsString(Get(payload, "sub").value))
  }

  /** The outcome for a well-formed bearer header follows the verifier's verdict on exactly its token. */
  lemma VerifyOutcomes(word: string, gap: string, token: string, e: LegacyEnv.Env, verify: LegacyEnv.Verifier)
    requires |word| == 6 && WhatwgUrl.Lower(word) == BearerWord
    requires gap != [] && forall i | 0 <= i < |gap| :: IsJsSpace(gap[i])
    requires token == [] || (!IsJsSpace(token[0]) && !IsJsSpace(token[|token| - 1]))
    ensures var r := VerifyAppAuth(Some(word + gap + token), None, e, verify);
      match verify(token, LegacyEnv.JwtSecret(e))
      case Rejected(_, _) => r == Refused("invalid_token")
      case Verified(p) => r == if Truthy(Get(p, "sub")) then Authorized(JsString(Get(p, "sub").value)) else Refused("invalid_sub")
  {
    var h := word + gap + token;
    BearerRoundTrip(word, gap, token);
    assert LegacyEnv.Present(Some(h));
  }
}
