/** broker.go, second half of handleTokenAuthCode: from the upstream reply to the token response. */
module TokenResponse {
  import opened Wrappers
  import opened GoStrings
  import opened Wire
  import opened Clock
  import opened Configuration
  import opened TokenClaims
  import opened Validator
  import opened Refresh
  import opened BrokerState
  import ClaimRules
  import JsonText

  datatype OAuthError =
    | InvalidRequest | InvalidClient | InvalidGrant | InvalidTarget | UnsupportedGrantType | ServerError

  datatype Failure = Failure(status: int, error: OAuthError)

  datatype TokenBody = TokenBody(
    accessToken: Text,
    idToken: Text,
    refreshToken: Text,
    tokenType: Text,
    expiresIn: int,
    scope: Text,
    error: Text)

  /** Upstream's answer to the code exchange; `body` is None when it is not JSON. */
  datatype UpstreamReply = TransportError | Unreadable | Answered(status: int, body: Option<TokenBody>)

  /** Everything the second half reads from outside: replies, keys and clocks. */
  datatype FinishEnv = FinishEnv(
    upstream: UpstreamReply,
    idKeys: KeyLookup,
    userInfo: Option<Object>,
    refresh: RefreshEnv,
    refreshClock: int,
    refreshedClock: int,
    wrapClock: int,
    replyClock: int,
    nonce: nat)

  /** The JSON response; `scope` before Google's scope URIs are renamed. */
  datatype Response = Response(accessToken: Text, tokenType: Text, expiresIn: int, scope: Text)

  /** A response with the identity it rests on; `idToken` is empty on the userinfo path. */
  datatype Grant = Grant(response: Response, identity: Identity)

  const DEFAULT_EXPIRES_IN: int := 3600

  function Min(a: int, b: int): int {
    if a <= b then a else b
  }

  function Max(a: int, b: int): int {
    if a >= b then a else b
  }

  /** What upstream granted, or the failure reported for its reply. */
  function UpstreamTokens(reply: UpstreamReply): Result<TokenBody, Failure> {
    match reply
    case TransportError => Err(Failure(502, ServerError))
    case Unreadable => Err(Failure(502, ServerError))
    case Answered(status, body) =>
      if status >= 300 then Err(Failure(400, InvalidGrant))
      else if body.None? then Err(Failure(502, ServerError))
      else if body.value.error != EMPTY then Err(Failure(400, InvalidGrant))
      else if body.value.accessToken == EMPTY && body.value.idToken == EMPTY then Err(Failure(502, ServerError))
      else Ok(body.value)
  }

  /** fetchUserInfo, given the decoded document (None for every failure to get one). */
  function UserInfoClaims(cfg: Config, userInfo: Option<Object>): Option<Claims> {
    if userInfo.None? then None
    else
      var c := ClaimsFromUserInfo(userInfo.value);
      var c' := if c.issuer == EMPTY then c.(issuer := Lit(cfg.issuer.raw)) else c;
      if IdentityPolicy(cfg, c').Some? then None else Some(c')
  }

  /** The identity before refresh. */
  function FirstIdentity(cfg: Config, body: TokenBody, env: FinishEnv): Option<Identity> {
    if body.idToken != EMPTY then
      match ValidateIdentityToken(cfg, env.idKeys, body.idToken, cfg.clientId)
      case Err(_) => None
      case Ok(c) => Some(Identity(body.idToken, c))
    else
      match UserInfoClaims(cfg, env.userInfo)
      case None => None
      case Some(c) => Some(Identity(EMPTY, c))
  }

  /** Identity and refresh duration to answer with. */
  function FinalIdentity(cfg: Config, body: TokenBody, env: FinishEnv, first: Identity): (Identity, int) {
    if body.idToken != EMPTY && body.refreshToken != EMPTY then
      MaybeRefresh(cfg, first, body.refreshToken, env.refresh, env.refreshClock, env.refreshedClock)
    else (first, 0)
  }

  /** `exp` of the wrapped token, as `time.Time` computes it: of two instants the earlier, in seconds. */
  function WrappedExp(cfg: Config, upstreamExp: int, now: int): int {
    var own := now + AccessTokenTtl(cfg);
    Wrap64(Unix(if upstreamExp > 0 && FromUnix(upstreamExp) < own then FromUnix(upstreamExp) else own))
  }

  predicate Wraps(cfg: Config, idToken: Text) {
    cfg.mode.Gating? && idToken != EMPTY
  }

  function Bearer(cfg: Config, body: TokenBody, id: Identity, env: FinishEnv): Text {
    if Wraps(cfg, id.idToken) then
      EncodeDownstream(cfg.signingSecret, id.idToken,
                       WrappedExp(cfg, id.claims.expiresAt, env.wrapClock) * SECOND, env.nonce)
    else if id.idToken != EMPTY then id.idToken
    else body.accessToken
  }

  /** `expires_in`; `advertised` is the upstream value after a refresh may have replaced it. */
  function ExpiresIn(cfg: Config, id: Identity, advertised: int, now: int): int {
    var remaining := id.claims.expiresAt - Unix(now);
    if Wraps(cfg, id.idToken) then
      var own := AccessTokenTtl(cfg) / SECOND;
      Max(0, if id.claims.expiresAt > 0 then Min(own, remaining) else own)
    else if id.idToken != EMPTY && id.claims.expiresAt > 0 then Max(0, remaining)
    else if advertised > 0 then advertised
    else DEFAULT_EXPIRES_IN
  }

  function Advertised(body: TokenBody, freshDuration: int): int {
    if freshDuration > 0 then freshDuration / SECOND else body.expiresIn
  }

  function FirstNonEmpty(a: Text, b: Text): Text {
    if a != EMPTY then a else b
  }

  function ResponseFor(cfg: Config, issuedScope: Text, body: TokenBody, id: Identity, advertised: int, env: FinishEnv)
    : Response
  {
    Response(Bearer(cfg, body, id, env),
             FirstNonEmpty(body.tokenType, Lit("Bearer")),
             ExpiresIn(cfg, id, advertised, env.replyClock),
             FirstNonEmpty(body.scope, FirstNonEmpty(issuedScope, Lit(Join(cfg.scopes, " ")))))
  }

  /** Identity, refresh, answer. */
  function Settle(cfg: Config, issuedScope: Text, body: TokenBody, env: FinishEnv): Result<Grant, Failure> {
    match FirstIdentity(cfg, body, env)
    case None => Err(Failure(502, ServerError))
    case Some(first) =>
      var (id, duration) := FinalIdentity(cfg, body, env, first);
      Ok(Grant(ResponseFor(cfg, issuedScope, body, id, Advertised(body, duration), env), id))
  }

  /** The response to an upstream reply, as a composition of the parts above. */
  function Finish(cfg: Config, issuedScope: Text, env: FinishEnv): Result<Grant, Failure> {
    match UpstreamTokens(env.upstream)
    case Err(f) => Err(f)
    case Ok(body) => Settle(cfg, issuedScope, body, env)
  }

  /** Bearer, scope, type and lifetime of the response, once token and identity are settled. */
  method Answer(cfg: Config, issuedScope: Text, body: TokenBody, identityClaims: Claims, env: FinishEnv)
    returns (response: Response)
    ensures response == ResponseFor(cfg, issuedScope, body, Identity(body.idToken, identityClaims), body.expiresIn, env)
  {
    var tokenResp := body;
    var bearerToken := tokenResp.idToken;
    if bearerToken == EMPTY {
      bearerToken := tokenResp.accessToken;
    }
    if cfg.mode.Gating? && tokenResp.idToken != EMPTY {
      var expAt := env.wrapClock + AccessTokenTtl(cfg);
      if identityClaims.expiresAt > 0 {
        var upstreamExp := FromUnix(identityClaims.expiresAt);
        if upstreamExp < expAt {
          expAt := upstreamExp;
        }
      }
      bearerToken := EncodeDownstream(cfg.signingSecret, tokenResp.idToken, Wrap64(Unix(expAt)) * SECOND, env.nonce);
    }
    if tokenResp.scope == EMPTY {
      tokenResp := tokenResp.(scope := issuedScope);
    }
    if tokenResp.scope == EMPTY {
      tokenResp := tokenResp.(scope := Lit(Join(cfg.scopes, " ")));
    }
    var tokenType := tokenResp.tokenType;
    if tokenType == EMPTY {
      tokenType := Lit("Bearer");
    }
    var expiresIn := 0;
    if cfg.mode.Gating? && tokenResp.idToken != EMPTY {
      expiresIn := AccessTokenTtl(cfg) / SECOND;
      if identityClaims.expiresAt > 0 {
        var remaining := identityClaims.expiresAt - Unix(env.replyClock);
        if remaining < expiresIn {
          expiresIn := remaining;
        }
      }
    } else if tokenResp.idToken != EMPTY && identityClaims.expiresAt > 0 {
      expiresIn := identityClaims.expiresAt - Unix(env.replyClock);
    } else if tokenResp.expiresIn > 0 {
      expiresIn := tokenResp.expiresIn;
    } else {
      expiresIn := DEFAULT_EXPIRES_IN;
    }
    if expiresIn < 0 {
      expiresIn := 0;
    }
    return Response(bearerToken, tokenType, expiresIn, tokenResp.scope);
  }

  /** Identity from the id_token when there is one, else from userinfo. */
  method Identify(cfg: Config, tokenResp: TokenBody, env: FinishEnv) returns (id: Option<Identity>)
    ensures id == FirstIdentity(cfg, tokenResp, env)
    ensures id.Some? ==> id.value.idToken == tokenResp.idToken
  {
    if tokenResp.idToken != EMPTY {
      var validated := ValidateIdentityToken(cfg, env.idKeys, tokenResp.idToken, cfg.clientId);
      if validated.Err? {
        return None;
      }
      return Some(Identity(tokenResp.idToken, validated.value));
    }
    var fetched := UserInfoClaims(cfg, env.userInfo);
    if fetched.None? {
      return None;
    }
    return Some(Identity(EMPTY, fetched.value));
  }

  /** Settle identity and refresh in one record, updated step by step, and answer. */
  method SettleTokens(cfg: Config, issuedScope: Text, body: TokenBody, env: FinishEnv) returns (r: Result<Grant, Failure>)
    ensures r == Settle(cfg, issuedScope, body, env)
  {
    var tokenResp := body;
    var first := Identify(cfg, tokenResp, env);
    if first.None? {
      return Err(Failure(502, ServerError));
    }
    var identityClaims := first.value.claims;
    if tokenResp.idToken != EMPTY && tokenResp.refreshToken != EMPTY {
      var (next, freshDur) := MaybeRefresh(cfg, Identity(tokenResp.idToken, identityClaims), tokenResp.refreshToken,
                                           env.refresh, env.refreshClock, env.refreshedClock);
      tokenResp := tokenResp.(idToken := next.idToken);
      identityClaims := next.claims;
      if freshDur > 0 {
        tokenResp := tokenResp.(expiresIn := freshDur / SECOND);
      }
    }
    var response := Answer(cfg, issuedScope, tokenResp, identityClaims, env);
    return Ok(Grant(response, Identity(tokenResp.idToken, identityClaims)));
  }

  /** The handler as written, from the upstream reply on. It computes `Finish`. */
  method FinishTokenRequest(cfg: Config, issuedScope: Text, env: FinishEnv) returns (r: Result<Grant, Failure>)
    ensures r == Finish(cfg, issuedScope, env)
  {
    if env.upstream.TransportError? || env.upstream.Unreadable? {
      return Err(Failure(502, ServerError));
    }
    if env.upstream.status >= 300 {
      return Err(Failure(400, InvalidGrant));
    }
    if env.upstream.body.None? {
      return Err(Failure(502, ServerError));
    }
    var tokenResp := env.upstream.body.value;
    if tokenResp.error != EMPTY {
      return Err(Failure(400, InvalidGrant));
    }
    if tokenResp.accessToken == EMPTY && tokenResp.idToken == EMPTY {
      return Err(Failure(502, ServerError));
    }
    r := SettleTokens(cfg, issuedScope, tokenResp, env);
  }

  // ---------------------------------------------------------------- what a response rests on

  /** The identity is that of the id_token of the code exchange, verified by the keys looked up for it. */
  predicate FromExchange(cfg: Config, body: TokenBody, env: FinishEnv, id: Identity) {
    id.idToken == body.idToken && Backed(cfg, env.idKeys, id)
  }

  /** The identity is that of the id_token of the refresh reply, verified by the keys looked up for it. */
  predicate FromRefresh(cfg: Config, env: FinishEnv, id: Identity) {
    && env.refresh.reply.Replied? && env.refresh.reply.body.Some?
    && id.idToken == env.refresh.reply.body.value.idToken && Backed(cfg, env.refresh.keys, id)
  }

  /** Both identities the handler may settle on are backed, each by the keys looked up for its own token. */
  lemma FinalIdentityIsBacked(cfg: Config, body: TokenBody, env: FinishEnv)
    requires FirstIdentity(cfg, body, env).Some?
    ensures var (id, _) := FinalIdentity(cfg, body, env, FirstIdentity(cfg, body, env).value);
            && (body.idToken != EMPTY ==> FromExchange(cfg, body, env, id) || FromRefresh(cfg, env, id))
            && (body.idToken == EMPTY ==> id.idToken == EMPTY && UserInfoClaims(cfg, env.userInfo) == Some(id.claims))
            && IdentityPolicy(cfg, id.claims) == None
  {
    var first := FirstIdentity(cfg, body, env).value;
    if body.idToken != EMPTY {
      ValidatedIffBacked(cfg, env.idKeys, body.idToken, first.claims);
      RefreshKeepsPairing(cfg, env.idKeys, first, body.refreshToken, env.refresh, env.refreshClock, env.refreshedClock);
    }
  }

  /**
   Every token response rests on claims that passed the identity policy. With an id_token those
   claims were verified from exactly the token that is returned or wrapped, by a key of the set
   looked up for that very token; without one they come from userinfo.
   */
  lemma EveryResponseIsBacked(cfg: Config, issuedScope: Text, env: FinishEnv)
    requires Finish(cfg, issuedScope, env).Ok?
    ensures var g := Finish(cfg, issuedScope, env).value;
            && IdentityPolicy(cfg, g.identity.claims) == None
            && (g.identity.idToken != EMPTY ==>
                  FromExchange(cfg, UpstreamTokens(env.upstream).value, env, g.identity)
                  || FromRefresh(cfg, env, g.identity))
            && (g.identity.idToken == EMPTY ==>
                  UserInfoClaims(cfg, env.userInfo) == Some(g.identity.claims)
                  && g.response.accessToken != EMPTY)
            && (g.identity.idToken != EMPTY && cfg.mode.Forward? ==> g.response.accessToken == g.identity.idToken)
            && (g.identity.idToken != EMPTY && cfg.mode.Gating? ==>
                  exists exp, nonce :: g.response.accessToken
                                       == EncodeDownstream(cfg.signingSecret, g.identity.idToken, exp, nonce))
  {
    FinalIdentityIsBacked(cfg, UpstreamTokens(env.upstream).value, env);
  }

  /** fetchUserInfo accepts a document exactly when it passes the identity rules; only a boolean flag verifies an email. */
  lemma UserInfoAcceptedIff(cfg: Config, raw: Object)
    ensures var r := UserInfoClaims(cfg, Some(raw));
            && (r.Some? <==> ClaimRules.IdentityRule(cfg, raw, ClaimRules.Find(raw, EmailVerified) == Some(JBool(true))))
            && (r.Some? ==> r.value.email == ClaimRules.TextAt(raw, Email) && r.value.expiresAt == 0)
            && (r.Some? ==> r.value.issuer == FirstNonEmpty(ClaimRules.TextAt(raw, Iss), Lit(cfg.issuer.raw)))
  {
    var c := ClaimsFromUserInfo(raw);
    ClaimRules.IdentityPolicyIff(cfg, c.(issuer := FirstNonEmpty(c.issuer, Lit(cfg.issuer.raw))));
  }

  /** Upstream granted something: status below 300, a JSON body without an error, and a token in it. */
  predicate Granted(reply: UpstreamReply, body: TokenBody) {
    && reply.Answered? && reply.status < 300 && reply.body == Some(body)
    && body.error == EMPTY && (body.accessToken != EMPTY || body.idToken != EMPTY)
  }

  /** Upstream refused the code: an error status, or an error in a JSON body. */
  predicate Refused(reply: UpstreamReply) {
    reply.Answered? && (reply.status >= 300 || (reply.body.Some? && reply.body.value.error != EMPTY))
  }

  /**
   The handler responds exactly when upstream granted a token and the identity behind it is good:
   that of the id_token if there is one, else that of userinfo. A refusal is reported as
   invalid_grant, everything else as a failure of the server.
   */
  lemma FinishAcceptsIff(cfg: Config, scope: Text, env: FinishEnv)
    ensures Finish(cfg, scope, env).Ok?
            <==> exists body :: Granted(env.upstream, body)
                                && (if body.idToken != EMPTY then
                                      ValidateIdentityToken(cfg, env.idKeys, body.idToken, cfg.clientId).Ok?
                                    else UserInfoClaims(cfg, env.userInfo).Some?)
    ensures Finish(cfg, scope, env).Err? ==>
              Finish(cfg, scope, env).error == if Refused(env.upstream) then Failure(400, InvalidGrant) else Failure(502, ServerError)
  {
    if env.upstream.Answered? && env.upstream.body.Some? {
      var body := env.upstream.body.value;
      assert Granted(env.upstream, body) <==> UpstreamTokens(env.upstream) == Ok(body);
    }
  }

  // ---------------------------------------------------------------- the value of the response

  /** The seconds left until `exp`, or none. */
  function Left(exp: int, now: int): int {
    if exp > Unix(now) then exp - Unix(now) else 0
  }

  /** The configured lifetime in whole seconds, an hour when none is configured. */
  function Lifetime(cfg: Config): int {
    if cfg.accessTokenTtl > 0 then cfg.accessTokenTtl / SECOND else 3600
  }

  /** The non-default scope is upstream's, else that of the code, else the configured ones. */
  predicate ScopeOf(cfg: Config, issued: Text, upstream: Text, scope: Text) {
    || (upstream != EMPTY && scope == upstream)
    || (upstream == EMPTY && issued != EMPTY && scope == issued)
    || (upstream == EMPTY && issued == EMPTY && scope == Lit(Join(cfg.scopes, " ")))
  }

  /**
   `expires_in` of every response. An id_token with an `exp` counts down to it, in gating mode at
   most for the configured lifetime; a wrapped token without one gets that lifetime; otherwise
   upstream's positive value counts, else an hour.
   */
  lemma ExpiresInIs(cfg: Config, scope: Text, env: FinishEnv)
    requires Finish(cfg, scope, env).Ok?
    ensures var g, body := Finish(cfg, scope, env).value, UpstreamTokens(env.upstream).value;
            var exp, e := g.identity.claims.expiresAt, g.response.expiresIn;
            && (cfg.mode.Forward? && g.identity.idToken != EMPTY && exp > 0 ==> e == Left(exp, env.replyClock))
            && (cfg.mode.Gating? && g.identity.idToken != EMPTY && exp > 0 ==>
                  e == Left(exp, env.replyClock) <= Lifetime(cfg) || e == Lifetime(cfg) < Left(exp, env.replyClock))
            && (cfg.mode.Gating? && g.identity.idToken != EMPTY && exp <= 0 ==> e == Lifetime(cfg))
            && (g.identity.idToken == EMPTY ==> e == if body.expiresIn > 0 then body.expiresIn else 3600)
            && (cfg.mode.Forward? && g.identity.idToken != EMPTY && exp <= 0 && RefreshDuration(cfg, env) <= 0 ==>
                  e == if body.expiresIn > 0 then body.expiresIn else 3600)
  {
  }

  /** The bearer, scope and type of every response; the userinfo path hands out upstream's access token. */
  lemma ResponseIs(cfg: Config, scope: Text, env: FinishEnv)
    requires Finish(cfg, scope, env).Ok?
    ensures var g, body := Finish(cfg, scope, env).value, UpstreamTokens(env.upstream).value;
            && (g.identity.idToken == EMPTY <==> body.idToken == EMPTY)
            && (g.identity.idToken == EMPTY ==> g.response.accessToken == body.accessToken)
            && (g.identity.idToken != EMPTY && cfg.mode.Forward? ==> g.response.accessToken == g.identity.idToken)
            && ScopeOf(cfg, scope, body.scope, g.response.scope)
            && g.response.tokenType == if body.tokenType == EMPTY then Lit("Bearer") else body.tokenType
  {
    FinalIdentityIsBacked(cfg, UpstreamTokens(env.upstream).value, env);
  }

  // ---------------------------------------------------------------- lifetimes

  /** 0 <= expires_in, and a wrapped token never advertises more than its configured lifetime. */
  lemma ExpiresInBounds(cfg: Config, issuedScope: Text, env: FinishEnv)
    requires Finish(cfg, issuedScope, env).Ok?
    ensures var g := Finish(cfg, issuedScope, env).value;
            && g.response.expiresIn >= 0
            && (Wraps(cfg, g.identity.idToken) ==> g.response.expiresIn <= AccessTokenTtl(cfg) / SECOND)
            && (g.identity.idToken != EMPTY && g.identity.claims.expiresAt > Unix(env.replyClock) >= 0 ==>
                  Unix(env.replyClock) + g.response.expiresIn <= g.identity.claims.expiresAt)
  {
  }

  /** `exp` is an int64, and the end of the configured lifetime is an instant that `time.Time` holds. */
  predicate Representable(cfg: Config, upstreamExp: int, now: int) {
    upstreamExp <= MAX_INT64 && 0 <= Unix(now) && Unix(now + AccessTokenTtl(cfg)) <= LAST_SECOND
  }

  /**
   Comparing instants and truncating is taking the minimum of the configured lifetime and the
   upstream expiry in seconds, exactly for an `exp` within the range of `time.Unix`; a later one
   wraps around in the comparison, wins it, and becomes the wrapped `exp`.
   */
  lemma WrapInstant(cfg: Config, upstreamExp: int, now: int)
    requires Representable(cfg, upstreamExp, now)
    ensures var own := Unix(now + AccessTokenTtl(cfg));
            && (upstreamExp <= 0 ==> WrappedExp(cfg, upstreamExp, now) == own)
            && (upstreamExp > 0 ==>
                  (WrappedExp(cfg, upstreamExp, now) == Min(own, upstreamExp) <==> upstreamExp <= LAST_SECOND))
            && (upstreamExp > LAST_SECOND ==> WrappedExp(cfg, upstreamExp, now) == upstreamExp > own)
  {
    if upstreamExp > 0 {
      FromUnixIff(upstreamExp);
      if upstreamExp > LAST_SECOND {
        assert FromUnix(upstreamExp) == (upstreamExp - 0x1_0000_0000_0000_0000) * SECOND;
      }
    }
  }

  /** The wrapped `exp` is never after the upstream one. */
  lemma WrappedWithinUpstream(cfg: Config, upstreamExp: int, now: int)
    requires Representable(cfg, upstreamExp, now) && upstreamExp > 0
    ensures 0 <= WrappedExp(cfg, upstreamExp, now) <= upstreamExp
  {
    WrapInstant(cfg, upstreamExp, now);
  }

  /**
   The largest float64 below 2^63 is such an `exp`, and reaches the comparison unchanged. The
   bearer that wraps it lives until then, though the response advertises the configured lifetime.
   */
  lemma WrapCanExceedLifetime(cfg: Config, id: Identity, advertised: int, now: int)
    requires Wraps(cfg, id.idToken) && id.claims.expiresAt == 9223372036854774784
    requires Representable(cfg, id.claims.expiresAt, now)
    ensures JsonText.Float64(9223372036854774784) == 9223372036854774784
    ensures WrappedExp(cfg, id.claims.expiresAt, now) == 9223372036854774784 > Unix(now + AccessTokenTtl(cfg))
    ensures ExpiresIn(cfg, id, advertised, now) == AccessTokenTtl(cfg) / SECOND
  {
    WrapInstant(cfg, id.claims.expiresAt, now);
    LargestFloat64();
  }

  lemma LargestFloat64()
    ensures JsonText.Float64(9223372036854774784) == 9223372036854774784
  {
    assert JsonText.Ulp(9007199254740991) == 1;
    assert JsonText.Ulp(18014398509481982) == 2;
    assert JsonText.Ulp(36028797018963964) == 4;
    assert JsonText.Ulp(72057594037927928) == 8;
    assert JsonText.Ulp(144115188075855856) == 16;
    assert JsonText.Ulp(288230376151711712) == 32;
    assert JsonText.Ulp(576460752303423424) == 64;
    assert JsonText.Ulp(1152921504606846848) == 128;
    assert JsonText.Ulp(2305843009213693696) == 256;
    assert JsonText.Ulp(4611686018427387392) == 512;
    JsonText.Float64ExactIff(9223372036854774784);
  }

  /**
   A wrapped token outlives what `expires_in` advertises, up to the time the handler itself took,
   exactly when the upstream token was unexpired (or carried no expiry) at wrapping.
   */
  lemma AdvertisedWithinWrappedIff(cfg: Config, id: Identity, advertised: int, wrapClock: int, replyClock: int)
    requires Wraps(cfg, id.idToken) && Unix(wrapClock) <= Unix(replyClock)
    requires Representable(cfg, id.claims.expiresAt, wrapClock)
    ensures var u1, u2 := Unix(wrapClock), Unix(replyClock);
            u2 + ExpiresIn(cfg, id, advertised, replyClock)
            <= WrappedExp(cfg, id.claims.expiresAt, wrapClock) + (u2 - u1)
            <==> id.claims.expiresAt <= 0 || u1 <= id.claims.expiresAt
  {
    var ttl := AccessTokenTtl(cfg);
    assert Unix(wrapClock + ttl) >= Unix(wrapClock) + ttl / SECOND;
    WrapInstant(cfg, id.claims.expiresAt, wrapClock);
  }

  // ---------------------------------------------------------------- the refresh duration

  /** The refresh duration reaches the response. */
  predicate DurationMatters(cfg: Config, id: Identity, duration: int) {
    cfg.mode.Forward? && id.claims.expiresAt <= 0 && duration > 0
  }

  /** The duration that refresh yields while this reply is handled. */
  function RefreshDuration(cfg: Config, env: FinishEnv): int
    requires UpstreamTokens(env.upstream).Ok? && FirstIdentity(cfg, UpstreamTokens(env.upstream).value, env).Some?
  {
    var body := UpstreamTokens(env.upstream).value;
    FinalIdentity(cfg, body, env, FirstIdentity(cfg, body, env).value).1
  }

  /** `expires_in` as it would be had refresh yielded no duration. */
  function ExpiresInWithout(cfg: Config, scope: Text, env: FinishEnv): int
    requires Finish(cfg, scope, env).Ok?
  {
    ExpiresIn(cfg, Finish(cfg, scope, env).value.identity, UpstreamTokens(env.upstream).value.expiresIn, env.replyClock)
  }

  /**
   What the refresh duration does to a response with an id_token. It counts only in forward mode,
   for a token without a positive `exp`, and when the int64 product came out positive; then
   `expires_in` is its whole seconds, or the default for a product below one second.
   */
  lemma DurationEffect(cfg: Config, scope: Text, env: FinishEnv)
    requires Finish(cfg, scope, env).Ok? && Finish(cfg, scope, env).value.identity.idToken != EMPTY
    ensures var g, d := Finish(cfg, scope, env).value, RefreshDuration(cfg, env);
            g.response.expiresIn == if DurationMatters(cfg, g.identity, d)
                                    then if d >= SECOND then d / SECOND else DEFAULT_EXPIRES_IN
                                    else ExpiresInWithout(cfg, scope, env)
  {
  }

  /**
   With a clock after 1970 the product is positive for such a token only if it wrapped around,
   so within 9223372036 seconds the duration never reaches the response.
   */
  lemma DurationNeverMattersInRange(cfg: Config, scope: Text, env: FinishEnv)
    requires Finish(cfg, scope, env).Ok? && Finish(cfg, scope, env).value.identity.idToken != EMPTY
    requires Unix(env.refreshedClock) >= 0
    requires var exp := Finish(cfg, scope, env).value.identity.claims.expiresAt;
             -9223372036 <= exp - Unix(env.refreshedClock) <= 9223372036
    ensures Finish(cfg, scope, env).value.response.expiresIn == ExpiresInWithout(cfg, scope, env)
  {
    DurationEffect(cfg, scope, env);
    SettledDuration(cfg, scope, env);
    NoOverflow(Finish(cfg, scope, env).value.identity.claims.expiresAt, env.refreshedClock);
  }

  lemma SettledDuration(cfg: Config, scope: Text, env: FinishEnv)
    requires Finish(cfg, scope, env).Ok?
    ensures var exp := Finish(cfg, scope, env).value.identity.claims.expiresAt;
            RefreshDuration(cfg, env) == 0 || RefreshDuration(cfg, env) == LifeLeft(exp, env.refreshedClock)
  {
    var body := UpstreamTokens(env.upstream).value;
    var first := FirstIdentity(cfg, body, env).value;
    DurationIsLifeLeft(cfg, first, body.refreshToken, env.refresh, env.refreshClock, env.refreshedClock);
  }

  /** An id_token for this broker that carries only issuer, audience and expiry. */
  function SampleToken(cfg: Config, exp: int): Text {
    Signed("", "key", map[Iss := JText(Lit(TrimSpace(cfg.issuer.raw))), Aud := JText(Lit(cfg.clientId)), Exp := JNum(exp)])
  }

  /** Upstream grants a token with a minute to live, and refreshes it to one with `exp` -7523372037. */
  function SampleEnv(cfg: Config): FinishEnv {
    var keys := Ok([Jwk("", "key", "", "")]);
    var now := 1700000000 * SECOND;
    FinishEnv(
      Answered(200, Some(TokenBody(Lit("access"), SampleToken(cfg, 1700000060), Lit("refresh"), EMPTY, 3600, EMPTY, EMPTY))),
      keys,
      None,
      RefreshEnv(true, Replied(200, Some(RefreshBody(SampleToken(cfg, -7523372037), EMPTY))), keys),
      now, now, now, now, 0)
  }

  lemma SampleTokenValidates(cfg: Config, exp: int)
    requires cfg.issuerAllowlist == [] && cfg.allowedEmailDomains == [] && cfg.allowedHostedDomains == []
    requires -JsonText.EXACT < exp < JsonText.EXACT
    ensures var r := ValidateIdentityToken(cfg, Ok([Jwk("", "key", "", "")]), SampleToken(cfg, exp), cfg.clientId);
            r.Ok? && r.value.expiresAt == exp
  {
    var token := SampleToken(cfg, exp);
    var keys := [Jwk("", "key", "", "")];
    assert Verifies(keys[0], token);
    JsonText.Float64Exact(exp);
    var c := ClaimsOf(token);
    assert c.audience == [Lit(cfg.clientId)];
    assert c.audience[0] == Lit(cfg.clientId);
  }

  /** Outside that range it does: this forward-mode response advertises 292 years. */
  lemma DurationCanMatter(cfg: Config)
    requires cfg.mode.Forward?
    requires cfg.issuerAllowlist == [] && cfg.allowedEmailDomains == [] && cfg.allowedHostedDomains == []
    ensures var r := Finish(cfg, EMPTY, SampleEnv(cfg));
            r.Ok? && r.value.response.expiresIn == 9223372036
            && ExpiresInWithout(cfg, EMPTY, SampleEnv(cfg)) == 3600
  {
    SampleIsRefreshed(cfg);
    DurationEffect(cfg, EMPTY, SampleEnv(cfg));
  }

  lemma SampleIsRefreshed(cfg: Config)
    requires cfg.issuerAllowlist == [] && cfg.allowedEmailDomains == [] && cfg.allowedHostedDomains == []
    ensures var env := SampleEnv(cfg);
            var first := FirstIdentity(cfg, UpstreamTokens(env.upstream).value, env);
            && first.Some?
            && var (id, d) := FinalIdentity(cfg, UpstreamTokens(env.upstream).value, env, first.value);
               id.idToken != EMPTY && id.claims.expiresAt == -7523372037 && d == 9223372036709551616
  {
    SampleFirstIdentity(cfg);
    SampleRenewal(cfg);
    SampleProduct();
    var env := SampleEnv(cfg);
    var first := FirstIdentity(cfg, UpstreamTokens(env.upstream).value, env).value;
    RefreshIsTaken(cfg, first, Lit("refresh"), env.refresh, env.refreshClock, env.refreshedClock);
  }

  lemma SampleProduct()
    ensures Unix(1700000000 * SECOND) == 1700000000
    ensures LifeLeft(-7523372037, 1700000000 * SECOND) == 9223372036709551616
  {
    assert -7523372037 - Unix(1700000000 * SECOND) == -9223372037;
  }

  lemma SampleFirstIdentity(cfg: Config)
    requires cfg.issuerAllowlist == [] && cfg.allowedEmailDomains == [] && cfg.allowedHostedDomains == []
    ensures var env := SampleEnv(cfg);
            var first := FirstIdentity(cfg, UpstreamTokens(env.upstream).value, env);
            first.Some? && first.value.claims.expiresAt == 1700000060
  {
    SampleTokenValidates(cfg, 1700000060);
  }

  lemma SampleRenewal(cfg: Config)
    requires cfg.issuerAllowlist == [] && cfg.allowedEmailDomains == [] && cfg.allowedHostedDomains == []
    ensures var renewed := RefreshUpstreamIdToken(cfg, SampleEnv(cfg).refresh);
            renewed.Some? && renewed.value.idToken != EMPTY && renewed.value.claims.expiresAt == -7523372037
  {
    SampleTokenValidates(cfg, -7523372037);
  }
}
