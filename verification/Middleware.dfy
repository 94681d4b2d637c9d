/** middleware.go: from the Authorization header to accepted claims, and the life of a minted bearer. */
module Middleware {
  import opened Wrappers
  import opened GoStrings
  import opened Wire
  import opened Clock
  import opened Configuration
  import opened TokenClaims
  import opened Validator
  import opened BrokerState
  import opened Refresh
  import opened TokenResponse
  import JsonText

  /** The Authorization header: absent, plain characters, or characters followed by an artifact. */
  datatype Header = Absent | Plain(value: string) | Carrying(prefix: string, token: Text)

  predicate BearerScheme(s: string) {
    |s| >= 7 && EqualFold(s[..7], "Bearer ")
  }

  /** extractBearer */
  function ExtractBearer(h: Header): Text {
    match h
    case Absent => EMPTY
    case Plain(s) => if BearerScheme(s) then Lit(TrimSpace(s[7..])) else EMPTY
    case Carrying(p, t) => if BearerScheme(p) && TrimSpace(p[7..]) == "" then TrimSpaceText(t) else EMPTY
  }

  /** What the next handler sees: the raw bearer, and claims unless validation was a soft pass. */
  datatype Passed = Passed(raw: Text, claims: Option<Claims>)

  /** The token that is validated: the wrapped id_token when the bearer opens, else the bearer itself. */
  function Unwrap(cfg: Config, bearer: Text, openClock: int): Text {
    if cfg.mode.Gating? && cfg.signingSecret != "" then
      match DecodeDownstream(cfg.signingSecret, bearer, openClock)
      case Ok(inner) => inner
      case Err(_) => bearer
    else bearer
  }

  /** Middleware. `openClock` is read when opening the bearer and `checkClock` when checking claims. */
  function Admit(cfg: Config, h: Header, keys: KeyLookup, openClock: int, checkClock: int): Result<Passed, TokenError> {
    var bearer := ExtractBearer(h);
    if bearer == EMPTY then Err(MissingToken)
    else
      match Validate(cfg, keys, Unwrap(cfg, bearer, openClock), checkClock)
      case Err(e) => Err(e)
      case Ok(claims) => Ok(Passed(bearer, claims))
  }

  /** The header a client sends with a bearer. */
  function Presenting(bearer: Text): Header {
    Carrying("Bearer ", bearer)
  }

  /** A header is a bearer exactly when it starts with "bearer " in any case; the rest is the token. */
  lemma BearerIs(scheme: string, rest: string)
    requires |scheme| == 7
    ensures ExtractBearer(Plain(scheme + rest)) == if ToLower(scheme) == "bearer " then Lit(TrimSpace(rest)) else EMPTY
  {
    var s := scheme + rest;
    assert s[..7] == scheme && s[7..] == rest;
    assert ToLower("Bearer ") == "bearer ";
  }

  /** Forward mode does not unwrap: an encrypted bearer is passed on as it is, without claims. */
  lemma ForwardPassesSealed(cfg: Config, bearer: Text, keys: KeyLookup, openClock: int, checkClock: int)
    requires cfg.mode.Forward? && bearer.Sealed?
    ensures Admit(cfg, Presenting(bearer), keys, openClock, checkClock) == Ok(Passed(bearer, None))
  {
    PresentedIsExtracted(bearer);
  }

  /** Without a bearer nothing is admitted. */
  lemma NoBearerNoAdmission(cfg: Config, h: Header, keys: KeyLookup, openClock: int, checkClock: int)
    requires h.Absent? || (h.Plain? && |h.value| < 7) || ExtractBearer(h) == EMPTY
    ensures Admit(cfg, h, keys, openClock, checkClock) == Err(MissingToken)
  {
  }

  lemma PresentedIsExtracted(bearer: Text)
    requires !bearer.Lit?
    ensures ExtractBearer(Presenting(bearer)) == bearer
  {
    assert "Bearer "[..7] == "Bearer ";
    assert "Bearer "[7..] == "";
    assert TrimLeftSpace("") == "" && TrimRightSpace("") == "";
  }

  /** Until its exp a wrapped token unwraps to the id_token, and then to itself. */
  lemma WrappedUnwraps(cfg: Config, idToken: Text, exp: int, nonce: nat, openClock: int)
    requires cfg.mode.Gating? && cfg.signingSecret != "" && idToken.Signed?
    ensures var bearer := EncodeDownstream(cfg.signingSecret, idToken, exp * SECOND, nonce);
            Unwrap(cfg, bearer, openClock) == if Unix(openClock) <= JsonText.Float64(exp) then idToken else bearer
  {
    DownstreamDecodes(cfg.signingSecret, idToken, exp * SECOND, nonce, cfg.signingSecret, openClock);
  }

  /**
   A wrapped token is admitted at an instant exactly when its own exp has not passed and the
   inner token validates then; afterwards it is not JWT-shaped and gating mode rejects it for good.
   */
  lemma WrappedAdmittedIff(cfg: Config, idToken: Text, exp: int, nonce: nat, keys: KeyLookup,
                           openClock: int, checkClock: int)
    requires cfg.mode.Gating? && cfg.signingSecret != "" && idToken.Signed?
    ensures var bearer := EncodeDownstream(cfg.signingSecret, idToken, exp * SECOND, nonce);
            var r := Admit(cfg, Presenting(bearer), keys, openClock, checkClock);
            && (Unix(openClock) <= JsonText.Float64(exp) ==>
                  r == match Validate(cfg, keys, idToken, checkClock)
                       case Ok(claims) => Ok(Passed(bearer, claims))
                       case Err(e) => Err(e))
            && (Unix(openClock) > JsonText.Float64(exp) ==> r == Err(TokenError.InvalidToken))
  {
    PresentedIsExtracted(EncodeDownstream(cfg.signingSecret, idToken, exp * SECOND, nonce));
    WrappedUnwraps(cfg, idToken, exp, nonce, openClock);
  }

  /** With 60 s of skew the claims are not expired, not early and not issued in the future. */
  predicate InWindows(c: Claims, now: int) {
    && (c.expiresAt > 0 ==> Unix(now) <= c.expiresAt + 60)
    && (c.notBefore > 0 ==> c.notBefore <= Unix(now) + 60)
    && (c.issuedAt > 0 ==> c.issuedAt <= Unix(now) + 60)
  }

  /** Audience and required scopes of the resource server accept the claims. */
  predicate ForThisResource(cfg: Config, c: Claims) {
    && (cfg.audience.raw != "" ==> AudienceMatchesResource(c.audience, cfg.audience.raw))
    && (|cfg.requiredScopes| > 0 ==> ScopesCovered(c.scopes, cfg.requiredScopes))
  }

  /** All settings of this replica accept the claims: issuer, audience, scopes and identity policy. */
  predicate AcceptedHere(cfg: Config, c: Claims) {
    && IssuerAllowed(c.issuer, cfg.issuerAllowlist, TrimSpace(cfg.issuer.raw))
    && ForThisResource(cfg, c)
    && IdentityPolicy(cfg, c) == None
  }

  /**
   A token that was backed when another replica minted its bearer validates here exactly when a
   key verifies it and this replica's settings and the clock accept its claims. A replica with
   the minter's settings has only audience and scopes left to check.
   */
  lemma BackedValidatesIff(minter: Config, minting: KeyLookup, id: Identity, cfg: Config, keys: KeyLookup, now: int)
    requires Backed(minter, minting, id) && !NoKeySource(cfg)
    ensures Validate(cfg, keys, id.idToken, now).Ok?
            <==> keys.Ok? && SomeKeyVerifies(keys.value, id.idToken) && AcceptedHere(cfg, id.claims)
                 && InWindows(id.claims, now)
    ensures Validate(cfg, keys, id.idToken, now).Ok? ==> Validate(cfg, keys, id.idToken, now).value == Some(id.claims)
    ensures cfg == minter ==> (AcceptedHere(cfg, id.claims) <==> ForThisResource(cfg, id.claims))
  {
  }

  /**
   From /token on one replica to the middleware of another in gating mode: a minted bearer is
   admitted exactly until its wrapped exp, while a key verifies the inner token and this
   replica's settings and the inner windows accept it; the claims are those verified at minting.
   */
  lemma MintedBearerAdmittedIff(minter: Config, scope: Text, env: FinishEnv, cfg: Config, keys: KeyLookup,
                                openClock: int, checkClock: int)
    requires Finish(minter, scope, env).Ok? && Wraps(minter, Finish(minter, scope, env).value.identity.idToken)
    requires cfg.mode.Gating? && cfg.signingSecret == minter.signingSecret != "" && !NoKeySource(cfg)
    ensures var g := Finish(minter, scope, env).value;
            var w := WrappedExp(minter, g.identity.claims.expiresAt, env.wrapClock);
            var r := Admit(cfg, Presenting(g.response.accessToken), keys, openClock, checkClock);
            && (r.Ok? <==> Unix(openClock) <= JsonText.Float64(w)
                           && keys.Ok? && SomeKeyVerifies(keys.value, g.identity.idToken)
                           && AcceptedHere(cfg, g.identity.claims) && InWindows(g.identity.claims, checkClock))
            && (r.Ok? ==> r.value == Passed(g.response.accessToken, Some(g.identity.claims)))
            && (cfg == minter ==> (AcceptedHere(cfg, g.identity.claims) <==> ForThisResource(cfg, g.identity.claims)))
  {
    EveryResponseIsBacked(minter, scope, env);
    var g := Finish(minter, scope, env).value;
    var w := WrappedExp(minter, g.identity.claims.expiresAt, env.wrapClock);
    MintedShape(minter, scope, env);
    WrappedAdmittedIff(cfg, g.identity.idToken, w, env.nonce, keys, openClock, checkClock);
    if Backed(minter, env.idKeys, g.identity) {
      BackedValidatesIff(minter, env.idKeys, g.identity, cfg, keys, checkClock);
    } else {
      BackedValidatesIff(minter, env.refresh.keys, g.identity, cfg, keys, checkClock);
    }
  }

  /** With clocks and expiry in range, no replica admits it after the upstream exp or the configured lifetime. */
  lemma NeverPastUpstreamExp(minter: Config, scope: Text, env: FinishEnv, cfg: Config, keys: KeyLookup,
                             openClock: int, checkClock: int)
    requires Finish(minter, scope, env).Ok? && Wraps(minter, Finish(minter, scope, env).value.identity.idToken)
    requires cfg.mode.Gating? && cfg.signingSecret == minter.signingSecret != "" && !NoKeySource(cfg)
    requires var g := Finish(minter, scope, env).value;
             && g.identity.claims.expiresAt <= LAST_SECOND
             && 0 <= Unix(env.wrapClock) && Unix(env.wrapClock + AccessTokenTtl(minter)) < JsonText.EXACT
             && Admit(cfg, Presenting(g.response.accessToken), keys, openClock, checkClock).Ok?
    ensures Unix(openClock) <= Unix(env.wrapClock + AccessTokenTtl(minter))
    ensures var exp := Finish(minter, scope, env).value.identity.claims.expiresAt;
            exp > 0 ==> Unix(openClock) <= exp
  {
    MintedBearerAdmittedIff(minter, scope, env, cfg, keys, openClock, checkClock);
    var exp := Finish(minter, scope, env).value.identity.claims.expiresAt;
    WrapInstant(minter, exp, env.wrapClock);
    JsonText.Float64Exact(WrappedExp(minter, exp, env.wrapClock));
  }

  lemma MintedShape(cfg: Config, scope: Text, env: FinishEnv)
    requires Finish(cfg, scope, env).Ok? && Wraps(cfg, Finish(cfg, scope, env).value.identity.idToken)
    ensures var g := Finish(cfg, scope, env).value;
            g.response.accessToken
            == EncodeDownstream(cfg.signingSecret, g.identity.idToken,
                                WrappedExp(cfg, g.identity.claims.expiresAt, env.wrapClock) * SECOND, env.nonce)
  {
  }

  /**
   So wrapping removes the clock skew: between exp and exp + 60 s the bare id_token still
   validates, while the bearer that wraps it does not.
   */
  lemma SkewDoesNotExtendWrapped(cfg: Config, minting: KeyLookup, id: Identity, keys: KeyLookup, wrapClock: int,
                                 nonce: nat, now: int)
    requires cfg.mode.Gating? && cfg.signingSecret != "" && !NoKeySource(cfg)
    requires Backed(cfg, minting, id) && keys.Ok? && SomeKeyVerifies(keys.value, id.idToken)
    requires ForThisResource(cfg, id.claims)
    requires id.claims.notBefore <= Unix(now) + 60 && id.claims.issuedAt <= Unix(now) + 60
    requires 0 < id.claims.expiresAt < JsonText.EXACT && Representable(cfg, id.claims.expiresAt, wrapClock)
    requires id.claims.expiresAt < Unix(now) <= id.claims.expiresAt + 60
    ensures Validate(cfg, keys, id.idToken, now) == Ok(Some(id.claims))
    ensures var w := WrappedExp(cfg, id.claims.expiresAt, wrapClock);
            Admit(cfg, Presenting(EncodeDownstream(cfg.signingSecret, id.idToken, w * SECOND, nonce)), keys, now, now)
            == Err(TokenError.InvalidToken)
  {
    BackedValidatesIff(cfg, minting, id, cfg, keys, now);
    var w := WrappedExp(cfg, id.claims.expiresAt, wrapClock);
    WrappedWithinUpstream(cfg, id.claims.expiresAt, wrapClock);
    JsonText.Float64Exact(w);
    WrappedAdmittedIff(cfg, id.idToken, w, nonce, keys, now, now);
  }
}
