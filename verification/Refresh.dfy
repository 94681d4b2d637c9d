/** refresh.go: replacing a near-expired upstream id_token during /token. */
module Refresh {
  import opened Wrappers
  import opened Wire
  import opened Clock
  import opened Configuration
  import opened TokenClaims
  import opened Validator

  const THRESHOLD_SECONDS: int := 55 * 60

  datatype RefreshBody = RefreshBody(idToken: Text, error: Text)

  /** Upstream's answer to the refresh grant; `body` is None when it is not JSON. */
  datatype RefreshReply = NoReply | Replied(status: int, body: Option<RefreshBody>)

  datatype RefreshEnv = RefreshEnv(tokenUrlKnown: bool, reply: RefreshReply, keys: KeyLookup)

  datatype Identity = Identity(idToken: Text, claims: Claims)

  /** refreshUpstreamIDToken; None stands for every error, which the only caller treats alike. */
  function RefreshUpstreamIdToken(cfg: Config, env: RefreshEnv): Option<Identity> {
    if !env.tokenUrlKnown || env.reply.NoReply? || env.reply.status >= 300 || env.reply.body.None? then None
    else
      var body := env.reply.body.value;
      if body.error != EMPTY || body.idToken == EMPTY then None
      else
        match ValidateIdentityToken(cfg, env.keys, body.idToken, cfg.clientId)
        case Err(_) => None
        case Ok(c) => Some(Identity(body.idToken, c))
  }

  /**
   maybeRefreshNearExpiredIDToken: the token and claims to go on with, and the `time.Duration`
   computed in int64 nanoseconds. `now` is the clock at the threshold test, `later` after the
   refresh.
   */
  function MaybeRefresh(cfg: Config, id: Identity, refreshToken: Text, env: RefreshEnv, now: int, later: int)
    : (Identity, int)
  {
    if refreshToken == EMPTY || id.claims.expiresAt <= 0 then (id, 0)
    else if id.claims.expiresAt - Unix(now) >= THRESHOLD_SECONDS then (id, 0)
    else
      match RefreshUpstreamIdToken(cfg, env)
      case None => (id, 0)
      case Some(renewed) => (renewed, LifeLeft(renewed.claims.expiresAt, later))
  }

  /** time.Duration(exp - now) * time.Second, in int64. */
  function LifeLeft(exp: int, now: int): int {
    Wrap64(Wrap64(exp - Unix(now)) * SECOND)
  }

  /** A near-expired token gives way to one that upstream renews it to. */
  lemma RefreshIsTaken(cfg: Config, id: Identity, refreshToken: Text, env: RefreshEnv, now: int, later: int)
    requires refreshToken != EMPTY && id.claims.expiresAt > 0
    requires id.claims.expiresAt - Unix(now) < THRESHOLD_SECONDS && RefreshUpstreamIdToken(cfg, env).Some?
    ensures var renewed := RefreshUpstreamIdToken(cfg, env).value;
            MaybeRefresh(cfg, id, refreshToken, env, now, later) == (renewed, LifeLeft(renewed.claims.expiresAt, later))
  {
  }

  /** Upstream renews the token: it answers below 300 with a new id_token, no error, and the token is good. */
  predicate Renews(cfg: Config, env: RefreshEnv, id: Identity) {
    && env.tokenUrlKnown && env.reply.Replied? && env.reply.status < 300 && env.reply.body.Some?
    && env.reply.body.value.error == EMPTY
    && id.idToken == env.reply.body.value.idToken
    && Backed(cfg, env.keys, id)
  }

  /**
   A token is replaced exactly when there is a refresh token, it expires within 55 minutes (or has
   expired), and upstream renews it; otherwise it stays.
   */
  lemma RefreshOutcome(cfg: Config, id: Identity, refreshToken: Text, env: RefreshEnv, now: int, later: int)
    ensures var next := MaybeRefresh(cfg, id, refreshToken, env, now, later).0;
            if refreshToken != EMPTY && 0 < id.claims.expiresAt < Unix(now) + 3300 && exists renewed :: Renews(cfg, env, renewed)
            then Renews(cfg, env, next) else next == id
  {
    if env.reply.Replied? && env.reply.body.Some? {
      var token := env.reply.body.value.idToken;
      var validated := ValidateIdentityToken(cfg, env.keys, token, cfg.clientId);
      if validated.Ok? {
        ValidatedIffBacked(cfg, env.keys, token, validated.value);
      }
      forall renewed | Renews(cfg, env, renewed)
        ensures validated == Ok(renewed.claims)
      {
        ValidatedIffBacked(cfg, env.keys, token, renewed.claims);
      }
    }
  }

  /** The duration is zero, or the int64 product for the token to go on with. */
  lemma DurationIsLifeLeft(cfg: Config, id: Identity, refreshToken: Text, env: RefreshEnv, now: int, later: int)
    ensures var (next, d) := MaybeRefresh(cfg, id, refreshToken, env, now, later);
            d == 0 || d == LifeLeft(next.claims.expiresAt, later)
  {
  }

  /** An identity whose claims were verified from its own token, addressed to this broker and within policy. */
  predicate Backed(cfg: Config, keys: KeyLookup, id: Identity) {
    && id.idToken.Signed?
    && keys.Ok?
    && SomeKeyVerifies(keys.value, id.idToken)
    && id.claims == ClaimsOf(id.idToken)
    && Addressed(cfg, id.claims, cfg.clientId)
    && IdentityPolicy(cfg, id.claims) == None
  }

  /** Validation succeeds exactly on backed identities. */
  lemma ValidatedIffBacked(cfg: Config, keys: KeyLookup, token: Text, c: Claims)
    ensures ValidateIdentityToken(cfg, keys, token, cfg.clientId) == Ok(c) <==> Backed(cfg, keys, Identity(token, c))
  {
  }

  /** Whether refresh succeeds, fails or is skipped, token and claims stay paired. */
  lemma RefreshKeepsPairing(cfg: Config, keys: KeyLookup, id: Identity, refreshToken: Text, env: RefreshEnv,
                            now: int, later: int)
    requires Backed(cfg, keys, id)
    ensures var (next, _) := MaybeRefresh(cfg, id, refreshToken, env, now, later);
            (next == id && Backed(cfg, keys, next)) || Backed(cfg, env.keys, next)
  {
    var renewed := RefreshUpstreamIdToken(cfg, env);
    if renewed.Some? {
      ValidatedIffBacked(cfg, env.keys, renewed.value.idToken, renewed.value.claims);
    }
  }

  /** The duration multiplication cannot wrap when the remaining life is within 9223372036 seconds. */
  lemma NoOverflow(exp: int, now: int)
    requires -9223372036 <= exp - Unix(now) <= 9223372036
    ensures LifeLeft(exp, now) == (exp - Unix(now)) * SECOND
  {
  }
}
