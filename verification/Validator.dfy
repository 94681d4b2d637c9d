/** validator.go: checking a bearer against a key set, the claim checks and the identity policy. */
module Validator {
  import opened Wrappers
  import opened GoStrings
  import opened Wire
  import opened Clock
  import opened Configuration
  import opened TokenClaims

  /** A published key: its id, key material, `use` and `alg`. */
  datatype Jwk = Jwk(kid: string, material: string, use: string, alg: string)

  datatype TokenError =
    | MissingToken | InvalidToken | TokenExpired | InsufficientScopes
    | EmailNotVerified | UnauthorizedDomain
    | Unverifiable // no JWKS, not a JWS, no key for the kid, or no key that verifies

  /** The keys that key lookup yields for a token: all keys, or those with its kid. */
  type KeyLookup = Result<seq<Jwk>, TokenError>

  // ---------------------------------------------------------------- identity policy and claim checks

  function IdentityPolicy(cfg: Config, c: Claims): Option<TokenError> {
    if !cfg.allowUnverifiedEmail && c.email != EMPTY && !c.emailVerified then Some(EmailNotVerified)
    else if |cfg.allowedEmailDomains| > 0
            && (EmailDomain(c.email) == "" || !ContainsDomain(cfg.allowedEmailDomains, EmailDomain(c.email)))
    then Some(UnauthorizedDomain)
    else if |cfg.allowedHostedDomains| > 0
            && (c.hostedDomain == EMPTY || !c.hostedDomain.Lit?
                || !ContainsDomain(cfg.allowedHostedDomains, c.hostedDomain.chars))
    then Some(UnauthorizedDomain)
    else None
  }

  /** The `exp`, `nbf` and `iat` windows with the clock skew. */
  function TimeCheck(c: Claims, now: int): Option<TokenError> {
    if c.expiresAt > 0 && Unix(now) > c.expiresAt + CLOCK_SKEW_SECONDS then Some(TokenExpired)
    else if c.notBefore > 0 && Unix(now) + CLOCK_SKEW_SECONDS < c.notBefore then Some(InvalidToken)
    else if c.issuedAt > 0 && c.issuedAt > Unix(now) + CLOCK_SKEW_SECONDS then Some(InvalidToken)
    else None
  }

  function ApplyClaimChecks(cfg: Config, c: Claims, now: int): Result<Claims, TokenError> {
    if cfg.audience.raw != "" && (|c.audience| == 0 || !AudienceMatchesResource(c.audience, cfg.audience.raw))
    then Err(InvalidToken)
    else if TimeCheck(c, now).Some? then Err(TimeCheck(c, now).value)
    else if |cfg.requiredScopes| > 0 && !ScopesCovered(c.scopes, cfg.requiredScopes) then Err(InsufficientScopes)
    else if IdentityPolicy(cfg, c).Some? then Err(IdentityPolicy(cfg, c).value)
    else Ok(c)
  }

  // ---------------------------------------------------------------- the key search

  /** The claims a signed token carries. */
  function ClaimsOf(token: Text): Claims
    requires token.Signed?
  {
    ClaimsFromRaw(Unmarshal(token.payload))
  }

  /** parsed.Claims(k.Key, ..) succeeds. */
  predicate Verifies(k: Jwk, token: Text) {
    token.Signed? && k.material == token.signer
  }

  predicate SomeKeyVerifies(keys: seq<Jwk>, token: Text) {
    exists i :: 0 <= i < |keys| && Verifies(keys[i], token)
  }

  /** Issuer and audience accept the token's claims. */
  predicate Addressed(cfg: Config, c: Claims, expectedAudience: string) {
    && IssuerAllowed(c.issuer, cfg.issuerAllowlist, TrimSpace(cfg.issuer.raw))
    && (expectedAudience != "" ==> AudienceMatchesResource(c.audience, expectedAudience))
  }

  /** What the key search decides, as a statement about the set of keys. */
  function Verdict(cfg: Config, keys: seq<Jwk>, token: Text, expectedAudience: string): Result<Claims, TokenError>
    requires token.Signed?
  {
    if !SomeKeyVerifies(keys, token) then Err(Unverifiable)
    else if !Addressed(cfg, ClaimsOf(token), expectedAudience) then Err(InvalidToken)
    else Ok(ClaimsOf(token))
  }

  /**
   The loop of parseAndVerifyJWT. It succeeds iff some candidate verifies and the claims pass
   issuer and audience, and reports InvalidToken iff some candidate verifies but they do not.
   */
  method SearchKeys(cfg: Config, keys: seq<Jwk>, token: Text, expectedAudience: string)
    returns (r: Result<Claims, TokenError>)
    requires token.Signed?
    ensures r == Verdict(cfg, keys, token, expectedAudience)
  {
    var signatureVerified, issuerRejected, audienceRejected := false, false, false;
    for i := 0 to |keys|
      invariant signatureVerified <==> SomeKeyVerifies(keys[..i], token)
      invariant signatureVerified ==> issuerRejected || audienceRejected
      invariant issuerRejected || audienceRejected
                ==> signatureVerified && !Addressed(cfg, ClaimsOf(token), expectedAudience)
    {
      assert keys[..i + 1] == keys[..i] + [keys[i]];
      if !Verifies(keys[i], token) {
        continue;
      }
      signatureVerified := true;
      assert Verifies(keys[..i + 1][i], token);
      var c := ClaimsOf(token);
      if !IssuerAllowed(c.issuer, cfg.issuerAllowlist, TrimSpace(cfg.issuer.raw)) {
        issuerRejected := true;
        continue;
      }
      if expectedAudience != "" && !AudienceMatchesResource(c.audience, expectedAudience) {
        audienceRejected := true;
        continue;
      }
      return Ok(c);
    }
    assert keys[..|keys|] == keys;
    if signatureVerified && (issuerRejected || audienceRejected) {
      return Err(InvalidToken);
    }
    return Err(Unverifiable);
  }

  /** The verdict depends on which keys there are, not on their order or multiplicity. */
  lemma KeyOrderIrrelevant(cfg: Config, keys: seq<Jwk>, keys': seq<Jwk>, token: Text, expectedAudience: string)
    requires token.Signed?
    requires forall k :: k in keys <==> k in keys'
    ensures Verdict(cfg, keys, token, expectedAudience) == Verdict(cfg, keys', token, expectedAudience)
  {
    if SomeKeyVerifies(keys, token) {
      var i :| 0 <= i < |keys| && Verifies(keys[i], token);
      assert keys[i] in keys';
    }
    if SomeKeyVerifies(keys', token) {
      var i :| 0 <= i < |keys'| && Verifies(keys'[i], token);
      assert keys'[i] in keys;
    }
  }

  /** parseAndVerifyJWT, given what key lookup yields. */
  function ParseAndVerify(cfg: Config, keys: KeyLookup, token: Text, expectedAudience: string): Result<Claims, TokenError> {
    if keys.Err? then Err(keys.error)
    else if !token.Signed? then Err(Unverifiable)
    else Verdict(cfg, keys.value, token, expectedAudience)
  }

  /** ValidateUpstreamIdentityToken: no time check. */
  function ValidateIdentityToken(cfg: Config, keys: KeyLookup, token: Text, expectedAudience: string)
    : Result<Claims, TokenError>
  {
    var r := ParseAndVerify(cfg, keys, token, expectedAudience);
    if r.Ok? && IdentityPolicy(cfg, r.value).Some? then Err(IdentityPolicy(cfg, r.value).value) else r
  }

  /** Neither a JWKS URL nor an issuer is configured. */
  predicate NoKeySource(cfg: Config) {
    TrimSpace(cfg.jwksUrl) == "" && TrimSpace(cfg.issuer.raw) == ""
  }

  /** Validate; `Ok(None)` is the soft pass with no claims. */
  function Validate(cfg: Config, keys: KeyLookup, token: Text, now: int): Result<Option<Claims>, TokenError> {
    if token == EMPTY then Err(MissingToken)
    else if !LooksLikeJwt(token) then if cfg.mode.Gating? then Err(InvalidToken) else Ok(None)
    else if NoKeySource(cfg) then Ok(None)
    else
      match ParseAndVerify(cfg, keys, token, cfg.audience.raw)
      case Err(e) => Err(e)
      case Ok(c) =>
        match ApplyClaimChecks(cfg, c, now)
        case Err(e) => Err(e)
        case Ok(checked) => Ok(Some(checked))
  }
}
