/** config.go: the settings the modelled code reads. */
module Configuration {
  import opened Clock

  datatype Mode = Forward | Gating

  /** A configured URL together with the path `url.Parse` finds in it ("" when it does not parse). */
  datatype ConfiguredUrl = ConfiguredUrl(raw: string, path: string)

  datatype Config = Config(
    mode: Mode,
    issuer: ConfiguredUrl,
    jwksUrl: string,
    audience: ConfiguredUrl,
    clientId: string,
    scopes: seq<string>,
    requiredScopes: seq<string>,
    signingSecret: string,
    publicResourceUrl: ConfiguredUrl,
    publicAuthServerUrl: ConfiguredUrl,
    allowedEmailDomains: seq<string>,
    allowedHostedDomains: seq<string>,
    allowUnverifiedEmail: bool,
    issuerAllowlist: seq<string>,
    accessTokenTtl: int,
    callbackPath: string,
    tokenPath: string)

  const DEFAULT_ACCESS_TOKEN_TTL: int := 3600 * SECOND
  const CLOCK_SKEW_SECONDS: int := 60
  const JWKS_CACHE_TTL: int := 300 * SECOND

  /** Config.accessTokenTTL */
  function AccessTokenTtl(cfg: Config): (ttl: int)
    ensures ttl > 0
  {
    if cfg.accessTokenTtl > 0 then cfg.accessTokenTtl else DEFAULT_ACCESS_TOKEN_TTL
  }
}
