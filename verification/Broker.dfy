/** broker.go: /authorize, /callback and the first half of /token. Each handler is stateless. */
module Broker {
  import opened Wrappers
  import opened GoStrings
  import opened Wire
  import opened Clock
  import opened Configuration
  import opened Urls
  import opened CimdMetadata
  import opened BrokerState
  import opened TokenResponse
  import JsonText

  const PENDING_AUTH_TTL: int := 600 * SECOND
  const AUTH_CODE_TTL: int := 60 * SECOND
  const JWT_BEARER: string := "urn:ietf:params:oauth:client-assertion-type:jwt-bearer"

  predicate Registered(c: Client, redirectUri: Text) {
    redirectUri.Lit? && redirectUri.chars in c.redirectUris
  }

  /** sanitizeScope */
  function SanitizeScope(scope: Text): Text {
    if scope.Lit? then Lit(Join(Fields(scope.chars), " ")) else scope
  }

  // ---------------------------------------------------------------- /authorize

  datatype AuthorizeRequest = AuthorizeRequest(
    method_: string,
    clientId: Text,
    redirectUri: Text,
    responseType: Text,
    codeChallenge: Text,
    codeChallengeMethod: Text,
    resource: Text,
    scope: Text,
    state: Text,
    http: HttpRequest)

  /** Client resolution, random verifier, endpoint discovery, clock and encryption nonce. */
  datatype AuthorizeEnv = AuthorizeEnv(
    client: Option<Client>,
    verifier: Option<Text>,
    authUrlKnown: bool,
    clock: int,
    nonce: nat)

  /** The parameters of the redirect to the upstream IdP that later steps depend on. */
  datatype UpstreamRedirect = UpstreamRedirect(state: Text, codeChallenge: Text, redirectUri: string)

  function PendingOf(req: AuthorizeRequest, verifier: Text, clock: int): PendingAuth {
    PendingAuth(req.clientId, req.redirectUri, SanitizeScope(req.scope), req.state, req.codeChallenge,
                req.codeChallengeMethod, req.resource, verifier, clock + PENDING_AUTH_TTL)
  }

  function HandleAuthorize(cfg: Config, req: AuthorizeRequest, env: AuthorizeEnv): Result<UpstreamRedirect, Failure> {
    if req.method_ != "GET" then Err(Failure(405, InvalidRequest))
    else if req.clientId == EMPTY || req.redirectUri == EMPTY || req.responseType != Lit("code") then
      Err(Failure(400, InvalidRequest))
    else if env.client.None? then Err(Failure(400, InvalidClient))
    else if !Registered(env.client.value, req.redirectUri) then Err(Failure(400, InvalidRequest))
    else if req.codeChallenge == EMPTY || req.codeChallengeMethod != Lit("S256") then
      Err(Failure(400, InvalidRequest))
    else if req.resource != EMPTY
            && TrimSlashesText(req.resource) != Lit(TrimSlashes(ResourceBaseUrl(cfg, req.http))) then
      Err(Failure(400, InvalidTarget))
    else if env.verifier.None? then Err(Failure(500, ServerError))
    else if !env.authUrlKnown then Err(Failure(502, ServerError))
    else
      Ok(UpstreamRedirect(
           EncodePendingAuth(cfg.signingSecret, PendingOf(req, env.verifier.value, env.clock), env.nonce),
           Digest(env.verifier.value),
           CallbackUrl(cfg, req.http)))
  }

  // ---------------------------------------------------------------- /callback

  /** Clock at decoding and at minting, nonce, and whether the stored redirect URI parses. */
  datatype CallbackEnv = CallbackEnv(openClock: int, mintClock: int, nonce: nat, redirectParses: bool)

  /** The redirect back to the client. */
  datatype ClientRedirect = ClientRedirect(redirectUri: Text, code: Text, state: Text)

  function CodeOf(p: PendingAuth, upstreamCode: Text, mintClock: int): IssuedCode {
    IssuedCode(p.clientId, p.redirectUri, p.scope, p.codeChallenge, p.codeChallengeMethod, p.resource,
               upstreamCode, p.upstreamVerifier, mintClock + AUTH_CODE_TTL)
  }

  function HandleCallback(cfg: Config, state: Text, code: Text, env: CallbackEnv): Result<ClientRedirect, Failure> {
    if state == EMPTY || code == EMPTY then Err(Failure(400, InvalidRequest))
    else
      match DecodePendingAuth(cfg.signingSecret, state, env.openClock)
      case None => Err(Failure(400, InvalidRequest))
      case Some(p) =>
        if !env.redirectParses then Err(Failure(502, ServerError))
        else
          Ok(ClientRedirect(p.redirectUri,
                            EncodeAuthCode(cfg.signingSecret, CodeOf(p, code, env.mintClock), env.nonce),
                            p.clientState))
  }

  // ---------------------------------------------------------------- /token, up to the upstream exchange

  datatype TokenRequest = TokenRequest(
    method_: string,
    formParses: bool,
    grantType: Text,
    clientId: Text,
    clientSecret: Text,
    assertion: Text,
    assertionType: Text,
    redirectUri: Text,
    code: Text,
    codeVerifier: Text,
    resource: Text,
    http: HttpRequest)

  datatype TokenEnv = TokenEnv(client: Option<Client>, assertionValid: bool, tokenUrlKnown: bool, clock: int)

  /** The form posted upstream, and the scope kept for the answer. */
  datatype Exchange = Exchange(code: Text, verifier: Text, redirectUri: string, scope: Text)

  /** Client authentication at /token. */
  predicate Authenticated(req: TokenRequest, c: Client, assertionValid: bool) {
    || (c.authMethod == "none" && !Presents(req))
    || (c.authMethod == "private_key_jwt"
        && (Presents(req) ==> req.assertionType == Lit(JWT_BEARER) && assertionValid))
  }

  /** The request carries a client assertion, or at least claims to. */
  predicate Presents(req: TokenRequest) {
    req.assertion != EMPTY || req.assertionType != EMPTY
  }

  /** The checks of an opened code against the request that presents it. */
  function CheckCode(issued: IssuedCode, req: TokenRequest): Option<Failure> {
    if issued.clientId != req.clientId || issued.redirectUri != req.redirectUri then Some(Failure(400, InvalidGrant))
    else if issued.codeChallenge == EMPTY || Digest(req.codeVerifier) != issued.codeChallenge then
      Some(Failure(400, InvalidGrant))
    else if req.resource != EMPTY && issued.resource != EMPTY
            && TrimSlashesText(req.resource) != TrimSlashesText(issued.resource) then
      Some(Failure(400, InvalidTarget))
    else if issued.upstreamCode == EMPTY || issued.upstreamVerifier == EMPTY then Some(Failure(400, InvalidGrant))
    else None
  }

  /** The checks before the code is opened. */
  function CheckRequest(req: TokenRequest, env: TokenEnv): Option<Failure> {
    if req.method_ != "POST" then Some(Failure(405, InvalidRequest))
    else if !req.formParses then Some(Failure(400, InvalidRequest))
    else if req.grantType != Lit("authorization_code") then Some(Failure(400, UnsupportedGrantType))
    else if req.clientSecret != EMPTY then Some(Failure(401, InvalidClient))
    else if env.client.None? then Some(Failure(401, InvalidClient))
    else if !Authenticated(req, env.client.value, env.assertionValid) then Some(Failure(401, InvalidClient))
    else if !Registered(env.client.value, req.redirectUri) then Some(Failure(400, InvalidGrant))
    else None
  }

  /** The part after opening the code. */
  function Redeem(cfg: Config, code: Option<IssuedCode>, req: TokenRequest, env: TokenEnv): Result<Exchange, Failure> {
    match code
    case None => Err(Failure(400, InvalidGrant))
    case Some(issued) =>
      match CheckCode(issued, req)
      case Some(f) => Err(f)
      case None =>
        if !env.tokenUrlKnown then Err(Failure(502, ServerError))
        else Ok(Exchange(issued.upstreamCode, issued.upstreamVerifier, CallbackUrl(cfg, req.http), issued.scope))
  }

  function HandleTokenRequest(cfg: Config, req: TokenRequest, env: TokenEnv): Result<Exchange, Failure> {
    match CheckRequest(req, env)
    case Some(f) => Err(f)
    case None => Redeem(cfg, DecodeAuthCode(cfg.signingSecret, req.code, env.clock), req, env)
  }

  // ---------------------------------------------------------------- when the handlers accept

  /** The request names its client and asks for a code. */
  predicate NamesClient(req: AuthorizeRequest) {
    req.clientId != EMPTY && req.redirectUri != EMPTY && req.responseType == Lit("code")
  }

  /** It comes back to a registered URI and uses PKCE with S256. */
  predicate Redeemable(req: AuthorizeRequest, c: Client) {
    && (exists u :: u in c.redirectUris && req.redirectUri == Lit(u))
    && req.codeChallenge != EMPTY && req.codeChallengeMethod == Lit("S256")
  }

  /** The resource it asks for, if any, is this server up to trailing slashes (section 2 of RFC 8707). */
  predicate ResourceIsHere(cfg: Config, req: AuthorizeRequest) {
    req.resource != EMPTY ==> TrimSlashesText(req.resource) == Lit(TrimSlashes(ResourceBaseUrl(cfg, req.http)))
  }

  /**
   /authorize accepts exactly such a request, of a client that resolves. It then sends upstream the
   sealed request with a new verifier, good for 600 s, the digest of that verifier and the URL of
   /callback.
   */
  lemma AuthorizeAcceptsIff(cfg: Config, req: AuthorizeRequest, env: AuthorizeEnv)
    ensures var r := HandleAuthorize(cfg, req, env);
            && (r.Ok? <==> req.method_ == "GET" && NamesClient(req) && env.client.Some? && Redeemable(req, env.client.value)
                           && ResourceIsHere(cfg, req) && env.verifier.Some? && env.authUrlKnown)
            && (r.Ok? ==>
                  && r.value.redirectUri == CallbackUrl(cfg, req.http)
                  && r.value.codeChallenge == Digest(env.verifier.value)
                  && r.value.state == EncodePendingAuth(
                       cfg.signingSecret,
                       PendingAuth(req.clientId, req.redirectUri, SanitizeScope(req.scope), req.state, req.codeChallenge,
                                   Lit("S256"), req.resource, env.verifier.value, env.clock + 600 * SECOND),
                       env.nonce))
  {
  }

  /** The failure it reports otherwise, for the first thing that is wrong. */
  lemma AuthorizeFailure(cfg: Config, req: AuthorizeRequest, env: AuthorizeEnv)
    requires HandleAuthorize(cfg, req, env).Err?
    ensures var f := HandleAuthorize(cfg, req, env).error;
            f == if req.method_ != "GET" then Failure(405, InvalidRequest)
                 else if NamesClient(req) && env.client.None? then Failure(400, InvalidClient)
                 else if !NamesClient(req) || !Redeemable(req, env.client.value) then Failure(400, InvalidRequest)
                 else if !ResourceIsHere(cfg, req) then Failure(400, InvalidTarget)
                 else if env.verifier.None? then Failure(500, ServerError)
                 else Failure(502, ServerError)
  {
  }

  /** A stored scope has the words of the requested one, with single spaces between them. */
  lemma SanitizedScope(scope: string)
    ensures SanitizeScope(Lit(scope)) == Lit(Join(Fields(scope), " "))
    ensures Fields(SanitizeScope(Lit(scope)).chars) == Fields(scope)
  {
    FieldsAreWords(scope);
    FieldsOfJoin(Fields(scope));
  }

  /** /callback accepts a minted state until its expiry, and passes its fields on. */
  lemma CallbackOnMintedState(cfg: Config, p: PendingAuth, nonce: nat, code: Text, env: CallbackEnv)
    ensures var r := HandleCallback(cfg, EncodePendingAuth(cfg.signingSecret, p, nonce), code, env);
            var q := CleanPending(p);
            && (r.Ok? <==> code != EMPTY && cfg.signingSecret != "" && env.redirectParses
                           && Unix(env.openClock) <= JsonText.Float64(Unix(p.expiresAt)))
            && (r.Ok? ==> r.value == ClientRedirect(
                            q.redirectUri,
                            EncodeAuthCode(cfg.signingSecret, CodeOf(q, code, env.mintClock), env.nonce),
                            q.clientState))
  {
    PendingAuthDecodes(cfg.signingSecret, p, nonce, cfg.signingSecret, env.openClock);
  }

  /** The failure it reports otherwise. */
  lemma CallbackFailure(cfg: Config, state: Text, code: Text, env: CallbackEnv)
    requires HandleCallback(cfg, state, code, env).Err?
    ensures HandleCallback(cfg, state, code, env).error
            == if state != EMPTY && code != EMPTY && DecodePendingAuth(cfg.signingSecret, state, env.openClock).Some?
               then Failure(502, ServerError) else Failure(400, InvalidRequest)
  {
  }

  /** The request is in form and its client authenticated, before the code is looked at. */
  predicate ProperTokenRequest(req: TokenRequest, env: TokenEnv) {
    && req.method_ == "POST" && req.formParses && req.grantType == Lit("authorization_code")
    && req.clientSecret == EMPTY && env.client.Some?
    && Authenticated(req, env.client.value, env.assertionValid)
    && Registered(env.client.value, req.redirectUri)
    && env.tokenUrlKnown
  }

  lemma ProperIff(req: TokenRequest, env: TokenEnv)
    ensures CheckRequest(req, env) == None && env.tokenUrlKnown <==> ProperTokenRequest(req, env)
  {
  }

  /** The failure of a request that is not proper, for the first thing that is wrong. */
  lemma TokenRequestFailure(cfg: Config, req: TokenRequest, env: TokenEnv)
    requires !ProperTokenRequest(req, env) && env.tokenUrlKnown
    ensures HandleTokenRequest(cfg, req, env)
            == Err(if req.method_ != "POST" then Failure(405, InvalidRequest)
                   else if !req.formParses then Failure(400, InvalidRequest)
                   else if req.grantType != Lit("authorization_code") then Failure(400, UnsupportedGrantType)
                   else if req.clientSecret != EMPTY || env.client.None? then Failure(401, InvalidClient)
                   else if !Authenticated(req, env.client.value, env.assertionValid) then Failure(401, InvalidClient)
                   else Failure(400, InvalidGrant))
  {
  }

  /** The opened code was issued to this client, for this redirect URI, and the verifier is the right one. */
  predicate BelongsTo(c: IssuedCode, req: TokenRequest) {
    c.clientId == req.clientId && c.redirectUri == req.redirectUri && c.codeChallenge == Digest(req.codeVerifier)
  }

  /** A resource named at both ends is the same up to trailing slashes. */
  predicate SameResource(c: IssuedCode, req: TokenRequest) {
    req.resource == EMPTY || c.resource == EMPTY || TrimSlashesText(req.resource) == TrimSlashesText(c.resource)
  }

  predicate CodeMatches(c: IssuedCode, req: TokenRequest) {
    BelongsTo(c, req) && SameResource(c, req) && c.upstreamCode != EMPTY && c.upstreamVerifier != EMPTY
  }

  /** A code that opens is exchanged exactly when it matches; only a wrong resource is not an invalid grant. */
  lemma OpenedCodeIff(cfg: Config, req: TokenRequest, env: TokenEnv)
    requires ProperTokenRequest(req, env) && DecodeAuthCode(cfg.signingSecret, req.code, env.clock).Some?
    ensures var c := DecodeAuthCode(cfg.signingSecret, req.code, env.clock).value;
            var r := HandleTokenRequest(cfg, req, env);
            && (r.Ok? <==> CodeMatches(c, req))
            && (r.Err? ==> r.error == Failure(400, if BelongsTo(c, req) && !SameResource(c, req) then InvalidTarget
                                                   else InvalidGrant))
  {
    ProperIff(req, env);
  }

  /** /token accepts a minted code until its expiry from whoever passes the checks. */
  lemma TokenOnMintedCode(cfg: Config, c: IssuedCode, nonce: nat, req: TokenRequest, env: TokenEnv)
    requires req.code == EncodeAuthCode(cfg.signingSecret, c, nonce)
    ensures var r := HandleTokenRequest(cfg, req, env);
            var d := CleanCode(c);
            && (r.Ok? <==> ProperTokenRequest(req, env) && cfg.signingSecret != ""
                           && Unix(env.clock) <= JsonText.Float64(Unix(c.expiresAt))
                           && CodeMatches(d, req))
            && (r.Ok? ==> r.value == Exchange(d.upstreamCode, d.upstreamVerifier, CallbackUrl(cfg, req.http), d.scope))
  {
    AuthCodeDecodes(cfg.signingSecret, c, nonce, cfg.signingSecret, env.clock);
    ProperIff(req, env);
  }

  /** The client's side of an honest flow up to /callback: it comes back in time with a code. */
  predicate HonestLegs(cfg: Config, req: AuthorizeRequest, aenv: AuthorizeEnv, code: Text, cenv: CallbackEnv) {
    && cfg.signingSecret != "" && aenv.verifier.Some?
    && IsClean(req.clientId) && IsClean(req.redirectUri) && IsClean(aenv.verifier.value) && IsClean(code)
    && 0 <= Unix(aenv.clock) < JsonText.EXACT - 600 && 0 <= Unix(cenv.mintClock) < JsonText.EXACT - 600
    && code != EMPTY && aenv.verifier.value != EMPTY && cenv.redirectParses
    && Unix(cenv.openClock) <= Unix(aenv.clock) + 600
  }

  function CodeFor(req: AuthorizeRequest, aenv: AuthorizeEnv, code: Text, cenv: CallbackEnv): IssuedCode
    requires aenv.verifier.Some?
  {
    CodeOf(CleanPending(PendingOf(req, aenv.verifier.value, aenv.clock)), code, cenv.mintClock)
  }

  function StateFor(cfg: Config, req: AuthorizeRequest, aenv: AuthorizeEnv): Text
    requires aenv.verifier.Some?
  {
    EncodePendingAuth(cfg.signingSecret, PendingOf(req, aenv.verifier.value, aenv.clock), aenv.nonce)
  }

  /** /callback accepts the state that /authorize sent, and returns to the registered URI with a code for the flow. */
  lemma HonestCallbackAccepted(cfg: Config, req: AuthorizeRequest, aenv: AuthorizeEnv, code: Text, cenv: CallbackEnv)
    requires HonestLegs(cfg, req, aenv, code, cenv)
    ensures HandleCallback(cfg, StateFor(cfg, req, aenv), code, cenv)
            == Ok(ClientRedirect(req.redirectUri,
                                 EncodeAuthCode(cfg.signingSecret, CodeFor(req, aenv, code, cenv), cenv.nonce),
                                 Clean(req.state)))
  {
    var p := PendingOf(req, aenv.verifier.value, aenv.clock);
    CallbackOnMintedState(cfg, p, aenv.nonce, code, cenv);
    AddSeconds(aenv.clock, 600);
    JsonText.Float64Exact(Unix(p.expiresAt));
    CleanIdentityIff(req.redirectUri);
  }

  /**
   An honest flow goes through: /token accepts the code minted by /callback within 60 s from the
   client that holds the verifier, and the exchange carries the upstream code and the verifier of
   this flow.
   */
  lemma HonestFlowAccepted(cfg: Config, req: AuthorizeRequest, aenv: AuthorizeEnv, code: Text, cenv: CallbackEnv,
                           tok: TokenRequest, tenv: TokenEnv)
    requires HonestLegs(cfg, req, aenv, code, cenv)
    requires tok.code == EncodeAuthCode(cfg.signingSecret, CodeFor(req, aenv, code, cenv), cenv.nonce)
    requires ProperTokenRequest(tok, tenv)
    requires IsClean(req.resource)
    requires tok.resource == EMPTY || TrimSlashesText(tok.resource) == TrimSlashesText(req.resource)
    requires tok.clientId == req.clientId && tok.redirectUri == req.redirectUri
    requires req.codeChallenge == Digest(tok.codeVerifier)
    ensures HandleTokenRequest(cfg, tok, tenv).Ok? <==> Unix(tenv.clock) <= Unix(cenv.mintClock) + 60
    ensures Unix(tenv.clock) <= Unix(cenv.mintClock) + 60 ==>
              HandleTokenRequest(cfg, tok, tenv).value.code == code
              && HandleTokenRequest(cfg, tok, tenv).value.verifier == aenv.verifier.value
  {
    var c := CodeFor(req, aenv, code, cenv);
    TokenOnMintedCode(cfg, c, cenv.nonce, tok, tenv);
    AddSeconds(cenv.mintClock, 60);
    JsonText.Float64Exact(Unix(c.expiresAt));
    CleanIdentityIff(req.clientId);
    CleanIdentityIff(req.redirectUri);
    CleanIdentityIff(req.resource);
    CleanIdentityIff(aenv.verifier.value);
    CleanIdentityIff(code);
  }
}
