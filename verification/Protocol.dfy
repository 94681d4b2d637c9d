/**
 The brokered authorization-code protocol as a whole: every run of any number of replicas that
 share one signing secret, with arbitrary clients, replays and upstream behaviour.

 A run is the sequence of its successful steps. An event is legal when the handler, run on
 inputs of the environment's choice, produced it. The environment may present any text
 anywhere; what it cannot do is forge an artifact sealed under the secret: to present one it
 must have been emitted by an earlier event. Clocks are readings of whichever replica acts and
 need not agree or advance. /token is two steps with anything in between: acceptance of the
 request, and the upstream exchange with the answer.
 */
module Protocol {
  import opened Wrappers
  import opened GoStrings
  import opened Wire
  import opened Clock
  import opened Configuration
  import opened Urls
  import opened CimdMetadata
  import opened Jwe
  import opened BrokerState
  import opened TokenResponse
  import opened Broker
  import JsonText

  /** What the upstream IdP promises: PKCE (section 4.6 of RFC 7636) and single use (section 4.1.2 of RFC 6749). */
  datatype Idp = Idp(enforcesPkce: bool, singleUse: bool)

  /** The shared secret and the IdP. */
  datatype System = System(secret: string, idp: Idp)

  datatype Event =
    | Authorized(cfg: Config, areq: AuthorizeRequest, aenv: AuthorizeEnv, redirect: UpstreamRedirect)
    | CodeIssued(code: Text, challenge: Text)
    | CalledBack(cfg: Config, state: Text, upstreamCode: Text, cenv: CallbackEnv, reply: ClientRedirect)
    | TokenAccepted(cfg: Config, treq: TokenRequest, tenv: TokenEnv, exchange: Exchange)
    | Exchanged(accepted: nat, redeemed: Exchange)
    | Responded(exchanged: nat, cfg: Config, fenv: FinishEnv, grant: Grant)

  /** The event puts `t` on the wire. */
  predicate Emits(e: Event, t: Text) {
    match e
    case Authorized(_, _, _, redirect) => t == redirect.state
    case CalledBack(_, _, _, _, reply) => t == reply.code
    case Responded(_, _, _, grant) => t == grant.response.accessToken
    case _ => false
  }

  /** No forgery: an artifact of this system has been emitted before position k. */
  ghost predicate Known(sys: System, tr: seq<Event>, k: nat, t: Text)
    requires k <= |tr|
  {
    t.Sealed? && t.secret == sys.secret ==> exists m :: 0 <= m < k && Emits(tr[m], t)
  }

  /** Resolution yields clients decoded from JSON; seconds plus lifetimes stay below 2^53. */
  predicate PlausibleClient(id: Text, c: Option<Client>) {
    c.Some? ==> id.Lit? && DecodedClient(id.chars, c.value)
  }

  predicate PlausibleClock(t: int) {
    0 <= Unix(t) < JsonText.EXACT - 600
  }

  /** The IdP redeems `x` at position k. */
  ghost predicate Redeems(sys: System, tr: seq<Event>, k: nat, x: Exchange)
    requires k <= |tr|
  {
    && (sys.idp.enforcesPkce ==>
          exists p :: 0 <= p < k && tr[p].CodeIssued? && tr[p].code == x.code && tr[p].challenge == Digest(x.verifier))
    && (sys.idp.singleUse ==> forall q :: 0 <= q < k && tr[q].Exchanged? ==> tr[q].redeemed.code != x.code)
  }

  ghost predicate Legal(sys: System, tr: seq<Event>, k: nat)
    requires k < |tr|
  {
    match tr[k]
    case Authorized(cfg, req, env, redirect) =>
      && cfg.signingSecret == sys.secret
      && PlausibleClient(req.clientId, env.client)
      && PlausibleClock(env.clock)
      && (env.verifier.Some? ==> IsClean(env.verifier.value))
      && HandleAuthorize(cfg, req, env) == Ok(redirect)
    case CodeIssued(_, _) => true
    case CalledBack(cfg, state, code, env, reply) =>
      && cfg.signingSecret == sys.secret
      && PlausibleClock(env.mintClock)
      && Known(sys, tr, k, state)
      && HandleCallback(cfg, state, code, env) == Ok(reply)
    case TokenAccepted(cfg, req, env, exchange) =>
      && cfg.signingSecret == sys.secret
      && PlausibleClient(req.clientId, env.client)
      && Known(sys, tr, k, req.code)
      && HandleTokenRequest(cfg, req, env) == Ok(exchange)
    case Exchanged(a, x) =>
      a < k && tr[a].TokenAccepted? && tr[a].exchange == x && Redeems(sys, tr, k, x)
    case Responded(x, cfg, env, grant) =>
      && x < k && tr[x].Exchanged? && tr[x].accepted < k && tr[tr[x].accepted].TokenAccepted?
      && cfg == tr[tr[x].accepted].cfg
      && (forall q :: 0 <= q < k && tr[q].Responded? ==> tr[q].exchanged != x)
      && (forall body :: UpstreamTokens(env.upstream) == Ok(body) ==> Known(sys, tr, k, body.accessToken))
      && Finish(cfg, tr[x].redeemed.scope, env) == Ok(grant)
  }

  ghost predicate ValidRun(sys: System, tr: seq<Event>) {
    forall k :: 0 <= k < |tr| ==> Legal(sys, tr, k)
  }

  // ---------------------------------------------------------------- what each step gives

  predicate AuthorizeFacts(sys: System, e: Event)
    requires e.Authorized?
  {
    var req, env := e.areq, e.aenv;
    && env.verifier.Some? && IsClean(env.verifier.value)
    && IsClean(req.clientId) && IsClean(req.redirectUri)
    && env.client.Some? && Registered(env.client.value, req.redirectUri)
    && req.codeChallengeMethod == Lit("S256")
    && ResourceIsHere(e.cfg, req)
    && PlausibleClock(env.clock)
    && e.redirect.state == EncodePendingAuth(sys.secret, PendingOf(req, env.verifier.value, env.clock), env.nonce)
    && e.redirect.codeChallenge == Digest(env.verifier.value)
    && e.redirect.redirectUri == CallbackUrl(e.cfg, req.http)
  }

  lemma AuthorizedStep(sys: System, tr: seq<Event>, i: nat)
    requires ValidRun(sys, tr) && i < |tr| && tr[i].Authorized?
    ensures AuthorizeFacts(sys, tr[i])
  {
    assert Legal(sys, tr, i);
  }

  /** A state or code that a handler accepted was sealed for it and emitted before. */
  ghost predicate EmittedBefore(sys: System, tr: seq<Event>, k: nat, t: Text, info: string)
    requires k <= |tr|
  {
    t.Sealed? && t.secret == sys.secret && t.info == info && exists m :: 0 <= m < k && Emits(tr[m], t)
  }

  lemma CalledBackStep(sys: System, tr: seq<Event>, j: nat)
    requires ValidRun(sys, tr) && j < |tr| && tr[j].CalledBack?
    ensures EmittedBefore(sys, tr, j, tr[j].state, PENDING_AUTH)
    ensures PlausibleClock(tr[j].cenv.mintClock)
  {
    assert Legal(sys, tr, j);
  }

  lemma CalledBackWith(sys: System, tr: seq<Event>, j: nat, p: PendingAuth, nonce: nat)
    requires ValidRun(sys, tr) && j < |tr| && tr[j].CalledBack?
    requires tr[j].state == EncodePendingAuth(sys.secret, p, nonce)
    ensures Unix(tr[j].cenv.openClock) <= JsonText.Float64(Unix(p.expiresAt))
    ensures tr[j].reply.redirectUri == Clean(p.redirectUri) && tr[j].reply.state == Clean(p.clientState)
    ensures tr[j].reply.code == EncodeAuthCode(sys.secret, CodeOf(CleanPending(p), tr[j].upstreamCode, tr[j].cenv.mintClock),
                                               tr[j].cenv.nonce)
  {
    assert Legal(sys, tr, j);
    CallbackOnMintedState(tr[j].cfg, p, nonce, tr[j].upstreamCode, tr[j].cenv);
  }

  lemma AcceptedStep(sys: System, tr: seq<Event>, a: nat)
    requires ValidRun(sys, tr) && a < |tr| && tr[a].TokenAccepted?
    ensures EmittedBefore(sys, tr, a, tr[a].treq.code, AUTH_CODE)
  {
    assert Legal(sys, tr, a);
  }

  lemma AcceptedWith(sys: System, tr: seq<Event>, a: nat, c: IssuedCode, nonce: nat)
    requires ValidRun(sys, tr) && a < |tr| && tr[a].TokenAccepted?
    requires tr[a].treq.code == EncodeAuthCode(sys.secret, c, nonce)
    ensures Unix(tr[a].tenv.clock) <= JsonText.Float64(Unix(c.expiresAt))
    ensures ProperTokenRequest(tr[a].treq, tr[a].tenv)
    ensures CodeMatches(CleanCode(c), tr[a].treq)
    ensures tr[a].exchange == Exchange(Clean(c.upstreamCode), Clean(c.upstreamVerifier),
                                       CallbackUrl(tr[a].cfg, tr[a].treq.http), Clean(c.scope))
  {
    assert Legal(sys, tr, a);
    TokenOnMintedCode(tr[a].cfg, c, nonce, tr[a].treq, tr[a].tenv);
  }

  lemma ExchangedStep(sys: System, tr: seq<Event>, x: nat)
    requires ValidRun(sys, tr) && x < |tr| && tr[x].Exchanged?
    ensures var a := tr[x].accepted;
            a < x && tr[a].TokenAccepted? && tr[a].exchange == tr[x].redeemed && Redeems(sys, tr, x, tr[x].redeemed)
  {
    assert Legal(sys, tr, x);
  }

  /** A bearer is a downstream token, a signed id_token, or upstream's access token. */
  lemma BearerShape(cfg: Config, scope: Text, env: FinishEnv)
    requires Finish(cfg, scope, env).Ok?
    ensures var g := Finish(cfg, scope, env).value;
            var t := g.response.accessToken;
            if Wraps(cfg, g.identity.idToken) then t.Sealed? && t.info == DOWNSTREAM_TOKEN
            else t.Signed?
                 || (UpstreamTokens(env.upstream).Ok? && t == UpstreamTokens(env.upstream).value.accessToken)
  {
    EveryResponseIsBacked(cfg, scope, env);
  }

  lemma RespondedStep(sys: System, tr: seq<Event>, k: nat)
    requires ValidRun(sys, tr) && k < |tr| && tr[k].Responded?
    ensures tr[k].exchanged < k && tr[tr[k].exchanged].Exchanged?
    ensures forall q :: 0 <= q < k && tr[q].Responded? ==> tr[q].exchanged != tr[k].exchanged
    ensures var t := tr[k].grant.response.accessToken;
            && (Wrapped(tr[k]) ==> t.Sealed? && t.info == DOWNSTREAM_TOKEN)
            && (!Wrapped(tr[k]) && t.Sealed? && t.secret == sys.secret ==> exists m :: 0 <= m < k && Emits(tr[m], t))
  {
    assert Legal(sys, tr, k);
    BearerShape(tr[k].cfg, tr[tr[k].exchanged].redeemed.scope, tr[k].fenv);
    assert UpstreamTokens(tr[k].fenv.upstream).Ok? ==>
        Known(sys, tr, k, UpstreamTokens(tr[k].fenv.upstream).value.accessToken);
  }

  // ---------------------------------------------------------------- where artifacts come from

  /** The response minted its own bearer by wrapping an id_token. */
  predicate Wrapped(e: Event) {
    e.Responded? && Wraps(e.cfg, e.grant.identity.idToken)
  }

  /** Every artifact on the wire was minted by the handler for its kind, whoever repeated it since. */
  lemma MintedByHandler(sys: System, tr: seq<Event>, m: nat, t: Text) returns (i: nat)
    requires ValidRun(sys, tr) && m < |tr| && Emits(tr[m], t)
    requires t.Sealed? && t.secret == sys.secret
    ensures i <= m && Emits(tr[i], t)
    ensures tr[i].Authorized? || tr[i].CalledBack? || Wrapped(tr[i])
    ensures t.info == PENDING_AUTH ==> tr[i].Authorized?
    ensures t.info == AUTH_CODE ==> tr[i].CalledBack?
    ensures t.info == DOWNSTREAM_TOKEN ==> Wrapped(tr[i])
    decreases m
  {
    LabelsDiffer();
    i := m;
    match tr[m] {
      case Authorized(_, _, _, _) =>
        AuthorizedStep(sys, tr, m);
      case CalledBack(_, _, _, _, _) =>
        CallbackMintsCode(sys, tr, m);
      case Responded(_, _, _, _) =>
        RespondedStep(sys, tr, m);
        if !Wrapped(tr[m]) {
          var m' :| 0 <= m' < m && Emits(tr[m'], t);
          i := MintedByHandler(sys, tr, m', t);
        }
      case _ =>
    }
  }

  lemma CallbackMintsCode(sys: System, tr: seq<Event>, j: nat)
    requires ValidRun(sys, tr) && j < |tr| && tr[j].CalledBack?
    ensures tr[j].reply.code.Sealed? && tr[j].reply.code.info == AUTH_CODE
  {
    assert Legal(sys, tr, j);
  }

  /** The artifact has a numeric `exp`, and no decoder opens it after that. */
  ghost predicate Expires(t: Text)
    requires t.Sealed?
  {
    && Exp in t.body && t.body[Exp].JNum?
    && forall secret, info, now :: Unix(now) > JsonText.Float64(t.body[Exp].num) ==> DecodeJWE(secret, info, t, now).Err?
  }

  lemma NumericExpExpires(t: Text)
    requires t.Sealed? && Exp in t.body && t.body[Exp].JNum?
    ensures Expires(t)
  {
    forall secret, info, now | Unix(now) > JsonText.Float64(t.body[Exp].num)
      ensures DecodeJWE(secret, info, t, now).Err?
    {
      assert Unmarshal(t.body)[Exp] == JNum(JsonText.Float64(t.body[Exp].num));
    }
  }

  /** No artifact that any run puts on the wire lacks a numeric `exp`, so each of them stops opening. */
  lemma ArtifactsExpire(sys: System, tr: seq<Event>, m: nat, t: Text)
    requires ValidRun(sys, tr) && m < |tr| && Emits(tr[m], t)
    requires t.Sealed? && t.secret == sys.secret
    ensures Expires(t)
  {
    var i := MintedByHandler(sys, tr, m, t);
    assert Legal(sys, tr, i);
    if tr[i].Authorized? {
      AuthorizedStep(sys, tr, i);
    }
    NumericExpExpires(t);
  }

  // ---------------------------------------------------------------- one flow

  /** The callback at j opened the state of the authorization at i, and the request at a presented its code. */
  ghost predicate Linked(tr: seq<Event>, i: nat, j: nat, a: nat) {
    && i < j < a < |tr|
    && tr[i].Authorized? && tr[j].CalledBack? && tr[a].TokenAccepted?
    && tr[j].state == tr[i].redirect.state
    && tr[a].treq.code == tr[j].reply.code
  }

  /** Every accepted token request is linked to a callback and an authorization before it. */
  lemma TokenIsLinked(sys: System, tr: seq<Event>, a: nat) returns (i: nat, j: nat)
    requires ValidRun(sys, tr) && a < |tr| && tr[a].TokenAccepted?
    ensures Linked(tr, i, j, a)
  {
    AcceptedStep(sys, tr, a);
    var code := tr[a].treq.code;
    var m :| 0 <= m < a && Emits(tr[m], code);
    j := MintedByHandler(sys, tr, m, code);
    CalledBackStep(sys, tr, j);
    var n :| 0 <= n < j && Emits(tr[n], tr[j].state);
    i := MintedByHandler(sys, tr, n, tr[j].state);
  }

  /** What the token request has in common with the authorization, and what the client saw in between. */
  ghost predicate SameClient(tr: seq<Event>, i: nat, j: nat, a: nat)
    requires Linked(tr, i, j, a)
  {
    var req, tok := tr[i].areq, tr[a].treq;
    && tok.clientId == req.clientId
    && tok.redirectUri == req.redirectUri
    && req.codeChallenge == Digest(tok.codeVerifier)
    && req.codeChallengeMethod == Lit("S256")
    && tr[j].reply.redirectUri == req.redirectUri && tr[j].reply.state == Clean(req.state)
    && tr[i].aenv.client.Some? && Registered(tr[i].aenv.client.value, req.redirectUri)
    && ProperTokenRequest(tok, tr[a].tenv)
    && ResourceIsHere(tr[i].cfg, req)
    && (IsClean(req.resource) && req.resource != EMPTY && tok.resource != EMPTY ==>
          TrimSlashesText(tok.resource) == TrimSlashesText(req.resource))
  }

  /** The callback came within 600 s, and the token request within 60 s of that. */
  ghost predicate InTime(tr: seq<Event>, i: nat, j: nat, a: nat)
    requires Linked(tr, i, j, a)
  {
    && Unix(tr[j].cenv.openClock) <= Unix(tr[i].aenv.clock) + 600
    && Unix(tr[a].tenv.clock) <= Unix(tr[j].cenv.mintClock) + 60
  }

  /** What the two requests to the upstream IdP have in common. */
  ghost predicate SameUpstreamLeg(tr: seq<Event>, i: nat, j: nat, a: nat)
    requires Linked(tr, i, j, a)
  {
    && tr[i].aenv.verifier == Some(tr[a].exchange.verifier)
    && tr[i].redirect.codeChallenge == Digest(tr[a].exchange.verifier)
    && tr[a].exchange.code == Clean(tr[j].upstreamCode)
    && tr[a].exchange.scope == Clean(SanitizeScope(tr[i].areq.scope))
    && tr[i].redirect.redirectUri == CallbackUrl(tr[i].cfg, tr[i].areq.http)
    && tr[a].exchange.redirectUri == CallbackUrl(tr[a].cfg, tr[a].treq.http)
  }

  /** What the three handlers of a flow agree on. */
  ghost predicate SameFlow(tr: seq<Event>, i: nat, j: nat, a: nat)
    requires Linked(tr, i, j, a)
  {
    SameClient(tr, i, j, a) && InTime(tr, i, j, a) && SameUpstreamLeg(tr, i, j, a)
  }

  /** The records that travel from /authorize to /callback and from there to /token. */
  lemma LinkedRecords(sys: System, tr: seq<Event>, i: nat, j: nat, a: nat) returns (p: PendingAuth, c: IssuedCode)
    requires ValidRun(sys, tr) && Linked(tr, i, j, a)
    ensures AuthorizeFacts(sys, tr[i]) && p == PendingOf(tr[i].areq, tr[i].aenv.verifier.value, tr[i].aenv.clock)
    ensures c == CodeOf(CleanPending(p), tr[j].upstreamCode, tr[j].cenv.mintClock)
    ensures tr[j].reply.redirectUri == Clean(p.redirectUri) && tr[j].reply.state == Clean(p.clientState)
    ensures Unix(tr[j].cenv.openClock) <= JsonText.Float64(Unix(p.expiresAt))
    ensures Unix(tr[a].tenv.clock) <= JsonText.Float64(Unix(c.expiresAt))
    ensures PlausibleClock(tr[j].cenv.mintClock)
    ensures ProperTokenRequest(tr[a].treq, tr[a].tenv) && CodeMatches(CleanCode(c), tr[a].treq)
    ensures tr[a].exchange == Exchange(Clean(c.upstreamCode), Clean(c.upstreamVerifier),
                                       CallbackUrl(tr[a].cfg, tr[a].treq.http), Clean(c.scope))
  {
    AuthorizedStep(sys, tr, i);
    CalledBackStep(sys, tr, j);
    var env := tr[i].aenv;
    p := PendingOf(tr[i].areq, env.verifier.value, env.clock);
    CalledBackWith(sys, tr, j, p, env.nonce);
    c := CodeOf(CleanPending(p), tr[j].upstreamCode, tr[j].cenv.mintClock);
    AcceptedWith(sys, tr, a, c, tr[j].cenv.nonce);
  }

  lemma LinkedInTime(sys: System, tr: seq<Event>, i: nat, j: nat, a: nat)
    requires ValidRun(sys, tr) && Linked(tr, i, j, a)
    ensures InTime(tr, i, j, a)
  {
    var p, c := LinkedRecords(sys, tr, i, j, a);
    AddSeconds(tr[i].aenv.clock, 600);
    AddSeconds(tr[j].cenv.mintClock, 60);
    JsonText.Float64Exact(Unix(p.expiresAt));
    JsonText.Float64Exact(Unix(c.expiresAt));
  }

  lemma LinkedIsSameClient(sys: System, tr: seq<Event>, i: nat, j: nat, a: nat)
    requires ValidRun(sys, tr) && Linked(tr, i, j, a)
    ensures SameClient(tr, i, j, a)
  {
    var p, c := LinkedRecords(sys, tr, i, j, a);
    var req := tr[i].areq;
    CleanIdentityIff(req.clientId);
    CleanIdentityIff(req.redirectUri);
    CleanIdentityIff(req.resource);
  }

  lemma LinkedIsSameUpstreamLeg(sys: System, tr: seq<Event>, i: nat, j: nat, a: nat)
    requires ValidRun(sys, tr) && Linked(tr, i, j, a)
    ensures SameUpstreamLeg(tr, i, j, a)
  {
    var p, c := LinkedRecords(sys, tr, i, j, a);
    CleanIdentityIff(tr[i].aenv.verifier.value);
    CleanIdentityIff(SanitizeScope(tr[i].areq.scope));
    CleanIdentityIff(Clean(SanitizeScope(tr[i].areq.scope)));
  }

  /** However a token request is linked to an authorization, the two agree on everything that matters. */
  lemma LinkedIsSameFlow(sys: System, tr: seq<Event>, i: nat, j: nat, a: nat)
    requires ValidRun(sys, tr) && Linked(tr, i, j, a)
    ensures SameFlow(tr, i, j, a)
  {
    LinkedIsSameClient(sys, tr, i, j, a);
    LinkedInTime(sys, tr, i, j, a);
    LinkedIsSameUpstreamLeg(sys, tr, i, j, a);
  }

  // ---------------------------------------------------------------- the redirect_uri of the upstream leg

  /** What every accepted /authorize sends as redirect_uri: under a public URL, that URL and the callback path. */
  lemma SentRedirectUri(sys: System, tr: seq<Event>, i: nat)
    requires ValidRun(sys, tr) && i < |tr| && tr[i].Authorized?
    requires NoSpace(TrimSpace(tr[i].cfg.callbackPath)) && PublicUrlSet(tr[i].cfg.publicAuthServerUrl)
    ensures tr[i].redirect.redirectUri
            == TrimSlashes(TrimSpace(tr[i].cfg.publicAuthServerUrl.raw)) + EndpointPath(tr[i].cfg.callbackPath, "/oauth/callback")
  {
    AuthorizedStep(sys, tr, i);
    PublicEndpoints(tr[i].cfg, tr[i].areq.http);
  }

  /**
   In every run, /token presents upstream the redirect_uri that /authorize sent, as section 4.1.3 of
   RFC 6749 requires, when the two replicas agree on callback path and public URL, or without a
   public URL on scheme, host and prefix.
   */
  lemma RedirectUriAgrees(sys: System, tr: seq<Event>, i: nat, j: nat, a: nat)
    requires ValidRun(sys, tr) && Linked(tr, i, j, a)
    requires SameCallbackPath(tr[i].cfg, tr[a].cfg)
    requires SamePublicUrl(tr[i].cfg, tr[a].cfg)
             || SameDerivedUrl(tr[i].cfg, tr[i].areq.http, tr[a].cfg, tr[a].treq.http)
    ensures tr[i].redirect.redirectUri == tr[a].exchange.redirectUri
  {
    LinkedIsSameFlow(sys, tr, i, j, a);
    CallbackUrlStable(tr[i].cfg, tr[i].areq.http, tr[a].cfg, tr[a].treq.http);
  }

  /** Two replicas with the same URL settings. */
  predicate SameUrlSettings(c1: Config, c2: Config) {
    c1.publicAuthServerUrl == c2.publicAuthServerUrl && c1.issuer == c2.issuer && c1.callbackPath == c2.callbackPath
  }

  /** Between replicas with the same URL settings, exactly when the public URL is set or scheme and host agree. */
  lemma RedirectUriAgreesIff(sys: System, tr: seq<Event>, i: nat, j: nat, a: nat)
    requires ValidRun(sys, tr) && Linked(tr, i, j, a) && SameUrlSettings(tr[i].cfg, tr[a].cfg)
    requires Ordinary(tr[i].areq.http) && Ordinary(tr[a].treq.http)
    ensures var r1, r2 := tr[i].areq.http, tr[a].treq.http;
            tr[i].redirect.redirectUri == tr[a].exchange.redirectUri
            <==> NormalizeUrl(tr[i].cfg.publicAuthServerUrl.raw) != "" || (Scheme(r1) == Scheme(r2) && Host(r1) == Host(r2))
  {
    LinkedIsSameFlow(sys, tr, i, j, a);
    assert CallbackUrl(tr[a].cfg, tr[a].treq.http) == CallbackUrl(tr[i].cfg, tr[a].treq.http);
    SameCallbackIff(tr[i].cfg, tr[i].areq.http, tr[a].treq.http);
  }

  // ---------------------------------------------------------------- the theorems

  /** The response at k answers the upstream exchange at x of the token request accepted at a. */
  ghost predicate Answers(tr: seq<Event>, k: nat, x: nat, a: nat) {
    && a < x < k < |tr|
    && tr[k].Responded? && tr[k].exchanged == x
    && tr[x].Exchanged? && tr[x].accepted == a
    && tr[a].TokenAccepted?
  }

  /**
   In every run, with any replicas and any replayed or garbage artifacts, a token response is
   preceded by an accepted /authorize with the same client_id and redirect_uri and the S256
   challenge of the presented verifier, then by a /callback within 600 s of it, then by the
   accepted /token request within 60 s of that, then by the upstream exchange.
   */
  lemma TokenResponseIsAuthorized(sys: System, tr: seq<Event>, k: nat)
    requires ValidRun(sys, tr) && k < |tr| && tr[k].Responded?
    ensures exists i: nat, j: nat, a: nat, x: nat :: Answers(tr, k, x, a) && Linked(tr, i, j, a) && SameFlow(tr, i, j, a)
  {
    RespondedStep(sys, tr, k);
    var x := tr[k].exchanged;
    ExchangedStep(sys, tr, x);
    var a := tr[x].accepted;
    var i, j := TokenIsLinked(sys, tr, a);
    LinkedIsSameFlow(sys, tr, i, j, a);
    assert Answers(tr, k, x, a);
  }

  /**
   The middleware end: in every run, a bearer that opens as a downstream token was minted by a
   token response of the run, and so rests on a complete authorized flow.
   */
  lemma OpenedBearerIsAuthorized(sys: System, tr: seq<Event>, bearer: Text, now: int)
    requires ValidRun(sys, tr) && Known(sys, tr, |tr|, bearer)
    requires DecodeDownstream(sys.secret, bearer, now).Ok?
    ensures exists i: nat, j: nat, a: nat, x: nat, k: nat :: Answers(tr, k, x, a) && Linked(tr, i, j, a) && SameFlow(tr, i, j, a)
                                    && tr[k].grant.response.accessToken == bearer && Wrapped(tr[k])
  {
    assert bearer.Sealed? && bearer.secret == sys.secret && bearer.info == DOWNSTREAM_TOKEN;
    var m :| 0 <= m < |tr| && Emits(tr[m], bearer);
    var k := MintedByHandler(sys, tr, m, bearer);
    TokenResponseIsAuthorized(sys, tr, k);
    var i: nat, j: nat, a: nat, x: nat :| Answers(tr, k, x, a) && Linked(tr, i, j, a) && SameFlow(tr, i, j, a);
  }

  ghost predicate FreshVerifiers(tr: seq<Event>) {
    forall i, i' :: 0 <= i < i' < |tr| && tr[i].Authorized? && tr[i'].Authorized?
                    ==> tr[i].aenv.verifier != tr[i'].aenv.verifier
  }

  /** The IdP issues every code once. */
  ghost predicate FreshCodes(tr: seq<Event>) {
    forall p, p' :: 0 <= p < p' < |tr| && tr[p].CodeIssued? && tr[p'].CodeIssued? ==> tr[p].code != tr[p'].code
  }

  /** The IdP issued, at p, the code redeemed at x, for an authorization request with this challenge. */
  ghost predicate IssuedFor(tr: seq<Event>, p: nat, x: nat, challenge: Text) {
    && p < x < |tr| && tr[p].CodeIssued? && tr[x].Exchanged?
    && tr[p].code == tr[x].redeemed.code && tr[p].challenge == challenge
  }

  /** Among all accepted /authorize requests only the one at i sent this challenge upstream. */
  ghost predicate OnlySender(tr: seq<Event>, i: nat, challenge: Text) {
    && i < |tr| && tr[i].Authorized? && tr[i].redirect.codeChallenge == challenge
    && forall n :: (0 <= n < |tr| && tr[n].Authorized? && tr[n].redirect.codeChallenge == challenge) ==> n == i
  }

  lemma ChallengeIdentifiesSender(sys: System, tr: seq<Event>, i: nat)
    requires ValidRun(sys, tr) && FreshVerifiers(tr) && i < |tr| && tr[i].Authorized?
    ensures OnlySender(tr, i, tr[i].redirect.codeChallenge)
  {
    AuthorizedStep(sys, tr, i);
    forall n | 0 <= n < |tr| && tr[n].Authorized? && tr[n].redirect.codeChallenge == tr[i].redirect.codeChallenge
      ensures n == i
    {
      AuthorizedStep(sys, tr, n);
    }
  }

  /**
   /callback pairs any code with any valid state. Still, against an IdP that enforces PKCE and
   with fresh verifiers, every code that is exchanged was issued for a request carrying the
   challenge of exactly one /authorize: the one whose pending-auth the broker code wrapped.
   */
  lemma ExchangeBindsAuthorization(sys: System, tr: seq<Event>, x: nat)
    requires ValidRun(sys, tr) && sys.idp.enforcesPkce && FreshVerifiers(tr)
    requires x < |tr| && tr[x].Exchanged?
    ensures exists i: nat, j: nat, p: nat ::
              Linked(tr, i, j, tr[x].accepted)
              && IssuedFor(tr, p, x, tr[i].redirect.codeChallenge)
              && OnlySender(tr, i, tr[i].redirect.codeChallenge)
  {
    ExchangedStep(sys, tr, x);
    var i, j := TokenIsLinked(sys, tr, tr[x].accepted);
    LinkedIsSameFlow(sys, tr, i, j, tr[x].accepted);
    var p :| 0 <= p < x && tr[p].CodeIssued? && tr[p].code == tr[x].redeemed.code
             && tr[p].challenge == Digest(tr[x].redeemed.verifier);
    assert IssuedFor(tr, p, x, tr[i].redirect.codeChallenge);
    ChallengeIdentifiesSender(sys, tr, i);
  }

  /** So, when no code is issued twice, one obtained for an /authorize is never exchanged through the state of another. */
  lemma NoCodeInjection(sys: System, tr: seq<Event>, x: nat, p: nat, i: nat, i': nat, j': nat)
    requires ValidRun(sys, tr) && sys.idp.enforcesPkce && FreshVerifiers(tr) && FreshCodes(tr)
    requires i < |tr| && tr[i].Authorized? && IssuedFor(tr, p, x, tr[i].redirect.codeChallenge)
    requires Linked(tr, i', j', tr[x].accepted)
    ensures i == i'
  {
    ExchangedStep(sys, tr, x);
    LinkedIsSameFlow(sys, tr, i', j', tr[x].accepted);
    ChallengeIdentifiesSender(sys, tr, i);
    var q :| 0 <= q < x && tr[q].CodeIssued? && tr[q].code == tr[x].redeemed.code
             && tr[q].challenge == Digest(tr[x].redeemed.verifier);
    assert p == q;
  }

  /** What a broker code exchanges for does not depend on who presents it or when. */
  lemma CodeFixesExchange(sys: System, tr: seq<Event>, a: nat, a': nat)
    requires ValidRun(sys, tr) && a < |tr| && a' < |tr| && tr[a].TokenAccepted? && tr[a'].TokenAccepted?
    requires tr[a].treq.code == tr[a'].treq.code
    ensures tr[a].exchange.code == tr[a'].exchange.code
    ensures tr[a].exchange.verifier == tr[a'].exchange.verifier
  {
    var i, j := TokenIsLinked(sys, tr, a);
    AuthorizedStep(sys, tr, i);
    var env := tr[i].aenv;
    var p := PendingOf(tr[i].areq, env.verifier.value, env.clock);
    CalledBackWith(sys, tr, j, p, env.nonce);
    var c := CodeOf(CleanPending(p), tr[j].upstreamCode, tr[j].cenv.mintClock);
    AcceptedWith(sys, tr, a, c, tr[j].cenv.nonce);
    AcceptedWith(sys, tr, a', c, tr[j].cenv.nonce);
  }

  /**
   With stateless replicas and unlimited replay, token responses map injectively to upstream
   codes and to broker codes when the IdP redeems each code once.
   */
  lemma AtMostOneResponsePerCode(sys: System, tr: seq<Event>, k: nat, x: nat, a: nat, k': nat, x': nat, a': nat)
    requires ValidRun(sys, tr) && sys.idp.singleUse
    requires Answers(tr, k, x, a) && Answers(tr, k', x', a') && k != k'
    ensures tr[x].redeemed.code != tr[x'].redeemed.code
    ensures tr[a].treq.code != tr[a'].treq.code
  {
    RespondedStep(sys, tr, k);
    RespondedStep(sys, tr, k');
    ExchangedStep(sys, tr, x);
    ExchangedStep(sys, tr, x');
    if tr[a].treq.code == tr[a'].treq.code {
      CodeFixesExchange(sys, tr, a, a');
    }
  }

  /** Legality of an event depends only on the events before it. */
  lemma LegalInExtension(sys: System, tr: seq<Event>, e: Event, k: nat)
    requires k < |tr| && Legal(sys, tr, k)
    ensures Legal(sys, tr + [e], k)
  {
    var tr' := tr + [e];
    assert forall n :: 0 <= n < |tr| ==> tr'[n] == tr[n];
    forall t | Known(sys, tr, k, t)
      ensures Known(sys, tr', k, t)
    {
      if t.Sealed? && t.secret == sys.secret {
        var m :| 0 <= m < k && Emits(tr[m], t);
        assert Emits(tr'[m], t);
      }
    }
  }

  lemma ExtendRun(sys: System, tr: seq<Event>, e: Event)
    requires ValidRun(sys, tr) && Legal(sys, tr + [e], |tr|)
    ensures ValidRun(sys, tr + [e])
  {
    forall k | 0 <= k < |tr + [e]|
      ensures Legal(sys, tr + [e], k)
    {
      if k < |tr| {
        LegalInExtension(sys, tr, e, k);
      }
    }
  }

  lemma KnownLater(sys: System, tr: seq<Event>, e: Event, k: nat, t: Text)
    requires k <= |tr| && Known(sys, tr, k, t)
    ensures Known(sys, tr + [e], |tr|, t)
  {
    if t.Sealed? && t.secret == sys.secret {
      var m :| 0 <= m < k && Emits(tr[m], t);
      assert Emits((tr + [e])[m], t);
    }
  }

  /** An accepted token request is accepted again, by any replica at the same clock reading. */
  lemma RepeatAccepted(sys: System, tr: seq<Event>, a: nat)
    requires ValidRun(sys, tr) && a < |tr| && tr[a].TokenAccepted?
    ensures ValidRun(sys, tr + [tr[a]])
  {
    assert Legal(sys, tr, a);
    KnownLater(sys, tr, tr[a], a, tr[a].treq.code);
    ExtendRun(sys, tr, tr[a]);
  }

  /** An IdP that does not count redemptions redeems the same code for the repeated request. */
  lemma RepeatExchanged(sys: System, tr: seq<Event>, x: nat, b: nat)
    requires ValidRun(sys, tr) && !sys.idp.singleUse && x < |tr| && tr[x].Exchanged?
    requires b < |tr| && tr[b].TokenAccepted? && tr[b].exchange == tr[x].redeemed
    ensures ValidRun(sys, tr + [Exchanged(b, tr[x].redeemed)])
  {
    ExchangedStep(sys, tr, x);
    var e := Exchanged(b, tr[x].redeemed);
    if sys.idp.enforcesPkce {
      var p :| 0 <= p < x && tr[p].CodeIssued? && tr[p].code == tr[x].redeemed.code
               && tr[p].challenge == Digest(tr[x].redeemed.verifier);
      assert (tr + [e])[p] == tr[p];
    }
    ExtendRun(sys, tr, e);
  }

  /** The same upstream reply then yields the same response once more. */
  lemma RepeatResponded(sys: System, tr: seq<Event>, k: nat, y: nat)
    requires ValidRun(sys, tr) && k < |tr| && tr[k].Responded? && y < |tr| && tr[y].Exchanged?
    requires tr[k].exchanged < k && tr[tr[k].exchanged].Exchanged? && tr[y].redeemed == tr[tr[k].exchanged].redeemed
    requires tr[y].accepted < y && tr[tr[y].accepted].TokenAccepted? && tr[tr[y].accepted].cfg == tr[k].cfg
    requires forall q :: 0 <= q < |tr| && tr[q].Responded? ==> tr[q].exchanged != y
    ensures ValidRun(sys, tr + [tr[k].(exchanged := y)])
  {
    assert Legal(sys, tr, k);
    var e := tr[k].(exchanged := y);
    forall body | UpstreamTokens(e.fenv.upstream) == Ok(body)
      ensures Known(sys, tr + [e], |tr|, body.accessToken)
    {
      KnownLater(sys, tr, e, k, body.accessToken);
    }
    ExtendRun(sys, tr, e);
  }

  /**
   Single use is the IdP's to enforce: without it the stateless broker honours the same broker
   code again, and every run with a response extends to one with two responses for its code.
   */
  lemma ReplayHonouredWithoutSingleUse(sys: System, tr: seq<Event>, k: nat, x: nat, a: nat)
    requires ValidRun(sys, tr) && !sys.idp.singleUse && Answers(tr, k, x, a)
    ensures exists tr': seq<Event>, k': nat, x': nat, a': nat ::
              tr <= tr' && ValidRun(sys, tr') && Answers(tr', k', x', a') && k' != k
              && tr'[a'].treq.code == tr[a].treq.code
  {
    var n := |tr|;
    ExchangedStep(sys, tr, x);
    RespondedConfig(sys, tr, k, x, a);
    RepeatAccepted(sys, tr, a);
    var tr1 := tr + [tr[a]];
    assert tr1[x] == tr[x] && tr1[n] == tr[a];
    RepeatExchanged(sys, tr1, x, n);
    var tr2 := tr1 + [Exchanged(n, tr1[x].redeemed)];
    assert tr2[k] == tr[k] && tr2[x] == tr[x] && tr2[n] == tr[a];
    forall q | 0 <= q < |tr2| && tr2[q].Responded?
      ensures tr2[q].exchanged != n + 1
    {
      RespondedStep(sys, tr2, q);
    }
    RepeatResponded(sys, tr2, k, n + 1);
    var tr3 := tr2 + [tr2[k].(exchanged := n + 1)];
    assert tr3[n] == tr[a] && tr3[n + 1] == Exchanged(n, tr[x].redeemed) && tr <= tr3;
    assert Answers(tr3, n + 2, n + 1, n);
  }

  lemma RespondedConfig(sys: System, tr: seq<Event>, k: nat, x: nat, a: nat)
    requires ValidRun(sys, tr) && Answers(tr, k, x, a)
    ensures tr[k].cfg == tr[a].cfg
  {
    assert Legal(sys, tr, k);
  }
}
