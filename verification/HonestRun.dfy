/** Completeness of the protocol: from every reachable state an honest client gets its token. */
module HonestRun {
  import opened Wrappers
  import opened Wire
  import opened Clock
  import opened Configuration
  import opened Urls
  import opened CimdMetadata
  import opened BrokerState
  import opened Validator
  import opened Refresh
  import opened TokenResponse
  import opened Broker
  import opened Protocol
  import JsonText

  /** One client's way through three replicas. */
  datatype Flow = Flow(
    authorizer: Config,
    areq: AuthorizeRequest,
    aenv: AuthorizeEnv,
    upstreamCode: Text,
    relay: Config,
    cenv: CallbackEnv,
    redeemer: Config,
    treq: TokenRequest,
    tenv: TokenEnv,
    fenv: FinishEnv)

  /** /authorize accepts, and the client is back at /callback in time with the upstream code. */
  predicate HonestStart(sys: System, f: Flow) {
    && f.authorizer.signingSecret == sys.secret && f.relay.signingSecret == sys.secret
    && HandleAuthorize(f.authorizer, f.areq, f.aenv).Ok?
    && PlausibleClient(f.areq.clientId, f.aenv.client)
    && HonestLegs(f.relay, f.areq, f.aenv, f.upstreamCode, f.cenv)
  }

  /** The code that /callback mints for the flow. */
  function FlowCode(f: Flow): Text
    requires f.aenv.verifier.Some?
  {
    EncodeAuthCode(f.relay.signingSecret, CodeFor(f.areq, f.aenv, f.upstreamCode, f.cenv), f.cenv.nonce)
  }

  /** The client presents that code in time, with its own verifier and the parameters of /authorize. */
  predicate HonestRedemption(sys: System, f: Flow)
    requires f.aenv.verifier.Some?
  {
    && f.redeemer.signingSecret == sys.secret
    && f.treq.code == FlowCode(f)
    && ProperTokenRequest(f.treq, f.tenv)
    && PlausibleClient(f.treq.clientId, f.tenv.client)
    && f.treq.clientId == f.areq.clientId && f.treq.redirectUri == f.areq.redirectUri
    && f.areq.codeChallenge == Digest(f.treq.codeVerifier)
    && IsClean(f.areq.resource)
    && (f.treq.resource == EMPTY || TrimSlashesText(f.treq.resource) == TrimSlashesText(f.areq.resource))
    && Unix(f.tenv.clock) <= Unix(f.cenv.mintClock) + 60
  }

  /** The exchange that redeeming the flow's code makes. */
  function FlowExchange(f: Flow): Exchange {
    Exchange(f.upstreamCode, if f.aenv.verifier.Some? then f.aenv.verifier.value else EMPTY,
             CallbackUrl(f.redeemer, f.treq.http), Clean(Clean(SanitizeScope(f.areq.scope))))
  }

  /** Upstream answers the exchange with tokens that the broker can answer with, and that are not its own artifacts. */
  predicate HonestUpstream(sys: System, f: Flow) {
    && Finish(f.redeemer, FlowExchange(f).scope, f.fenv).Ok?
    && UpstreamTokens(f.fenv.upstream).Ok?
    && var t := UpstreamTokens(f.fenv.upstream).value.accessToken;
       !(t.Sealed? && t.secret == sys.secret)
  }

  predicate Honest(sys: System, f: Flow) {
    HonestStart(sys, f) && HonestRedemption(sys, f) && HonestUpstream(sys, f)
  }

  // ---------------------------------------------------------------- the six events

  function AuthorizedEvent(f: Flow): Event
    requires HandleAuthorize(f.authorizer, f.areq, f.aenv).Ok?
  {
    Authorized(f.authorizer, f.areq, f.aenv, HandleAuthorize(f.authorizer, f.areq, f.aenv).value)
  }

  function IssuedEvent(f: Flow): Event
    requires f.aenv.verifier.Some?
  {
    CodeIssued(f.upstreamCode, Digest(f.aenv.verifier.value))
  }

  function CalledBackEvent(f: Flow): Event
    requires f.aenv.verifier.Some?
  {
    CalledBack(f.relay, StateFor(f.relay, f.areq, f.aenv), f.upstreamCode, f.cenv,
               ClientRedirect(f.areq.redirectUri, FlowCode(f), Clean(f.areq.state)))
  }

  function AcceptedEvent(f: Flow): Event {
    TokenAccepted(f.redeemer, f.treq, f.tenv, FlowExchange(f))
  }

  function RespondedEvent(f: Flow, exchanged: nat): Event
    requires Finish(f.redeemer, FlowExchange(f).scope, f.fenv).Ok?
  {
    Responded(exchanged, f.redeemer, f.fenv, Finish(f.redeemer, FlowExchange(f).scope, f.fenv).value)
  }

  /** The run goes on with /authorize, the IdP's code and /callback. */
  function Started(sys: System, tr: seq<Event>, f: Flow): seq<Event>
    requires HonestStart(sys, f)
  {
    tr + [AuthorizedEvent(f)] + [IssuedEvent(f)] + [CalledBackEvent(f)]
  }

  /** And then with /token, the upstream exchange and the response. */
  function Completed(sys: System, tr: seq<Event>, f: Flow): seq<Event>
    requires Honest(sys, f)
  {
    Exchanging(sys, tr, f) + [RespondedEvent(f, |tr| + 4)]
  }

  lemma StartedIsRun(sys: System, tr: seq<Event>, f: Flow)
    requires ValidRun(sys, tr) && HonestStart(sys, f)
    ensures ValidRun(sys, Started(sys, tr, f))
  {
    var e1, e2, e3 := AuthorizedEvent(f), IssuedEvent(f), CalledBackEvent(f);
    ExtendRun(sys, tr, e1);
    ExtendRun(sys, tr + [e1], e2);
    var tr2 := tr + [e1] + [e2];
    HonestCallbackAccepted(f.relay, f.areq, f.aenv, f.upstreamCode, f.cenv);
    assert (tr2 + [e3])[|tr|] == e1;
    assert Emits((tr2 + [e3])[|tr|], e3.state);
    assert (tr2 + [e3])[|tr2|] == e3;
    ExtendRun(sys, tr2, e3);
  }

  lemma RedemptionAccepted(sys: System, f: Flow)
    requires HonestStart(sys, f) && HonestRedemption(sys, f)
    ensures HandleTokenRequest(f.redeemer, f.treq, f.tenv) == Ok(FlowExchange(f))
  {
    HonestFlowAccepted(f.redeemer, f.areq, f.aenv, f.upstreamCode, f.cenv, f.treq, f.tenv);
    TokenOnMintedCode(f.redeemer, CodeFor(f.areq, f.aenv, f.upstreamCode, f.cenv), f.cenv.nonce, f.treq, f.tenv);
  }

  lemma AcceptedExtends(sys: System, tr: seq<Event>, f: Flow)
    requires ValidRun(sys, tr) && HonestStart(sys, f) && HonestRedemption(sys, f)
    ensures ValidRun(sys, Started(sys, tr, f) + [AcceptedEvent(f)])
  {
    StartedIsRun(sys, tr, f);
    RedemptionAccepted(sys, f);
    var tr3, e4 := Started(sys, tr, f), AcceptedEvent(f);
    assert (tr3 + [e4])[|tr| + 2] == CalledBackEvent(f);
    assert Emits((tr3 + [e4])[|tr| + 2], f.treq.code);
    assert (tr3 + [e4])[|tr3|] == e4;
    ExtendRun(sys, tr3, e4);
  }

  /** No exchange of the run redeemed the flow's upstream code. */
  ghost predicate Unredeemed(tr: seq<Event>, code: Text) {
    forall q :: 0 <= q < |tr| && tr[q].Exchanged? ==> tr[q].redeemed.code != code
  }

  /** Up to the upstream exchange, which the IdP grants. */
  function Exchanging(sys: System, tr: seq<Event>, f: Flow): seq<Event>
    requires HonestStart(sys, f)
  {
    Started(sys, tr, f) + [AcceptedEvent(f)] + [Exchanged(|tr| + 3, FlowExchange(f))]
  }

  lemma IdpRedeems(sys: System, tr: seq<Event>, f: Flow)
    requires HonestStart(sys, f) && Unredeemed(tr, f.upstreamCode)
    ensures Redeems(sys, Exchanging(sys, tr, f), |tr| + 4, FlowExchange(f))
  {
    var tr' := Exchanging(sys, tr, f);
    assert tr'[|tr| + 1] == IssuedEvent(f);
    forall q | 0 <= q < |tr| + 4 && tr'[q].Exchanged?
      ensures tr'[q].redeemed.code != f.upstreamCode
    {
      assert q < |tr| && tr'[q] == tr[q];
    }
  }

  lemma ExchangingIsRun(sys: System, tr: seq<Event>, f: Flow)
    requires ValidRun(sys, tr) && HonestStart(sys, f) && HonestRedemption(sys, f) && Unredeemed(tr, f.upstreamCode)
    ensures ValidRun(sys, Exchanging(sys, tr, f))
  {
    AcceptedExtends(sys, tr, f);
    IdpRedeems(sys, tr, f);
    var tr' := Exchanging(sys, tr, f);
    assert tr'[|tr| + 3] == AcceptedEvent(f);
    ExtendRun(sys, Started(sys, tr, f) + [AcceptedEvent(f)], Exchanged(|tr| + 3, FlowExchange(f)));
  }

  /** No response of a run answers an event that is not in it. */
  lemma ResponsesLookBack(sys: System, tr: seq<Event>, q: nat)
    requires ValidRun(sys, tr) && q < |tr| && tr[q].Responded?
    ensures tr[q].exchanged < q
  {
    assert Legal(sys, tr, q);
  }

  lemma ResponseIsLegal(sys: System, tr: seq<Event>, e: Event)
    requires e.Responded? && e.exchanged < |tr| && tr[e.exchanged].Exchanged?
    requires var a := tr[e.exchanged].accepted; a < |tr| && tr[a].TokenAccepted? && tr[a].cfg == e.cfg
    requires forall q :: 0 <= q < |tr| && tr[q].Responded? ==> tr[q].exchanged != e.exchanged
    requires Finish(e.cfg, tr[e.exchanged].redeemed.scope, e.fenv) == Ok(e.grant)
    requires UpstreamTokens(e.fenv.upstream).Ok?
    requires var t := UpstreamTokens(e.fenv.upstream).value.accessToken; !(t.Sealed? && t.secret == sys.secret)
    ensures Legal(sys, tr + [e], |tr|)
  {
    var tr' := tr + [e];
    assert forall q :: 0 <= q < |tr| ==> tr'[q] == tr[q];
    assert tr'[|tr|] == e;
  }

  /** The response answers the exchange that ends the run. */
  lemma RespondedExtends(sys: System, tr: seq<Event>, f: Flow)
    requires |tr| >= 2 && ValidRun(sys, tr) && HonestUpstream(sys, f)
    requires var x := |tr| - 1; tr[x] == Exchanged(x - 1, FlowExchange(f)) && tr[x - 1] == AcceptedEvent(f)
    ensures ValidRun(sys, tr + [RespondedEvent(f, |tr| - 1)])
  {
    var x, e := |tr| - 1, RespondedEvent(f, |tr| - 1);
    forall q | 0 <= q < |tr| && tr[q].Responded?
      ensures tr[q].exchanged != x
    {
      ResponsesLookBack(sys, tr, q);
    }
    ResponseIsLegal(sys, tr, e);
    ExtendRun(sys, tr, e);
  }

  /**
   Completeness: whatever has happened so far, whoever replayed what, and however strict the IdP
   is, an honest flow whose upstream code is unspent extends the run to one with its response.
   */
  lemma HonestFlowCompletes(sys: System, tr: seq<Event>, f: Flow)
    requires ValidRun(sys, tr) && Honest(sys, f) && Unredeemed(tr, f.upstreamCode)
    ensures var tr', n := Completed(sys, tr, f), |tr|;
            && ValidRun(sys, tr') && tr <= tr'
            && Answers(tr', n + 5, n + 4, n + 3) && Linked(tr', n, n + 2, n + 3)
            && tr'[n].areq == f.areq && tr'[n + 3].treq == f.treq && tr'[n + 3].tenv == f.tenv
            && tr'[n + 4].redeemed.code == f.upstreamCode
  {
    CompletedIsRun(sys, tr, f);
    CompletedEvents(sys, tr, f);
  }

  lemma CompletedIsRun(sys: System, tr: seq<Event>, f: Flow)
    requires ValidRun(sys, tr) && Honest(sys, f) && Unredeemed(tr, f.upstreamCode)
    ensures ValidRun(sys, Completed(sys, tr, f))
  {
    ExchangingIsRun(sys, tr, f);
    RespondedExtends(sys, Exchanging(sys, tr, f), f);
  }

  lemma CompletedEvents(sys: System, tr: seq<Event>, f: Flow)
    requires Honest(sys, f)
    ensures var tr', n := Completed(sys, tr, f), |tr|;
            && |tr'| == n + 6 && tr <= tr'
            && tr'[n] == AuthorizedEvent(f) && tr'[n + 2] == CalledBackEvent(f) && tr'[n + 3] == AcceptedEvent(f)
            && tr'[n + 4] == Exchanged(n + 3, FlowExchange(f)) && tr'[n + 5] == RespondedEvent(f, n + 4)
  {
    SixMore(tr, AuthorizedEvent(f), IssuedEvent(f), CalledBackEvent(f), AcceptedEvent(f),
            Exchanged(|tr| + 3, FlowExchange(f)), RespondedEvent(f, |tr| + 4));
  }

  lemma SixMore<T>(s: seq<T>, a: T, b: T, c: T, d: T, e: T, f: T)
    ensures var s', n := s + [a] + [b] + [c] + [d] + [e] + [f], |s|;
            && |s'| == n + 6 && s <= s'
            && s'[n] == a && s'[n + 1] == b && s'[n + 2] == c && s'[n + 3] == d && s'[n + 4] == e && s'[n + 5] == f
  {
  }

  // ---------------------------------------------------------------- a client that never proves its key

  const BLANK: ConfiguredUrl := ConfiguredUrl("", "")

  function SampleConfig(secret: string): Config {
    Config(Forward, BLANK, "", BLANK, "broker", [], [], secret, BLANK, BLANK, [], [], false, [], 0, "", "")
  }

  const SAMPLE_CLIENT: Client := Client(["r"], "private_key_jwt", "j")
  const SAMPLE_HTTP: HttpRequest := HttpRequest("/", true, "", "h")

  function SampleAuthorize(): AuthorizeRequest {
    AuthorizeRequest("GET", Lit("c"), Lit("r"), Lit("code"), Digest(Lit("v")), Lit("S256"), EMPTY, EMPTY, EMPTY, SAMPLE_HTTP)
  }

  function SampleAuthorizeEnv(): AuthorizeEnv {
    AuthorizeEnv(Some(SAMPLE_CLIENT), Some(Lit("w")), true, 0, 0)
  }

  /** A token request without client_assertion and client_assertion_type. */
  function SampleTokenRequest(code: Text): TokenRequest {
    TokenRequest("POST", true, Lit("authorization_code"), Lit("c"), EMPTY, EMPTY, EMPTY, Lit("r"), code, Lit("v"), EMPTY,
                 SAMPLE_HTTP)
  }

  /** Upstream grants an access token only, and userinfo says nothing. */
  function SampleReplies(): FinishEnv {
    FinishEnv(Answered(200, Some(TokenBody(Lit("a"), EMPTY, EMPTY, EMPTY, 0, EMPTY, EMPTY))), Err(Unverifiable), Some(map[]),
              RefreshEnv(false, NoReply, Err(Unverifiable)), 0, 0, 0, 0, 0)
  }

  function SampleFlow(secret: string): Flow {
    var cfg, cenv := SampleConfig(secret), CallbackEnv(0, 0, 0, true);
    var code := EncodeAuthCode(secret, CodeFor(SampleAuthorize(), SampleAuthorizeEnv(), Lit("u"), cenv), 0);
    Flow(cfg, SampleAuthorize(), SampleAuthorizeEnv(), Lit("u"), cfg, cenv, cfg, SampleTokenRequest(code),
         TokenEnv(Some(SAMPLE_CLIENT), false, true, 0), SampleReplies())
  }

  lemma SampleStarts(sys: System)
    requires sys.secret != ""
    ensures HonestStart(sys, SampleFlow(sys.secret))
  {
    assert SAMPLE_CLIENT.redirectUris[0] == "r";
    assert JsonText.ValidUtf8("");
    assert "c"[1..] == "" && "r"[1..] == "" && "w"[1..] == "" && "u"[1..] == "";
    assert JsonText.ValidUtf8("c") && JsonText.ValidUtf8("r") && JsonText.ValidUtf8("w") && JsonText.ValidUtf8("u");
  }

  lemma SampleRedeems(sys: System)
    requires HonestStart(sys, SampleFlow(sys.secret))
    ensures HonestRedemption(sys, SampleFlow(sys.secret))
  {
  }

  lemma SampleUpstreamAnswers(sys: System)
    ensures HonestUpstream(sys, SampleFlow(sys.secret))
  {
    var f := SampleFlow(sys.secret);
    assert UpstreamTokens(f.fenv.upstream).Ok?;
    assert UserInfoClaims(f.redeemer, f.fenv.userInfo).Some?;
  }

  /** A client registered for private_key_jwt that presents no assertion. */
  predicate Unasserted(req: TokenRequest, env: TokenEnv) {
    env.client.Some? && env.client.value.authMethod == "private_key_jwt" && !Presents(req)
  }

  lemma UnassertedFlowIsServed(sys: System, f: Flow)
    requires Honest(sys, f) && Unasserted(f.treq, f.tenv)
    ensures exists tr: seq<Event>, k: nat, x: nat, a: nat ::
              ValidRun(sys, tr) && Answers(tr, k, x, a) && Unasserted(tr[a].treq, tr[a].tenv)
  {
    HonestFlowCompletes(sys, [], f);
    assert Answers(Completed(sys, [], f), 5, 4, 3);
  }

  /**
   /token checks an assertion only if one is presented: every system has a run in which a
   client registered for private_key_jwt gets its token without proving possession of any key.
   */
  lemma UnassertedClientIsServed(sys: System)
    requires sys.secret != ""
    ensures exists tr: seq<Event>, k: nat, x: nat, a: nat ::
              ValidRun(sys, tr) && Answers(tr, k, x, a) && Unasserted(tr[a].treq, tr[a].tenv)
  {
    SampleStarts(sys);
    SampleRedeems(sys);
    SampleUpstreamAnswers(sys);
    UnassertedFlowIsServed(sys, SampleFlow(sys.secret));
  }
}
