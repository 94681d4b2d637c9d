/** The protocol and the middleware together: what stands behind an admitted bearer. */
module Admission {
  import opened Wrappers
  import opened Wire
  import opened Clock
  import opened Configuration
  import opened Validator
  import opened BrokerState
  import opened TokenResponse
  import opened Middleware
  import opened Protocol
  import JsonText

  /** Only an artifact that opens as a downstream token passes in gating mode: a sealed text is not JWT-shaped. */
  lemma SealedAdmittedOpens(cfg: Config, bearer: Text, keys: KeyLookup, openClock: int, checkClock: int)
    requires cfg.mode.Gating? && cfg.signingSecret != "" && bearer.Sealed?
    requires Admit(cfg, Presenting(bearer), keys, openClock, checkClock).Ok?
    ensures DecodeDownstream(cfg.signingSecret, bearer, openClock).Ok?
  {
    PresentedIsExtracted(bearer);
  }

  /** The response at k minted the bearer, and this is what it is admitted as: its claims, until its wrapped exp. */
  ghost predicate AdmittedAs(tr: seq<Event>, k: nat, bearer: Text, cfg: Config, passed: Passed, openClock: int)
    requires k < |tr| && tr[k].Responded?
  {
    var claims := tr[k].grant.identity.claims;
    && Wrapped(tr[k]) && tr[k].grant.response.accessToken == bearer == passed.raw
    && passed.claims == (if NoKeySource(cfg) then None else Some(claims))
    && IdentityPolicy(tr[k].cfg, claims) == None
    && Unix(openClock) <= JsonText.Float64(WrappedExp(tr[k].cfg, claims.expiresAt, tr[k].fenv.wrapClock))
  }

  /** What the response of the run was computed from. */
  lemma RespondedWith(sys: System, tr: seq<Event>, k: nat) returns (scope: Text)
    requires ValidRun(sys, tr) && k < |tr| && tr[k].Responded?
    ensures Finish(tr[k].cfg, scope, tr[k].fenv) == Ok(tr[k].grant) && tr[k].cfg.signingSecret == sys.secret
  {
    assert Legal(sys, tr, k);
    scope := tr[tr[k].exchanged].redeemed.scope;
    assert Legal(sys, tr, tr[tr[k].exchanged].accepted);
  }

  /** Without a key source the middleware passes the inner token on unchecked, and so without claims. */
  lemma MintedBearerAdmittedAs(minter: Config, scope: Text, env: FinishEnv, cfg: Config, keys: KeyLookup,
                               openClock: int, checkClock: int)
    requires Finish(minter, scope, env).Ok? && Wraps(minter, Finish(minter, scope, env).value.identity.idToken)
    requires cfg.mode.Gating? && cfg.signingSecret == minter.signingSecret != ""
    requires Admit(cfg, Presenting(Finish(minter, scope, env).value.response.accessToken), keys, openClock, checkClock).Ok?
    ensures var g := Finish(minter, scope, env).value;
            var passed := Admit(cfg, Presenting(g.response.accessToken), keys, openClock, checkClock).value;
            && passed == Passed(g.response.accessToken, if NoKeySource(cfg) then None else Some(g.identity.claims))
            && Unix(openClock) <= JsonText.Float64(WrappedExp(minter, g.identity.claims.expiresAt, env.wrapClock))
  {
    var g := Finish(minter, scope, env).value;
    if NoKeySource(cfg) {
      EveryResponseIsBacked(minter, scope, env);
      MintedShape(minter, scope, env);
      var w := WrappedExp(minter, g.identity.claims.expiresAt, env.wrapClock);
      WrappedAdmittedIff(cfg, g.identity.idToken, w, env.nonce, keys, openClock, checkClock);
    } else {
      MintedBearerAdmittedIff(minter, scope, env, cfg, keys, openClock, checkClock);
    }
  }

  /**
   End to end: in every run, an encrypted bearer that any gating replica admits was minted by a
   token response of the run. The next handler sees exactly the claims verified for that response,
   it happens no later than the response's wrapped exp, and behind the response stands a complete
   flow of the client that was authorized.
   */
  lemma AdmittedBearerIsAuthorized(sys: System, tr: seq<Event>, cfg: Config, bearer: Text, keys: KeyLookup,
                                   openClock: int, checkClock: int)
    requires ValidRun(sys, tr) && Known(sys, tr, |tr|, bearer) && bearer.Sealed?
    requires cfg.mode.Gating? && cfg.signingSecret == sys.secret != ""
    requires Admit(cfg, Presenting(bearer), keys, openClock, checkClock).Ok?
    ensures exists i: nat, j: nat, a: nat, x: nat, k: nat ::
              Answers(tr, k, x, a) && Linked(tr, i, j, a) && SameFlow(tr, i, j, a)
              && AdmittedAs(tr, k, bearer, cfg, Admit(cfg, Presenting(bearer), keys, openClock, checkClock).value, openClock)
  {
    SealedAdmittedOpens(cfg, bearer, keys, openClock, checkClock);
    OpenedBearerIsAuthorized(sys, tr, bearer, openClock);
    var i: nat, j: nat, a: nat, x: nat, k: nat :|
      Answers(tr, k, x, a) && Linked(tr, i, j, a) && SameFlow(tr, i, j, a)
      && tr[k].grant.response.accessToken == bearer && Wrapped(tr[k]);
    var scope := RespondedWith(sys, tr, k);
    EveryResponseIsBacked(tr[k].cfg, scope, tr[k].fenv);
    MintedBearerAdmittedAs(tr[k].cfg, scope, tr[k].fenv, cfg, keys, openClock, checkClock);
  }
}
