/**
 The first half of handleToken (broker.go) as it runs: it resolves the client through the metadata
 cache and checks its assertion through the key cache, then goes on as `HandleTokenRequest` does.
 */
module TokenEndpoint {
  import opened Wrappers
  import opened Wire
  import opened Configuration
  import opened Urls
  import opened CimdMetadata
  import opened BrokerState
  import opened TokenResponse
  import opened Broker
  import FifoCache
  import Validator
  import Resolver
  import ClientAssertion

  /** What one resolution reads from outside: the URL's verdict, what it serves, and the clock. */
  datatype Resolution = Resolution(urlAllowed: bool, stamp: int, now: int, fetch: Resolver.Fetch, later: int)

  /** What checking an assertion reads from outside: the parsed assertion, key sets and the clock. */
  datatype Evidence = Evidence(
    parsed: Option<ClientAssertion.Assertion>,
    clocks: (int, int, int, int),
    now: int,
    replies: ClientAssertion.Replies)

  /** The client was parsed from a document that this URL serves now, or served at most an hour ago. */
  ghost predicate ClientServed(history: seq<Resolver.Access>, rules: UrlRules, url: string, c: Client, res: Resolution) {
    || Resolver.Describes(rules, url, res.fetch, c)
    || (exists a :: a in history && Resolver.Supplied(rules, a, url, c, res.now))
  }

  /** Every document came out of the JSON decoder. */
  ghost predicate DocumentsDecoded(history: seq<Resolver.Access>) {
    forall a :: a in history && a.Finished? ==> FetchDecoded(a.fetch)
  }

  predicate FetchDecoded(f: Resolver.Fetch) {
    f.Reply? && f.doc.Some? ==> Resolver.Decoded(f.doc.value)
  }

  /** What is served survives the broker's artifacts unchanged. */
  lemma ServedClientIsDecoded(history: seq<Resolver.Access>, rules: UrlRules, url: string, c: Client, res: Resolution)
    requires ClientServed(history, rules, url, c, res) && DocumentsDecoded(history) && FetchDecoded(res.fetch)
    ensures DecodedClient(url, c)
  {
    if a :| a in history && Resolver.Supplied(rules, a, url, c, res.now) {
      Resolver.SuppliedClientIsDecoded(rules, a, url, c, res.now);
    }
  }

  /**
   Client resolution, as /authorize and /token both do it. A text that is an artifact is no https
   URL, so it resolves to nothing.
   */
  method ResolveClient(resolver: Resolver.CimdResolver, clientId: Text, res: Resolution) returns (client: Option<Client>)
    requires resolver.Valid()
    modifies resolver, resolver.cache
    ensures resolver.Valid()
    ensures client.Some? ==>
              clientId.Lit? && res.urlAllowed
              && ClientServed(old(resolver.history), resolver.rules, clientId.chars, client.value, res)
  {
    if !clientId.Lit? {
      return None;
    }
    var r := resolver.Resolve(clientId.chars, res.urlAllowed, res.stamp, res.now, res.fetch, res.later);
    if r.Err? {
      return None;
    }
    return Some(r.value);
  }

  /** The assertion of the request verifies for this client and this broker's token endpoint. */
  ghost predicate AssertionHolds(keys: FifoCache.State<seq<Validator.Jwk>>, cfg: Config, req: TokenRequest, c: Client,
                                 ev: Evidence)
  {
    && req.clientId.Lit?
    && ClientAssertion.Accepts(keys, c.jwksUri, req.clientId.chars, ev.parsed, TokenUrl(cfg, req.http), ev.clocks.0,
                               ev.now, ev.replies)
  }

  /** The switch on the client's authentication method. */
  method Authenticate(verifier: ClientAssertion.AssertionVerifier, cfg: Config, req: TokenRequest, c: Client, ev: Evidence)
    returns (ok: bool)
    requires verifier.Valid() && req.clientId.Lit?
    modifies verifier, verifier.cache
    ensures verifier.Valid()
    ensures ok <==> || (c.authMethod == "none" && !Presents(req))
                    || (c.authMethod == "private_key_jwt"
                        && (Presents(req) ==> req.assertionType == Lit(JWT_BEARER)
                                              && AssertionHolds(old(verifier.cache.View()), cfg, req, c, ev)))
    ensures !Presents(req) ==> verifier.history == old(verifier.history)
  {
    if c.authMethod == "none" {
      return !Presents(req);
    }
    if c.authMethod != "private_key_jwt" {
      return false;
    }
    if !Presents(req) {
      return true;
    }
    if req.assertionType != Lit(JWT_BEARER) {
      return false;
    }
    ok := verifier.Verify(c.jwksUri, req.clientId.chars, ev.parsed, TokenUrl(cfg, req.http), ev.clocks, ev.now, ev.replies);
  }

  /**
   The handler up to the upstream exchange. It computes `HandleTokenRequest` for an environment
   that the caches supplied: the client comes from its own metadata URL, and the assertion counts
   as valid exactly when one was presented and verified against the client's published keys.
   */
  method AcceptTokenRequest(resolver: Resolver.CimdResolver, verifier: ClientAssertion.AssertionVerifier, cfg: Config,
                            req: TokenRequest, res: Resolution, ev: Evidence, tokenUrlKnown: bool, clock: int)
    returns (r: Result<Exchange, Failure>, env: TokenEnv)
    requires resolver.Valid() && verifier.Valid()
    modifies resolver, resolver.cache, verifier, verifier.cache
    ensures resolver.Valid() && verifier.Valid()
    ensures r == HandleTokenRequest(cfg, req, env)
    ensures env.client.Some? ==>
              req.clientId.Lit?
              && ClientServed(old(resolver.history), resolver.rules, req.clientId.chars, env.client.value, res)
    ensures r.Ok? ==> env.client.Some?
    ensures r.Ok? && env.client.value.authMethod == "private_key_jwt" ==>
              (env.assertionValid <==> Presents(req))
              && (Presents(req) ==> AssertionHolds(old(verifier.cache.View()), cfg, req, env.client.value, ev))
  {
    env := TokenEnv(None, false, tokenUrlKnown, clock);
    if req.method_ != "POST" {
      return Err(Failure(405, InvalidRequest)), env;
    }
    if !req.formParses {
      return Err(Failure(400, InvalidRequest)), env;
    }
    if req.grantType != Lit("authorization_code") {
      return Err(Failure(400, UnsupportedGrantType)), env;
    }
    if req.clientSecret != EMPTY {
      return Err(Failure(401, InvalidClient)), env;
    }
    var client := ResolveClient(resolver, req.clientId, res);
    env := env.(client := client);
    if client.None? {
      return Err(Failure(401, InvalidClient)), env;
    }
    var ok := Authenticate(verifier, cfg, req, client.value, ev);
    env := env.(assertionValid := ok && Presents(req));
    if !ok {
      return Err(Failure(401, InvalidClient)), env;
    }
    if !Registered(client.value, req.redirectUri) {
      return Err(Failure(400, InvalidGrant)), env;
    }
    var issued := DecodeAuthCode(cfg.signingSecret, req.code, clock);
    return Redeem(cfg, issued, req, env), env;
  }
}
