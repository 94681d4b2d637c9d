# Verified model of the go-mcp-oauth broker

This project models the parts of go-mcp-oauth where correctness spans several functions or whole
runs, and proves what they promise: the stateless brokered authorization-code protocol, the
bounded caches with the client-metadata and key lookups on top of them, bearer validation, and the
lifetimes of the tokens the broker mints. `dafny verify dfyconfig.toml` checks all of it.

## How the system is modelled

- **Wire and cryptography** (`Wire`, `Jwe`, `BrokerState`). A text on the wire is a literal, an
  S256 digest, a compact JWS or a compact JWE, as a free term: digests do not collide, and a JWE
  opens only under its own secret and HKDF label. Any field of any message may hold any text, an
  artifact included. A JSON round trip is modelled exactly: bytes that are not UTF-8 become U+FFFD
  and numbers pass through float64 (`JsonText`), so round trips are stated with their exact condition.
- **Runs** (`Protocol`). A run is the sequence of its successful steps: accepted `/authorize`
  requests, codes issued by the upstream IdP, callbacks, accepted `/token` requests, upstream
  exchanges and token responses. Each step names its own replica's configuration; replicas share
  nothing but the signing secret. Requests, replays, clock readings, resolved clients and upstream
  replies are the environment's choice. It cannot forge: a text sealed under the secret must have
  been emitted earlier in the run. The upstream IdP's duties (PKCE, single use, never issuing a
  code twice) and the freshness of verifiers are hypotheses of just the theorems that need them;
  clocks need not agree or advance, they only stay below 2^53 seconds. `HonestRun` shows the
  converse of safety, that honest flows extend every run, and `Admission` carries the theorems on
  to the middleware.
- **Handlers** (`Broker`, `TokenEndpoint`, `TokenResponse`, `Refresh`, `Middleware`, `ClaimRules`). Every branch
  of the source is there, with its status and error code, except those listed under Left out. The
  first half of `/token` is a method over the client and key caches, proved to compute the handler
  function that the runs use. The second half, which updates one record step by step, is a method
  proved equal to a composition of small functions in closed form.
- **Caches** (`FifoCache`, `Resolver`, `ClientAssertion`, `JwksSlot`). The two bounded caches are
  one class with a map and an order list changed in place, proved against a functional state; their
  theorems are about arbitrary sequences of operations and arbitrary interleavings of callers. The
  validator's single-slot key cache is a class for one caller at a time and a step system for any
  number of goroutines.
- **Times** are nanoseconds; `Unix` rounds down to seconds. int64 wrap-around is written out
  in the two places where an `exp` can reach it: the refresh duration (`Refresh.LifeLeft`) and the
  comparison of `time.Unix` instants (`Clock.FromUnix`).

Where code and documentation differ, the code is followed:

- KNOWN_ISSUES.md, item 3, says a sealed artifact with a non-numeric `exp` decodes; the code rejects
  it and accepts only an absent one (`Jwe.ExpDecidesLifetime`). No run of
  the broker puts an artifact without a numeric `exp` on the wire (`Protocol.ArtifactsExpire`).
- downstream_token.go says the wrapped `exp` is the upstream one; the code takes the earlier of it
  and the configured lifetime, except for an `exp` beyond the range of `time.Unix`
  (`TokenResponse.WrapInstant`).
- The repository's README offers `private_key_jwt` client authentication; the code checks an
  assertion only when one is presented (`HonestRun.UnassertedClientIsServed`).
- The SSRF case in `resolve` (cimd.go:272) cannot match, since dial errors are wrapped as plain
  fetch failures; `Resolver.FetchAndValidate` states it.

Properties that fail outside a condition are stated as equivalences with that condition:
advertised against wrapped lifetime (`AdvertisedWithinWrappedIff`), the wrapped `exp` as a minimum
(`WrapInstant`, `WrapCanExceedLifetime`), the effect of the refresh duration (`DurationEffect`,
`DurationCanMatter`), verification after key rotation (`PublishedSignerVerifiesIff`), the replay window of a client assertion (`UnboundedIffNoExpiry`),
one response per code (`AtMostOneResponsePerCode`, `ReplayHonouredWithoutSingleUse`), agreement of
the two upstream redirect URIs (`SameCallbackIff`, `CallbackUrlCanDiffer`), and both JSON round
trips.

## Model

| member | source | states |
|---|---|---|
| Protocol.TokenResponseIsAuthorized | broker.go:216-591 | in every run, with any replicas, replays and garbage, a token response follows an accepted `/authorize` with the same client_id and redirect_uri and the S256 challenge of the presented verifier, then a `/callback` within 600 s, then the `/token` request within 60 s, then the upstream exchange |
| Protocol.ExchangeBindsAuthorization | broker.go:251-451 | although `/callback` pairs any code with any state: with a PKCE-enforcing IdP and fresh verifiers, every exchanged code was issued for the challenge of exactly one `/authorize`, the one whose pending-auth the broker code wraps |
| Protocol.NoCodeInjection | broker.go:304-326 | when the IdP also never issues a code twice, a code issued for one `/authorize` is never exchanged through the state of another |
| Protocol.AtMostOneResponsePerCode | broker.go:410-472 | with a single-use IdP, token responses map injectively to upstream codes and to broker codes, however often states and codes are replayed |
| Protocol.ReplayHonouredWithoutSingleUse | broker.go:410-472 | without single use at the IdP, every run with a response extends to a run with a second response for the same broker code |
| Protocol.OpenedBearerIsAuthorized | middleware.go:27-31 | in every run a bearer that opens as a downstream token was minted by a token response of that run and rests on a complete authorized flow |
| Protocol.MintedByHandler | jwe.go:65-93 | every artifact on the wire was minted by the handler for its kind, through any number of repetitions by others |
| Protocol.ArtifactsExpire | jwe.go:135-155 | no artifact that any run puts on the wire lacks a numeric `exp`, and none opens after it under any secret or label |
| Protocol.LinkedIsSameFlow | broker.go:304-432 | a callback and a token request linked to an authorization through its artifacts agree with it on client, redirect URI, challenge, resource, client state, scope, verifier, upstream code, redirect_uri computation and time bounds |
| Protocol.RedirectUriAgrees | broker.go:434-448 | in every run `/token` presents upstream the redirect_uri that `/authorize` sent, when the replicas agree on callback path and public URL, or without one on scheme, host and prefix |
| Protocol.RedirectUriAgreesIff | broker.go:278-281 | between replicas with the same URL settings this holds exactly when PublicAuthServerURL is set or scheme and host agree |
| Protocol.SentRedirectUri | broker.go:278-281 | the redirect_uri that `/authorize` sends under a public URL is that URL followed by the callback path, "/oauth/callback" when none is configured |
| Protocol.CodeFixesExchange | broker.go:410-449 | what a broker code exchanges for does not depend on who presents it, where or when |
| HonestRun.HonestFlowCompletes | broker.go:216-591 | completeness: every run, whatever was replayed in it and however strict the IdP, extends by an honest flow over three replicas to a run with its response, unless its upstream code was already spent |
| HonestRun.UnassertedClientIsServed | broker.go:388-401 | every system has a run in which a `private_key_jwt` client that presents no assertion gets its token |
| Admission.AdmittedBearerIsAuthorized | middleware.go:16-44 | in every run, an encrypted bearer that a gating replica admits was minted by a response of the run, with a complete authorized flow behind it; it is admitted with exactly the claims verified for that response, and no later than its wrapped exp |
| Admission.SealedAdmittedOpens | claims.go:177-179 | in gating mode an encrypted bearer passes only by opening as a downstream token |
| TokenEndpoint.AcceptTokenRequest | broker.go:350-449 | the handler over its caches computes the handler function of the runs: the client is one its own metadata URL serves or served within the hour, and an assertion is verified against the published keys exactly when one is presented |
| TokenEndpoint.Authenticate | broker.go:381-405 | the switch on the client's authentication method accepts exactly public clients without and key clients with either no or a verified assertion for this token endpoint |
| TokenEndpoint.ResolveClient | broker.go:228-229 | a client is resolved only from an allowed URL and a document served there now or within the hour |
| TokenEndpoint.ServedClientIsDecoded | cimd.go:361-368 | such a client's id and redirect URIs survive the artifacts unchanged, as the runs assume |
| Broker.AuthorizeAcceptsIff | broker.go:216-302 | exactly when `/authorize` accepts a request, and the three things it then sends upstream |
| Broker.AuthorizeFailure | broker.go:216-276 | status and error of every rejection, for the first thing that is wrong |
| Broker.SanitizedScope | urls.go:127-130 | the stored scope has the words of the requested one, joined by single spaces |
| Broker.CallbackOnMintedState | broker.go:304-348 | exactly when `/callback` accepts a minted state, and the code it then mints |
| Broker.CallbackFailure | broker.go:304-341 | status and error of every rejection at `/callback` |
| Broker.TokenOnMintedCode | broker.go:350-449 | exactly when `/token` accepts a minted code, and the exchange it then makes |
| Broker.OpenedCodeIff | broker.go:410-432 | a code that opens is exchanged exactly when client, redirect URI, verifier, resource and upstream code match; a wrong resource alone is invalid_target, all else invalid_grant |
| Broker.TokenRequestFailure | broker.go:350-409 | status and error of a `/token` request that is rejected before its code is opened |
| Broker.HonestCallbackAccepted | broker.go:304-348 | an honest client that returns in time gets back to its redirect URI, with its state and a code for its flow |
| Broker.HonestFlowAccepted | broker.go:368-449 | an honest client's code, presented with no resource or the one it asked for, is accepted at `/token` exactly within 60 s, and exchanged with the upstream code and verifier of its flow |
| Jwe.OpensExactly | jwe.go:39-93 | an artifact opens under its own secret and label until `exp`, never after, and under nothing else, to its claims after one JSON round trip |
| Jwe.ExpDecidesLifetime | jwe.go:135-155 | an absent `exp` would never expire and a non-numeric one never opens |
| Jwe.UnlistedNeverOpens | jwe.go:95-133 | a claim outside the whitelist keeps an artifact shut under its own secret and label |
| BrokerState.PendingAuthDecodes | broker_state.go:46-80 | decoding an encoded pending-auth, for every record, secret and instant |
| BrokerState.AuthCodeDecodes | broker_state.go:82-116 | the same for auth codes |
| BrokerState.DownstreamDecodes | downstream_token.go:19-41 | the same for downstream tokens |
| BrokerState.PendingAuthRoundTripIff | broker_state.go:46-80 | the round trip is the identity, expiry cut to seconds, exactly for valid UTF-8 fields and an expiry that is a float64 |
| BrokerState.AuthCodeRoundTripIff | broker_state.go:82-116 | the same for auth codes |
| BrokerState.KindsDoNotMix | jwe.go:20-26 | no artifact is accepted by the decoder of another kind |
| JsonText.CoerceIdentityIff | jwe.go:41-46 | a string survives marshalling exactly when it is valid UTF-8 |
| JsonText.CoerceIsValid | jwe.go:41-46 | marshalled strings are valid UTF-8, so a second round trip changes nothing |
| JsonText.RecognisedIsEncoded | jwe.go:41-46 | what counts as well-formed is the UTF-8 encoding of a code point (section 3 of RFC 3629) |
| JsonText.EncodedIsRecognised | jwe.go:41-46 | and the encoding of every code point counts as well-formed |
| JsonText.Float64ExactIff | jwe.go:82-85 | a number survives exactly when it is a multiple of the float64 spacing at its magnitude |
| JsonText.Float64Exact | jwe.go:141-143 | below 2^53 every number survives; 2^53 + 1 does not |
| JsonText.Float64Nearest | jwe.go:141-143 | a number becomes the nearest multiple of the spacing, ties to even, symmetric in sign |
| JsonText.UlpSpec | jwe.go:141-143 | the spacing is the power of two that leaves 53 significant bits |
| TokenResponse.FinishTokenRequest | broker.go:451-591 | the step-by-step handler computes the composed response for every upstream reply |
| TokenResponse.SettleTokens | broker.go:500-530 | identity and refresh, updated in one record, yield the settled identity and answer |
| TokenResponse.Answer | broker.go:526-591 | bearer, scope, type and lifetime in closed form |
| TokenResponse.ExpiresInIs | broker.go:561-580 | expires_in of every response by mode and token: the seconds left to exp, capped by the configured lifetime when wrapped, that lifetime without an exp, else upstream's positive value, else 3600 |
| TokenResponse.ResponseIs | broker.go:526-591 | bearer, scope and type of every response: the userinfo path hands out upstream's access token; scope is upstream's, else the code's, else the configured ones; type is upstream's, else Bearer |
| TokenResponse.FinishAcceptsIff | broker.go:451-514 | the handler responds exactly when upstream granted a token whose identity is good; a refusal is 400 invalid_grant, all else 502 |
| TokenResponse.UserInfoAcceptedIff | broker.go:621-661 | a userinfo document is accepted exactly when it passes the identity rules, and only a boolean flag verifies its email |
| TokenResponse.WrapInstant | broker.go:535-542 | comparing instants and truncating is min(floor(now + TTL), upstream exp) exactly for an exp up to 2^63 - 1 - 62135596800; a later one wraps in `time.Unix`, wins the comparison and becomes the wrapped exp |
| TokenResponse.WrapCanExceedLifetime | broker.go:535-570 | the failing input: exp 9223372036854774784, the largest float64 in int64, outlives the configured lifetime that the response advertises |
| TokenResponse.WrappedWithinUpstream | broker.go:535-542 | the wrapped exp is never after the upstream one |
| Clock.FromUnixIff | broker.go:537-537 | `time.Unix` is the true instant exactly up to that second, and before 1970 beyond it |
| TokenResponse.EveryResponseIsBacked | broker.go:500-549 | every response rests on claims within policy; with an id_token they were verified from exactly the token returned or wrapped, which is that of the exchange or that of the refresh, by the keys looked up for it |
| TokenResponse.ExpiresInBounds | broker.go:561-580 | 0 <= expires_in, at most the configured lifetime for wrapped tokens, and never past an unexpired upstream token |
| TokenResponse.AdvertisedWithinWrappedIff | broker.go:534-580 | the advertised lifetime ends within the wrapped one, up to the handler's own duration, exactly when the upstream token was unexpired at wrapping |
| TokenResponse.DurationEffect | broker.go:518-580 | the exact effect of the refresh duration on `expires_in`: none, unless in forward mode for a token without positive exp and a positive product, and then its whole seconds or the default below one second |
| TokenResponse.DurationNeverMattersInRange | refresh.go:142-142 | within 9223372036 s it never affects a response |
| TokenResponse.DurationCanMatter | refresh.go:142-142 | a concrete upstream reply and refresh, with a wrapped product, to which the handler answers with 9223372036 s |
| Refresh.ValidatedIffBacked | validator.go:97-106 | identity validation succeeds exactly on tokens verified by a looked-up key, addressed to the broker and within policy |
| Refresh.RefreshKeepsPairing | refresh.go:124-143 | token and claims stay paired through every outcome of refresh |
| Refresh.RefreshOutcome | refresh.go:124-143 | a token is replaced exactly when there is a refresh token, less than 3300 s are left, and upstream renews it with a good one; otherwise it stays |
| Refresh.NoOverflow | refresh.go:142-142 | the duration product does not wrap within 9223372036 s |
| Middleware.WrappedAdmittedIff | middleware.go:16-44 | a wrapped token is admitted exactly while its exp has not passed and the inner token validates; afterwards it is rejected for good |
| Middleware.BackedValidatesIff | validator.go:69-136 | a token validated at minting validates later, on any replica, exactly when a key verifies it, that replica's issuer, audience, scopes and policy accept it, and exp, nbf and iat are within 60 s |
| Middleware.MintedBearerAdmittedIff | middleware.go:16-44 | from `/token` on one replica to the middleware of another: a minted bearer is admitted exactly until its wrapped exp, while a key verifies the inner token and the replica's settings and the inner windows accept it, with the claims verified at minting |
| Middleware.NeverPastUpstreamExp | broker.go:534-549 | with clock and exp in range no replica admits it after the upstream exp or the configured lifetime |
| Middleware.SkewDoesNotExtendWrapped | validator.go:119-122 | in the 60 s after exp the bare id_token validates while the bearer that wraps it is rejected, for any iat and nbf up to 60 s ahead |
| Middleware.BearerIs | middleware.go:55-65 | a header carries a bearer exactly when it begins with "bearer " in any case; the trimmed rest is the token |
| Middleware.ForwardPassesSealed | middleware.go:24-31 | forward mode does not unwrap: an encrypted bearer is passed on as it is |
| Middleware.NoBearerNoAdmission | middleware.go:18-22 | without a bearer nothing is admitted |
| ClaimRules.ValidateAcceptsIff | validator.go:69-157 | a signed token is accepted exactly when a looked-up key signed it and its JSON claims obey the issuer, audience, time (60 s), scope, email and hosted-domain rules; the result is those claims |
| ClaimRules.ValidateRejects | validator.go:108-157 | which error a token gets: that of the key lookup, InvalidToken for the wrong issuer, audience, nbf or iat, TokenExpired 60 s after exp, InsufficientScopes, EmailNotVerified, UnauthorizedDomain, for the first rule broken |
| ClaimRules.IdentityTokenAcceptedIff | validator.go:97-106 | an upstream id_token is accepted exactly under the same rules without scopes and time |
| ClaimRules.IdentityPolicyIff | validator.go:138-157 | the policy holds exactly for verified (or allowed unverified) emails of the form local@domain with a listed domain, and a listed hosted domain, up to case and white space |
| ClaimRules.IssuerRuleIff | claims.go:187-202 | iss is in the allowlist, or without one is the configured issuer if there is any, up to white space and trailing slashes |
| ClaimRules.AudienceRuleIff | claims.go:164-175 | aud is, or lists, the expected URL up to white space and trailing slashes |
| ClaimRules.ScopeRuleIff | claims.go:205-216 | every required scope is a word of the scope string or an element of the scope list |
| ClaimRules.FromRaw | claims.go:26-104 | the typed claims hold the strings and numbers of the JSON claims, and email_verified may be a boolean or a string |
| ClaimRules.UnsignedRejectedInGating | validator.go:73-80 | gating mode with a key source admits nothing but signed tokens |
| ClaimRules.UncheckedWithoutKeySource | validator.go:83-86 | with neither JWKS URL nor issuer a signed token passes unchecked and without claims |
| ClaimRules.OpaquePassesInForward | validator.go:73-82 | forward mode passes on what is not JWT-shaped |
| Validator.SearchKeys | validator.go:203-231 | the key loop succeeds iff some key verifies and issuer and audience accept, reports InvalidToken iff some key verifies and they do not |
| Validator.KeyOrderIrrelevant | validator.go:210-226 | the outcome depends on the set of keys only |
| TokenClaims.HasRequiredScopes | claims.go:205-216 | true iff every required scope is among the token's |
| JwksSlot.HitIsRecent | validator.go:291-323 | under every interleaving a hit is a non-empty key set that this URI served to a fetch begun less than five minutes before |
| JwksSlot.SlotHasSource | validator.go:317-321 | the slot always holds what one completed fetch of its own URI stored, with that fetch's start time or a zeroed one |
| JwksSlot.JwksCache.FetchJwks | validator.go:291-323 | hit, miss and new slot of one key fetch |
| JwksSlot.JwksCache.FindKeys | validator.go:177-201 | lookup with its kid-miss retry finds exactly what the fresh cached or first reply offers, else the second reply, in at most two fetches |
| JwksSlot.VerifyToken | validator.go:159-231 | parse, lookup and key search compose to the verdict over the looked-up keys |
| JwksSlot.RotationComplete | validator.go:183-201 | whatever the cache and the first reply held, lookup succeeds for a kid served last, except when the first fetch fails on a cold cache |
| JwksSlot.PublishedSignerVerifiesIff | validator.go:177-231 | a token whose signing key stays published verifies exactly when no fresh cached set offers only other keys for it |
| FifoCache.StepKeepsValid | cimd.go:512-553 | every operation keeps order and map in step, duplicate-free and within capacity |
| FifoCache.Survives | cimd.go:526-543 | in any run that does not expire or invalidate it, a key with b entries behind it outlives fewer than capacity - b insertions, however often it is overwritten in place |
| FifoCache.EntrySurvives | cimd.go:526-543 | while nothing overwrites it either, the very entry survives |
| FifoCache.NewKeySurvives | cimd.go:526-543 | a new key is pushed out only by at least the capacity-th later insertion; until then, while nothing overwrites it, lookups return exactly what was stored |
| FifoCache.InsertionsEvict | cimd.go:534-542 | the bound is exact: in a run of lookups and writes the key is there iff fewer insertions came, and hits or overwrites buy it no time (first-in-first-out, not least-recently-used) |
| FifoCache.HitIsLatestPut | cimd.go:512-543 | over any run a hit is the latest unsuppressed put for its key, and unexpired |
| FifoCache.HitWasAccess | cimd.go:512-543 | under any interleaving of callers a hit was written by one of them |
| FifoCache.ErrorsDoNotReplaceLive | cimd.go:529-533 | over any run, an error takes over from a positive entry only by a put that came after the key had left the cache or when the entry had reached its expiry |
| FifoCache.ExpiryInstant | cimd.go:519-530 | at the instant of expiry the entry still hits while an error may already replace it |
| FifoCache.Cache.Lookup | cimd.go:512-524 | result and new contents of a lookup, expiry included |
| FifoCache.Cache.Insert | cimd.go:526-543 | new contents after the guarded put |
| FifoCache.Cache.Replace | client_assertion.go:79-91 | new contents after the unguarded put; the front of a full cache exists |
| FifoCache.Cache.Forget | client_assertion.go:93-106 | new contents after invalidation |
| FifoCache.Cache.Evict | cimd.go:545-553 | the in-place removal loop takes out exactly the key |
| CacheControl.CacheTtlFromHeader | cimd.go:324-359 | the directive loop computes the scanned TTL |
| CacheControl.TtlRange | cimd.go:324-359 | every TTL is 0 or from 1 s to 3600 s |
| CacheControl.NotRememberedIff | cimd.go:335-348 | over the text: the TTL is 0 exactly when some comma-separated part, lower-cased and trimmed, is no-store, no-cache or a max-age that is not positive, and no earlier part is a max-age above 3600 |
| CacheControl.OtherwiseLastMaxAge | cimd.go:349-358 | over the text: otherwise a max-age above 3600 gives an hour, else the last one counts, else five minutes |
| CacheControl.SingleMaxAge | cimd.go:337-349 | the header "max-age=" with the digits of n gives n seconds up to 3600, an hour beyond, 0 for 0, and five minutes past int64 |
| CacheControl.AtoiReadsBack | cimd.go:338-341 | a printed number is read back with or without sign when it is an int64 |
| CacheControl.AtoiRejects | cimd.go:338-341 | anything with another character is an error |
| CimdMetadata.ParseCimdMetadata | cimd.go:361-440 | a document is accepted iff it meets every rule, duplicates and counts included |
| CimdMetadata.CheckRedirectUris | cimd.go:391-403 | the seen-set loop accepts iff the URIs are well-formed and pairwise different |
| Resolver.FetchAndValidate | cimd.go:283-317 | success exactly for a readable 200 JSON body within size whose document is acceptable, with that document's redirect URIs, method and jwks_uri and the header's TTL; otherwise an invalid document or a fetch failure, never an SSRF error |
| Resolver.CimdResolver.FetchDocument | cimd.go:283-317 | the fetch, built on the document and header loops, computes it |
| Resolver.HitIsRecentLookup | cimd.go:255-281 | under every interleaving a cached client was described by a document this very URL delivered at most an hour ago, and a cached error was found at most 30 s ago |
| Resolver.UnrememberedFetchChangesNothing | cimd.go:266-279 | failed fetches and zero-TTL replies leave the cache as it was |
| Resolver.SuppliedIsRemembered | cimd.go:276-279 | a client with a lifetime is answered from the cache until that lifetime is over, and not after |
| Resolver.FaultIsRemembered | cimd.go:266-274 | an unacceptable document is remembered for 30 s, unless a client is still live in the cache |
| Resolver.RejectionIsRemembered | cimd.go:256-259 | a rejected URL is remembered for 30 s |
| Resolver.CimdResolver.Resolve | cimd.go:255-281 | result and cache accesses of one resolution; a returned client is described, down to method and jwks_uri, by a document this URL delivers now or delivered within the hour |
| Resolver.SuppliedClientIsDecoded | cimd.go:361-368 | a resolved client's id and redirect URIs survive the broker's artifacts unchanged |
| ClientAssertion.SelectJwk | client_assertion.go:234-255 | the two loops return the first selectable key |
| ClientAssertion.SelectFindsIff | client_assertion.go:234-259 | a key is selected iff some key with use "" or "sig" has the kid, or without a kid the alg or none |
| ClientAssertion.ClaimsAcceptedIff | client_assertion.go:213-230 | the claims pass exactly when iss = sub = client_id, the token endpoint is in aud, exp, nbf and iat are within 60 s, and exp - iat is at most 600 s |
| ClientAssertion.FetchUncached | client_assertion.go:127-167 | a key set is had exactly from a readable 200 JSON body within size that holds a key |
| ClientAssertion.AssertionVerifier.FetchKeySet | client_assertion.go:127-167 | the fetch, built on the header loop, computes it |
| ClientAssertion.ServedIsRemembered | client_assertion.go:115-124 | served keys are answered from the cache for the lifetime their header gives |
| ClientAssertion.ReplayWindow | client_assertion.go:219-230 | an assertion with iat and exp is never accepted at two instants more than 720 s apart |
| ClientAssertion.UnboundedIffNoExpiry | client_assertion.go:219-230 | an accepted assertion stays acceptable forever exactly when it carries no exp |
| ClientAssertion.HitWasServed | client_assertion.go:108-125 | cached keys were served by their own URI within the last hour |
| ClientAssertion.RotationComplete | client_assertion.go:191-206 | whatever the cache and the first reply held, lookup succeeds for a selectable key served last, except when the first fetch fails on a cold cache |
| ClientAssertion.AssertionVerifier.LookupKey | client_assertion.go:191-206 | lookup with invalidation and retry over two independent replies, in at most two fetches |
| ClientAssertion.AssertionVerifier.Verify | client_assertion.go:175-232 | acceptance exactly when a key is found and verifies and iss = sub = client_id, the token endpoint is in aud and the times fit; the key is a signature key of the client's own jwks_uri, at most an hour old |
| Urls.SameCallbackIff | urls.go:9-125 | two requests that continue no well-known marker and carry no white space in scheme or host send the same redirect_uri upstream exactly when PublicAuthServerURL is set or scheme and host agree |
| Urls.CallbackUrlCanDiffer | broker.go:147-152 | without PublicAuthServerURL, two host names give two redirect URIs |
| Urls.CallbackUrlStable | broker.go:126-152 | two replicas compute the same one for any two requests with the same callback path and PublicAuthServerURL, or without one with the same scheme, host and prefix when neither path continues a well-known marker |
| Urls.PublicEndpoints | urls.go:28-52 | callback and token URL under a public URL: that URL, then the configured or default path, rooted and slash-trimmed |
| Urls.DerivedEndpoints | broker.go:126-152 | and without one: scheme and host of the request, the issuer's path, then that path |
| Urls.MarkerPrefix | urls.go:82-97 | a path that continues a well-known marker with a tenant path moves the authorization server under it |
| Urls.ResourceBaseValue | broker.go:111-145 | the resource URL is the public one, else scheme, host and the audience's path |
| Urls.SchemeAndHostValue | urls.go:112-125 | the forwarded protocol in lower case, else by TLS, and the host unless it could break out of the URL |
| CimdPath.DecodingCommutesWithSplit | cimd.go:110-117 | without encoded separators percent-decoding commutes with splitting on "/" |
| CimdPath.ValidCimdPathIff | cimd.go:106-123 | the accepted paths exactly, including the doubled root |
| CimdPath.AcceptedPathIsUnambiguous | cimd.go:106-123 | an accepted path decodes segment by segment, has no dot segment, and gains no backslash |
| CimdPath.SeparatorsStay | cimd.go:110-117 | without encoded separators decoding keeps the number of slashes and of backslashes |
| CimdPath.EncodesSeparatorIff | cimd.go:110-113 | exactly %2F, %2f, %5C and %5c are refused |
| CimdPath.UnescapeInverts | cimd.go:114-117 | decoding undoes escaping in either case |
| CimdPath.UnescapeSomeIff | cimd.go:114-117 | a path decodes exactly when two hexadecimal digits follow each percent sign |

## Left out

- HTTP plumbing, JSON response writing, CORS, logging, routing and discovery documents: I/O without deep properties.
- Real cryptography and randomness: symbolic, as described above; a fresh verifier is a hypothesis.
- Encoding errors of the JWE library: sealing is total in the model, so the three 500 replies for them do not occur.
- DNS, dialing, TLS and the address block list: network library behaviour and a fixed table.
- `url.Parse`, IDNA and JSON decoding: parsed URLs, URL verdicts and decoded documents are inputs.
- OIDC discovery (`fetchOIDCDiscovery`) and its cache: whether an endpoint or JWKS URL is known is an input.
- The upstream authorization scope, `access_type` and `prompt` parameters: no later step depends on them.
- Scope renaming in the response (`normalizeUpstreamScopeForClient`) and scope advertisement: they change how a scope is spelled, and no modelled check reads the result.
- Fractional JSON numbers and float64 values outside int64: numbers are integers in the model; lemmas about lifetimes require `exp` within int64, the type it has in the source.
- TokenEndpoint.ResolveClient: an artifact presented as client_id leaves no negative cache entry, since cache keys are plain strings.
- Unicode case folding and white space: ASCII only, in `GoStrings`.
- TokenClaims.ClaimsFromRaw: the loops over JSON arrays are a recursive function, and `name` and extra claims are not kept.
- JwksSlot.JwksCache.FindKeys: is about one caller at a time; interleaved callers are covered by JwksSlot.HitIsRecent.
- ClientAssertion.AssertionVerifier.LookupKey: is about one caller at a time; interleaved callers are covered by ClientAssertion.HitWasServed.
