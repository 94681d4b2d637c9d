/** client_assertion.go: private_key_jwt client authentication (section 3 of RFC 7523). */
module ClientAssertion {
  import opened Wrappers
  import opened Clock
  import opened CacheControl
  import opened FifoCache
  import opened Validator

  const MAX_LIFETIME: int := 600 * SECOND
  const SKEW: int := 60 * SECOND
  const CAPACITY: nat := 1024

  // ---------------------------------------------------------------- key selection

  predicate IsSigKey(k: Jwk) {
    k.use == "" || k.use == "sig"
  }

  /** A key that may verify an assertion with this header. */
  predicate Selectable(k: Jwk, kid: string, alg: string) {
    IsSigKey(k) && if kid != "" then k.kid == kid else k.alg == alg || k.alg == ""
  }

  /** The first selectable key. */
  function Select(keys: seq<Jwk>, kid: string, alg: string): Option<Jwk> {
    if keys == [] then None
    else if Selectable(keys[0], kid, alg) then Some(keys[0])
    else Select(keys[1..], kid, alg)
  }

  /** A signature key with the kid that was asked for, or without one a key for the algorithm. */
  predicate Fits(k: Jwk, kid: string, alg: string) {
    && (k.use == "" || k.use == "sig")
    && (kid != "" ==> k.kid == kid)
    && (kid == "" ==> k.alg == alg || k.alg == "")
  }

  lemma {:induction false} SelectFindsIff(keys: seq<Jwk>, kid: string, alg: string)
    ensures Select(keys, kid, alg).Some? <==> exists k :: k in keys && Fits(k, kid, alg)
    ensures Select(keys, kid, alg).Some? ==>
              Select(keys, kid, alg).value in keys && Fits(Select(keys, kid, alg).value, kid, alg)
  {
    if keys != [] {
      SelectFindsIff(keys[1..], kid, alg);
      assert Selectable(keys[0], kid, alg) <==> Fits(keys[0], kid, alg);
      assert forall k :: k in keys <==> k == keys[0] || k in keys[1..];
    }
  }

  /** selectJWK, with its two search loops. */
  method SelectJwk(keys: seq<Jwk>, kid: string, alg: string) returns (r: Option<Jwk>)
    ensures r == Select(keys, kid, alg)
  {
    if kid != "" {
      for i := 0 to |keys|
        invariant Select(keys, kid, alg) == Select(keys[i..], kid, alg)
      {
        assert keys[i..][0] == keys[i] && keys[i..][1..] == keys[i + 1..];
        if keys[i].kid == kid && IsSigKey(keys[i]) {
          return Some(keys[i]);
        }
      }
      return None;
    }
    for i := 0 to |keys|
      invariant Select(keys, kid, alg) == Select(keys[i..], kid, alg)
    {
      assert keys[i..][0] == keys[i] && keys[i..][1..] == keys[i + 1..];
      if !IsSigKey(keys[i]) {
        continue;
      }
      if keys[i].alg == alg || keys[i].alg == "" {
        return Some(keys[i]);
      }
    }
    return None;
  }

  // ---------------------------------------------------------------- the assertion

  /** Registered claims; absent times are None, present ones instants. */
  datatype AssertionClaims = AssertionClaims(
    issuer: string,
    subject: string,
    audience: seq<string>,
    expiry: Option<int>,
    issuedAt: Option<int>,
    notBefore: Option<int>)

  /** A parsed assertion with exactly one signature. */
  datatype Assertion = Assertion(kid: string, alg: string, signer: string, claims: AssertionClaims)

  /** ValidateWithLeeway(Expected{Time: now}, 60 s) */
  predicate InTime(c: AssertionClaims, now: int) {
    && (c.notBefore.Some? ==> now + SKEW >= c.notBefore.value)
    && (c.expiry.Some? ==> now - SKEW <= c.expiry.value)
    && (c.issuedAt.Some? ==> now + SKEW >= c.issuedAt.value)
  }

  /** The claim checks after the signature. */
  predicate ClaimsAccepted(c: AssertionClaims, clientId: string, tokenEndpoint: string, now: int) {
    && c.issuer == clientId && c.subject == clientId
    && InTime(c, now)
    && tokenEndpoint in c.audience
    && (c.issuedAt.Some? && c.expiry.Some? ==> c.expiry.value - c.issuedAt.value <= MAX_LIFETIME)
  }

  /** What an accepted assertion says, exactly (section 3 of RFC 7523, with 60 s of skew and 600 s of life). */
  lemma ClaimsAcceptedIff(c: AssertionClaims, clientId: string, tokenEndpoint: string, now: int)
    ensures ClaimsAccepted(c, clientId, tokenEndpoint, now)
            <==> && c.issuer == clientId == c.subject
                 && (exists i :: 0 <= i < |c.audience| && c.audience[i] == tokenEndpoint)
                 && (c.expiry.None? || now <= c.expiry.value + 60 * SECOND)
                 && (c.notBefore.None? || c.notBefore.value - 60 * SECOND <= now)
                 && (c.issuedAt.None? || c.issuedAt.value - 60 * SECOND <= now)
                 && (c.issuedAt.None? || c.expiry.None? || c.expiry.value <= c.issuedAt.value + 600 * SECOND)
  {
  }

  /** An assertion that carries iat and exp is never accepted at two instants more than 720 s apart. */
  lemma ReplayWindow(c: AssertionClaims, clientId: string, tokenEndpoint: string, t1: int, t2: int)
    requires c.issuedAt.Some? && c.expiry.Some?
    requires ClaimsAccepted(c, clientId, tokenEndpoint, t1) && ClaimsAccepted(c, clientId, tokenEndpoint, t2)
    ensures -720 * SECOND <= t2 - t1 <= 720 * SECOND
  {
  }

  ghost predicate AcceptedBeyond(c: AssertionClaims, clientId: string, tokenEndpoint: string, horizon: int) {
    exists t :: t >= horizon && ClaimsAccepted(c, clientId, tokenEndpoint, t)
  }

  /** The code does not require exp: an accepted assertion stays acceptable forever exactly when it has none. */
  lemma UnboundedIffNoExpiry(c: AssertionClaims, clientId: string, tokenEndpoint: string, now: int)
    requires ClaimsAccepted(c, clientId, tokenEndpoint, now)
    ensures (forall horizon :: AcceptedBeyond(c, clientId, tokenEndpoint, horizon)) <==> c.expiry.None?
  {
    if c.expiry.None? {
      forall horizon
        ensures AcceptedBeyond(c, clientId, tokenEndpoint, horizon)
      {
        assert ClaimsAccepted(c, clientId, tokenEndpoint, if horizon >= now then horizon else now);
      }
    } else {
      assert !AcceptedBeyond(c, clientId, tokenEndpoint, c.expiry.value + SKEW + 1);
    }
  }

  // ---------------------------------------------------------------- the client's published keys

  /** The key set a jwks_uri serves, with its lifetime in the cache; None when it cannot be had. */
  datatype KeySet = KeySet(keys: seq<Jwk>, ttl: int)

  datatype JwksReply =
    | DialError
    | Reply(status: int, jsonContent: bool, readable: bool, oversize: bool, keys: Option<seq<Jwk>>, cacheControl: string)

  /** fetchJWKSUncached */
  function FetchUncached(reply: JwksReply): (r: Option<KeySet>)
    ensures r.Some? <==> reply.Reply? && reply.status == 200 && reply.jsonContent && reply.readable && !reply.oversize
                         && reply.keys.Some? && |reply.keys.value| >= 1
    ensures r.Some? ==> r.value.keys == reply.keys.value && r.value.ttl == CacheTtl(reply.cacheControl)
  {
    match reply
    case DialError => None
    case Reply(status, jsonContent, readable, oversize, keys, cc) =>
      if status / 100 == 3 || status != 200 || !jsonContent || !readable || oversize || keys.None? || keys.value == []
      then None
      else Some(KeySet(keys.value, CacheTtl(cc)))
  }

  /** Accesses of concurrent verifications to the key cache. */
  datatype Access =
    | LookedUp(uri: string, now: int)
    | Finished(uri: string, reply: JwksReply, now: int)
    | Dropped(uri: string)

  function Effect(a: Access): Option<Op<seq<Jwk>>> {
    match a
    case LookedUp(uri, now) => Some(Get(uri, now))
    case Dropped(uri) => Some(Invalidate(uri))
    case Finished(uri, reply, now) =>
      var found := FetchUncached(reply);
      if found.Some? && found.value.ttl > 0 then Some(Store(uri, Entry(found.value.keys, false, now + found.value.ttl)))
      else None
  }

  function CacheAfter(accesses: seq<Access>): State<seq<Jwk>> {
    After(CAPACITY, Effect, accesses)
  }

  /** The access finished a fetch of exactly this URI that served these keys, at most an hour before `now`. */
  predicate ServedRecently(a: Access, uri: string, keys: seq<Jwk>, now: int) {
    && a.Finished? && a.uri == uri
    && var found := FetchUncached(a.reply);
       found.Some? && found.value.keys == keys && keys != [] && now <= a.now + 3600 * SECOND
  }

  lemma EffectServed(a: Access, uri: string, e: Entry<seq<Jwk>>, now: int)
    requires Effect(a).Some? && Writes(Effect(a).value, uri, e) && now <= e.expiresAt
    ensures ServedRecently(a, uri, e.payload, now)
  {
    if a.reply.Reply? {
      TtlRange(a.reply.cacheControl);
    }
  }

  /** Under every interleaving, cached keys were served by their own URI within the last hour. */
  lemma HitWasServed(accesses: seq<Access>, uri: string, now: int)
    requires Hit(CacheAfter(accesses), uri, now).Some?
    ensures exists a :: a in accesses && ServedRecently(a, uri, Hit(CacheAfter(accesses), uri, now).value.payload, now)
  {
    HitWasAccess(CAPACITY, Effect, accesses, uri, now);
    var e := Hit(CacheAfter(accesses), uri, now).value;
    var a :| a in accesses && Effect(a).Some? && Writes(Effect(a).value, uri, e);
    EffectServed(a, uri, e, now);
  }

  /** The other way round: served keys are answered from the cache for the lifetime their header gives. */
  lemma ServedIsRemembered(accesses: seq<Access>, uri: string, reply: JwksReply, now: int, t: int)
    requires FetchUncached(reply).Some? && CacheTtl(reply.cacheControl) > 0
    ensures var hit := Hit(CacheAfter(accesses + [Finished(uri, reply, now)]), uri, t);
            if t <= now + CacheTtl(reply.cacheControl) then hit.Some? && hit.value.payload == reply.keys.value else hit == None
  {
    AfterAppend(CAPACITY, Effect, accesses, Finished(uri, reply, now));
  }

  // ---------------------------------------------------------------- verification

  /** The replies to the fetches of one call, should it make them. */
  datatype Replies = Replies(first: JwksReply, second: JwksReply)

  function KeysOf(found: Option<KeySet>): Option<seq<Jwk>> {
    if found.Some? then Some(found.value.keys) else None
  }

  /** The key set consulted first: a cached one, else the first reply's. */
  function Consulted(s: State<seq<Jwk>>, uri: string, now: int, replies: Replies): Option<seq<Jwk>> {
    var cached := Hit(s, uri, now);
    if cached.Some? then Some(cached.value.payload) else KeysOf(FetchUncached(replies.first))
  }

  /** The key verification goes on with: selected from the set consulted first, else from the second reply. */
  function FindKey(s: State<seq<Jwk>>, uri: string, kid: string, alg: string, now: int, replies: Replies): Option<Jwk> {
    var got, again := Consulted(s, uri, now, replies), KeysOf(FetchUncached(replies.second));
    if got.None? then None
    else if Select(got.value, kid, alg).Some? then Select(got.value, kid, alg)
    else if again.Some? then Select(again.value, kid, alg)
    else None
  }

  /**
   Rotation: whatever the cache holds and the first reply brought, a selectable key among those
   served last is enough, unless the first fetch failed on a cold cache.
   */
  lemma RotationComplete(s: State<seq<Jwk>>, uri: string, kid: string, alg: string, now: int, replies: Replies, k: Jwk)
    requires FetchUncached(replies.second).Some?
    requires k in FetchUncached(replies.second).value.keys && Fits(k, kid, alg)
    ensures var r := FindKey(s, uri, kid, alg, now, replies);
            && (r.Some? <==> Hit(s, uri, now).Some? || FetchUncached(replies.first).Some?)
            && (r.Some? ==> Fits(r.value, kid, alg))
  {
    SelectFindsIff(FetchUncached(replies.second).value.keys, kid, alg);
    var got := Consulted(s, uri, now, replies);
    if got.Some? {
      SelectFindsIff(got.value, kid, alg);
    }
  }

  class AssertionVerifier {
    const cache: Cache<seq<Jwk>>
    ghost var history: seq<Access>

    ghost predicate Valid()
      reads this, cache
    {
      FifoCache.Valid(cache.View()) && cache.View() == CacheAfter(history)
    }

    constructor ()
      ensures Valid() && history == [] && fresh(cache) && cache.capacity == 1024
    {
      cache := new Cache<seq<Jwk>>(CAPACITY);
      history := [];
    }

    /** fetchJWKS */
    method FetchJwks(uri: string, now: int, reply: JwksReply, later: int) returns (keys: Option<seq<Jwk>>, fetches: nat)
      requires Valid()
      modifies this, cache
      ensures Valid()
      ensures var hit := Hit(old(cache.View()), uri, now);
              && (hit.Some? ==> keys == Some(hit.value.payload) && fetches == 0
                                && history == old(history) + [LookedUp(uri, now)])
              && (hit.None? ==> fetches == 1
                                && history == old(history) + [LookedUp(uri, now), Finished(uri, reply, later)]
                                && keys == (if FetchUncached(reply).Some? then Some(FetchUncached(reply).value.keys) else None))
    {
      AfterAppend(CAPACITY, Effect, history, LookedUp(uri, now));
      var cached := cache.Lookup(uri, now);
      history := history + [LookedUp(uri, now)];
      if cached.Some? {
        return Some(cached.value.payload), 0;
      }
      var fetched := FetchKeySet(reply);
      Remember(uri, reply, later);
      if fetched.None? {
        return None, 1;
      }
      return Some(fetched.value.keys), 1;
    }

    /** fetchJWKSUncached, step by step. */
    method FetchKeySet(reply: JwksReply) returns (r: Option<KeySet>)
      ensures r == FetchUncached(reply)
    {
      if reply.DialError? {
        return None;
      }
      if reply.status / 100 == 3 || reply.status != 200 || !reply.jsonContent || !reply.readable || reply.oversize {
        return None;
      }
      if reply.keys.None? || |reply.keys.value| == 0 {
        return None;
      }
      var ttl := CacheTtlFromHeader(reply.cacheControl);
      return Some(KeySet(reply.keys.value, ttl));
    }

    method Remember(uri: string, reply: JwksReply, later: int)
      requires Valid()
      modifies this, cache
      ensures Valid() && history == old(history) + [Finished(uri, reply, later)]
    {
      var fetched := FetchKeySet(reply);
      if fetched.Some? && fetched.value.ttl > 0 {
        Record(Finished(uri, reply, later), uri, Entry(fetched.value.keys, false, later + fetched.value.ttl));
      } else {
        Skip(Finished(uri, reply, later));
      }
    }

    method Record(ghost a: Access, uri: string, e: Entry<seq<Jwk>>)
      requires Valid() && Effect(a) == Some(Store(uri, e))
      modifies this, cache
      ensures Valid() && history == old(history) + [a]
    {
      AfterAppend(CAPACITY, Effect, history, a);
      cache.Replace(uri, e);
      history := history + [a];
    }

    /** An access that leaves the cache alone. */
    ghost method Skip(a: Access)
      requires Valid() && Effect(a) == None
      modifies this
      ensures Valid() && history == old(history) + [a]
    {
      AfterAppend(CAPACITY, Effect, history, a);
      history := history + [a];
    }

    method Drop(uri: string)
      requires Valid()
      modifies this, cache
      ensures Valid() && history == old(history) + [Dropped(uri)]
      ensures forall now :: Hit(cache.View(), uri, now).None?
    {
      AfterAppend(CAPACITY, Effect, history, Dropped(uri));
      cache.Forget(uri);
      history := history + [Dropped(uri)];
    }

    /** The key lookup of verifyClientAssertion with its retry: it finds `FindKey`, after at most two fetches. */
    method LookupKey(uri: string, kid: string, alg: string, clocks: (int, int, int, int), replies: Replies)
      returns (key: Option<Jwk>, fetches: nat)
      requires Valid()
      modifies this, cache
      ensures Valid() && fetches <= 2
      ensures key == FindKey(old(cache.View()), uri, kid, alg, clocks.0, replies)
    {
      var keys, n := FetchJwks(uri, clocks.0, replies.first, clocks.1);
      fetches := n;
      if keys.None? {
        return None, fetches;
      }
      key := SelectJwk(keys.value, kid, alg);
      if key.None? {
        Drop(uri);
        keys, n := FetchJwks(uri, clocks.2, replies.second, clocks.3);
        fetches := fetches + n;
        if keys.None? {
          return None, fetches;
        }
        key := SelectJwk(keys.value, kid, alg);
      }
    }

    /**
     verifyClientAssertion. Acceptance is exactly: a key is found, it verifies the signature, and
     the claims pass. The key then is a signature key that the client's own jwks_uri served, now
     or within the last hour.
     */
    method Verify(jwksUri: string, clientId: string, assertion: Option<Assertion>, tokenEndpoint: string,
                  clocks: (int, int, int, int), now: int, replies: Replies)
      returns (ok: bool)
      requires Valid()
      modifies this, cache
      ensures Valid()
      ensures ok <==> Accepts(old(cache.View()), jwksUri, clientId, assertion, tokenEndpoint, clocks.0, now, replies)
      ensures ok ==> exists keys, k :: KeyOf(old(history), jwksUri, replies, clocks.0, keys) && k in keys
                                       && Fits(k, assertion.value.kid, assertion.value.alg)
                                       && k.material == assertion.value.signer
    {
      if jwksUri == "" || assertion.None? {
        return false;
      }
      var a := assertion.value;
      ghost var before := cache.View();
      ghost var past := history;
      var key, _ := LookupKey(jwksUri, a.kid, a.alg, clocks, replies);
      if key.None? {
        return false;
      }
      if key.value.material != a.signer {
        return false;
      }
      if a.claims.issuer != clientId || a.claims.subject != clientId || !InTime(a.claims, now) {
        return false;
      }
      if tokenEndpoint !in a.claims.audience {
        return false;
      }
      if a.claims.issuedAt.Some? && a.claims.expiry.Some? {
        if a.claims.expiry.value - a.claims.issuedAt.value > MAX_LIFETIME {
          return false;
        }
      }
      FoundKeyIsServed(past, jwksUri, a.kid, a.alg, clocks.0, replies);
      return true;
    }
  }

  predicate Accepts(s: State<seq<Jwk>>, jwksUri: string, clientId: string, assertion: Option<Assertion>,
                    tokenEndpoint: string, lookupTime: int, now: int, replies: Replies)
  {
    && jwksUri != "" && assertion.Some?
    && var a := assertion.value;
       var key := FindKey(s, jwksUri, a.kid, a.alg, lookupTime, replies);
       && key.Some? && key.value.material == a.signer
       && ClaimsAccepted(a.claims, clientId, tokenEndpoint, now)
  }

  /** The URI serves `keys` to this call, or served them at most an hour before `now`. */
  ghost predicate KeyOf(history: seq<Access>, uri: string, replies: Replies, now: int, keys: seq<Jwk>) {
    || KeysOf(FetchUncached(replies.first)) == Some(keys)
    || KeysOf(FetchUncached(replies.second)) == Some(keys)
    || (exists a :: a in history && ServedRecently(a, uri, keys, now))
  }

  lemma FoundKeyIsServed(history: seq<Access>, uri: string, kid: string, alg: string, now: int, replies: Replies)
    requires FindKey(CacheAfter(history), uri, kid, alg, now, replies).Some?
    ensures var k := FindKey(CacheAfter(history), uri, kid, alg, now, replies).value;
            exists keys :: KeyOf(history, uri, replies, now, keys) && k in keys && Fits(k, kid, alg)
  {
    var got, again := Consulted(CacheAfter(history), uri, now, replies), KeysOf(FetchUncached(replies.second));
    SelectFindsIff(got.value, kid, alg);
    if Hit(CacheAfter(history), uri, now).Some? {
      HitWasServed(history, uri, now);
    }
    assert KeyOf(history, uri, replies, now, got.value);
    if again.Some? {
      SelectFindsIff(again.value, kid, alg);
      assert KeyOf(history, uri, replies, now, again.value);
    }
  }
}
