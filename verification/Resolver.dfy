/** cimdResolver.resolve (cimd.go): client metadata through the cache. */
module Resolver {
  import opened Wrappers
  import opened Clock
  import opened CimdMetadata
  import opened CacheControl
  import opened FifoCache
  import JsonText

  const NEGATIVE_TTL: int := 30 * SECOND
  const CAPACITY: nat := 1024

  datatype CimdError = InvalidUrl | SsrfBlocked | FetchFailed | InvalidMetadata

  /** What came back from the metadata URL; `doc` is None when the body is not JSON. */
  datatype Fetch =
    | DialError(blocked: bool)
    | Reply(status: int, jsonContent: bool, readable: bool, oversize: bool, doc: Option<Document>, cacheControl: string)

  datatype Fetched = Fetched(client: Client, ttl: int)

  /** A JSON body within size arrived with status 200. */
  predicate Delivered(f: Fetch) {
    f.Reply? && f.status == 200 && f.jsonContent && f.readable && !f.oversize
  }

  /** The URL delivers an acceptable document for itself, and this is the client it describes. */
  predicate Describes(rules: UrlRules, url: string, f: Fetch, c: Client) {
    && Delivered(f) && f.doc.Some? && Acceptable(rules, url, f.doc.value)
    && c.redirectUris == f.doc.value.redirectUris
    && c.authMethod == f.doc.value.authMethod
    && c.jwksUri == f.doc.value.jwksUri
  }

  /** The URL delivers something that is not an acceptable document for it. */
  predicate Misdescribes(rules: UrlRules, url: string, f: Fetch) {
    Delivered(f) && (f.doc.None? || !Acceptable(rules, url, f.doc.value))
  }

  /** fetchAndValidate. A dial refused by the SSRF policy is reported as a plain fetch failure. */
  function FetchAndValidate(rules: UrlRules, url: string, f: Fetch): (r: Result<Fetched, CimdError>)
    ensures r.Ok? <==> Delivered(f) && f.doc.Some? && Acceptable(rules, url, f.doc.value)
    ensures r.Ok? ==> Describes(rules, url, f, r.value.client) && r.value.ttl == CacheTtl(f.cacheControl)
    ensures r.Err? ==> r.error == if Delivered(f) then InvalidMetadata else FetchFailed
  {
    match f
    case DialError(_) => Err(FetchFailed)
    case Reply(status, jsonContent, readable, oversize, doc, cc) =>
      if status / 100 == 3 || status != 200 || !jsonContent || !readable || oversize then Err(FetchFailed)
      else if doc.None? || !Acceptable(rules, url, doc.value) then Err(InvalidMetadata)
      else Ok(Fetched(Client(doc.value.redirectUris, doc.value.authMethod, doc.value.jwksUri), CacheTtl(cc)))
  }

  type Remembered = Result<Client, CimdError>

  function Positive(c: Client, expiresAt: int): Entry<Remembered> {
    Entry(Ok(c), false, expiresAt)
  }

  function Negative(e: CimdError, expiresAt: int): Entry<Remembered> {
    Entry(Err(e), true, expiresAt)
  }

  // ---------------------------------------------------------------- any interleaving of calls

  /**
   The cache accesses of concurrent `resolve` calls, each under the cache's own lock: rejecting
   an invalid URL, looking a URL up, and recording a finished fetch. Calls may interleave at will.
   */
  datatype Access =
    | Rejected(url: string, stamp: int, now: int)
    | LookedUp(url: string, now: int)
    | Finished(url: string, fetch: Fetch, now: int)

  predicate Remembers(e: CimdError) {
    e.InvalidMetadata? || e.InvalidUrl? || e.SsrfBlocked?
  }

  /** The cache operation an access performs, if any. */
  function Effect(rules: UrlRules, a: Access): Option<Op<Remembered>> {
    match a
    case Rejected(url, stamp, now) => Some(Put(url, Negative(InvalidUrl, stamp + NEGATIVE_TTL), now))
    case LookedUp(url, now) => Some(Get(url, now))
    case Finished(url, f, now) =>
      match FetchAndValidate(rules, url, f)
      case Err(e) => if Remembers(e) then Some(Put(url, Negative(e, now + NEGATIVE_TTL), now)) else None
      case Ok(r) => if r.ttl > 0 then Some(Put(url, Positive(r.client, now + r.ttl), now)) else None
  }

  function EffectOf(rules: UrlRules): Access -> Option<Op<Remembered>> {
    a => Effect(rules, a)
  }

  function CacheAfter(rules: UrlRules, accesses: seq<Access>): State<Remembered> {
    After(CAPACITY, EffectOf(rules), accesses)
  }

  /** The access finished a fetch of exactly `url` that yielded `c`, at most one hour before `now`. */
  predicate Supplied(rules: UrlRules, a: Access, url: string, c: Client, now: int) {
    && a.Finished? && a.url == url
    && Describes(rules, url, a.fetch, c)
    && var ttl := CacheTtl(a.fetch.cacheControl);
       SECOND <= ttl <= 3600 * SECOND && now <= a.now + ttl
  }

  /** The access found `e` wrong with `url`, at most 30 s before `now`. */
  predicate Faulted(rules: UrlRules, a: Access, url: string, e: CimdError, now: int) {
    || (a.Rejected? && a.url == url && e == InvalidUrl && now <= a.stamp + 30 * SECOND)
    || (a.Finished? && a.url == url && e == InvalidMetadata && now <= a.now + 30 * SECOND
        && Misdescribes(rules, url, a.fetch))
  }

  /** What an access wrote explains the entry for as long as it is unexpired. */
  lemma EffectExplains(rules: UrlRules, a: Access, url: string, e: Entry<Remembered>, now: int)
    requires Effect(rules, a).Some? && Writes(Effect(rules, a).value, url, e) && now <= e.expiresAt
    ensures e.payload.Ok? ==> Supplied(rules, a, url, e.payload.value, now)
    ensures e.payload.Err? ==> Faulted(rules, a, url, e.payload.error, now)
  {
    if a.Finished? && a.fetch.Reply? {
      TtlRange(a.fetch.cacheControl);
    }
  }

  /**
   Bounded staleness: under every interleaving, what the cache answers for a URL is what an
   uncached lookup of that URL found, at most one hour ago for a client, 30 s for an error.
   */
  lemma HitIsRecentLookup(rules: UrlRules, accesses: seq<Access>, url: string, now: int)
    requires Hit(CacheAfter(rules, accesses), url, now).Some?
    ensures var e := Hit(CacheAfter(rules, accesses), url, now).value;
            && (e.payload.Ok? ==> exists a :: a in accesses && Supplied(rules, a, url, e.payload.value, now))
            && (e.payload.Err? ==> exists a :: a in accesses && Faulted(rules, a, url, e.payload.error, now))
  {
    HitWasAccess(CAPACITY, EffectOf(rules), accesses, url, now);
    var e := Hit(CacheAfter(rules, accesses), url, now).value;
    var a :| a in accesses && Effect(rules, a).Some? && Writes(Effect(rules, a).value, url, e);
    EffectExplains(rules, a, url, e, now);
  }

  /** The strings of a document that came out of the JSON decoder are valid UTF-8. */
  predicate Decoded(doc: Document) {
    JsonText.ValidUtf8(doc.clientId) && forall ru :: ru in doc.redirectUris ==> JsonText.ValidUtf8(ru)
  }

  /** So a resolved client has a client_id and redirect URIs that survive the broker's artifacts unchanged. */
  lemma SuppliedClientIsDecoded(rules: UrlRules, a: Access, url: string, c: Client, now: int)
    requires Supplied(rules, a, url, c, now) && Decoded(a.fetch.doc.value)
    ensures DecodedClient(url, c)
  {
  }

  /** Failed fetches and zero-TTL replies leave every cached result as it was. */
  lemma UnrememberedFetchChangesNothing(rules: UrlRules, accesses: seq<Access>, url: string, f: Fetch, now: int)
    requires !Delivered(f) || (CacheTtl(f.cacheControl) == 0 && !Misdescribes(rules, url, f))
    ensures CacheAfter(rules, accesses + [Finished(url, f, now)]) == CacheAfter(rules, accesses)
  {
    AfterAppend(CAPACITY, EffectOf(rules), accesses, Finished(url, f, now));
  }

  /** The other way round: a client with a lifetime is answered from the cache until that lifetime is over. */
  lemma SuppliedIsRemembered(rules: UrlRules, accesses: seq<Access>, url: string, f: Fetch, c: Client, now: int, t: int)
    requires Describes(rules, url, f, c) && CacheTtl(f.cacheControl) > 0
    ensures var hit := Hit(CacheAfter(rules, accesses + [Finished(url, f, now)]), url, t);
            if t <= now + CacheTtl(f.cacheControl) then hit.Some? && hit.value.payload == Ok(c) else hit == None
  {
    AfterAppend(CAPACITY, EffectOf(rules), accesses, Finished(url, f, now));
  }

  /** An unacceptable document is remembered for 30 s, unless a client is still live in the cache. */
  lemma FaultIsRemembered(rules: UrlRules, accesses: seq<Access>, url: string, f: Fetch, now: int, t: int)
    requires Misdescribes(rules, url, f)
    ensures var before := CacheAfter(rules, accesses);
            var after := CacheAfter(rules, accesses + [Finished(url, f, now)]);
            if url in before.entries && before.entries[url].payload.Ok? && before.entries[url].expiresAt > now
            then after == before
            else Hit(after, url, t) == if t <= now + 30 * SECOND then Some(Entry(Err(InvalidMetadata), true, now + 30 * SECOND))
                                       else None
  {
    AfterAppend(CAPACITY, EffectOf(rules), accesses, Finished(url, f, now));
    if url in CacheAfter(rules, accesses).entries {
      NegativeIffError(rules, accesses, url);
    }
  }

  /** A rejected URL is remembered like that, for 30 s. */
  lemma RejectionIsRemembered(rules: UrlRules, accesses: seq<Access>, url: string, now: int, t: int)
    requires url !in CacheAfter(rules, accesses).entries
    ensures var hit := Hit(CacheAfter(rules, accesses + [Rejected(url, now, now)]), url, t);
            if t <= now + 30 * SECOND then hit.Some? && hit.value.payload == Err(InvalidUrl) else hit == None
  {
    AfterAppend(CAPACITY, EffectOf(rules), accesses, Rejected(url, now, now));
  }

  /** The cache marks exactly the errors as negative. */
  lemma NegativeIffError(rules: UrlRules, accesses: seq<Access>, url: string)
    requires url in CacheAfter(rules, accesses).entries
    ensures var e := CacheAfter(rules, accesses).entries[url]; e.negative <==> e.payload.Err?
  {
    var e := CacheAfter(rules, accesses).entries[url];
    HitWasAccess(CAPACITY, EffectOf(rules), accesses, url, e.expiresAt);
  }

  // ---------------------------------------------------------------- the resolver object

  class CimdResolver {
    const rules: UrlRules
    const cache: Cache<Remembered>
    ghost var history: seq<Access>

    ghost predicate Valid()
      reads this, cache
    {
      FifoCache.Valid(cache.View()) && cache.View() == CacheAfter(rules, history)
    }

    constructor (rules: UrlRules)
      ensures Valid() && history == [] && this.rules == rules && fresh(cache) && cache.capacity == 1024
    {
      this.rules := rules;
      cache := new Cache<Remembered>(CAPACITY);
      history := [];
    }

    /**
     resolve. `urlAllowed` is the verdict of validateCIMDClientIDURL, `fetch` what the URL serves
     if it is asked, and the clock readings are those of the source in order.
     */
    method Resolve(url: string, urlAllowed: bool, stamp: int, now: int, fetch: Fetch, later: int)
      returns (r: Result<Client, CimdError>)
      requires Valid()
      modifies this, cache
      ensures Valid()
      ensures history == old(history) + if !urlAllowed then [Rejected(url, stamp, now)]
                                        else if Hit(old(cache.View()), url, now).Some? then [LookedUp(url, now)]
                                        else [LookedUp(url, now), Finished(url, fetch, later)]
      ensures r.Ok? ==> Describes(rules, url, fetch, r.value)
                        || exists a :: a in old(history) && Supplied(rules, a, url, r.value, now)
      ensures !urlAllowed ==> r == Err(InvalidUrl)
      ensures urlAllowed && Hit(old(cache.View()), url, now).None? ==>
                (match FetchAndValidate(rules, url, fetch)
                 case Ok(found) => r == Ok(found.client)
                 case Err(e) => r == Err(e))
      ensures urlAllowed && Hit(old(cache.View()), url, now).Some? ==>
                r == Hit(old(cache.View()), url, now).value.payload
    {
      if !urlAllowed {
        Record(Rejected(url, stamp, now), url, Negative(InvalidUrl, stamp + NEGATIVE_TTL), now);
        return Err(InvalidUrl);
      }
      if Hit(cache.View(), url, now).Some? {
        HitIsRecentLookup(rules, history, url, now);
      }
      var cached := LookUp(url, now);
      if cached.Some? {
        return cached.value.payload;
      }
      r := FetchAndRemember(url, fetch, later);
    }

    /** The cache-miss half of resolve. */
    method FetchAndRemember(url: string, fetch: Fetch, later: int) returns (r: Result<Client, CimdError>)
      requires Valid()
      modifies this, cache
      ensures Valid() && history == old(history) + [Finished(url, fetch, later)]
      ensures match FetchAndValidate(rules, url, fetch)
              case Ok(found) => r == Ok(found.client)
              case Err(e) => r == Err(e)
    {
      var a := Finished(url, fetch, later);
      var fetched := FetchDocument(url, fetch);
      if fetched.Err? {
        if Remembers(fetched.error) {
          Record(a, url, Negative(fetched.error, later + NEGATIVE_TTL), later);
        } else {
          Skip(a);
        }
        return Err(fetched.error);
      }
      if fetched.value.ttl > 0 {
        Record(a, url, Positive(fetched.value.client, later + fetched.value.ttl), later);
      } else {
        Skip(a);
      }
      return Ok(fetched.value.client);
    }

    /** fetchAndValidate, step by step. */
    method FetchDocument(url: string, fetch: Fetch) returns (r: Result<Fetched, CimdError>)
      ensures r == FetchAndValidate(rules, url, fetch)
    {
      if fetch.DialError? {
        return Err(FetchFailed);
      }
      if fetch.status / 100 == 3 || fetch.status != 200 || !fetch.jsonContent || !fetch.readable || fetch.oversize {
        return Err(FetchFailed);
      }
      if fetch.doc.None? {
        return Err(InvalidMetadata);
      }
      var client := ParseCimdMetadata(rules, url, fetch.doc.value);
      if client.None? {
        return Err(InvalidMetadata);
      }
      var ttl := CacheTtlFromHeader(fetch.cacheControl);
      return Ok(Fetched(client.value, ttl));
    }

    /** Put an entry, as the access `a` does. */
    method Record(ghost a: Access, url: string, e: Entry<Remembered>, now: int)
      requires Valid() && Effect(rules, a) == Some(Put(url, e, now))
      modifies this, cache
      ensures Valid() && history == old(history) + [a]
    {
      AfterAppend(CAPACITY, EffectOf(rules), history, a);
      cache.Insert(url, e, now);
      history := history + [a];
    }

    /** An access that leaves the cache alone. */
    ghost method Skip(a: Access)
      requires Valid() && Effect(rules, a) == None
      modifies this
      ensures Valid() && history == old(history) + [a]
    {
      AfterAppend(CAPACITY, EffectOf(rules), history, a);
      history := history + [a];
    }

    method LookUp(url: string, now: int) returns (cached: Option<Entry<Remembered>>)
      requires Valid()
      modifies this, cache
      ensures Valid() && history == old(history) + [LookedUp(url, now)]
      ensures cached == Hit(old(cache.View()), url, now)
    {
      AfterAppend(CAPACITY, EffectOf(rules), history, LookedUp(url, now));
      cached := cache.Lookup(url, now);
      history := history + [LookedUp(url, now)];
    }
  }
}
