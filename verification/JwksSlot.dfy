/** The single-slot JWKS cache of Validator (validator.go), under any interleaving of validations. */
module JwksSlot {
  import opened Wrappers
  import opened Clock
  import opened Configuration
  import opened Validator
  import opened TokenClaims
  import opened Wire

  /** Fields jwks, jwksURL and jwksTime. */
  datatype Slot = Slot(keys: seq<Jwk>, url: string, time: int)

  const INITIAL: Slot := Slot([], "", ZERO_TIME)

  /** The test under the read lock in fetchJWKS. */
  predicate Fresh(s: Slot, uri: string, now: int) {
    |s.keys| > 0 && s.url == uri && s.time + JWKS_CACHE_TTL > now
  }

  /**
   The lock sections as atomic steps of any number of goroutines. A fetch remembers the clock
   it read before asking (`Began`), and stores its reply, whenever that comes, with that time
   (`Stored`); a kid miss zeroes the time (`Reset`); `Served` is a cache hit.
   */
  datatype Step =
    | Began(uri: string, now: int)
    | Stored(began: nat, keys: seq<Jwk>)
    | Reset
    | Served(uri: string, now: int, keys: seq<Jwk>)

  /** The slot before step k. */
  function SlotAt(run: seq<Step>, k: nat): Slot
    requires k <= |run|
  {
    if k == 0 then INITIAL
    else
      var s := SlotAt(run, k - 1);
      match run[k - 1]
      case Stored(b, keys) => if b < k && run[b].Began? then Slot(keys, run[b].uri, run[b].now) else s
      case Reset => s.(time := ZERO_TIME)
      case _ => s
  }

  ghost predicate Legal(run: seq<Step>, k: nat)
    requires k < |run|
  {
    match run[k]
    case Began(uri, now) => now >= 0 && !Fresh(SlotAt(run, k), uri, now)
    case Stored(b, _) => b < k && run[b].Began?
    case Reset => true
    case Served(uri, now, keys) => now >= 0 && Fresh(SlotAt(run, k), uri, now) && keys == SlotAt(run, k).keys
  }

  ghost predicate ValidRun(run: seq<Step>) {
    forall k :: 0 <= k < |run| ==> Legal(run, k)
  }

  /** The store at c put these contents into the slot. */
  predicate Source(run: seq<Step>, c: nat, uri: string, keys: seq<Jwk>, time: int) {
    && c < |run| && run[c].Stored? && run[c].keys == keys
    && run[c].began < c && run[run[c].began].Began?
    && run[run[c].began].uri == uri
    && (time == run[run[c].began].now || time == ZERO_TIME)
  }

  /** Whatever the slot holds was stored by some completed fetch of the slot's own URI. */
  lemma {:induction false} SlotHasSource(run: seq<Step>, k: nat)
    requires ValidRun(run) && k <= |run|
    ensures var s := SlotAt(run, k);
            s == INITIAL || exists c :: 0 <= c < k && Source(run, c, s.url, s.keys, s.time)
  {
    if k > 0 {
      SlotHasSource(run, k - 1);
      assert Legal(run, k - 1);
      var s, s' := SlotAt(run, k - 1), SlotAt(run, k);
      if run[k - 1].Stored? {
        assert Source(run, k - 1, s'.url, s'.keys, s'.time);
      } else if exists c :: 0 <= c < k - 1 && Source(run, c, s.url, s.keys, s.time) {
        var c :| 0 <= c < k - 1 && Source(run, c, s.url, s.keys, s.time);
        assert Source(run, c, s'.url, s'.keys, s'.time);
      }
    }
  }

  /** A store at c answered a fetch of `uri` begun less than the cache TTL before `now`. */
  predicate RecentlyServed(run: seq<Step>, c: nat, uri: string, keys: seq<Jwk>, now: int) {
    && c < |run| && run[c].Stored? && run[c].keys == keys
    && run[c].began < c && run[run[c].began].Began?
    && run[run[c].began].uri == uri
    && now - run[run[c].began].now < 300 * SECOND
  }

  /**
   Under every interleaving (slow fetches overwriting newer ones, resets, switching URIs) a hit
   returns a non-empty key set that this very URI served to a fetch begun less than five minutes
   earlier.
   */
  lemma HitIsRecent(run: seq<Step>, k: nat)
    requires ValidRun(run) && k < |run| && run[k].Served?
    ensures run[k].keys != []
    ensures exists c :: 0 <= c < k && RecentlyServed(run, c, run[k].uri, run[k].keys, run[k].now)
  {
    assert Legal(run, k);
    SlotHasSource(run, k);
    var s := SlotAt(run, k);
    var c :| 0 <= c < k && Source(run, c, s.url, s.keys, s.time);
    assert RecentlyServed(run, c, run[k].uri, run[k].keys, run[k].now);
  }

  // ---------------------------------------------------------------- one validation at a time

  function WithKid(keys: seq<Jwk>, kid: string): seq<Jwk> {
    if keys == [] then []
    else (if keys[0].kid == kid then [keys[0]] else []) + WithKid(keys[1..], kid)
  }

  lemma {:induction false} WithKidMembers(keys: seq<Jwk>, kid: string)
    ensures forall k :: k in WithKid(keys, kid) <==> k in keys && k.kid == kid
  {
    if keys != [] {
      WithKidMembers(keys[1..], kid);
      assert forall k :: k in keys <==> k == keys[0] || k in keys[1..];
    }
  }

  /** What a fetch of the JWKS URL gets: a key set, or nothing. */
  type Published = Option<seq<Jwk>>

  /** The set consulted first: a fresh cached one, else the first reply. */
  function Consulted(s: Slot, uri: string, now: int, first: Published): Published {
    if Fresh(s, uri, now) then Some(s.keys) else first
  }

  /** The keys of a set that are tried for a token with this kid. */
  function Candidates(keys: seq<Jwk>, kid: string): seq<Jwk> {
    if kid == "" then keys else WithKid(keys, kid)
  }

  /** The first set has nothing for the kid, so a second fetch is made. */
  predicate KidMiss(keys: seq<Jwk>, kid: string) {
    kid != "" && WithKid(keys, kid) == []
  }

  /**
   What key lookup finds: the candidates of the set consulted first or, when its kid is missing
   there, of the second reply. The two replies need not agree.
   */
  function Lookup(s: Slot, uri: string, kid: string, now: int, first: Published, second: Published): KeyLookup {
    var got := Consulted(s, uri, now, first);
    if got.None? then Err(Unverifiable)
    else if !KidMiss(got.value, kid) then Ok(Candidates(got.value, kid))
    else if second.None? || KidMiss(second.value, kid) then Err(Unverifiable)
    else Ok(Candidates(second.value, kid))
  }

  /** The slot afterwards: refilled by the last fetch that succeeded, its time zeroed by a kid miss. */
  function SlotAfterLookup(s: Slot, uri: string, kid: string, now: int, later: int, first: Published, second: Published)
    : Slot
  {
    var filled := if Fresh(s, uri, now) || first.None? then s else Slot(first.value, uri, now);
    var got := Consulted(s, uri, now, first);
    if got.None? || !KidMiss(got.value, kid) then filled
    else if second.Some? then Slot(second.value, uri, later)
    else filled.(time := ZERO_TIME)
  }

  class JwksCache {
    var keys: seq<Jwk>
    var url: string
    var time: int

    ghost function View(): Slot
      reads this
    {
      Slot(keys, url, time)
    }

    constructor ()
      ensures View() == INITIAL
    {
      keys, url, time := [], "", ZERO_TIME;
    }

    /** fetchJWKS; `fetches` counts requests made. */
    method FetchJwks(uri: string, now: int, published: Published) returns (r: Published, fetches: nat)
      modifies this
      ensures fetches == if old(keys) != [] && old(url) == uri && now < old(time) + 300 * SECOND then 0 else 1
      ensures Fresh(old(View()), uri, now) ==> r == Some(old(keys)) && fetches == 0 && View() == old(View())
      ensures !Fresh(old(View()), uri, now) ==> r == published && fetches == 1
      ensures !Fresh(old(View()), uri, now) ==>
                View() == if published.Some? then Slot(published.value, uri, now) else old(View())
    {
      if |keys| > 0 && url == uri && time + JWKS_CACHE_TTL > now {
        return Some(keys), 0;
      }
      if published.None? {
        return None, 1;
      }
      keys, url, time := published.value, uri, now;
      return published, 1;
    }

    /** The lookup part of parseAndVerifyJWT, with its retry after a kid miss: two fetches at most. */
    method FindKeys(uri: string, kid: string, now: int, later: int, first: Published, second: Published)
      returns (r: KeyLookup, fetches: nat)
      requires 0 <= now && 0 <= later
      modifies this
      ensures r == Lookup(old(View()), uri, kid, now, first, second)
      ensures fetches <= 2
      ensures View() == SlotAfterLookup(old(View()), uri, kid, now, later, first, second)
    {
      var keySet, n := FetchJwks(uri, now, first);
      fetches := n;
      if keySet.None? {
        return Err(Unverifiable), fetches;
      }
      var matching := keySet.value;
      if kid != "" {
        matching := WithKid(keySet.value, kid);
        if |matching| == 0 {
          time := ZERO_TIME;
          keySet, n := FetchJwks(uri, later, second);
          fetches := fetches + n;
          if keySet.None? {
            return Err(Unverifiable), fetches;
          }
          matching := WithKid(keySet.value, kid);
          if |matching| == 0 {
            return Err(Unverifiable), fetches;
          }
        }
      }
      return Ok(matching), fetches;
    }
  }

  /** parseAndVerifyJWT as a whole: parse, look keys up, search them. */
  method VerifyToken(cache: JwksCache, cfg: Config, jwksUri: Option<string>, token: Text, expectedAudience: string,
                     now: int, later: int, first: Published, second: Published)
    returns (r: Result<Claims, TokenError>)
    requires 0 <= now && 0 <= later
    modifies cache
    ensures jwksUri.Some? && token.Signed? ==>
              r == ParseAndVerify(cfg, Lookup(old(cache.View()), jwksUri.value, token.kid, now, first, second),
                                  token, expectedAudience)
              && cache.View() == SlotAfterLookup(old(cache.View()), jwksUri.value, token.kid, now, later, first, second)
    ensures jwksUri.None? || !token.Signed? ==> r == Err(Unverifiable) && cache.View() == old(cache.View())
  {
    if jwksUri.None? || !token.Signed? {
      return Err(Unverifiable);
    }
    var keys, _ := cache.FindKeys(jwksUri.value, token.kid, now, later, first, second);
    if keys.Err? {
      return Err(keys.error);
    }
    r := SearchKeys(cfg, keys.value, token, expectedAudience);
  }

  /**
   Rotation: whatever the cache holds and whatever the first reply was, a token whose non-empty
   kid is among the keys served last finds keys, all of them with that kid. Only an unreachable
   endpoint on a cold cache prevents it.
   */
  lemma RotationComplete(s: Slot, uri: string, kid: string, now: int, first: Published, keys: seq<Jwk>, k: Jwk)
    requires kid != "" && k in keys && k.kid == kid
    ensures var r := Lookup(s, uri, kid, now, first, Some(keys));
            && (r.Ok? <==> Fresh(s, uri, now) || first.Some?)
            && (r.Ok? ==> r.value != [] && forall f :: f in r.value ==> f.kid == kid)
  {
    WithKidMembers(keys, kid);
    var got := Consulted(s, uri, now, first);
    if got.Some? {
      WithKidMembers(got.value, kid);
    }
  }

  lemma VerifiesIffSomeKeyDoes(cfg: Config, keys: seq<Jwk>, token: Text, expectedAudience: string)
    requires token.Signed? && Addressed(cfg, ClaimsOf(token), expectedAudience)
    ensures ParseAndVerify(cfg, Ok(keys), token, expectedAudience).Ok? <==> SomeKeyVerifies(keys, token)
  {
  }

  /** A fresh cached set offers candidates for the token, but none verifies it. */
  predicate StaleHit(s: Slot, uri: string, token: Text, now: int)
    requires token.Signed?
  {
    && Fresh(s, uri, now) && Candidates(s.keys, token.kid) != []
    && !SomeKeyVerifies(Candidates(s.keys, token.kid), token)
  }

  /**
   Finding keys is not yet verifying: a token whose signing key stays published during the call
   verifies, whatever the cache holds, exactly when no fresh cached set offers only other keys for
   it. A re-used kid, or a rotation of keys without kids, goes unnoticed until the five minutes
   are over.
   */
  lemma PublishedSignerVerifiesIff(cfg: Config, s: Slot, uri: string, token: Text, expectedAudience: string, now: int,
                                   first: seq<Jwk>, second: seq<Jwk>, k: Jwk)
    requires token.Signed? && Addressed(cfg, ClaimsOf(token), expectedAudience)
    requires k in first && k in second && Verifies(k, token) && (token.kid != "" ==> k.kid == token.kid)
    ensures ParseAndVerify(cfg, Lookup(s, uri, token.kid, now, Some(first), Some(second)), token, expectedAudience).Ok?
            <==> !StaleHit(s, uri, token, now)
  {
    WithKidMembers(first, token.kid);
    WithKidMembers(second, token.kid);
    assert k in Candidates(first, token.kid) && k in Candidates(second, token.kid);
    var keys := Lookup(s, uri, token.kid, now, Some(first), Some(second));
    VerifiesIffSomeKeyDoes(cfg, keys.value, token, expectedAudience);
  }
}
