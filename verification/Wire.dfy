/** Instants are nanoseconds since the Unix epoch, as `time.Time` is. */
module Clock {
  const SECOND: int := 1_000_000_000

  /** `time.Time{}`, the first instant of year 1. */
  const ZERO_TIME: int := -62135596800 * SECOND

  /** Time.Unix(): whole seconds, rounded down. */
  function Unix(t: int): int {
    t / SECOND
  }

  lemma AddSeconds(t: int, n: int)
    ensures Unix(t + n * SECOND) == Unix(t) + n
  {
  }

  const MAX_INT64: int := 0x7FFF_FFFF_FFFF_FFFF

  /** The int64 value of a mathematical integer, with Go's wrap-around. */
  function Wrap64(n: int): int {
    (n + 0x8000_0000_0000_0000) % 0x1_0000_0000_0000_0000 - 0x8000_0000_0000_0000
  }

  /** Seconds from year 1, where `time.Time` counts from, to 1970. */
  const UNIX_TO_INTERNAL: int := 62135596800

  /** The last second that `time.Unix` represents; the next one wraps to a time before year 1. */
  const LAST_SECOND: int := MAX_INT64 - UNIX_TO_INTERNAL

  /** The instant that comparisons take `time.Unix(sec, 0)` for: the sum is an int64. */
  function FromUnix(sec: int): int {
    (Wrap64(sec + UNIX_TO_INTERNAL) - UNIX_TO_INTERNAL) * SECOND
  }

  /** It is the true instant up to the last second, and before 1970 for every later int64. */
  lemma FromUnixIff(sec: int)
    requires 0 <= sec <= MAX_INT64
    ensures FromUnix(sec) == sec * SECOND <==> sec <= LAST_SECOND
    ensures sec > LAST_SECOND ==> FromUnix(sec) < 0
  {
  }
}

/**
 What travels on the wire.

 Cryptography is symbolic. `Digest` is base64url of SHA-256 (`pkceChallenge`), `Signed` is a
 compact JWS and `Sealed` a compact JWE whose key is HKDF-derived from a secret and an info label.
 Distinct terms are distinct texts: digests do not collide, and sealing under another secret,
 info, body or nonce gives another text. Any field of a message may hold any text, an artifact
 of the broker included.
 */
module Wire {
  import opened GoStrings
  import JsonText

  /** Claim names. The constructors other than `Unlisted` are exactly the names in `jweAllowedClaimKeys`. */
  datatype Key =
    | Iss | Sub | Aud | Exp | Nbf | Iat | Jti
    | ClientId | RedirectUri | RedirectUris | Scope | ClientState
    | CodeChallenge | CodeChallengeMethod | Resource
    | UpstreamAuthCode | UpstreamPkceVerifier | UpstreamBearerToken | UpstreamIdToken
    | UpstreamRefreshToken | UpstreamTokenType | TokenEndpointAuthMethod | GrantType | AccessTokenExp
    | Email | Name | Hd | EmailVerified
    | Unlisted(name: string)

  datatype Json =
    | JText(text: Text)
    | JNum(num: int)
    | JBool(flag: bool)
    | JList(items: seq<Json>)
    | JNull

  type Object = map<Key, Json>

  datatype Text =
    | Lit(chars: string)
    | Digest(of: Text)
    | Signed(kid: string, signer: string, payload: Object)
    | Sealed(secret: string, info: string, body: Object, nonce: nat)

  const EMPTY: Text := Lit("")

  /** Number of '.' in the text: a compact JWS has two and a compact JWE four. */
  function Dots(t: Text): nat {
    match t
    case Lit(s) => Count(s, '.')
    case Digest(_) => 0
    case Signed(_, _, _) => 2
    case Sealed(_, _, _, _) => 4
  }

  /** strings.TrimRight(t, "/"); base64url texts contain no slash. */
  function TrimSlashesText(t: Text): Text {
    if t.Lit? then Lit(TrimSlashes(t.chars)) else t
  }

  /** strings.TrimSpace; base64url texts contain no white space. */
  function TrimSpaceText(t: Text): Text {
    if t.Lit? then Lit(TrimSpace(t.chars)) else t
  }

  /** The text a reader of the marshalled JSON gets back: ASCII texts are unchanged. */
  function Clean(t: Text): Text {
    if t.Lit? then Lit(JsonText.Coerce(t.chars)) else t
  }

  /** The text survives a JSON round trip. */
  predicate IsClean(t: Text) {
    t.Lit? ==> JsonText.ValidUtf8(t.chars)
  }

  lemma CleanIdentityIff(t: Text)
    ensures Clean(t) == t <==> IsClean(t)
    ensures IsClean(Clean(t))
  {
    if t.Lit? {
      JsonText.CoerceIdentityIff(t.chars);
      JsonText.CoerceIsValid(t.chars);
    }
  }

  function MarshalJson(j: Json): Json {
    match j
    case JText(t) => JText(Clean(t))
    case JList(items) => JList(seq(|items|, i requires 0 <= i < |items| => MarshalJson(items[i])))
    case _ => j
  }

  function UnmarshalJson(j: Json): Json {
    match j
    case JNum(n) => JNum(JsonText.Float64(n))
    case JList(items) => JList(seq(|items|, i requires 0 <= i < |items| => UnmarshalJson(items[i])))
    case _ => j
  }

  /** json.Marshal of a claims map. */
  function Marshal(o: Object): Object {
    map k | k in o :: MarshalJson(o[k])
  }

  /** json.Unmarshal into map[string]any. */
  function Unmarshal(o: Object): Object {
    map k | k in o :: UnmarshalJson(o[k])
  }
}
