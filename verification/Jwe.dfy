/** jwe.go: sealing and opening the broker's stateless artifacts. */
module Jwe {
  import opened Wrappers
  import opened Wire
  import opened Clock
  import JsonText

  const PENDING_AUTH: string := "altinity-mcp/oauth/pending-auth/v1"
  const AUTH_CODE: string := "altinity-mcp/oauth/auth-code/v2"
  const DOWNSTREAM_TOKEN: string := "altinity-mcp/oauth/downstream-token/v1"

  /** The three HKDF labels are pairwise different. */
  lemma LabelsDiffer()
    ensures PENDING_AUTH != AUTH_CODE && AUTH_CODE != DOWNSTREAM_TOKEN && PENDING_AUTH != DOWNSTREAM_TOKEN
  {
    assert |PENDING_AUTH| == 34 && |AUTH_CODE| == 31 && |DOWNSTREAM_TOKEN| == 38;
  }

  datatype OpenError = InvalidToken | DisallowedClaim

  function EncodeJWE(secret: string, info: string, claims: Object, nonce: nat): Text {
    Sealed(secret, info, Marshal(claims), nonce)
  }

  predicate Whitelisted(claims: Object) {
    forall k :: k in claims ==> !k.Unlisted?
  }

  /** validateJWEExpiration: an absent `exp` passes, a non-numeric one does not. */
  predicate Unexpired(claims: Object, now: int) {
    Exp in claims ==> claims[Exp].JNum? && Unix(now) <= claims[Exp].num
  }

  function DecodeJWE(secret: string, info: string, token: Text, now: int): Result<Object, OpenError> {
    if !token.Sealed? || token.secret != secret || token.info != info then Err(InvalidToken)
    else
      var claims := Unmarshal(token.body);
      if !Whitelisted(claims) then Err(DisallowedClaim)
      else if !Unexpired(claims, now) then Err(InvalidToken)
      else Ok(claims)
  }

  /** The claims map after sealing and opening. */
  function Reread(claims: Object): (r: Object)
    ensures r.Keys == claims.Keys
    ensures forall k :: k in claims ==> r[k] == UnmarshalJson(MarshalJson(claims[k]))
  {
    Unmarshal(Marshal(claims))
  }

  /**
   An artifact with a numeric `exp` opens under its own secret and info until `exp`, never
   after, and under nothing else; what it opens to is every claim after one JSON round trip.
   */
  lemma OpensExactly(secret: string, info: string, claims: Object, nonce: nat,
                     secret': string, info': string, now: int)
    requires Whitelisted(claims) && Exp in claims && claims[Exp].JNum?
    ensures var r := DecodeJWE(secret', info', EncodeJWE(secret, info, claims, nonce), now);
            && (r.Ok? <==> secret' == secret && info' == info
                           && Unix(now) <= JsonText.Float64(claims[Exp].num))
            && (r.Ok? ==> r.value == Reread(claims))
  {
    var reread := Reread(claims);
    assert EncodeJWE(secret, info, claims, nonce).body == Marshal(claims);
  }

  /** A claim outside the whitelist keeps an artifact shut for good, under its own secret and label too. */
  lemma UnlistedNeverOpens(secret: string, info: string, claims: Object, nonce: nat, name: string, now: int)
    requires Unlisted(name) in claims
    ensures DecodeJWE(secret, info, EncodeJWE(secret, info, claims, nonce), now) == Err(DisallowedClaim)
  {
    assert Unlisted(name) in Unmarshal(Marshal(claims));
  }

  /**
   An artifact without `exp` would open at every instant, and one with a non-numeric `exp` at
   none; `Protocol.ArtifactsExpire` shows that no run mints either.
   */
  lemma ExpDecidesLifetime(secret: string, info: string, claims: Object, nonce: nat, now: int)
    requires Whitelisted(claims)
    ensures Exp !in claims ==> DecodeJWE(secret, info, EncodeJWE(secret, info, claims, nonce), now).Ok?
    ensures Exp in claims && !claims[Exp].JNum?
            ==> DecodeJWE(secret, info, EncodeJWE(secret, info, claims, nonce), now) == Err(InvalidToken)
  {
    var reread := Unmarshal(Marshal(claims));
    assert reread.Keys == claims.Keys;
  }
}
