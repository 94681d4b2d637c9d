/** claims.go: typed claims and the searches over them. */
module TokenClaims {
  import opened GoStrings
  import opened Wire

  datatype Claims = Claims(
    subject: Text,
    issuer: Text,
    audience: seq<Text>,
    expiresAt: int,
    issuedAt: int,
    notBefore: int,
    scopes: seq<Text>,
    email: Text,
    hostedDomain: Text,
    emailVerified: bool)

  function TextClaim(raw: Object, key: Key): Text {
    if key in raw && raw[key].JText? then raw[key].text else EMPTY
  }

  function NumClaim(raw: Object, key: Key): int {
    if key in raw && raw[key].JNum? then raw[key].num else 0
  }

  /** The strings of a JSON array, in order; other elements are dropped. */
  function TextsIn(items: seq<Json>): seq<Text> {
    if items == [] then []
    else (if items[0].JText? then [items[0].text] else []) + TextsIn(items[1..])
  }

  function FieldsOf(t: Text): seq<Text> {
    if t.Lit? then var words := Fields(t.chars); seq(|words|, i requires 0 <= i < |words| => Lit(words[i]))
    else [t]
  }

  function VerifiedFlag(raw: Object): bool {
    EmailVerified in raw &&
    match raw[EmailVerified]
    case JBool(b) => b
    case JText(t) => t.Lit? && EqualFold(t.chars, "true")
    case _ => false
  }

  function ClaimsFromRaw(raw: Object): Claims {
    Claims(
      TextClaim(raw, Sub),
      TextClaim(raw, Iss),
      if Aud !in raw then [] else match raw[Aud] { case JText(t) => [t] case JList(js) => TextsIn(js) case _ => [] },
      NumClaim(raw, Exp),
      NumClaim(raw, Iat),
      NumClaim(raw, Nbf),
      if Scope !in raw then [] else match raw[Scope] { case JText(t) => FieldsOf(t) case JList(js) => TextsIn(js) case _ => [] },
      TextClaim(raw, Email),
      TextClaim(raw, Hd),
      VerifiedFlag(raw))
  }

  /** claimsFromUserInfo: no audience and no times, and only a boolean `email_verified`. */
  function ClaimsFromUserInfo(raw: Object): Claims {
    Claims(
      TextClaim(raw, Sub),
      TextClaim(raw, Iss),
      [],
      0,
      0,
      0,
      if Scope in raw && raw[Scope].JText? then FieldsOf(raw[Scope].text) else [],
      TextClaim(raw, Email),
      TextClaim(raw, Hd),
      EmailVerified in raw && raw[EmailVerified] == JBool(true))
  }

  function Normalize(t: Text): Text {
    TrimSlashesText(TrimSpaceText(t))
  }

  function EmailDomain(email: Text): string {
    if !email.Lit? then ""
    else
      var parts := Split(ToLower(TrimSpace(email.chars)), '@');
      if |parts| != 2 then "" else parts[1]
  }

  predicate ContainsDomain(domains: seq<string>, target: string) {
    exists i :: 0 <= i < |domains| && EqualFold(TrimSpace(domains[i]), TrimSpace(target))
  }

  predicate AudienceMatchesResource(audience: seq<Text>, expected: string) {
    exists i :: 0 <= i < |audience|
                && (audience[i] == Lit(expected) || Normalize(audience[i]) == Normalize(Lit(expected)))
  }

  predicate IssuerAllowed(got: Text, allowlist: seq<string>, single: string) {
    if |allowlist| > 0 then exists i :: 0 <= i < |allowlist| && Normalize(Lit(allowlist[i])) == Normalize(got)
    else if Normalize(Lit(single)) != EMPTY then Normalize(got) == Normalize(Lit(single))
    else true
  }

  /** hasRequiredScopes, with the set the source builds. */
  method HasRequiredScopes(tokenScopes: seq<Text>, required: seq<string>) returns (all: bool)
    ensures all <==> ScopesCovered(tokenScopes, required)
  {
    var present: set<Text> := {};
    for i := 0 to |tokenScopes|
      invariant present == set j | 0 <= j < i :: tokenScopes[j]
    {
      present := present + {tokenScopes[i]};
    }
    for i := 0 to |required|
      invariant forall j :: 0 <= j < i ==> Lit(required[j]) in tokenScopes
    {
      if Lit(required[i]) !in present {
        return false;
      }
    }
    return true;
  }

  predicate ScopesCovered(tokenScopes: seq<Text>, required: seq<string>) {
    forall j :: 0 <= j < |required| ==> Lit(required[j]) in tokenScopes
  }

  /** looksLikeJWT */
  predicate LooksLikeJwt(token: Text) {
    Dots(token) == 2
  }
}
