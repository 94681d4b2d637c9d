/**
 What an accepted token says, stated on the JSON claims it carries: the rules of validator.go and
 claims.go without the typed claims, the normalised strings and the order of the checks.
 */
module ClaimRules {
  import opened Wrappers
  import opened GoStrings
  import opened Wire
  import opened Clock
  import opened Configuration
  import opened TokenClaims
  import opened Validator

  // ---------------------------------------------------------------- issuer and audience

  /** A URL without surrounding white space and trailing slashes. */
  function Bare(url: string): string {
    TrimSlashes(TrimSpace(url))
  }

  predicate SameUrl(t: Text, url: string) {
    t.Lit? && Bare(t.chars) == Bare(url)
  }

  /** The string under `key`, or the empty string. */
  function TextAt(raw: Object, key: Key): Text {
    match Find(raw, key)
    case Some(JText(t)) => t
    case _ => EMPTY
  }

  function Find(raw: Object, key: Key): Option<Json> {
    if key in raw then Some(raw[key]) else None
  }

  /** `iss` is in the allowlist or, without one, is the configured issuer if there is any. */
  predicate IssuerRule(cfg: Config, raw: Object) {
    var iss := TextAt(raw, Iss);
    if cfg.issuerAllowlist != [] then exists i :: 0 <= i < |cfg.issuerAllowlist| && SameUrl(iss, cfg.issuerAllowlist[i])
    else Bare(cfg.issuer.raw) != "" ==> SameUrl(iss, cfg.issuer.raw)
  }

  /** `aud` is, or lists, the expected URL. */
  ghost predicate AudienceRule(raw: Object, expected: string) {
    match Find(raw, Aud)
    case Some(JText(t)) => SameUrl(t, expected)
    case Some(JList(items)) => exists t :: JText(t) in items && SameUrl(t, expected)
    case _ => false
  }

  /** The scope is a word of the `scope` string, or an element of the `scope` list. */
  predicate Grants(raw: Object, scope: string) {
    match Find(raw, Scope)
    case Some(JText(t)) => t.Lit? && scope in Fields(t.chars)
    case Some(JList(items)) => JText(Lit(scope)) in items
    case _ => false
  }

  predicate ScopeRule(raw: Object, required: seq<string>) {
    forall j :: 0 <= j < |required| ==> Grants(raw, required[j])
  }

  // ---------------------------------------------------------------- identity policy

  /** Up to case and surrounding white space, the domain is one of the list. */
  predicate Listed(domains: seq<string>, domain: string) {
    exists i :: 0 <= i < |domains| && ToLower(TrimSpace(domains[i])) == ToLower(TrimSpace(domain))
  }

  /** The address is local@domain, with no other at sign and a domain that is not empty. */
  ghost predicate Address(email: Text, local: string, domain: string) {
    email.Lit? && TrimSpace(email.chars) == local + "@" + domain && '@' !in local && '@' !in domain && domain != ""
  }

  /** A verified address unless unverified ones are allowed, from the allowed domains if there are any. */
  ghost predicate EmailRule(cfg: Config, email: Text, verified: bool) {
    && (cfg.allowUnverifiedEmail || email == EMPTY || verified)
    && (cfg.allowedEmailDomains != [] ==>
          exists local, domain :: Address(email, local, domain) && Listed(cfg.allowedEmailDomains, domain))
  }

  predicate HostedRule(cfg: Config, hd: Text) {
    cfg.allowedHostedDomains != [] ==> hd != EMPTY && hd.Lit? && Listed(cfg.allowedHostedDomains, hd.chars)
  }

  /** In an id_token `email_verified` may be a boolean or a string. */
  predicate SaysVerified(raw: Object) {
    match Find(raw, EmailVerified)
    case Some(JBool(b)) => b
    case Some(JText(t)) => t.Lit? && ToLower(t.chars) == "true"
    case _ => false
  }

  ghost predicate IdentityRule(cfg: Config, raw: Object, verified: bool) {
    EmailRule(cfg, TextAt(raw, Email), verified) && HostedRule(cfg, TextAt(raw, Hd))
  }

  // ---------------------------------------------------------------- time

  function NumberAt(raw: Object, key: Key): int {
    match Find(raw, key)
    case Some(JNum(n)) => n
    case _ => 0
  }

  /** Within 60 s of skew the token is not expired, not early and not issued in the future. */
  predicate TimeRule(raw: Object, now: int) {
    && (NumberAt(raw, Exp) > 0 ==> Unix(now) <= NumberAt(raw, Exp) + 60)
    && (NumberAt(raw, Nbf) > 0 ==> NumberAt(raw, Nbf) <= Unix(now) + 60)
    && (NumberAt(raw, Iat) > 0 ==> NumberAt(raw, Iat) <= Unix(now) + 60)
  }

  // ---------------------------------------------------------------- the checks implement the rules

  lemma IssuerRuleIff(cfg: Config, raw: Object)
    ensures IssuerAllowed(ClaimsFromRaw(raw).issuer, cfg.issuerAllowlist, TrimSpace(cfg.issuer.raw)) <==> IssuerRule(cfg, raw)
  {
    TrimSpaceIdempotent(cfg.issuer.raw);
  }

  lemma {:induction false} TextsInMembers(items: seq<Json>)
    ensures forall t :: t in TextsIn(items) <==> JText(t) in items
  {
    if items != [] {
      TextsInMembers(items[1..]);
      assert forall j :: j in items <==> j == items[0] || j in items[1..];
    }
  }

  lemma MatchesIff(audience: seq<Text>, expected: string)
    ensures AudienceMatchesResource(audience, expected) <==> exists t :: t in audience && SameUrl(t, expected)
  {
    if AudienceMatchesResource(audience, expected) {
      var i :| 0 <= i < |audience|
               && (audience[i] == Lit(expected) || Normalize(audience[i]) == Normalize(Lit(expected)));
      assert audience[i] in audience && SameUrl(audience[i], expected);
    }
    if t :| t in audience && SameUrl(t, expected) {
      var i :| 0 <= i < |audience| && audience[i] == t;
      assert Normalize(audience[i]) == Normalize(Lit(expected));
    }
  }

  lemma AudienceRuleIff(raw: Object, expected: string)
    ensures AudienceMatchesResource(ClaimsFromRaw(raw).audience, expected) <==> AudienceRule(raw, expected)
  {
    var audience := ClaimsFromRaw(raw).audience;
    MatchesIff(audience, expected);
    if Aud in raw && raw[Aud].JList? {
      TextsInMembers(raw[Aud].items);
      assert forall t :: t in audience <==> JText(t) in raw[Aud].items;
    } else if Aud in raw && raw[Aud].JText? {
      assert audience == [raw[Aud].text];
      assert raw[Aud].text in audience;
    }
  }

  lemma GrantsIff(raw: Object, scope: string)
    ensures Lit(scope) in ClaimsFromRaw(raw).scopes <==> Grants(raw, scope)
  {
    var scopes := ClaimsFromRaw(raw).scopes;
    if Scope in raw && raw[Scope].JList? {
      TextsInMembers(raw[Scope].items);
    } else if Scope in raw && raw[Scope].JText? && raw[Scope].text.Lit? {
      var words := Fields(raw[Scope].text.chars);
      if scope in words {
        var i :| 0 <= i < |words| && words[i] == scope;
        assert scopes[i] == Lit(scope);
      }
    }
  }

  lemma ScopeRuleIff(raw: Object, required: seq<string>)
    ensures ScopesCovered(ClaimsFromRaw(raw).scopes, required) <==> ScopeRule(raw, required)
  {
    forall j | 0 <= j < |required|
      ensures Lit(required[j]) in ClaimsFromRaw(raw).scopes <==> Grants(raw, required[j])
    {
      GrantsIff(raw, required[j]);
    }
  }

  lemma LowerKeeps(s: string, c: char)
    requires !('A' <= c <= 'Z') && !('a' <= c <= 'z')
    ensures c in s <==> c in ToLower(s)
  {
    if c in s {
      var i :| 0 <= i < |s| && s[i] == c;
      assert ToLower(s)[i] == c;
    }
    if c in ToLower(s) {
      var i :| 0 <= i < |s| && ToLower(s)[i] == c;
      assert s[i] == c;
    }
  }

  /** Splitting at the at sign finds two parts exactly in local@domain. */
  lemma TwoParts(s: string)
    ensures var parts := Split(s, '@');
            |parts| == 2 ==> s == parts[0] + "@" + parts[1] && '@' !in parts[0] && '@' !in parts[1]
  {
    JoinSplit(s, '@');
    SplitHasNoSeparator(s, '@');
    var parts := Split(s, '@');
    if |parts| == 2 {
      assert parts[1..] == [parts[1]];
    }
  }

  lemma TwoPartsSplit(local: string, domain: string)
    requires '@' !in local && '@' !in domain
    ensures Split(local + "@" + domain, '@') == [local, domain]
  {
    var parts := [local, domain];
    SplitJoin(parts, '@');
    assert parts[1..] == [domain];
    assert Join(parts, ['@']) == local + "@" + domain;
  }

  /** The domain that emailDomain finds is the lower-cased one of the address. */
  lemma EmailDomainOf(email: Text, local: string, domain: string)
    requires Address(email, local, domain)
    ensures EmailDomain(email) == ToLower(domain)
  {
    LowerKeeps(local, '@');
    LowerKeeps(domain, '@');
    TwoPartsSplit(ToLower(local), ToLower(domain));
    assert ToLower(local + "@" + domain) == ToLower(local) + "@" + ToLower(domain);
  }

  lemma EmailDomainIsOfAddress(email: Text) returns (local: string, domain: string)
    requires EmailDomain(email) != ""
    ensures Address(email, local, domain) && EmailDomain(email) == ToLower(domain)
  {
    var s := TrimSpace(email.chars);
    var parts := Split(ToLower(s), '@');
    TwoParts(ToLower(s));
    var n := |parts[0]|;
    local, domain := s[..n], s[n + 1..];
    assert ToLower(s)[n] == '@';
    assert s[n] == '@';
    assert s == local + "@" + domain;
    var low := ToLower(s);
    assert low == parts[0] + "@" + parts[1];
    assert ToLower(local) == low[..n] == parts[0];
    assert ToLower(domain) == low[n + 1..] == parts[1];
    LowerKeeps(local, '@');
    LowerKeeps(domain, '@');
  }

  lemma ListedIff(domains: seq<string>, domain: string)
    ensures ContainsDomain(domains, domain) <==> Listed(domains, domain)
    ensures Listed(domains, ToLower(domain)) <==> Listed(domains, domain)
  {
    TrimSpaceLower(domain);
    LowerTwice(TrimSpace(domain));
  }

  /** Email and hosted-domain checks, whatever claims they run on. */
  lemma IdentityPolicyIff(cfg: Config, c: Claims)
    ensures IdentityPolicy(cfg, c) == None <==> EmailRule(cfg, c.email, c.emailVerified) && HostedRule(cfg, c.hostedDomain)
  {
    if c.hostedDomain.Lit? {
      ListedIff(cfg.allowedHostedDomains, c.hostedDomain.chars);
    }
    if EmailDomain(c.email) != "" {
      var local, domain := EmailDomainIsOfAddress(c.email);
      ListedIff(cfg.allowedEmailDomains, ToLower(domain));
      ListedIff(cfg.allowedEmailDomains, domain);
    }
    if local, domain :| Address(c.email, local, domain) && Listed(cfg.allowedEmailDomains, domain) {
      EmailDomainOf(c.email, local, domain);
      ListedIff(cfg.allowedEmailDomains, ToLower(domain));
      ListedIff(cfg.allowedEmailDomains, domain);
    }
  }

  lemma FromRaw(raw: Object)
    ensures var c := ClaimsFromRaw(raw);
            && c.email == TextAt(raw, Email) && c.hostedDomain == TextAt(raw, Hd) && c.subject == TextAt(raw, Sub)
            && (c.emailVerified <==> SaysVerified(raw))
            && c.expiresAt == NumberAt(raw, Exp) && c.notBefore == NumberAt(raw, Nbf) && c.issuedAt == NumberAt(raw, Iat)
  {
    assert ToLower("true") == "true";
  }

  // ---------------------------------------------------------------- the theorems

  /** The JSON claims of a signed token, as a reader gets them. */
  function Payload(token: Text): Object
    requires token.Signed?
  {
    Unmarshal(token.payload)
  }

  /** One of the keys that were looked up signed the token. */
  predicate SignedByOne(keys: KeyLookup, token: Text)
    requires token.Signed?
  {
    keys.Ok? && exists i :: 0 <= i < |keys.value| && keys.value[i].material == token.signer
  }

  /** Issuer and audience rules of a token for `expected`; no audience is expected when it is empty. */
  ghost predicate Addressing(cfg: Config, raw: Object, expected: string) {
    IssuerRule(cfg, raw) && (expected != "" ==> AudienceRule(raw, expected))
  }

  lemma AddressedIff(cfg: Config, raw: Object, expected: string)
    ensures Addressed(cfg, ClaimsFromRaw(raw), expected) <==> Addressing(cfg, raw, expected)
  {
    IssuerRuleIff(cfg, raw);
    AudienceRuleIff(raw, expected);
  }

  /** ValidateUpstreamIdentityToken accepts exactly these tokens, at any time. */
  lemma IdentityTokenAcceptedIff(cfg: Config, keys: KeyLookup, token: Text, expected: string)
    ensures ValidateIdentityToken(cfg, keys, token, expected).Ok?
            <==> && token.Signed? && SignedByOne(keys, token)
                 && Addressing(cfg, Payload(token), expected)
                 && IdentityRule(cfg, Payload(token), SaysVerified(Payload(token)))
  {
    if token.Signed? {
      AddressedIff(cfg, Payload(token), expected);
      IdentityPolicyIff(cfg, ClaimsOf(token));
      FromRaw(Payload(token));
    }
  }

  /** Validate accepts exactly these signed tokens, with the claims they carry. */
  ghost predicate Valid(cfg: Config, keys: KeyLookup, token: Text, now: int)
    requires token.Signed?
  {
    var raw := Payload(token);
    && SignedByOne(keys, token)
    && Addressing(cfg, raw, cfg.audience.raw)
    && TimeRule(raw, now)
    && ScopeRule(raw, cfg.requiredScopes)
    && IdentityRule(cfg, raw, SaysVerified(raw))
  }

  /** A JWKS URL or an issuer is configured. */
  predicate HasKeySource(cfg: Config) {
    TrimSpace(cfg.jwksUrl) != "" || TrimSpace(cfg.issuer.raw) != ""
  }

  lemma ValidateAcceptsIff(cfg: Config, keys: KeyLookup, token: Text, now: int)
    requires token.Signed? && HasKeySource(cfg)
    ensures Validate(cfg, keys, token, now).Ok? <==> Valid(cfg, keys, token, now)
    ensures Validate(cfg, keys, token, now).Ok? ==> Validate(cfg, keys, token, now).value == Some(ClaimsFromRaw(Payload(token)))
  {
    var raw := Payload(token);
    AddressedIff(cfg, raw, cfg.audience.raw);
    AudienceRuleIff(raw, cfg.audience.raw);
    ScopeRuleIff(raw, cfg.requiredScopes);
    IdentityPolicyIff(cfg, ClaimsOf(token));
    FromRaw(raw);
  }

  /** And it names the first rule that a token breaks. */
  lemma ValidateRejects(cfg: Config, keys: KeyLookup, token: Text, now: int)
    requires token.Signed? && HasKeySource(cfg)
    ensures var raw, r := Payload(token), Validate(cfg, keys, token, now);
            if !SignedByOne(keys, token) then r == Err(if keys.Err? then keys.error else Unverifiable)
            else if !Addressing(cfg, raw, cfg.audience.raw) then r == Err(InvalidToken)
            else if NumberAt(raw, Exp) > 0 && Unix(now) > NumberAt(raw, Exp) + 60 then r == Err(TokenExpired)
            else if !TimeRule(raw, now) then r == Err(InvalidToken)
            else if !ScopeRule(raw, cfg.requiredScopes) then r == Err(InsufficientScopes)
            else if !cfg.allowUnverifiedEmail && TextAt(raw, Email) != EMPTY && !SaysVerified(raw) then r == Err(EmailNotVerified)
            else if !IdentityRule(cfg, raw, SaysVerified(raw)) then r == Err(UnauthorizedDomain)
            else r.Ok?
  {
    var raw := Payload(token);
    AddressedIff(cfg, raw, cfg.audience.raw);
    AudienceRuleIff(raw, cfg.audience.raw);
    ScopeRuleIff(raw, cfg.requiredScopes);
    IdentityPolicyIff(cfg, ClaimsOf(token));
    FromRaw(raw);
  }

  /** Texts that are not signed tokens: gating mode admits none while it knows a key source. */
  lemma UnsignedRejectedInGating(cfg: Config, keys: KeyLookup, token: Text, now: int)
    requires !token.Signed? && cfg.mode.Gating? && HasKeySource(cfg)
    ensures Validate(cfg, keys, token, now).Err?
    ensures token == EMPTY ==> Validate(cfg, keys, token, now) == Err(MissingToken)
  {
  }

  /** Without a key source a signed token passes unchecked, and so without claims. */
  lemma UncheckedWithoutKeySource(cfg: Config, keys: KeyLookup, token: Text, now: int)
    requires token.Signed? && !HasKeySource(cfg)
    ensures Validate(cfg, keys, token, now) == Ok(None)
  {
  }

  /** Forward mode leaves a text that does not have the two dots of a JWT to the backend. */
  lemma OpaquePassesInForward(cfg: Config, keys: KeyLookup, s: string, now: int)
    requires cfg.mode.Forward? && s != "" && Count(s, '.') != 2
    ensures Validate(cfg, keys, Lit(s), now) == Ok(None)
  {
  }
}
