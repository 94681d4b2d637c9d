/** broker_state.go and downstream_token.go: the three artifacts and their codecs. */
module BrokerState {
  import opened Wrappers
  import opened Wire
  import opened Clock
  import opened Jwe
  import JsonText

  datatype PendingAuth = PendingAuth(
    clientId: Text,
    redirectUri: Text,
    scope: Text,
    clientState: Text,
    codeChallenge: Text,
    codeChallengeMethod: Text,
    resource: Text,
    upstreamVerifier: Text,
    expiresAt: int)

  datatype IssuedCode = IssuedCode(
    clientId: Text,
    redirectUri: Text,
    scope: Text,
    codeChallenge: Text,
    codeChallengeMethod: Text,
    resource: Text,
    upstreamCode: Text,
    upstreamVerifier: Text,
    expiresAt: int)

  function StringFromClaims(claims: Object, key: Key): Text {
    if key in claims && claims[key].JText? then claims[key].text else EMPTY
  }

  function UnixFromClaims(claims: Object, key: Key): int {
    if key in claims && claims[key].JNum? then claims[key].num * SECOND else ZERO_TIME
  }

  function PendingClaims(p: PendingAuth): Object {
    map[ClientId := JText(p.clientId),
        RedirectUri := JText(p.redirectUri),
        Scope := JText(p.scope),
        ClientState := JText(p.clientState),
        CodeChallenge := JText(p.codeChallenge),
        CodeChallengeMethod := JText(p.codeChallengeMethod),
        Resource := JText(p.resource),
        UpstreamPkceVerifier := JText(p.upstreamVerifier),
        Exp := JNum(Unix(p.expiresAt))]
  }

  function EncodePendingAuth(secret: string, p: PendingAuth, nonce: nat): Text {
    EncodeJWE(secret, PENDING_AUTH, PendingClaims(p), nonce)
  }

  function PendingFrom(c: Object): PendingAuth {
    PendingAuth(
      StringFromClaims(c, ClientId),
      StringFromClaims(c, RedirectUri),
      StringFromClaims(c, Scope),
      StringFromClaims(c, ClientState),
      StringFromClaims(c, CodeChallenge),
      StringFromClaims(c, CodeChallengeMethod),
      StringFromClaims(c, Resource),
      StringFromClaims(c, UpstreamPkceVerifier),
      UnixFromClaims(c, Exp))
  }

  function DecodePendingAuth(secret: string, token: Text, now: int): Option<PendingAuth> {
    if secret == "" then None
    else
      match DecodeJWE(secret, PENDING_AUTH, token, now)
      case Err(_) => None
      case Ok(c) => Some(PendingFrom(c))
  }

  function CodeClaims(c: IssuedCode): Object {
    map[ClientId := JText(c.clientId),
        RedirectUri := JText(c.redirectUri),
        Scope := JText(c.scope),
        CodeChallenge := JText(c.codeChallenge),
        CodeChallengeMethod := JText(c.codeChallengeMethod),
        Resource := JText(c.resource),
        UpstreamAuthCode := JText(c.upstreamCode),
        UpstreamPkceVerifier := JText(c.upstreamVerifier),
        Exp := JNum(Unix(c.expiresAt))]
  }

  function EncodeAuthCode(secret: string, c: IssuedCode, nonce: nat): Text {
    EncodeJWE(secret, AUTH_CODE, CodeClaims(c), nonce)
  }

  function CodeFrom(c: Object): IssuedCode {
    IssuedCode(
      StringFromClaims(c, ClientId),
      StringFromClaims(c, RedirectUri),
      StringFromClaims(c, Scope),
      StringFromClaims(c, CodeChallenge),
      StringFromClaims(c, CodeChallengeMethod),
      StringFromClaims(c, Resource),
      StringFromClaims(c, UpstreamAuthCode),
      StringFromClaims(c, UpstreamPkceVerifier),
      UnixFromClaims(c, Exp))
  }

  function DecodeAuthCode(secret: string, token: Text, now: int): Option<IssuedCode> {
    if secret == "" then None
    else
      match DecodeJWE(secret, AUTH_CODE, token, now)
      case Err(_) => None
      case Ok(c) => Some(CodeFrom(c))
  }

  function DownstreamClaims(idToken: Text, exp: int): Object {
    map[UpstreamIdToken := JText(idToken), Exp := JNum(Unix(exp))]
  }

  function EncodeDownstream(secret: string, idToken: Text, exp: int, nonce: nat): Text {
    EncodeJWE(secret, DOWNSTREAM_TOKEN, DownstreamClaims(idToken, exp), nonce)
  }

  /** decodeDownstreamAccessToken; unlike the other two decoders it does not test for an empty secret. */
  function DecodeDownstream(secret: string, token: Text, now: int): Result<Text, OpenError> {
    match DecodeJWE(secret, DOWNSTREAM_TOKEN, token, now)
    case Err(e) => Err(e)
    case Ok(c) =>
      var idToken := StringFromClaims(c, UpstreamIdToken);
      if idToken == EMPTY then Err(InvalidToken) else Ok(idToken)
  }

  // ---------------------------------------------------------------- what the codecs promise

  function CleanPending(p: PendingAuth): PendingAuth {
    PendingAuth(Clean(p.clientId), Clean(p.redirectUri), Clean(p.scope), Clean(p.clientState),
                Clean(p.codeChallenge), Clean(p.codeChallengeMethod), Clean(p.resource),
                Clean(p.upstreamVerifier), JsonText.Float64(Unix(p.expiresAt)) * SECOND)
  }

  function CleanCode(c: IssuedCode): IssuedCode {
    IssuedCode(Clean(c.clientId), Clean(c.redirectUri), Clean(c.scope), Clean(c.codeChallenge),
               Clean(c.codeChallengeMethod), Clean(c.resource), Clean(c.upstreamCode),
               Clean(c.upstreamVerifier), JsonText.Float64(Unix(c.expiresAt)) * SECOND)
  }

  lemma RereadPending(p: PendingAuth)
    ensures PendingFrom(Reread(PendingClaims(p))) == CleanPending(p)
  {
  }

  lemma RereadCode(c: IssuedCode)
    ensures CodeFrom(Reread(CodeClaims(c))) == CleanCode(c)
  {
  }

  /** A pending-auth decodes under its own secret until its expiry and never after, to its own fields. */
  lemma PendingAuthDecodes(secret: string, p: PendingAuth, nonce: nat, secret': string, now: int)
    ensures DecodePendingAuth(secret', EncodePendingAuth(secret, p, nonce), now)
            == if secret' == secret && secret != "" && Unix(now) <= JsonText.Float64(Unix(p.expiresAt))
               then Some(CleanPending(p)) else None
  {
    OpensExactly(secret, PENDING_AUTH, PendingClaims(p), nonce, secret', PENDING_AUTH, now);
    RereadPending(p);
  }

  /** The same for auth codes. */
  lemma AuthCodeDecodes(secret: string, c: IssuedCode, nonce: nat, secret': string, now: int)
    ensures DecodeAuthCode(secret', EncodeAuthCode(secret, c, nonce), now)
            == if secret' == secret && secret != "" && Unix(now) <= JsonText.Float64(Unix(c.expiresAt))
               then Some(CleanCode(c)) else None
  {
    OpensExactly(secret, AUTH_CODE, CodeClaims(c), nonce, secret', AUTH_CODE, now);
    RereadCode(c);
  }

  /** The same for downstream tokens. */
  lemma DownstreamDecodes(secret: string, idToken: Text, exp: int, nonce: nat, secret': string, now: int)
    ensures var r := DecodeDownstream(secret', EncodeDownstream(secret, idToken, exp, nonce), now);
            && (r.Ok? <==> secret' == secret && Clean(idToken) != EMPTY
                           && Unix(now) <= JsonText.Float64(Unix(exp)))
            && (r.Ok? ==> r.value == Clean(idToken))
  {
    OpensExactly(secret, DOWNSTREAM_TOKEN, DownstreamClaims(idToken, exp), nonce, secret', DOWNSTREAM_TOKEN, now);
  }

  predicate CleanPendingFields(p: PendingAuth) {
    IsClean(p.clientId) && IsClean(p.redirectUri) && IsClean(p.scope) && IsClean(p.clientState)
    && IsClean(p.codeChallenge) && IsClean(p.codeChallengeMethod) && IsClean(p.resource)
    && IsClean(p.upstreamVerifier)
  }

  /**
   Round trip of a pending-auth: the decoded record equals the encoded one, expiry truncated to
   seconds, exactly when every field is valid UTF-8 and the expiry is a float64.
   */
  lemma PendingAuthRoundTripIff(secret: string, p: PendingAuth, nonce: nat, now: int)
    requires secret != "" && Unix(now) <= JsonText.Float64(Unix(p.expiresAt))
    ensures var e := Unix(p.expiresAt);
            DecodePendingAuth(secret, EncodePendingAuth(secret, p, nonce), now)
            == Some(p.(expiresAt := e * SECOND))
            <==> CleanPendingFields(p)
                 && JsonText.Magnitude(e) % JsonText.Ulp(JsonText.Magnitude(e)) == 0
  {
    PendingAuthDecodes(secret, p, nonce, secret, now);
    JsonText.Float64ExactIff(Unix(p.expiresAt));
    CleanIdentityIff(p.clientId);
    CleanIdentityIff(p.redirectUri);
    CleanIdentityIff(p.scope);
    CleanIdentityIff(p.clientState);
    CleanIdentityIff(p.codeChallenge);
    CleanIdentityIff(p.codeChallengeMethod);
    CleanIdentityIff(p.resource);
    CleanIdentityIff(p.upstreamVerifier);
  }

  predicate CleanCodeFields(c: IssuedCode) {
    IsClean(c.clientId) && IsClean(c.redirectUri) && IsClean(c.scope) && IsClean(c.codeChallenge)
    && IsClean(c.codeChallengeMethod) && IsClean(c.resource) && IsClean(c.upstreamCode)
    && IsClean(c.upstreamVerifier)
  }

  /** Round trip of an auth code, under the same exact condition. */
  lemma AuthCodeRoundTripIff(secret: string, c: IssuedCode, nonce: nat, now: int)
    requires secret != "" && Unix(now) <= JsonText.Float64(Unix(c.expiresAt))
    ensures var e := Unix(c.expiresAt);
            DecodeAuthCode(secret, EncodeAuthCode(secret, c, nonce), now)
            == Some(c.(expiresAt := e * SECOND))
            <==> CleanCodeFields(c)
                 && JsonText.Magnitude(e) % JsonText.Ulp(JsonText.Magnitude(e)) == 0
  {
    AuthCodeDecodes(secret, c, nonce, secret, now);
    JsonText.Float64ExactIff(Unix(c.expiresAt));
    CleanIdentityIff(c.clientId);
    CleanIdentityIff(c.redirectUri);
    CleanIdentityIff(c.scope);
    CleanIdentityIff(c.codeChallenge);
    CleanIdentityIff(c.codeChallengeMethod);
    CleanIdentityIff(c.resource);
    CleanIdentityIff(c.upstreamCode);
    CleanIdentityIff(c.upstreamVerifier);
  }

  /** No artifact is accepted by the decoder of another kind, under any secret. */
  lemma KindsDoNotMix(secret: string, secret': string, p: PendingAuth, c: IssuedCode, idToken: Text,
                      exp: int, nonce: nat, now: int)
    ensures DecodeAuthCode(secret', EncodePendingAuth(secret, p, nonce), now) == None
    ensures DecodePendingAuth(secret', EncodeAuthCode(secret, c, nonce), now) == None
    ensures DecodeDownstream(secret', EncodePendingAuth(secret, p, nonce), now).Err?
    ensures DecodeDownstream(secret', EncodeAuthCode(secret, c, nonce), now).Err?
    ensures DecodePendingAuth(secret', EncodeDownstream(secret, idToken, exp, nonce), now) == None
    ensures DecodeAuthCode(secret', EncodeDownstream(secret, idToken, exp, nonce), now) == None
  {
    LabelsDiffer();
  }
}
