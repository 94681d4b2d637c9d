/** cimd.go: client metadata documents. */
module CimdMetadata {
  import opened Wrappers
  import JsonText

  const MAX_REDIRECT_URIS := 20
  const MAX_REDIRECT_URI_LENGTH := 2048
  const MAX_CLIENT_NAME_LENGTH := 128

  /** registeredClient */
  datatype Client = Client(redirectUris: seq<string>, authMethod: string, jwksUri: string)

  /** The decoded document, as far as parseCIMDMetadata reads it. */
  datatype Document = Document(
    clientId: string,
    clientName: string,
    clientSecret: string,
    secretExpiryIsZero: bool,
    authMethod: string,
    jwksUri: string,
    redirectUris: seq<string>,
    grantTypes: seq<string>,
    responseTypes: seq<string>)

  /** `url.Parse` and IDNA are not modelled: which URLs they accept is an input. */
  datatype UrlRules = UrlRules(jwksUriAllowed: string -> bool, redirectUriAllowed: string -> bool)

  predicate RedirectUriOk(rules: UrlRules, ru: string) {
    0 < |ru| <= 2048 && rules.redirectUriAllowed(ru)
  }

  /** The documents the broker accepts for a client_id. */
  predicate Acceptable(rules: UrlRules, url: string, doc: Document) {
    && doc.clientId == url
    && 0 < |doc.clientName| <= 128
    && doc.clientSecret == "" && doc.secretExpiryIsZero
    && (doc.authMethod == "none"
        || (doc.authMethod == "private_key_jwt" && doc.jwksUri != "" && rules.jwksUriAllowed(doc.jwksUri)))
    && 1 <= |doc.redirectUris| <= 20
    && (forall i :: 0 <= i < |doc.redirectUris| ==> RedirectUriOk(rules, doc.redirectUris[i]))
    && Distinct(doc.redirectUris)
    && (doc.grantTypes == [] ||
        ("authorization_code" in doc.grantTypes
         && forall g :: g in doc.grantTypes ==> g == "authorization_code" || g == "refresh_token"))
    && (forall t :: t in doc.responseTypes ==> t == "code")
  }

  /** parseCIMDMetadata on a decoded document: it accepts exactly the acceptable documents. */
  method ParseCimdMetadata(rules: UrlRules, url: string, doc: Document) returns (client: Option<Client>)
    ensures client.Some? <==> Acceptable(rules, url, doc)
    ensures client.Some? ==> client.value == Client(doc.redirectUris, doc.authMethod, doc.jwksUri)
  {
    if doc.clientId != url || doc.clientName == "" || |doc.clientName| > MAX_CLIENT_NAME_LENGTH {
      return None;
    }
    if doc.clientSecret != "" || !doc.secretExpiryIsZero {
      return None;
    }
    if doc.authMethod == "none" {
    } else if doc.authMethod == "private_key_jwt" {
      if doc.jwksUri == "" || !rules.jwksUriAllowed(doc.jwksUri) {
        return None;
      }
    } else {
      return None;
    }
    if |doc.redirectUris| == 0 || |doc.redirectUris| > MAX_REDIRECT_URIS {
      return None;
    }
    var redirectsOk := CheckRedirectUris(rules, doc.redirectUris);
    if !redirectsOk {
      return None;
    }
    var grantsOk := CheckGrantTypes(doc.grantTypes);
    if !grantsOk {
      return None;
    }
    var responsesOk := CheckResponseTypes(doc.responseTypes);
    if !responsesOk {
      return None;
    }
    return Some(Client(doc.redirectUris, doc.authMethod, doc.jwksUri));
  }

  method CheckRedirectUris(rules: UrlRules, uris: seq<string>) returns (ok: bool)
    ensures ok <==> Distinct(uris) && forall i :: 0 <= i < |uris| ==> RedirectUriOk(rules, uris[i])
  {
    var seen: set<string> := {};
    for i := 0 to |uris|
      invariant seen == set j | 0 <= j < i :: uris[j]
      invariant Distinct(uris[..i])
      invariant forall j :: 0 <= j < i ==> RedirectUriOk(rules, uris[j])
    {
      var ru := uris[i];
      if ru == "" || |ru| > MAX_REDIRECT_URI_LENGTH {
        assert !RedirectUriOk(rules, uris[i]);
        return false;
      }
      if ru in seen {
        return false;
      }
      seen := seen + {ru};
      if !rules.redirectUriAllowed(ru) {
        assert !RedirectUriOk(rules, uris[i]);
        return false;
      }
    }
    assert uris[..|uris|] == uris;
    return true;
  }

  method CheckGrantTypes(grants: seq<string>) returns (ok: bool)
    ensures ok <==> grants == [] || ("authorization_code" in grants
                    && forall g :: g in grants ==> g == "authorization_code" || g == "refresh_token")
  {
    if |grants| == 0 {
      return true;
    }
    var hasAuthCode := false;
    for i := 0 to |grants|
      invariant hasAuthCode <==> "authorization_code" in grants[..i]
      invariant forall j :: 0 <= j < i ==> grants[j] == "authorization_code" || grants[j] == "refresh_token"
    {
      if grants[i] == "authorization_code" {
        hasAuthCode := true;
      } else if grants[i] != "refresh_token" {
        assert grants[i] in grants;
        return false;
      }
    }
    assert grants[..|grants|] == grants;
    return hasAuthCode;
  }

  method CheckResponseTypes(types: seq<string>) returns (ok: bool)
    ensures ok <==> forall t :: t in types ==> t == "code"
  {
    if |types| == 0 {
      return true;
    }
    var hasCode := false;
    for i := 0 to |types|
      invariant hasCode <==> i > 0
      invariant forall j :: 0 <= j < i ==> types[j] == "code"
    {
      if types[i] == "code" {
        hasCode := true;
      } else {
        assert types[i] in types;
        return false;
      }
    }
    return hasCode;
  }

  /** A client whose id and redirect URIs came out of a JSON decoder. */
  predicate DecodedClient(clientId: string, c: Client) {
    && JsonText.ValidUtf8(clientId)
    && forall ru :: ru in c.redirectUris ==> JsonText.ValidUtf8(ru)
  }
}
