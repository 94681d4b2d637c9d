/** urls.go and the base-URL helpers of broker.go: where the broker says it lives. */
module Urls {
  import opened GoStrings
  import opened Configuration

  const AS_METADATA: string := "/.well-known/oauth-authorization-server"
  const OIDC_METADATA: string := "/.well-known/openid-configuration"
  const PR_METADATA: string := "/.well-known/oauth-protected-resource"
  const DEFAULT_CALLBACK: string := "/oauth/callback"
  const DEFAULT_TOKEN: string := "/oauth/token"

  /** The parts of an inbound request that URL composition reads. */
  datatype HttpRequest = HttpRequest(path: string, tls: bool, forwardedProto: string, host: string)

  function NormalizeUrl(raw: string): string {
    TrimSlashes(TrimSpace(raw))
  }

  function NormalizedPath(raw: string, fallback: string): string {
    var trimmed := TrimSpace(raw);
    var chosen := if trimmed == "" then fallback else trimmed;
    if chosen == "" then ""
    else
      var rooted := if HasPrefix(chosen, "/") then chosen else "/" + chosen;
      if rooted == "/" then rooted else TrimSlashes(rooted)
  }

  function JoinUrlPath(base: string, path: string): string {
    var p := NormalizedPath(path, "");
    if p == "" || p == "/" then NormalizeUrl(base) else NormalizeUrl(base) + p
  }

  /** suffixPrefix, for the markers in order. */
  function SuffixPrefix(path: string, markers: seq<string>): string {
    if markers == [] then ""
    else
      var suffix := TrimSpace(TrimPrefix(path, markers[0]));
      if !HasPrefix(path, markers[0]) || suffix == "" then SuffixPrefix(path, markers[1..])
      else TrimSlashes(if HasPrefix(suffix, "/") then suffix else "/" + suffix)
  }

  function PathFromConfiguredUrl(u: ConfiguredUrl): string {
    if u.raw == "" then "" else TrimSlashes(u.path)
  }

  function Scheme(r: HttpRequest): string {
    if r.forwardedProto != "" then ToLower(r.forwardedProto) else if r.tls then "https" else "http"
  }

  /** The Host header, or localhost when it is empty or holds a character that could break out of the URL. */
  function Host(r: HttpRequest): string {
    var unsafe := exists i :: 0 <= i < |r.host| && r.host[i] in "/<>\"'\\";
    if r.host == "" || unsafe then "localhost" else r.host
  }

  function SchemeAndHost(r: HttpRequest): string {
    Scheme(r) + "://" + Host(r)
  }

  function AuthServerPrefix(cfg: Config, r: HttpRequest): string {
    var fromPath := SuffixPrefix(r.path, [AS_METADATA, OIDC_METADATA]);
    if fromPath != "" then fromPath else ConfiguredPrefix(cfg)
  }

  function ConfiguredPrefix(cfg: Config): string {
    var configured := PathFromConfiguredUrl(cfg.publicAuthServerUrl);
    if configured != "" then configured else PathFromConfiguredUrl(cfg.issuer)
  }

  function AuthServerBaseUrl(cfg: Config, r: HttpRequest): string {
    var u := NormalizeUrl(cfg.publicAuthServerUrl.raw);
    if u != "" then u else SchemeAndHost(r) + AuthServerPrefix(cfg, r)
  }

  function ResourcePrefix(cfg: Config, r: HttpRequest): string {
    var fromPath := SuffixPrefix(r.path, [PR_METADATA, AS_METADATA, OIDC_METADATA]);
    if fromPath != "" then fromPath
    else
      var configured := PathFromConfiguredUrl(cfg.publicResourceUrl);
      if configured != "" then configured else PathFromConfiguredUrl(cfg.audience)
  }

  function ResourceBaseUrl(cfg: Config, r: HttpRequest): string {
    var u := NormalizeUrl(cfg.publicResourceUrl.raw);
    if u != "" then u else SchemeAndHost(r) + ResourcePrefix(cfg, r)
  }

  /** The redirect_uri the broker sends upstream, at /authorize and again at /token. */
  function CallbackUrl(cfg: Config, r: HttpRequest): string {
    JoinUrlPath(AuthServerBaseUrl(cfg, r), NormalizedPath(cfg.callbackPath, DEFAULT_CALLBACK))
  }

  /** The token endpoint, which a client assertion must name as its audience. */
  function TokenUrl(cfg: Config, r: HttpRequest): string {
    JoinUrlPath(AuthServerBaseUrl(cfg, r), NormalizedPath(cfg.tokenPath, DEFAULT_TOKEN))
  }

  /** The request path continues one of the authorization-server markers with something non-blank. */
  predicate ExtendsMarker(path: string) {
    || (HasPrefix(path, AS_METADATA) && TrimSpace(TrimPrefix(path, AS_METADATA)) != "")
    || (HasPrefix(path, OIDC_METADATA) && TrimSpace(TrimPrefix(path, OIDC_METADATA)) != "")
  }

  /** A path that continues no marker contributes no prefix. */
  lemma NoMarkerNoPrefix(path: string)
    requires !ExtendsMarker(path)
    ensures SuffixPrefix(path, [AS_METADATA, OIDC_METADATA]) == ""
  {
    assert SuffixPrefix(path, []) == "";
    assert [OIDC_METADATA][1..] == [];
    assert SuffixPrefix(path, [OIDC_METADATA]) == "";
    assert [AS_METADATA, OIDC_METADATA][1..] == [OIDC_METADATA];
  }

  /** Joining the callback path to two base URLs keeps them apart exactly as normalising does. */
  lemma JoinIsInjective(cfg: Config, r1: HttpRequest, r2: HttpRequest)
    ensures CallbackUrl(cfg, r1) == CallbackUrl(cfg, r2)
            <==> NormalizeUrl(AuthServerBaseUrl(cfg, r1)) == NormalizeUrl(AuthServerBaseUrl(cfg, r2))
  {
    var p := NormalizedPath(NormalizedPath(cfg.callbackPath, DEFAULT_CALLBACK), "");
    var b1, b2 := NormalizeUrl(AuthServerBaseUrl(cfg, r1)), NormalizeUrl(AuthServerBaseUrl(cfg, r2));
    if b1 + p == b2 + p {
      assert |b1| == |b2|;
      assert b1 == (b1 + p)[..|b1|] == (b2 + p)[..|b2|] == b2;
    }
  }

  /**
   Two replicas compute the same redirect_uri for every pair of requests when they have the same
   callback path and the same PublicAuthServerURL, and without one when scheme, host and prefix
   agree and neither path continues a marker (section 4.1.3 of RFC 6749).
   */
  lemma CallbackUrlStable(c1: Config, r1: HttpRequest, c2: Config, r2: HttpRequest)
    requires SameCallbackPath(c1, c2) && (SamePublicUrl(c1, c2) || SameDerivedUrl(c1, r1, c2, r2))
    ensures CallbackUrl(c1, r1) == CallbackUrl(c2, r2)
  {
    if !SamePublicUrl(c1, c2) {
      NoMarkerNoPrefix(r1.path);
      NoMarkerNoPrefix(r2.path);
    }
  }

  predicate SameCallbackPath(c1: Config, c2: Config) {
    NormalizedPath(c1.callbackPath, DEFAULT_CALLBACK) == NormalizedPath(c2.callbackPath, DEFAULT_CALLBACK)
  }

  predicate SamePublicUrl(c1: Config, c2: Config) {
    NormalizeUrl(c1.publicAuthServerUrl.raw) == NormalizeUrl(c2.publicAuthServerUrl.raw) != ""
  }

  /** Neither replica has a public URL; scheme, host and configured prefix agree and no path continues a marker. */
  predicate SameDerivedUrl(c1: Config, r1: HttpRequest, c2: Config, r2: HttpRequest) {
    && NormalizeUrl(c1.publicAuthServerUrl.raw) == NormalizeUrl(c2.publicAuthServerUrl.raw) == ""
    && ConfiguredPrefix(c1) == ConfiguredPrefix(c2)
    && SchemeAndHost(r1) == SchemeAndHost(r2) && !ExtendsMarker(r1.path) && !ExtendsMarker(r2.path)
  }

  // ---------------------------------------------------------------- when they agree

  /** A request to an endpoint of the broker, from a proxy that sends no white space. */
  predicate Ordinary(r: HttpRequest) {
    !ExtendsMarker(r.path) && NoSpace(r.forwardedProto) && NoSpace(r.host)
  }

  lemma {:induction false} TrimRightSpaceKeeps(s: string, t: string)
    requires s != "" && !IsSpace(s[|s| - 1])
    ensures TrimRightSpace(s + t) == s + TrimRightSpace(t)
    decreases |t|
  {
    if t == "" {
      assert s + t == s;
    } else if IsSpace(t[|t| - 1]) {
      assert (s + t)[..|s + t| - 1] == s + t[..|t| - 1];
      TrimRightSpaceKeeps(s, t[..|t| - 1]);
    }
  }

  lemma {:induction false} TrimSlashesKeeps(s: string, t: string)
    requires s != "" && s[|s| - 1] != '/'
    ensures TrimSlashes(s + t) == s + TrimSlashes(t)
    decreases |t|
  {
    if t == "" {
      assert s + t == s;
    } else if t[|t| - 1] == '/' {
      assert (s + t)[..|s + t| - 1] == s + t[..|t| - 1];
      TrimSlashesKeeps(s, t[..|t| - 1]);
    }
  }

  lemma HostShape(r: HttpRequest)
    requires NoSpace(r.host)
    ensures Host(r) != "" && '/' !in Host(r) && NoSpace(Host(r))
  {
  }

  lemma SchemeStart(r: HttpRequest)
    requires NoSpace(r.forwardedProto)
    ensures Scheme(r) != "" && !IsSpace(Scheme(r)[0])
  {
    if r.forwardedProto != "" {
      assert r.forwardedProto[0] in r.forwardedProto;
    }
  }

  /** Normalising a base URL leaves scheme and host alone. */
  lemma NormalizeKeepsHost(r: HttpRequest, prefix: string)
    requires NoSpace(r.forwardedProto) && NoSpace(r.host)
    ensures NormalizeUrl(SchemeAndHost(r) + prefix) == SchemeAndHost(r) + TrimSlashes(TrimRightSpace(prefix))
  {
    HostShape(r);
    SchemeStart(r);
    var sh := SchemeAndHost(r);
    assert sh[0] == Scheme(r)[0];
    assert sh[|sh| - 1] == Host(r)[|Host(r)| - 1];
    assert Host(r)[|Host(r)| - 1] in Host(r);
    assert TrimLeftSpace(sh + prefix) == sh + prefix;
    TrimRightSpaceKeeps(sh, prefix);
    TrimSlashesKeeps(sh, TrimRightSpace(prefix));
  }

  /** The host has no slash, so the last slash tells scheme and host apart. */
  lemma SchemeAndHostInjective(r1: HttpRequest, r2: HttpRequest)
    requires NoSpace(r1.host) && NoSpace(r2.host)
    ensures SchemeAndHost(r1) == SchemeAndHost(r2) <==> Scheme(r1) == Scheme(r2) && Host(r1) == Host(r2)
  {
    HostShape(r1);
    HostShape(r2);
    if SchemeAndHost(r1) == SchemeAndHost(r2) {
      var s, n1, n2 := SchemeAndHost(r1), |Scheme(r1)|, |Scheme(r2)|;
      assert s[n1 + 2] == '/' && s[n2 + 2] == '/';
      assert n1 == n2;
      assert Scheme(r1) == s[..n1] && Host(r1) == s[n1 + 3..];
      assert Scheme(r2) == s[..n2] && Host(r2) == s[n2 + 3..];
    }
  }

  /**
   Exactly: two ordinary requests send the same redirect_uri upstream if PublicAuthServerURL is
   set, or else if they carry the same scheme and the same host.
   */
  lemma SameCallbackIff(cfg: Config, r1: HttpRequest, r2: HttpRequest)
    requires Ordinary(r1) && Ordinary(r2)
    ensures CallbackUrl(cfg, r1) == CallbackUrl(cfg, r2)
            <==> NormalizeUrl(cfg.publicAuthServerUrl.raw) != "" || (Scheme(r1) == Scheme(r2) && Host(r1) == Host(r2))
  {
    JoinIsInjective(cfg, r1, r2);
    if NormalizeUrl(cfg.publicAuthServerUrl.raw) == "" {
      NoMarkerNoPrefix(r1.path);
      NoMarkerNoPrefix(r2.path);
      var p := AuthServerPrefix(cfg, r1);
      NormalizeKeepsHost(r1, p);
      NormalizeKeepsHost(r2, p);
      var tail := TrimSlashes(TrimRightSpace(p));
      var s1, s2 := SchemeAndHost(r1), SchemeAndHost(r2);
      if s1 + tail == s2 + tail {
        assert |s1| == |s2|;
        assert s1 == (s1 + tail)[..|s1|] == (s2 + tail)[..|s2|] == s2;
      }
      SchemeAndHostInjective(r1, r2);
    }
  }

  /** So without PublicAuthServerURL a client that reaches the broker under two host names breaks the exchange. */
  lemma CallbackUrlCanDiffer(cfg: Config)
    requires NormalizeUrl(cfg.publicAuthServerUrl.raw) == ""
    ensures CallbackUrl(cfg, HttpRequest("/oauth/authorize", true, "", "a.example"))
            != CallbackUrl(cfg, HttpRequest("/oauth/token", true, "", "b.example"))
  {
    var r1 := HttpRequest("/oauth/authorize", true, "", "a.example");
    var r2 := HttpRequest("/oauth/token", true, "", "b.example");
    OrdinaryEndpoint(r1);
    OrdinaryEndpoint(r2);
    assert r1.host[0] != r2.host[0];
    SameCallbackIff(cfg, r1, r2);
  }

  lemma OrdinaryEndpoint(r: HttpRequest)
    requires |r.path| > 1 && r.path[1] == 'o' && r.forwardedProto == "" && r.host != ""
    requires forall c :: c in r.host ==> c == '.' || 'a' <= c <= 'z'
    ensures Ordinary(r) && Host(r) == r.host
  {
    forall i | 0 <= i < |r.host|
      ensures r.host[i] !in "/<>\"'\\" && !IsSpace(r.host[i])
    {
      assert r.host[i] in r.host;
    }
    assert AS_METADATA[1] == '.' && OIDC_METADATA[1] == '.';
  }

  // ---------------------------------------------------------------- the values of the URLs

  /** A configured path as it appears in a URL: rooted, without trailing slashes, the fallback when blank. */
  function EndpointPath(configured: string, fallback: string): string {
    var p := if TrimSpace(configured) == "" then fallback else TrimSpace(configured);
    TrimSlashes(if p != "" && p[0] == '/' then p else "/" + p)
  }

  lemma TrimSlashesTwice(s: string)
    ensures TrimSlashes(TrimSlashes(s)) == TrimSlashes(s)
  {
    var b := TrimSlashesSpec(s);
  }

  lemma NoSpaceTrims(s: string)
    requires NoSpace(s)
    ensures TrimSpace(s) == s && NoSpace(TrimSlashes(s)) && TrimRightSpace(s) == s
  {
    TrimSpaceKeeps(s);
    var b := TrimSlashesSpec(s);
    assert forall i :: 0 <= i < |TrimSlashes(s)| ==> TrimSlashes(s)[i] == s[i];
  }

  /** Normalising a rooted path again changes nothing; one of slashes only vanishes. */
  lemma RootedStays(rooted: string)
    requires rooted != "" && rooted[0] == '/' && NoSpace(rooted)
    ensures var p := if rooted == "/" then "/" else TrimSlashes(rooted);
            var q := NormalizedPath(p, "");
            if TrimSlashes(rooted) == "" then q == "" || q == "/" else q == TrimSlashes(rooted) && q != "/"
  {
    NoSpaceTrims(rooted);
    NoSpaceTrims(TrimSlashes(rooted));
    TrimSlashesTwice(rooted);
    var b := TrimSlashesSpec(rooted);
  }

  lemma ConfiguredPath(configured: string, fallback: string) returns (rooted: string)
    requires fallback != "" && NoSpace(fallback) && NoSpace(TrimSpace(configured))
    ensures rooted != "" && rooted[0] == '/' && NoSpace(rooted)
    ensures NormalizedPath(configured, fallback) == if rooted == "/" then "/" else TrimSlashes(rooted)
    ensures EndpointPath(configured, fallback) == TrimSlashes(rooted)
  {
    var p := if TrimSpace(configured) == "" then fallback else TrimSpace(configured);
    rooted := if p[0] == '/' then p else "/" + p;
  }

  /** The joined URL is the normalised base followed by the path. */
  lemma JoinedValue(base: string, configured: string, fallback: string)
    requires fallback != "" && NoSpace(fallback) && NoSpace(TrimSpace(configured))
    ensures JoinUrlPath(base, NormalizedPath(configured, fallback)) == NormalizeUrl(base) + EndpointPath(configured, fallback)
  {
    var rooted := ConfiguredPath(configured, fallback);
    RootedStays(rooted);
    assert NormalizeUrl(base) + "" == NormalizeUrl(base);
  }

  /** PublicAuthServerURL is set, as a URL without white space inside. */
  predicate PublicUrlSet(u: ConfiguredUrl) {
    NoSpace(TrimSpace(u.raw)) && TrimSlashes(TrimSpace(u.raw)) != ""
  }

  predicate SafeHost(host: string) {
    host != "" && forall i :: 0 <= i < |host| ==> host[i] !in "/<>\"'\\"
  }

  /** What scheme and host are read from. */
  lemma SchemeAndHostValue(r: HttpRequest)
    ensures SafeHost(r.host) && r.forwardedProto != "" ==> SchemeAndHost(r) == ToLower(r.forwardedProto) + "://" + r.host
    ensures SafeHost(r.host) && r.forwardedProto == "" && r.tls ==> SchemeAndHost(r) == "https://" + r.host
    ensures SafeHost(r.host) && r.forwardedProto == "" && !r.tls ==> SchemeAndHost(r) == "http://" + r.host
    ensures !SafeHost(r.host) && r.forwardedProto == "" && r.tls ==> SchemeAndHost(r) == "https://localhost"
  {
  }

  /** The callback and token URLs under a public URL: that URL, then the configured or default path. */
  lemma PublicEndpoints(cfg: Config, r: HttpRequest)
    requires PublicUrlSet(cfg.publicAuthServerUrl)
    ensures var u := TrimSlashes(TrimSpace(cfg.publicAuthServerUrl.raw));
            && (NoSpace(TrimSpace(cfg.callbackPath)) ==> CallbackUrl(cfg, r) == u + EndpointPath(cfg.callbackPath, "/oauth/callback"))
            && (NoSpace(TrimSpace(cfg.tokenPath)) ==> TokenUrl(cfg, r) == u + EndpointPath(cfg.tokenPath, "/oauth/token"))
  {
    var trimmed := TrimSpace(cfg.publicAuthServerUrl.raw);
    NoSpaceTrims(trimmed);
    NoSpaceTrims(TrimSlashes(trimmed));
    TrimSlashesTwice(trimmed);
    JoinEndpoints(cfg, r);
  }

  lemma JoinEndpoints(cfg: Config, r: HttpRequest)
    ensures NoSpace(TrimSpace(cfg.callbackPath)) ==>
              CallbackUrl(cfg, r) == NormalizeUrl(AuthServerBaseUrl(cfg, r)) + EndpointPath(cfg.callbackPath, "/oauth/callback")
    ensures NoSpace(TrimSpace(cfg.tokenPath)) ==>
              TokenUrl(cfg, r) == NormalizeUrl(AuthServerBaseUrl(cfg, r)) + EndpointPath(cfg.tokenPath, "/oauth/token")
  {
    if NoSpace(TrimSpace(cfg.callbackPath)) {
      JoinedValue(AuthServerBaseUrl(cfg, r), cfg.callbackPath, DEFAULT_CALLBACK);
    }
    if NoSpace(TrimSpace(cfg.tokenPath)) {
      JoinedValue(AuthServerBaseUrl(cfg, r), cfg.tokenPath, DEFAULT_TOKEN);
    }
  }

  /** Without one: scheme and host of the request, the issuer's path, then the configured or default path. */
  lemma DerivedEndpoints(cfg: Config, r: HttpRequest)
    requires cfg.publicAuthServerUrl.raw == "" && Ordinary(r) && cfg.issuer.raw != "" && NoSpace(cfg.issuer.path)
    ensures var u := SchemeAndHost(r) + TrimSlashes(cfg.issuer.path);
            && (NoSpace(TrimSpace(cfg.callbackPath)) ==> CallbackUrl(cfg, r) == u + EndpointPath(cfg.callbackPath, "/oauth/callback"))
            && (NoSpace(TrimSpace(cfg.tokenPath)) ==> TokenUrl(cfg, r) == u + EndpointPath(cfg.tokenPath, "/oauth/token"))
  {
    NoMarkerNoPrefix(r.path);
    var prefix := TrimSlashes(cfg.issuer.path);
    assert AuthServerPrefix(cfg, r) == prefix;
    assert NormalizeUrl("") == "";
    NormalizeKeepsHost(r, prefix);
    NoSpaceTrims(cfg.issuer.path);
    NoSpaceTrims(prefix);
    TrimSlashesTwice(cfg.issuer.path);
    JoinEndpoints(cfg, r);
  }

  /** A request path that continues the marker with a tenant path moves the authorization server under it. */
  lemma MarkerPrefix(cfg: Config, r: HttpRequest, tenant: string)
    requires r.path == AS_METADATA + tenant || r.path == OIDC_METADATA + tenant
    requires tenant != "" && tenant[0] == '/' && NoSpace(tenant) && TrimSlashes(tenant) != ""
    ensures AuthServerPrefix(cfg, r) == TrimSlashes(tenant)
  {
    NoSpaceTrims(tenant);
    var markers := [AS_METADATA, OIDC_METADATA];
    assert markers[1..] == [OIDC_METADATA];
    if r.path == AS_METADATA + tenant {
      assert r.path[|AS_METADATA|..] == tenant;
      assert SuffixPrefix(r.path, markers) == TrimSlashes(tenant);
    } else {
      assert r.path[|OIDC_METADATA|..] == tenant;
      assert r.path[14] == 'p' && AS_METADATA[14] == 'a';
      assert SuffixPrefix(r.path, [OIDC_METADATA]) == TrimSlashes(tenant);
      assert SuffixPrefix(r.path, markers) == TrimSlashes(tenant);
    }
  }

  /** The request path continues the protected-resource marker or an authorization-server one. */
  predicate ExtendsResourceMarker(path: string) {
    (HasPrefix(path, PR_METADATA) && TrimSpace(TrimPrefix(path, PR_METADATA)) != "") || ExtendsMarker(path)
  }

  /** The resource that `/authorize` compares with: the public URL, else scheme, host and the audience's path. */
  lemma ResourceBaseValue(cfg: Config, r: HttpRequest)
    ensures PublicUrlSet(cfg.publicResourceUrl) ==> ResourceBaseUrl(cfg, r) == TrimSlashes(TrimSpace(cfg.publicResourceUrl.raw))
    ensures cfg.publicResourceUrl.raw == "" && cfg.audience.raw != "" && !ExtendsResourceMarker(r.path)
            ==> ResourceBaseUrl(cfg, r) == SchemeAndHost(r) + TrimSlashes(cfg.audience.path)
    ensures cfg.publicResourceUrl.raw == "" && cfg.audience.raw == "" && !ExtendsResourceMarker(r.path)
            ==> ResourceBaseUrl(cfg, r) == SchemeAndHost(r)
  {
    assert NormalizeUrl("") == "";
    if !ExtendsResourceMarker(r.path) {
      NoMarkerNoPrefix(r.path);
      assert [PR_METADATA, AS_METADATA, OIDC_METADATA][1..] == [AS_METADATA, OIDC_METADATA];
    }
  }
}
