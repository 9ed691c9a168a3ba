/** The handlers of the session: the custom authorizer in front of the API,
    the login redirect, the authorization-code callback, and logout. */
module SessionHandlers {
  import opened Wrappers
  import opened Text
  import opened QueryString
  import opened Json
  import opened Auth
  import opened AccessTable
  import opened Events
  import opened FileHandlers

  /** One statement of an IAM policy. */
  datatype Statement = Statement(action: string, effect: string, resource: string)

  /** The authorizer's answer: principal, policy document and context. */
  datatype AuthorizerResult = AuthorizerResult(
    principalId: string, version: string, statements: seq<Statement>, context: map<string, string>)

  const PolicyVersion := "2012-10-17"
  const InvokeAction := "execute-api:Invoke"

  /** The context entry the authorizer puts the user name under. */
  const AuthorizerUserKey := "username"
  /** The entry under which API Gateway hands the integration the principal. */
  const PrincipalKey := "principalId"

  /** The policy lets the caller invoke the API. */
  predicate Allows(r: AuthorizerResult) {
    |r.statements| == 1 && r.statements[0].effect == "Allow" && r.statements[0].action == InvokeAction
  }

  /** The user behind the `access_token` cookie of the `Cookie` header; the
      identity provider is asked only when the cookie is there and non-empty. */
  function TokenUser(svc: Services, cookieHeader: JsStr): Option<CognitoUser> {
    var token := GetCookie(cookieHeader, "access_token");
    if Truthy(token) then svc.userByToken(token.value) else None
  }

  /** The custom authorizer: it allows exactly the callers whose access token
      the identity provider resolves to a user, names that user as principal
      and in the context, and otherwise denies with an empty principal. Both
      policies have one statement, on the requested method. */
  function Authorize(svc: Services, cookieHeader: JsStr, methodArn: string): (r: AuthorizerResult)
    ensures r.version == PolicyVersion
    ensures |r.statements| == 1 && r.statements[0].resource == methodArn
    ensures Allows(r) <==> TokenUser(svc, cookieHeader).Some?
    ensures Allows(r) ==> var name := TokenUser(svc, cookieHeader).value.username;
                          r.principalId == name && r.context == map[AuthorizerUserKey := name]
    ensures !Allows(r) ==> r.principalId == "" && r.context == map[] && r.statements[0] == Statement("deny", "deny", methodArn)
  {
    match TokenUser(svc, cookieHeader)
    case Some(user) =>
      AuthorizerResult(user.username, PolicyVersion, [Statement(InvokeAction, "Allow", methodArn)],
                       map[AuthorizerUserKey := user.username])
    case None =>
      AuthorizerResult("", PolicyVersion, [Statement("deny", "deny", methodArn)], map[])
  }

  /** Without an `access_token` cookie the identity provider is not asked. */
  lemma AuthorizeWithoutToken(svc: Services, userByToken: string -> Option<CognitoUser>,
                              cookieHeader: JsStr, methodArn: string)
    requires !Truthy(GetCookie(cookieHeader, "access_token"))
    ensures Authorize(svc.(userByToken := userByToken), cookieHeader, methodArn) == Authorize(svc, cookieHeader, methodArn)
    ensures !Allows(Authorize(svc, cookieHeader, methodArn))
  {
  }

  /** For a header a browser built, the authorizer decides on the first
      cookie named exactly `access_token`. */
  lemma AuthorizeReadsFirstToken(svc: Services, pairs: seq<Param>, methodArn: string)
    requires |pairs| > 0
    requires forall i :: 0 <= i < |pairs| ==> PlainCookie(pairs[i])
    ensures var token := Lookup(pairs, "access_token");
            Allows(Authorize(svc, Some(CookieHeader(pairs)), methodArn))
            <==> token.Some? && token.value != "" && svc.userByToken(token.value).Some?
  {
    GetCookieFromHeader(pairs, "access_token");
  }

  /** What the integration behind the authorizer sees of it: the context,
      plus the principal. */
  function IntegrationAuthorizer(r: AuthorizerResult): map<string, string> {
    r.context[PrincipalKey := r.principalId]
  }

  /** Of the authorizer's answer, the handlers' entry is never there, and
      the authorizer's own entry holds the user name. */
  lemma IntegrationCaller(req: ApiRequest, r: AuthorizerResult, name: string)
    requires r.context == map[AuthorizerUserKey := name]
    requires req.authorizerContext == IntegrationAuthorizer(r)
    ensures Caller(req, HandlerUserKey) == None
    ensures Caller(req, AuthorizerUserKey) == Some(name)
  {
    assert HandlerUserKey[4] != AuthorizerUserKey[4];
    assert HandlerUserKey[0] != PrincipalKey[0];
    assert AuthorizerUserKey[0] != PrincipalKey[0];
    assert req.authorizerContext.Keys == {AuthorizerUserKey, PrincipalKey};
  }

  /** The share and upload handlers read their caller from an entry the
      authorizer never sets, so an authorized caller is always turned away
      with a 401. */
  lemma HandlersRejectAuthorizedCaller(svc: Services, req: ApiRequest, methodArn: string, timestamp: string)
    requires Allows(Authorize(svc, req.cookie, methodArn))
    requires req.authorizerContext == IntegrationAuthorizer(Authorize(svc, req.cookie, methodArn))
    ensures ShareFile(svc, req, HandlerUserKey, timestamp) == Reply(Success(Respond(401, "Unauthorized", None)), [])
    ensures UploadFile(svc, req, HandlerUserKey) == Respond(401, "Unauthorized", None)
  {
    var r := Authorize(svc, req.cookie, methodArn);
    IntegrationCaller(req, r, TokenUser(svc, req.cookie).value.username);
  }

  /** Reading the entry the authorizer does set, an authorized caller with a
      file path and a share body gets the share recorded under their name,
      and an upload URL tagged with it. */
  lemma HandlersAcceptAuthorizedCaller(svc: Services, req: ApiRequest, methodArn: string, timestamp: string)
    requires Allows(Authorize(svc, req.cookie, methodArn))
    requires req.authorizerContext == IntegrationAuthorizer(Authorize(svc, req.cookie, methodArn))
    requires TokenUser(svc, req.cookie).value.username != "" && Truthy(req.filepath)
    requires svc.parseShareBody(BodyText(req.body)).ShareFields?
    ensures var name := TokenUser(svc, req.cookie).value.username;
            var r := ShareFile(svc, req, AuthorizerUserKey, timestamp);
            && r.result == Success(Respond(200, "OK", None))
            && |r.writes| == 1
            && r.writes[0].item.ShareItem?
            && r.writes[0].item.ownerUserId == Some(name)
            && UploadFile(svc, req, AuthorizerUserKey)
               == Respond(200, svc.presign(svc.bucketName, req.filepath.value, Some(name), PUT), None)
  {
    var name := TokenUser(svc, req.cookie).value.username;
    IntegrationCaller(req, Authorize(svc, req.cookie, methodArn), name);
    NamedCallerAccepted(svc, req, name, timestamp);
  }

  /** A caller named by the authorizer's own entry, with a file path and a
      share body, gets a 200 from both the share and the upload handler. */
  lemma NamedCallerAccepted(svc: Services, req: ApiRequest, name: string, timestamp: string)
    requires Caller(req, AuthorizerUserKey) == Some(name) && name != "" && Truthy(req.filepath)
    requires svc.parseShareBody(BodyText(req.body)).ShareFields?
    ensures var r := ShareFile(svc, req, AuthorizerUserKey, timestamp);
            && r.result == Success(Respond(200, "OK", None))
            && |r.writes| == 1
            && r.writes[0].item.ShareItem?
            && r.writes[0].item.ownerUserId == Some(name)
            && UploadFile(svc, req, AuthorizerUserKey)
               == Respond(200, svc.presign(svc.bucketName, req.filepath.value, Some(name), PUT), None)
  {
  }

  /** The login handler: a 302 to the authorization URL, handing over the
      verifier in a cookie without a `Path` attribute. */
  function Login(svc: Services, req: ApiRequest, verifier: string): (r: ApiResponse)
    ensures r.statusCode == 302 && r.body == "" && r.multiValueHeaders == map[]
    ensures r.headers.Some? && r.headers.value.Keys == {SetCookie, Location}
    ensures AuthorizationEndpoint(svc.config) + "?" <= r.headers.value[Location]
  {
    var auth := GenerateAuthUrl(svc.config, GetRedirectUri(Show(req.domainName)), verifier, svc.challenge, svc.formEncode);
    ApiResponse(302, "", Some(map[SetCookie := LoginVerifierCookie(auth.codeVerifier), Location := auth.authUrl]), map[])
  }

  /** The login redirect stores the verifier in the `code_verifier` cookie,
      with no `Path`, and sends the browser to the authorization endpoint
      with the verifier's challenge and the callback of the caller's domain. */
  lemma LoginHandsOverVerifier(svc: Services, req: ApiRequest, verifier: string)
    requires FormEncoder(svc.formEncode)
    requires ';' !in verifier && Trimmed(verifier)
    ensures var h := Login(svc, req, verifier).headers.value;
            var ps := AuthUrlParams(svc.config, h[Location]);
            && StoredCookie(h[SetCookie]) == ("code_verifier", verifier)
            && CookieAttributes(h[SetCookie]) == LoginVerifierAttributes
            && Lookup(ps, svc.formEncode("code_challenge")) == Some(svc.formEncode(svc.challenge(verifier)))
            && Lookup(ps, svc.formEncode("redirect_uri")) == Some(svc.formEncode(GetRedirectUri(Show(req.domainName))))
  {
    var redirectUri := GetRedirectUri(Show(req.domainName));
    var auth := GenerateAuthUrl(svc.config, redirectUri, verifier, svc.challenge, svc.formEncode);
    var h := Login(svc, req, verifier).headers.value;
    assert h[SetCookie] == LoginVerifierCookie(verifier);
    assert h[Location] == auth.authUrl;
    VerifierCookieStores(verifier);
    AuthUrlCarriesChallenge(svc.config, redirectUri, verifier, svc.challenge, svc.formEncode);
  }

  /** The arguments the callback passes to the token exchange: the `code`,
      the verifier from the `code_verifier` cookie and the callback address;
      None when either of the first two is missing, and no exchange happens. */
  function CallbackExchange(req: ApiRequest): (args: Option<(string, string, string)>)
    ensures args.Some? <==> Truthy(req.code) && Truthy(GetCookie(req.cookie, "code_verifier"))
    ensures args.Some? ==> args.value == (req.code.value, GetCookie(req.cookie, "code_verifier").value,
                                          GetRedirectUri(Show(req.domainName)))
  {
    var verifier := GetCookie(req.cookie, "code_verifier");
    if !Truthy(req.code) || !Truthy(verifier) then None
    else Some((req.code.value, verifier.value, GetRedirectUri(Show(req.domainName))))
  }

  /** A JSON member `,"name":"value"`, left out when the value is undefined. */
  function JsonMember(name: string, value: JsStr): string {
    if value.Some? then ",\"" + name + "\":" + Quote(value.value) else ""
  }

  /** The 404 body of the callback: the error and whichever of `code` and
      `codeVerifier` were there. */
  function MissingParamsJson(code: JsStr, codeVerifier: JsStr): string {
    "{\"error\":\"Missing params\"" + JsonMember("code", code) + JsonMember("codeVerifier", codeVerifier) + "}"
  }

  /** The callback: without a code or a verifier a 404; otherwise the
      exchange's JSON with two cookies, the access token and the cleared
      verifier, unless the exchange rejects, which fails the invocation. */
  function AuthCallback(svc: Services, req: ApiRequest): (r: Result<ApiResponse, Fault>)
    ensures r.Success? && r.value.statusCode == 200 <==>
              CallbackExchange(req).Some? && Exchange(svc, CallbackExchange(req).value).Success?
    ensures CallbackExchange(req).None? ==>
              && r.Success?
              && r.value.statusCode == 404
              && r.value.body == MissingParamsJson(req.code, GetCookie(req.cookie, "code_verifier"))
              && r.value.headers.None? && r.value.multiValueHeaders == map[]
    ensures CallbackExchange(req).Some? && Exchange(svc, CallbackExchange(req).value).Failure? ==>
              r == Failure(Exchange(svc, CallbackExchange(req).value).error)
    ensures CallbackExchange(req).Some? && Exchange(svc, CallbackExchange(req).value).Success? ==>
              var result := Exchange(svc, CallbackExchange(req).value).value;
              && r.Success?
              && r.value.body == result.json
              && r.value.headers.None?
              && r.value.multiValueHeaders == map[SetCookie := [AccessTokenCookie(Show(result.accessToken)), ExpiredVerifierCookie]]
  {
    match CallbackExchange(req)
    case None => Success(ApiResponse(404, MissingParamsJson(req.code, GetCookie(req.cookie, "code_verifier")), None, map[]))
    case Some(args) =>
      match Exchange(svc, args)
      case Failure(f) => Failure(f)
      case Success(result) =>
        Success(ApiResponse(200, result.json, None,
                            map[SetCookie := [AccessTokenCookie(Show(result.accessToken)), ExpiredVerifierCookie]]))
  }

  /** The token exchange for the code, verifier and callback address. */
  function Exchange(svc: Services, args: (string, string, string)): Result<TokenResponse, Fault> {
    svc.exchangeToken(args.0, args.1, args.2)
  }

  /** Without a code or a verifier the token endpoint is not called. */
  lemma CallbackWithoutParams(svc: Services, exchangeToken: (string, string, string) -> Result<TokenResponse, Fault>,
                              req: ApiRequest)
    requires !Truthy(req.code) || !Truthy(GetCookie(req.cookie, "code_verifier"))
    ensures AuthCallback(svc.(exchangeToken := exchangeToken), req) == AuthCallback(svc, req)
  {
  }

  /** The access token a successful exchange of a complete callback returns. */
  function ExchangedToken(svc: Services, req: ApiRequest): JsStr
    requires CallbackExchange(req).Some? && Exchange(svc, CallbackExchange(req).value).Success?
  {
    Exchange(svc, CallbackExchange(req).value).value.accessToken
  }

  /** A successful callback stores the access token under a strict cookie
      and drops the verifier cookie. */
  lemma CallbackSetsSession(svc: Services, req: ApiRequest)
    requires CallbackExchange(req).Some? && Exchange(svc, CallbackExchange(req).value).Success?
    requires ExchangedToken(svc, req).Some? && ';' !in ExchangedToken(svc, req).value && Trimmed(ExchangedToken(svc, req).value)
    ensures AuthCallback(svc, req).Success?
    ensures var cookies := AuthCallback(svc, req).value.multiValueHeaders[SetCookie];
            && |cookies| == 2
            && StoredCookie(cookies[0]) == ("access_token", ExchangedToken(svc, req).value)
            && CookieAttributes(cookies[0]) == StrictAttributes
            && StoredCookie(cookies[1]) == ("code_verifier", "")
            && CookieAttributes(cookies[1]) == LoginVerifierAttributes + [Epoch]
  {
    var token := ExchangedToken(svc, req).value;
    var cookies := AuthCallback(svc, req).value.multiValueHeaders[SetCookie];
    assert cookies == [AccessTokenCookie(token), ExpiredVerifierCookie];
    AccessTokenCookieStores(token);
    ExpiredVerifierCookieStores();
    assert StoredCookie(cookies[0]) == ("access_token", token);
  }

  /** The callback reads back the verifier the login cookie stored, from a
      `Cookie` header whose `code_verifier` is that cookie's value. */
  lemma CallbackReadsLoginCookie(svc: Services, login: ApiRequest, callback: ApiRequest, verifier: string, pairs: seq<Param>)
    requires ';' !in verifier && '=' !in verifier && Trimmed(verifier)
    requires Truthy(callback.code)
    requires |pairs| > 0 && forall i :: 0 <= i < |pairs| ==> PlainCookie(pairs[i])
    requires Lookup(pairs, "code_verifier") == Some(StoredCookie(Login(svc, login, verifier).headers.value[SetCookie]).1)
    requires callback.cookie == Some(CookieHeader(pairs))
    ensures CallbackExchange(callback) == Some((callback.code.value, verifier, GetRedirectUri(Show(callback.domainName))))
  {
    assert Login(svc, login, verifier).headers.value[SetCookie] == LoginVerifierCookie(verifier);
    VerifierCookieStores(verifier);
    GetCookieFromHeader(pairs, "code_verifier");
    assert GetCookie(callback.cookie, "code_verifier") == Some(verifier);
  }

  /** The PKCE round trip: when the browser returns the verifier cookie set
      by login to the callback of the same domain, the callback exchanges the
      code with that very verifier, whose S256 challenge the login URL
      carried, and with the `redirect_uri` the login URL carried. */
  lemma LoginCallbackRoundTrip(svc: Services, login: ApiRequest, callback: ApiRequest, verifier: string, pairs: seq<Param>)
    requires FormEncoder(svc.formEncode)
    requires ';' !in verifier && '=' !in verifier && Trimmed(verifier)
    requires login.domainName == callback.domainName && Truthy(callback.code)
    requires |pairs| > 0 && forall i :: 0 <= i < |pairs| ==> PlainCookie(pairs[i])
    requires Lookup(pairs, "code_verifier") == Some(StoredCookie(Login(svc, login, verifier).headers.value[SetCookie]).1)
    requires callback.cookie == Some(CookieHeader(pairs))
    ensures var ps := AuthUrlParams(svc.config, Login(svc, login, verifier).headers.value[Location]);
            var redirectUri := GetRedirectUri(Show(login.domainName));
            && CallbackExchange(callback) == Some((callback.code.value, verifier, redirectUri))
            && Lookup(ps, svc.formEncode("redirect_uri")) == Some(svc.formEncode(redirectUri))
            && Lookup(ps, svc.formEncode("code_challenge")) == Some(svc.formEncode(svc.challenge(verifier)))
  {
    var redirectUri := GetRedirectUri(Show(login.domainName));
    CallbackReadsLoginCookie(svc, login, callback, verifier, pairs);
    assert Login(svc, login, verifier).headers.value[Location]
           == GenerateAuthUrl(svc.config, redirectUri, verifier, svc.challenge, svc.formEncode).authUrl;
    AuthUrlCarriesChallenge(svc.config, redirectUri, verifier, svc.challenge, svc.formEncode);
  }

  /** The query of the logout URL, built by concatenation without encoding. */
  function LogoutQuery(cfg: Config, logoutUri: string): string {
    "client_id=" + cfg.clientId + "&logout_uri=" + logoutUri
  }

  /** The logout handler: a 302 to the identity provider's logout endpoint
      that clears both session cookies. */
  function Logout(svc: Services, req: ApiRequest): (r: ApiResponse)
    ensures r.statusCode == 302 && r.body == ""
    ensures r.headers == Some(map[Location := svc.config.cognitoLogoutUrl + "?" + LogoutQuery(svc.config, svc.logoutUri(req))])
    ensures r.multiValueHeaders.Keys == {SetCookie}
  {
    var url := svc.config.cognitoLogoutUrl + "?" + LogoutQuery(svc.config, svc.logoutUri(req));
    ApiResponse(302, "", Some(map[Location := url]), map[SetCookie := [ExpiredAccessTokenCookie, ExpiredVerifierCookie]])
  }

  /** Two `name=value` pairs joined by `&` read back as those pairs. */
  lemma ParseTwoPairs(n1: string, v1: string, n2: string, v2: string)
    requires '&' !in n1 && '=' !in n1 && '&' !in v1 && '=' !in v1
    requires '&' !in n2 && '=' !in n2 && '&' !in v2 && '=' !in v2
    ensures Parse(n1 + "=" + v1 + "&" + n2 + "=" + v2) == [(n1, v1), (n2, v2)]
  {
    var first := n1 + "=" + v1;
    var second := n2 + "=" + v2;
    assert [first, second][1..] == [second];
    assert Join([first, second], '&') == n1 + "=" + v1 + "&" + n2 + "=" + v2;
    SplitJoin([first, second], '&');
    ParseEncodedPair(n1, v1);
    ParseEncodedPair(n2, v2);
    var ps := ParsePairs([first, second]);
    assert ps == [(n1, v1), (n2, v2)];
  }

  /** The logout URL names the client and the logout callback verbatim; it
      reads back as those two parameters when neither holds a separator. */
  lemma LogoutQueryParameters(cfg: Config, logoutUri: string)
    requires '&' !in cfg.clientId && '=' !in cfg.clientId
    requires '&' !in logoutUri && '=' !in logoutUri
    ensures Parse(LogoutQuery(cfg, logoutUri)) == [("client_id", cfg.clientId), ("logout_uri", logoutUri)]
  {
    assert LogoutQuery(cfg, logoutUri) == "client_id" + "=" + cfg.clientId + "&" + "logout_uri" + "=" + logoutUri;
    ParseTwoPairs("client_id", cfg.clientId, "logout_uri", logoutUri);
  }

  /** Whatever the request, logout clears both session cookies. */
  lemma LogoutClearsSession(svc: Services, req: ApiRequest)
    ensures var cookies := Logout(svc, req).multiValueHeaders[SetCookie];
            && |cookies| == 2
            && StoredCookie(cookies[0]) == ("access_token", "")
            && StoredCookie(cookies[1]) == ("code_verifier", "")
            && CookieAttributes(cookies[0]) == StrictAttributes + [Epoch]
            && CookieAttributes(cookies[1]) == LoginVerifierAttributes + [Epoch]
  {
    ExpiredAccessTokenCookieStores();
    ExpiredVerifierCookieStores();
  }
}
