/** The shapes the handlers exchange: the step-function payload that flows
    through the download and share chains, API Gateway requests and
    responses, the authorizer's policy, and the external services every
    handler reaches through a `Services` value. */
module Events {
  import opened Wrappers
  import opened Text
  import opened AccessTable
  import opened Auth

  /** Response headers as they leave a step: a header whose value was
      `undefined` is dropped when the payload is serialized. */
  type Headers = map<string, string>

  function WithHeader(h: Headers, name: string, value: JsStr): (r: Headers)
    ensures value.Some? ==> name in r && r[name] == value.value
    ensures value.None? ==> r == h
    ensures forall n :: n != name ==> (n in r <==> n in h) && (n in h ==> r[n] == h[n])
  {
    if value.Some? then h[name := value.value] else h
  }

  const SetCookie := "Set-Cookie"
  const Location := "Location"
  const TraceId := "X-Amzn-Trace-Id"

  datatype RequestContext = RequestContext(requestId: JsStr, traceId: JsStr, domainName: JsStr)

  datatype ResponseContext = ResponseContext(statusCode: int, body: JsStr, headers: Option<Headers>)

  /** The payload of both step-function chains. The download chain leaves
      the share fields unset. */
  datatype StepEvent = StepEvent(
    id: JsStr, userId: JsStr, filepath: JsStr, timestamp: JsStr, presignedUrl: JsStr,
    shareUserId: JsStr, maxNumberOfDownloads: Quota, notifyByEmail: JsStr,
    requestContext: RequestContext, responseContext: ResponseContext)

  /** What a Lambda integration returns to API Gateway. */
  datatype ApiResponse = ApiResponse(
    statusCode: int, body: string, headers: Option<Headers>, multiValueHeaders: map<string, seq<string>>)

  /** The parts of an API Gateway proxy request the handlers read. The
      authorizer context is the key/value map the custom authorizer returned. */
  datatype ApiRequest = ApiRequest(
    cookie: JsStr, code: JsStr, filepath: JsStr, authorizerContext: map<string, string>,
    body: JsStr, domainName: JsStr)

  /** A JavaScript exception, a put the store refused, or a call to an
      external service that rejected; each makes the Lambda invocation fail. */
  datatype Fault = TypeError | SyntaxError | StoreRejected | ServiceRejected

  /** A handler's answer together with the puts it issued, in order. */
  datatype Reply<T> = Reply(result: Result<T, Fault>, writes: seq<Write>)

  /** Runs the puts of a reply against the table: a refused put turns the reply into a failure. */
  function Commit<T>(t: Table, r: Reply<T>): (c: Result<(T, Table), Fault>)
    ensures c.Success? <==> r.result.Success? && ApplyAll(t, r.writes).Success?
    ensures c.Success? ==> c.value == (r.result.value, ApplyAll(t, r.writes).value)
  {
    match ApplyAll(t, r.writes)
    case Failure(_) => Failure(StoreRejected)
    case Success(t') => if r.result.Success? then Success((r.result.value, t')) else Failure(r.result.error)
  }

  datatype HttpMethod = GET | PUT

  datatype CognitoUser = CognitoUser(username: string)

  /** The token endpoint's answer: its `access_token` and its JSON text. */
  datatype TokenResponse = TokenResponse(accessToken: JsStr, json: string)

  /** What `JSON.parse` of a share request body yields, as far as the
      handler uses it: not JSON at all, `null`, or a value whose
      `userId`, `maxNumberOfDownloads` and `sendEmail` are read. */
  datatype ShareBody = NotJson | NullJson | ShareFields(userId: JsStr, maxNumberOfDownloads: Quota, sendEmail: JsStr)

  /** The environment and the external services, all uninterpreted. */
  datatype Services = Services(
    config: Config,
    bucketName: string,
    /** `generateChallenge` of `pkce-challenge`. */
    challenge: string -> string,
    /** The component encoder of `URLSearchParams`. */
    formEncode: string -> string,
    /** `getUserDetailsViaAccessToken`. */
    userByToken: string -> Option<CognitoUser>,
    /** `exchangeToken(code, verifier, redirectUri)`: the token endpoint's
        JSON, or the rejection of `fetch` (ServiceRejected) or of
        `response.json()` on a body that is not JSON (SyntaxError). */
    exchangeToken: (string, string, string) -> Result<TokenResponse, Fault>,
    /** `createPresignedUrl({bucket, key, userId, method})`. */
    presign: (string, string, JsStr, HttpMethod) -> string,
    /** `s3.getSignedUrl('getObject', {Bucket, Key, Expires})`. */
    signedGetUrl: (string, string, nat) -> string,
    /** The `Metadata` of `HeadObject`: absent, or a map of metadata keys;
        or the rejection of the call (a missing object, say). */
    objectMetadata: (string, string) -> Result<Option<map<string, string>>, Fault>,
    /** `getLogoutUri`, `getRedirectUriByHost`, `getCookieFromString`. */
    logoutUri: ApiRequest -> string,
    redirectUriByHost: JsStr -> string,
    cookieFromString: (JsStr, string) -> JsStr,
    parseShareBody: string -> ShareBody)

  /** `JSON.stringify({ message: 'File path parameter is missing' })`. */
  const MissingFilepathJson := "{\"message\":\"File path parameter is missing\"}"
}
