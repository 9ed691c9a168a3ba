/** The steps of the download state machine. Each takes the payload and
    returns it with a new `responseContext`, or, for the record step, the
    payload together with the put it issues. */
module DownloadSteps {
  import opened Wrappers
  import opened Text
  import opened QueryString
  import opened Auth
  import opened AccessTable
  import opened Events

  /** The authorization request a step makes for the caller's domain, with a fresh verifier. */
  function LoginRequest(svc: Services, e: StepEvent, verifier: string): AuthRequest {
    GenerateAuthUrl(svc.config, GetRedirectUri(Show(e.requestContext.domainName)), verifier,
                    svc.challenge, svc.formEncode)
  }

  /** The two headers of the login redirect: the verifier cookie and the authorization URL. */
  function RedirectHeaders(auth: AuthRequest): Headers {
    map[SetCookie := VerifierCookie(auth.codeVerifier), Location := auth.authUrl]
  }

  /** `headers` answers the request's trace id, and drops the header when
      the id is undefined. */
  predicate Traced(headers: Option<Headers>, traceId: JsStr) {
    && headers.Some?
    && (traceId.Some? ==> TraceId in headers.value && headers.value[TraceId] == traceId.value)
    && (traceId.None? ==> TraceId !in headers.value)
  }

  /** The step changed nothing but the response context. */
  predicate OnlyResponseChanged(e: StepEvent, r: StepEvent) {
    r == e.(responseContext := r.responseContext)
  }

  /** The validation step of the download chain. A missing file path sets a
      400; a missing user then overrides it with a redirect to the hosted
      login that hands over a fresh verifier. */
  function ProcessDownload(svc: Services, e: StepEvent, verifier: string): (r: StepEvent)
    ensures OnlyResponseChanged(e, r)
    ensures Truthy(e.filepath) && Truthy(e.userId) ==> r == e
    ensures !Truthy(e.filepath) && Truthy(e.userId) ==>
              && r.responseContext.statusCode == 400
              && r.responseContext.body == Some(MissingFilepathJson)
              && Traced(r.responseContext.headers, e.requestContext.traceId)
              && r.responseContext.headers.value.Keys <= {TraceId}
    ensures !Truthy(e.userId) ==>
              var auth := LoginRequest(svc, e, verifier);
              && r.responseContext.statusCode == 302
              && r.responseContext.body == Some(MissingFilepathJson)
              && Traced(r.responseContext.headers, e.requestContext.traceId)
              && r.responseContext.headers.value.Keys <= {SetCookie, Location, TraceId}
              && SetCookie in r.responseContext.headers.value
              && r.responseContext.headers.value[SetCookie] == VerifierCookie(auth.codeVerifier)
              && Location in r.responseContext.headers.value
              && r.responseContext.headers.value[Location] == auth.authUrl
  {
    var traceId := e.requestContext.traceId;
    var checked :=
      if !Truthy(e.filepath) then
        e.(responseContext := ResponseContext(400, Some(MissingFilepathJson), Some(WithHeader(map[], TraceId, traceId))))
      else e;
    if !Truthy(e.userId) then
      var auth := LoginRequest(svc, e, verifier);
      checked.(responseContext := ResponseContext(302, Some(MissingFilepathJson),
                                                  Some(WithHeader(RedirectHeaders(auth), TraceId, traceId))))
    else checked
  }

  /** The earlier validation step: it resets the response to a plain 200
      first, and its error responses carry no trace id. */
  function StartDownload(svc: Services, e: StepEvent, verifier: string): (r: StepEvent)
    ensures OnlyResponseChanged(e, r)
    ensures Truthy(e.filepath) && Truthy(e.userId) ==> r.responseContext == ResponseContext(200, None, None)
    ensures !Truthy(e.filepath) && Truthy(e.userId) ==>
              r.responseContext == ResponseContext(400, Some(MissingFilepathJson), None)
    ensures !Truthy(e.userId) ==>
              var auth := LoginRequest(svc, e, verifier);
              && r.responseContext.statusCode == 302
              && r.responseContext.body == Some(MissingFilepathJson)
              && r.responseContext.headers.Some?
              && r.responseContext.headers.value.Keys == {SetCookie, Location}
              && TraceId !in r.responseContext.headers.value
              && r.responseContext.headers.value[SetCookie] == VerifierCookie(auth.codeVerifier)
              && r.responseContext.headers.value[Location] == auth.authUrl
  {
    var reset := e.(responseContext := ResponseContext(200, None, None));
    var checked :=
      if !Truthy(e.filepath) then reset.(responseContext := ResponseContext(400, Some(MissingFilepathJson), None))
      else reset;
    if !Truthy(e.userId) then
      var auth := LoginRequest(svc, e, verifier);
      checked.(responseContext := ResponseContext(302, Some(MissingFilepathJson), Some(RedirectHeaders(auth))))
    else checked
  }

  /** The record step: one download item for the payload's file and user,
      written whatever the response context says; the payload passes through. */
  function RecordStep(e: StepEvent, timestamp: string): (r: Reply<StepEvent>)
    ensures r.result == Success(e)
    ensures |r.writes| == 1
    ensures r.writes[0].filepath == e.filepath
    ensures r.writes[0].record == Some(DownloadRecord(Show(e.userId), timestamp))
    ensures r.writes[0].item == DownloadItem(e.userId, timestamp)
  {
    Reply(Success(e), [RecordDownload(e.filepath, e.userId, timestamp)])
  }

  /** The URL step: a 307 to the presigned GET URL for the payload's file,
      tagged with its user; the response context is replaced wholesale. */
  function UrlStep(svc: Services, e: StepEvent): (r: StepEvent)
    ensures OnlyResponseChanged(e, r)
    ensures r.responseContext.statusCode == 307
    ensures r.responseContext.body == Some("")
    ensures r.responseContext.headers.Some?
    ensures r.responseContext.headers.value.Keys == {Location}
    ensures r.responseContext.headers.value[Location]
            == svc.presign(svc.bucketName, Show(e.filepath), e.userId, GET)
  {
    var url := svc.presign(svc.bucketName, Show(e.filepath), e.userId, GET);
    e.(responseContext := ResponseContext(307, Some(""), Some(map[Location := url])))
  }

  /** The terminator: the response context becomes the HTTP response; an
      undefined body becomes empty. */
  function CompleteDownload(e: StepEvent): (r: ApiResponse)
    ensures r.statusCode == e.responseContext.statusCode
    ensures r.headers == e.responseContext.headers
    ensures e.responseContext.body.Some? ==> r.body == e.responseContext.body.value
    ensures e.responseContext.body.None? ==> r.body == ""
    ensures r.multiValueHeaders == map[]
  {
    var rc := e.responseContext;
    ApiResponse(rc.statusCode, rc.body.GetOr(""), rc.headers, map[])
  }

  /** Running validation twice, with the same verifier, answers as running it once. */
  lemma ProcessIdempotent(svc: Services, e: StepEvent, verifier: string)
    ensures ProcessDownload(svc, ProcessDownload(svc, e, verifier), verifier) == ProcessDownload(svc, e, verifier)
  {
  }

  /** The two validation steps agree on which requests fail and how, except
      for the trace header; on a valid request `start` answers 200 where
      `process` keeps whatever it received. */
  lemma StartAgreesWithProcess(svc: Services, e: StepEvent, verifier: string)
    ensures var p := ProcessDownload(svc, e, verifier).responseContext;
            var s := StartDownload(svc, e, verifier).responseContext;
            && (Truthy(e.filepath) && Truthy(e.userId) ==> p == e.responseContext && s.statusCode == 200)
            && (!Truthy(e.filepath) || !Truthy(e.userId) ==>
                  && p.statusCode == s.statusCode
                  && p.body == s.body
                  && p.headers.value - {TraceId} == s.headers.GetOr(map[]) - {TraceId})
  {
    var p := ProcessDownload(svc, e, verifier).responseContext;
    var s := StartDownload(svc, e, verifier).responseContext;
    if !Truthy(e.userId) {
      var h := RedirectHeaders(LoginRequest(svc, e, verifier));
      assert TraceId !in h;
      assert p.headers.value - {TraceId} == h;
    } else if !Truthy(e.filepath) {
      assert p.headers.value - {TraceId} == map[];
    }
  }

  /** The redirect hands the browser the very verifier whose S256 challenge
      the authorization URL carries, and sends it back to the callback of the
      caller's domain. */
  lemma RedirectPairsVerifier(svc: Services, e: StepEvent, verifier: string)
    requires FormEncoder(svc.formEncode)
    requires ';' !in verifier && Trimmed(verifier)
    requires !Truthy(e.userId)
    ensures var h := ProcessDownload(svc, e, verifier).responseContext.headers.value;
            var ps := AuthUrlParams(svc.config, h[Location]);
            && StoredCookie(h[SetCookie]) == ("code_verifier", verifier)
            && CookieAttributes(h[SetCookie]) == VerifierAttributes
            && Lookup(ps, svc.formEncode("code_challenge")) == Some(svc.formEncode(svc.challenge(verifier)))
            && Lookup(ps, svc.formEncode("redirect_uri"))
               == Some(svc.formEncode(GetRedirectUri(Show(e.requestContext.domainName))))
  {
    VerifierCookieStores(verifier);
    AuthUrlCarriesChallenge(svc.config, GetRedirectUri(Show(e.requestContext.domainName)), verifier,
                            svc.challenge, svc.formEncode);
  }

  /** The record step does not consult the response context. */
  lemma RecordStepUnconditional(e: StepEvent, rc: ResponseContext, timestamp: string)
    ensures RecordStep(e.(responseContext := rc), timestamp).writes == RecordStep(e, timestamp).writes
  {
  }

  /** The record step is not idempotent: two runs at distinct instants
      leave two download items; with no file path the store refuses the put
      and the step fails. */
  lemma RecordStepAccumulates(t: Table, e: StepEvent, ts1: string, ts2: string)
    requires ts1 != ts2
    ensures Truthy(e.filepath) ==>
              var r := ApplyAll(t, RecordStep(e, ts1).writes + RecordStep(e, ts2).writes);
              && r.Success?
              && Key(e.filepath.value, DownloadRecord(Show(e.userId), ts1)) in r.value
              && Key(e.filepath.value, DownloadRecord(Show(e.userId), ts2)) in r.value
              && DownloadRecord(Show(e.userId), ts1) != DownloadRecord(Show(e.userId), ts2)
    ensures !Truthy(e.filepath) ==> Commit(t, RecordStep(e, ts1)).Failure?
  {
    if Truthy(e.filepath) {
      DownloadsAccumulate(t, e.filepath.value, e.userId, ts1, ts2);
    }
  }

  /** Whatever came before, the URL step's response is the same: earlier
      cookies and headers do not survive it. */
  lemma UrlStepDropsEarlierResponse(svc: Services, e: StepEvent, rc: ResponseContext)
    ensures UrlStep(svc, e.(responseContext := rc)).responseContext == UrlStep(svc, e).responseContext
  {
  }

  /** The HTTP response depends on the response context alone. */
  lemma CompleteReadsOnlyResponse(e1: StepEvent, e2: StepEvent)
    requires e1.responseContext == e2.responseContext
    ensures CompleteDownload(e1) == CompleteDownload(e2)
  {
  }
}
