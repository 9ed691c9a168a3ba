/** The two express state machines and the mapping of their result to the
    HTTP response. A state machine runs its steps in order; a step that
    fails fails the execution, since no state catches errors. */
module Pipeline {
  import opened Wrappers
  import opened Text
  import opened QueryString
  import opened Auth
  import opened AccessTable
  import opened Events
  import opened DownloadSteps
  import opened ShareSteps
  import opened SessionHandlers

  /** The states of both workflows. */
  datatype Stage = ValidateStage | EligibleStage | RecordStage | UrlStage | NotifyStage | CompleteStage

  /** An execution either completes, with the last step's output and the
      table after its puts, or aborts at a failing step. */
  datatype Execution<T> =
    | Completed(output: T, trace: seq<Stage>, table: Table)
    | Aborted(fault: Fault, trace: seq<Stage>)

  /** The payload the download route hands the state machine: the user is
      the authorizer's principal, and the response starts out as a 200. */
  function DownloadPayload(principalId: JsStr, filepath: JsStr, traceId: JsStr, host: JsStr): (e: StepEvent)
    ensures e.userId == principalId && e.filepath == filepath
    ensures e.requestContext == RequestContext(traceId, traceId, host)
    ensures e.responseContext == ResponseContext(200, None, None)
  {
    StepEvent(traceId, principalId, filepath, None, None, None, Absent, None,
              RequestContext(traceId, traceId, host), ResponseContext(200, None, None))
  }

  /** The eligibility check is a passthrough. */
  function Eligible(e: StepEvent): StepEvent {
    e
  }

  /** The state machines' choice: continue only on status 200. */
  predicate Proceeds(e: StepEvent) {
    e.responseContext.statusCode == 200
  }

  /** The download state machine: Validate, then (on 200) Check
      Eligibility, then (on 200 again) Record Download and Download URL,
      and in every case Complete Download. */
  function RunDownload(svc: Services, t: Table, payload: StepEvent, verifier: string, timestamp: string): (x: Execution<ApiResponse>)
  {
    var validated := ProcessDownload(svc, payload, verifier);
    if !Proceeds(validated) then Completed(CompleteDownload(validated), [ValidateStage, CompleteStage], t)
    else
      var checked := Eligible(validated);
      if !Proceeds(checked) then Completed(CompleteDownload(checked), [ValidateStage, EligibleStage, CompleteStage], t)
      else
        match Commit(t, RecordStep(checked, timestamp))
        case Failure(f) => Aborted(f, [ValidateStage, EligibleStage, RecordStage])
        case Success((recorded, t')) =>
          Completed(CompleteDownload(UrlStep(svc, recorded)),
                    [ValidateStage, EligibleStage, RecordStage, UrlStage, CompleteStage], t')
  }

  /** Every download execution seeded by the route completes, and runs
      Complete Download exactly once, as its last step; either it goes
      straight from Validate to Complete, or it records the download before
      the URL is made. */
  lemma DownloadAlwaysCompletes(svc: Services, t: Table, principalId: JsStr, filepath: JsStr, traceId: JsStr,
                                host: JsStr, verifier: string, timestamp: string)
    ensures var x := RunDownload(svc, t, DownloadPayload(principalId, filepath, traceId, host), verifier, timestamp);
            && x.Completed?
            && (x.trace == [ValidateStage, CompleteStage]
                || x.trace == [ValidateStage, EligibleStage, RecordStage, UrlStage, CompleteStage])
            && multiset(x.trace)[CompleteStage] == 1
            && x.trace[|x.trace| - 1] == CompleteStage
  {
    var payload := DownloadPayload(principalId, filepath, traceId, host);
    var trace := RunDownload(svc, t, payload, verifier, timestamp).trace;
    if Truthy(filepath) && Truthy(principalId) {
      FullDownloadTrace(svc, t, payload, verifier, timestamp);
      assert multiset(trace)[CompleteStage] == 1;
    } else {
      ShortDownloadTrace(svc, t, payload, verifier, timestamp);
      assert multiset(trace)[CompleteStage] == 1;
    }
  }

  /** A payload with a file path and a user runs all five stages. */
  lemma FullDownloadTrace(svc: Services, t: Table, payload: StepEvent, verifier: string, timestamp: string)
    requires Truthy(payload.filepath) && Truthy(payload.userId) && Proceeds(payload)
    ensures var x := RunDownload(svc, t, payload, verifier, timestamp);
            x.Completed? && x.trace == [ValidateStage, EligibleStage, RecordStage, UrlStage, CompleteStage]
  {
    assert ProcessDownload(svc, payload, verifier) == payload;
    RecordCommits(t, payload, timestamp);
  }

  /** A payload without a file path or without a user goes from Validate
      straight to Complete. */
  lemma ShortDownloadTrace(svc: Services, t: Table, payload: StepEvent, verifier: string, timestamp: string)
    requires !Truthy(payload.filepath) || !Truthy(payload.userId)
    ensures var x := RunDownload(svc, t, payload, verifier, timestamp);
            x.Completed? && x.trace == [ValidateStage, CompleteStage]
  {
    assert !Proceeds(ProcessDownload(svc, payload, verifier));
  }

  /** The download record of a payload with a file path is always accepted. */
  lemma RecordCommits(t: Table, e: StepEvent, timestamp: string)
    requires Truthy(e.filepath)
    ensures Commit(t, RecordStep(e, timestamp)).Success?
  {
    var w := RecordStep(e, timestamp).writes[0];
    assert HasKey(w);
    assert ApplyAll(t, [w]) == Apply(t, w);
  }

  /** A request with a file path and a user is answered with a 307 to the
      presigned URL, and exactly one item, the user's download, is added
      to the table. */
  lemma DownloadGranted(svc: Services, t: Table, principalId: JsStr, filepath: JsStr, traceId: JsStr,
                        host: JsStr, verifier: string, timestamp: string)
    requires Truthy(filepath) && Truthy(principalId)
    ensures var x := RunDownload(svc, t, DownloadPayload(principalId, filepath, traceId, host), verifier, timestamp);
            var k := Key(filepath.value, DownloadRecord(principalId.value, timestamp));
            && x.Completed?
            && x.output.statusCode == 307
            && x.output.headers == Some(map[Location := svc.presign(svc.bucketName, filepath.value, principalId, GET)])
            && x.table == t[k := DownloadItem(principalId, timestamp)]
  {
    var payload := DownloadPayload(principalId, filepath, traceId, host);
    assert ProcessDownload(svc, payload, verifier) == payload;
    var w := RecordStep(payload, timestamp).writes[0];
    assert HasKey(w);
    assert ApplyAll(t, [w]) == Apply(t, w);
  }

  /** A request without a file path or without a user leaves the table as it
      was and is answered with what validation decided. */
  lemma DownloadRefused(svc: Services, t: Table, principalId: JsStr, filepath: JsStr, traceId: JsStr,
                        host: JsStr, verifier: string, timestamp: string)
    requires !Truthy(filepath) || !Truthy(principalId)
    ensures var payload := DownloadPayload(principalId, filepath, traceId, host);
            var x := RunDownload(svc, t, payload, verifier, timestamp);
            && x.Completed?
            && x.table == t
            && x.output == CompleteDownload(ProcessDownload(svc, payload, verifier))
            && x.output.statusCode == (if !Truthy(principalId) then 302 else 400)
  {
  }

  /** The payload the share route hands the state machine; the quota comes
      from the query string, as text. The file path is left to the Share URL step. */
  function SharePayload(principalId: JsStr, url: JsStr, email: JsStr, downloads: string, notify: JsStr,
                        traceId: JsStr, host: JsStr): (e: StepEvent)
    ensures e.userId == principalId && e.presignedUrl == url && e.shareUserId == email
    ensures e.maxNumberOfDownloads == Str(downloads)
    ensures e.responseContext == ResponseContext(200, None, None)
  {
    StepEvent(traceId, principalId, None, None, url, email, Str(downloads), notify,
              RequestContext(traceId, traceId, host), ResponseContext(200, None, None))
  }

  /** The share state machine: Validate Share, then (on 200) Share URL,
      Record Share and Notify Share, and in every case Complete Share. The
      Share URL and Complete Share steps are parameters. Notify Share runs
      the record function again. */
  function RunShare(svc: Services, t: Table, payload: StepEvent, verifier: string, ts1: string, ts2: string,
                    shareUrl: StepEvent -> StepEvent, completeShare: StepEvent -> ApiResponse): (x: Execution<ApiResponse>)
  {
    var validated := ShareProcess(svc, payload, verifier);
    if !Proceeds(validated) then Completed(completeShare(validated), [ValidateStage, CompleteStage], t)
    else
      var located := shareUrl(validated);
      match Commit(t, ShareRecordStep(located, ts1))
      case Failure(f) => Aborted(f, [ValidateStage, UrlStage, RecordStage])
      case Success((recorded, t1)) =>
        match Commit(t1, ShareRecordStep(recorded, ts2))
        case Failure(f) => Aborted(f, [ValidateStage, UrlStage, RecordStage, NotifyStage])
        case Success((notified, t2)) =>
          Completed(completeShare(notified), [ValidateStage, UrlStage, RecordStage, NotifyStage, CompleteStage], t2)
  }

  /** Without a user the share machine writes nothing and completes. */
  lemma ShareRefused(svc: Services, t: Table, payload: StepEvent, verifier: string, ts1: string, ts2: string,
                     shareUrl: StepEvent -> StepEvent, completeShare: StepEvent -> ApiResponse)
    requires !Truthy(payload.userId)
    ensures var x := RunShare(svc, t, payload, verifier, ts1, ts2, shareUrl, completeShare);
            && x.Completed? && x.table == t && x.trace == [ValidateStage, CompleteStage]
            && x.output == completeShare(payload.(responseContext := ProcessDownload(svc, payload, verifier).responseContext))
  {
  }

  /** With a user, the share is put twice, by Record Share and by Notify
      Share; the second put overwrites the first, so the table ends as if
      the share had been recorded once, at the second instant, and the
      recipient's external URL is the one the payload carried. */
  lemma ShareRecordedTwice(svc: Services, t: Table, payload: StepEvent, verifier: string, ts1: string, ts2: string,
                           shareUrl: StepEvent -> StepEvent, completeShare: StepEvent -> ApiResponse)
    requires Proceeds(payload) && Truthy(payload.userId)
    requires var located := shareUrl(payload);
             Truthy(located.filepath) && !located.maxNumberOfDownloads.Absent? && !located.maxNumberOfDownloads.Null?
    ensures var located := shareUrl(payload);
            var x := RunShare(svc, t, payload, verifier, ts1, ts2, shareUrl, completeShare);
            && x.Completed?
            && x.trace == [ValidateStage, UrlStage, RecordStage, NotifyStage, CompleteStage]
            && x.output == completeShare(located)
            && x.table == Commit(t, ShareRecordStep(located, ts2)).value.1
            && GetShareExternalUrl(x.table, located.filepath.value, Show(located.shareUserId)) == located.presignedUrl
  {
    var located := shareUrl(payload);
    assert ShareProcess(svc, payload, verifier) == payload;
    ShareRecordLastWins(t, located, ts1, ts2);
    ShareRecordRoundTrip(t, located, ts2);
  }

  /** The body of a mapped response: text, or the execution's error, which
      the model does not render. */
  datatype Body = Text(text: string) | ExecutionError

  datatype HttpReply = HttpReply(status: int, headers: map<string, string>, body: Body)

  const BadRequestJson := "{\"error\": \"Bad request!\"}"

  /** What the 2xx template emits besides the values it reads: the blanks
      its layout leaves before the chosen branch, inside the redirect
      branch, and around the output of the other branch; and the text a
      `$root.headers.<name>` reference renders as when the output has no
      such header. */
  datatype TemplateRendering = TemplateRendering(
    lead: string, redirectText: string, outputLead: string, outputTrail: string,
    unresolvedHeader: string -> string)

  /** A run of blanks. */
  predicate Blank(s: string) {
    forall i :: 0 <= i < |s| ==> s[i] == ' '
  }

  /** The template's layout is white space only. */
  predicate LayoutIsBlank(rd: TemplateRendering) {
    Blank(rd.lead) && Blank(rd.redirectText) && Blank(rd.outputLead) && Blank(rd.outputTrail)
  }

  /** `"$root.headers.<name>"`: the output's header, or the unresolved rendering. */
  function RenderHeader(h: Option<Headers>, name: string, rd: TemplateRendering): (v: string)
    ensures h.Some? && name in h.value ==> v == h.value[name]
    ensures h.None? || name !in h.value ==> v == rd.unresolvedHeader(name)
  {
    if h.Some? && name in h.value then h.value[name] else rd.unresolvedHeader(name)
  }

  /** The headers a redirect output is given: an HTML content type, and
      `Set-Cookie` and `Location`, which the template sets whether or not
      the output has them. */
  function RedirectReplyHeaders(h: Option<Headers>, rd: TemplateRendering): (r: map<string, string>)
    ensures r.Keys == {"content-type", SetCookie, Location}
    ensures r["content-type"] == "text/html"
    ensures forall name :: name in {SetCookie, Location} && h.Some? && name in h.value ==> r[name] == h.value[name]
    ensures forall name :: name in {SetCookie, Location} && (h.None? || name !in h.value) ==>
              r[name] == rd.unresolvedHeader(name)
  {
    map["content-type" := "text/html", SetCookie := RenderHeader(h, SetCookie, rd),
        Location := RenderHeader(h, Location, rd)]
  }

  /** The integration responses of the state-machine routes, selected by
      the status of the synchronous start call: a 4xx is a fixed bad
      request, a 5xx an error; on a 2xx a failed execution becomes a 500, a
      302 or 307 output keeps its status and gets its redirect headers and
      a blank body, and any other output status is answered with the
      output's JSON text inside the template's blanks. `stringify` is
      `JSON.stringify` of the Complete step's output. No response is
      selected for other statuses. */
  function WebIntegrationResponse(serviceStatus: int, x: Execution<ApiResponse>, stringify: ApiResponse -> string,
                                  rd: TemplateRendering): (r: Option<HttpReply>)
    ensures r.None? <==> !(200 <= serviceStatus < 300 || 400 <= serviceStatus < 600)
    ensures 400 <= serviceStatus < 500 ==> r == Some(HttpReply(400, map[], Text(BadRequestJson)))
    ensures 500 <= serviceStatus < 600 || (200 <= serviceStatus < 300 && x.Aborted?) ==>
              r.Some? && r.value.status == 500 && r.value.body == ExecutionError
    ensures 200 <= serviceStatus < 300 && x.Completed? ==> r.Some? && r.value.status == x.output.statusCode
    ensures 200 <= serviceStatus < 300 && x.Completed? && x.output.statusCode in {302, 307} ==>
              r.value.headers == RedirectReplyHeaders(x.output.headers, rd)
              && r.value.body == Text(rd.lead + rd.redirectText)
    ensures 200 <= serviceStatus < 300 && x.Completed? && x.output.statusCode !in {302, 307} ==>
              r.value.headers == map[]
              && r.value.body == Text(rd.lead + rd.outputLead + stringify(x.output) + rd.outputTrail)
  {
    if 400 <= serviceStatus < 500 then Some(HttpReply(400, map[], Text(BadRequestJson)))
    else if 500 <= serviceStatus < 600 then Some(HttpReply(500, map[], ExecutionError))
    else if 200 <= serviceStatus < 300 then
      match x
      case Aborted(_, _) => Some(HttpReply(500, map[], ExecutionError))
      case Completed(out, _, _) =>
        if out.statusCode == 302 || out.statusCode == 307 then
          Some(HttpReply(out.statusCode, RedirectReplyHeaders(out.headers, rd), Text(rd.lead + rd.redirectText)))
        else Some(HttpReply(out.statusCode, map[], Text(rd.lead + rd.outputLead + stringify(out) + rd.outputTrail)))
    else None
  }

  /** Blanks on either side of a text with no white space at its ends trim
      away to that text. */
  lemma TrimBlankFrame(before: string, text: string, after: string)
    requires Blank(before) && Blank(after)
    requires |text| > 0 ==> !IsJsSpace(text[0]) && !IsJsSpace(text[|text| - 1])
    ensures Trim(before + text + after) == text
  {
    var s := before + text + after;
    assert s[|before|..|before| + |text|] == text;
    forall k | 0 <= k < |before| ensures IsJsSpace(s[k]) {
      assert s[k] == before[k];
    }
    forall k | |before| + |text| <= k < |s| ensures IsJsSpace(s[k]) {
      assert s[k] == after[k - |before| - |text|];
    }
    assert CutsSpaceEnds(s, text, |before|);
    TrimUnique(s, text, |before|);
  }

  /** Under a blank layout, the body of a completed, non-redirect reply is,
      once trimmed, the JSON text of the execution's output; the body of a
      redirect reply trims to nothing. */
  lemma ReplyBodyIsOutputJson(serviceStatus: int, x: Execution<ApiResponse>, stringify: ApiResponse -> string,
                              rd: TemplateRendering)
    requires LayoutIsBlank(rd)
    requires 200 <= serviceStatus < 300 && x.Completed?
    requires var j := stringify(x.output); |j| > 0 && !IsJsSpace(j[0]) && !IsJsSpace(j[|j| - 1])
    ensures var r := WebIntegrationResponse(serviceStatus, x, stringify, rd);
            && r.Some? && r.value.body.Text?
            && Trim(r.value.body.text) == (if x.output.statusCode in {302, 307} then "" else stringify(x.output))
  {
    if x.output.statusCode in {302, 307} {
      TrimBlankFrame(rd.lead + rd.redirectText, "", "");
      assert rd.lead + rd.redirectText + "" + "" == rd.lead + rd.redirectText;
    } else {
      TrimBlankFrame(rd.lead + rd.outputLead, stringify(x.output), rd.outputTrail);
    }
  }

  /** A Validate step started without a user: the Complete step's redirect,
      once mapped, is a 302 with the cookie that stores the verifier whose
      challenge the login URL carries. The route never starts such an
      execution (see `AnonymousDownloadRefused`). */
  lemma DownloadLoginRedirect(svc: Services, t: Table, filepath: JsStr, traceId: JsStr, host: JsStr,
                              verifier: string, timestamp: string, stringify: ApiResponse -> string,
                              rd: TemplateRendering)
    requires FormEncoder(svc.formEncode)
    requires ';' !in verifier && Trimmed(verifier)
    ensures var payload := DownloadPayload(None, filepath, traceId, host);
            var r := WebIntegrationResponse(200, RunDownload(svc, t, payload, verifier, timestamp), stringify, rd);
            var h := r.value.headers;
            && r.Some? && r.value.status == 302
            && StoredCookie(h[SetCookie]) == ("code_verifier", verifier)
            && Lookup(AuthUrlParams(svc.config, h[Location]), svc.formEncode("code_challenge"))
               == Some(svc.formEncode(svc.challenge(verifier)))
  {
    var payload := DownloadPayload(None, filepath, traceId, host);
    var validated := ProcessDownload(svc, payload, verifier);
    assert !Proceeds(validated);
    var x := RunDownload(svc, t, payload, verifier, timestamp);
    assert x.output == CompleteDownload(validated);
    var h := validated.responseContext.headers.value;
    RedirectPairsVerifier(svc, payload, verifier);
    var r := WebIntegrationResponse(200, x, stringify, rd);
    assert r.value.headers == RedirectReplyHeaders(Some(h), rd);
  }

  /** End to end: a granted download reaches the browser as a 307 to the
      presigned URL; the output has no cookie, so the template's
      `Set-Cookie` is the unresolved rendering. */
  lemma DownloadRedirectsToFile(svc: Services, t: Table, principalId: JsStr, filepath: JsStr, traceId: JsStr,
                                host: JsStr, verifier: string, timestamp: string, stringify: ApiResponse -> string,
                                rd: TemplateRendering)
    requires Truthy(filepath) && Truthy(principalId)
    ensures var payload := DownloadPayload(principalId, filepath, traceId, host);
            var r := WebIntegrationResponse(200, RunDownload(svc, t, payload, verifier, timestamp), stringify, rd);
            && r.Some? && r.value.status == 307
            && r.value.headers[Location] == svc.presign(svc.bucketName, filepath.value, principalId, GET)
            && r.value.headers[SetCookie] == rd.unresolvedHeader(SetCookie)
  {
    DownloadGranted(svc, t, principalId, filepath, traceId, host, verifier, timestamp);
  }

  /** What API Gateway does with a request to an authorized route: it
      answers by itself, without running the integration, or it starts the
      execution. */
  datatype RouteOutcome = Refused | Started(x: Execution<ApiResponse>)

  /** The `/download/{filepath+}` route as deployed: the custom authorizer
      runs first, and a policy that does not allow the call is answered by
      the gateway (a 403 for a deny) with no execution. On an allow, the
      payload's user is the principal the authorizer named. */
  function DownloadRoute(svc: Services, t: Table, cookie: JsStr, methodArn: string, filepath: JsStr, traceId: JsStr,
                         host: JsStr, verifier: string, timestamp: string): (r: RouteOutcome)
    ensures r.Refused? <==> !Allows(Authorize(svc, cookie, methodArn))
    ensures r.Started? ==>
              var name := Authorize(svc, cookie, methodArn).principalId;
              && name == TokenUser(svc, cookie).value.username
              && r.x == RunDownload(svc, t, DownloadPayload(Some(name), filepath, traceId, host), verifier, timestamp)
  {
    var policy := Authorize(svc, cookie, methodArn);
    if !Allows(policy) then Refused
    else Started(RunDownload(svc, t, DownloadPayload(Some(policy.principalId), filepath, traceId, host), verifier, timestamp))
  }

  /** As deployed, a caller without a session (no `access_token` cookie, or
      one the identity provider does not resolve) is refused by the
      gateway: the Validate step's login redirect is never reached. */
  lemma AnonymousDownloadRefused(svc: Services, t: Table, cookie: JsStr, methodArn: string, filepath: JsStr,
                                 traceId: JsStr, host: JsStr, verifier: string, timestamp: string)
    requires TokenUser(svc, cookie).None?
    ensures DownloadRoute(svc, t, cookie, methodArn, filepath, traceId, host, verifier, timestamp) == Refused
  {
  }

  /** The route as the Validate step expects it: a caller the authorizer
      does not resolve still starts the execution, without a user. */
  function DownloadRouteIntended(svc: Services, t: Table, cookie: JsStr, methodArn: string, filepath: JsStr,
                                 traceId: JsStr, host: JsStr, verifier: string, timestamp: string): (r: RouteOutcome)
    ensures r.Started?
    ensures Allows(Authorize(svc, cookie, methodArn)) ==>
              r == DownloadRoute(svc, t, cookie, methodArn, filepath, traceId, host, verifier, timestamp)
  {
    var policy := Authorize(svc, cookie, methodArn);
    var user := if Allows(policy) then Some(policy.principalId) else None;
    Started(RunDownload(svc, t, DownloadPayload(user, filepath, traceId, host), verifier, timestamp))
  }

  /** Through the intended route, a caller without a session is sent to the
      hosted login with the verifier cookie whose challenge the login URL
      carries, as the Validate step's redirect promises. */
  lemma AnonymousDownloadLogsIn(svc: Services, t: Table, cookie: JsStr, methodArn: string, filepath: JsStr,
                                traceId: JsStr, host: JsStr, verifier: string, timestamp: string,
                                stringify: ApiResponse -> string, rd: TemplateRendering)
    requires FormEncoder(svc.formEncode)
    requires ';' !in verifier && Trimmed(verifier)
    requires TokenUser(svc, cookie).None?
    ensures var o := DownloadRouteIntended(svc, t, cookie, methodArn, filepath, traceId, host, verifier, timestamp);
            var r := WebIntegrationResponse(200, o.x, stringify, rd);
            var h := r.value.headers;
            && r.Some? && r.value.status == 302
            && StoredCookie(h[SetCookie]) == ("code_verifier", verifier)
            && Lookup(AuthUrlParams(svc.config, h[Location]), svc.formEncode("code_challenge"))
               == Some(svc.formEncode(svc.challenge(verifier)))
  {
    assert DownloadRouteIntended(svc, t, cookie, methodArn, filepath, traceId, host, verifier, timestamp).x
           == RunDownload(svc, t, DownloadPayload(None, filepath, traceId, host), verifier, timestamp);
    DownloadLoginRedirect(svc, t, filepath, traceId, host, verifier, timestamp, stringify, rd);
  }
}
