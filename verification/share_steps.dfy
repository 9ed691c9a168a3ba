/** The steps of the share state machine that the model covers: the login
    check at its head and the step that records an external share. */
module ShareSteps {
  import opened Wrappers
  import opened Text
  import opened AccessTable
  import opened Events
  import opened DownloadSteps

  /** The login check of the share chains. Unlike the download check it
      looks at the user only; a missing user gets the very redirect the
      download chain answers. */
  function ShareProcess(svc: Services, e: StepEvent, verifier: string): (r: StepEvent)
    ensures OnlyResponseChanged(e, r)
    ensures Truthy(e.userId) ==> r == e
    ensures !Truthy(e.userId) ==> r.responseContext == ProcessDownload(svc, e, verifier).responseContext
  {
    if !Truthy(e.userId) then
      var auth := LoginRequest(svc, e, verifier);
      e.(responseContext := ResponseContext(302, Some(MissingFilepathJson),
                                            Some(WithHeader(RedirectHeaders(auth), TraceId, e.requestContext.traceId))))
    else e
  }

  /** `maxNumberOfDownloads.toString()`: undefined and null throw a
      TypeError; a number becomes its decimal numeral, which reads back as the number. */
  function QuotaText(q: Quota): (s: Option<string>)
    ensures s.None? <==> q.Absent? || q.Null?
    ensures q.Str? ==> s == Some(q.s)
    ensures q.Number? ==> s.Some? && StringToNumber(s.value) == Some(q.n)
    ensures q.Bool? ==> s == Some(if q.b then "true" else "false")
  {
    match q
    case Absent => None
    case Null => None
    case Bool(b) => Some(if b then "true" else "false")
    case Number(n) => NumberStringRoundTrip(n); Some(IntToString(n))
    case Str(s) => Some(s)
  }

  /** The share request the external record step files for a payload whose quota has a text. */
  function ExternalShare(e: StepEvent, quota: string): ShareFileRequest {
    ShareFileRequest(e.filepath, e.userId, e.shareUserId, Str(quota), Some(External), e.presignedUrl)
  }

  /** The external record step: one external share item for the payload's
      recipient, owned by the caller; the payload passes through. */
  function ShareRecordStep(e: StepEvent, timestamp: string): (r: Reply<StepEvent>)
    ensures r.result.Failure? <==> e.maxNumberOfDownloads.Absent? || e.maxNumberOfDownloads.Null?
    ensures r.result.Failure? ==> r.result.error == TypeError && r.writes == []
    ensures r.result.Success? ==> r.result.value == e && |r.writes| == 1
  {
    match QuotaText(e.maxNumberOfDownloads)
    case None => Reply(Failure(TypeError), [])
    case Some(quota) => Reply(Success(e), [RecordShareFileRequest(ExternalShare(e, quota), timestamp)])
  }

  /** After the external record step the recipient's share item names the
      caller as owner, keeps the quota (a number reads back as itself), and
      `getShareExternalUrl` hands back the payload's presigned URL. */
  lemma ShareRecordRoundTrip(t: Table, e: StepEvent, timestamp: string)
    requires Truthy(e.filepath)
    requires !e.maxNumberOfDownloads.Absent? && !e.maxNumberOfDownloads.Null?
    ensures var c := Commit(t, ShareRecordStep(e, timestamp));
            var k := Key(e.filepath.value, ShareRecord(Show(e.shareUserId)));
            && c.Success?
            && c.value.0 == e
            && k in c.value.1
            && c.value.1[k].ShareItem?
            && c.value.1[k].ownerUserId == e.userId
            && c.value.1[k].kind == External
            && (e.maxNumberOfDownloads.Number? ==>
                  c.value.1[k].maxNumberOfDownloads.Str? &&
                  StringToNumber(c.value.1[k].maxNumberOfDownloads.s) == Some(e.maxNumberOfDownloads.n))
            && GetShareExternalUrl(c.value.1, e.filepath.value, Show(e.shareUserId)) == e.presignedUrl
  {
    var quota := QuotaText(e.maxNumberOfDownloads).value;
    var w := RecordShareFileRequest(ExternalShare(e, quota), timestamp);
    assert ShareRecordStep(e, timestamp).writes == [w];
    assert ApplyAll(t, [w]) == Apply(t, w);
    ShareExternalUrlRoundTrip(t, ExternalShare(e, quota), timestamp);
  }

  /** Recording the same external share twice leaves the table as
      recording it once at the second instant: the second put overwrites
      the first. */
  lemma ShareRecordLastWins(t: Table, e: StepEvent, ts1: string, ts2: string)
    requires Truthy(e.filepath)
    requires !e.maxNumberOfDownloads.Absent? && !e.maxNumberOfDownloads.Null?
    ensures var c1 := Commit(t, ShareRecordStep(e, ts1));
            && c1.Success? && c1.value.0 == e
            && Commit(c1.value.1, ShareRecordStep(e, ts2)) == Commit(t, ShareRecordStep(e, ts2))
  {
    var quota := QuotaText(e.maxNumberOfDownloads).value;
    var w1 := RecordShareFileRequest(ExternalShare(e, quota), ts1);
    var w2 := RecordShareFileRequest(ExternalShare(e, quota), ts2);
    assert ShareRecordStep(e, ts1).writes == [w1];
    assert ShareRecordStep(e, ts2).writes == [w2];
    assert ApplyAll(t, [w1]) == Apply(t, w1);
    var t1 := Apply(t, w1).value;
    assert ApplyAll(t1, [w2]) == Apply(t1, w2);
    assert ApplyAll(t, [w2]) == Apply(t, w2);
    assert KeyOf(w1) == KeyOf(w2);
    assert Apply(t1, w2).value == Apply(t, w2).value;
  }
}
