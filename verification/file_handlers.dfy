/** The single-function handlers around files: the monolithic download
    handler, the internal share and upload endpoints, and the reaction to an
    object landing in the bucket. */
module FileHandlers {
  import opened Wrappers
  import opened Text
  import opened Auth
  import opened AccessTable
  import opened Events
  import opened DownloadSteps

  /** The payload of the single-function download handler. */
  datatype DownloadRequest = DownloadRequest(
    id: JsStr, username: JsStr, filepath: JsStr, timestamp: JsStr, presignedUrl: JsStr,
    cookie: JsStr, host: JsStr)

  /** How long the handler's presigned GET URL stays valid, in seconds. */
  const UrlExpirationSeconds := 30

  function Respond(statusCode: int, body: string, headers: Option<Headers>): ApiResponse {
    ApiResponse(statusCode, body, headers, map[])
  }

  /** The user the request's `access_token` cookie belongs to, if any; the
      identity provider is asked only when there is a token. */
  function CookieUser(svc: Services, cookie: JsStr): Option<CognitoUser> {
    var token := svc.cookieFromString(cookie, "access_token");
    if Truthy(token) then svc.userByToken(token.value) else None
  }

  /** The single-function download handler as written. A missing file path
      is a 400; a caller without a valid token is redirected to the hosted
      login; everyone else gets a 307 to a 30-second presigned URL, after the
      handler puts the whole event, with its `username`, into the table. That
      put carries no `record` attribute. */
  function DownloadFile(svc: Services, req: DownloadRequest, verifier: string, timestamp: string): (r: Reply<ApiResponse>)
    ensures r.result.Success?
    ensures !Truthy(req.filepath) ==>
              r.writes == [] && r.result.value == Respond(400, MissingFilepathJson, None)
    ensures Truthy(req.filepath) && CookieUser(svc, req.cookie).None? ==>
              && r.writes == []
              && r.result.value.statusCode == 302
              && r.result.value.body == ""
              && r.result.value.headers
                 == Some(RedirectHeaders(GenerateAuthUrl(svc.config, svc.redirectUriByHost(req.host), verifier,
                                                         svc.challenge, svc.formEncode)))
    ensures Truthy(req.filepath) && CookieUser(svc, req.cookie).Some? ==>
              var url := svc.signedGetUrl(svc.bucketName, req.filepath.value, UrlExpirationSeconds);
              && r.result.value == Respond(307, "", Some(map[Location := url]))
              && |r.writes| == 1
              && r.writes[0].filepath == req.filepath
              && r.writes[0].item.EventItem?
              && r.writes[0].item.username == CookieUser(svc, req.cookie).value.username
              && r.writes[0].item.signedUrl == url
              && r.writes[0].item.timestamp == timestamp
  {
    if !Truthy(req.filepath) then
      Reply(Success(Respond(400, MissingFilepathJson, None)), [])
    else
      match CookieUser(svc, req.cookie)
      case None =>
        var auth := GenerateAuthUrl(svc.config, svc.redirectUriByHost(req.host), verifier, svc.challenge, svc.formEncode);
        Reply(Success(Respond(302, "", Some(RedirectHeaders(auth)))), [])
      case Some(user) =>
        var url := svc.signedGetUrl(svc.bucketName, req.filepath.value, UrlExpirationSeconds);
        var item := EventItem(req.id, user.username, timestamp, url, req.cookie, req.host);
        Reply(Success(Respond(307, "", Some(map[Location := url]))), [Put(req.filepath, None, item)])
  }

  /** A missing file path is answered before the cookie, the identity
      provider or the table is consulted. */
  lemma DownloadFileChecksPathFirst(svc: Services, cookieFromString: (JsStr, string) -> JsStr,
                                    userByToken: string -> Option<CognitoUser>,
                                    req: DownloadRequest, verifier: string, timestamp: string)
    requires !Truthy(req.filepath)
    ensures DownloadFile(svc.(cookieFromString := cookieFromString, userByToken := userByToken), req, verifier, timestamp)
            == DownloadFile(svc, req, verifier, timestamp)
  {
  }

  /** There is no ownership or quota check: a caller with a valid token and
      a file path is always sent to the file, whatever the table holds. */
  lemma DownloadFileIgnoresTable(svc: Services, req: DownloadRequest, verifier: string, timestamp: string)
    requires Truthy(req.filepath) && CookieUser(svc, req.cookie).Some?
    ensures DownloadFile(svc, req, verifier, timestamp).result.value.statusCode == 307
  {
  }

  /** As written, the authenticated path never completes: the table is keyed
      by `filepath` and `record`, the stored event has no `record`, so the
      put is refused and the handler fails instead of redirecting. */
  lemma DownloadFileRejected(svc: Services, t: Table, req: DownloadRequest, verifier: string, timestamp: string)
    requires Truthy(req.filepath) && CookieUser(svc, req.cookie).Some?
    ensures Commit(t, DownloadFile(svc, req, verifier, timestamp)) == Failure(StoreRejected)
  {
  }

  /** The download handler with the put it evidently means: the download is
      recorded under the caller's download key, as the step-function chain
      records it; the response is unchanged. */
  function DownloadFileCorrected(svc: Services, req: DownloadRequest, verifier: string, timestamp: string): (r: Reply<ApiResponse>)
    ensures r.result == DownloadFile(svc, req, verifier, timestamp).result
    ensures |r.writes| == |DownloadFile(svc, req, verifier, timestamp).writes|
  {
    var written := DownloadFile(svc, req, verifier, timestamp);
    var user := CookieUser(svc, req.cookie);
    if Truthy(req.filepath) && user.Some? then
      written.(writes := [RecordDownload(req.filepath, Some(user.value.username), timestamp)])
    else written
  }

  /** With the corrected put, an authenticated download commits: the caller
      receives the 307 and one download item of theirs is in the table. */
  lemma DownloadFileCorrectedRecords(svc: Services, t: Table, req: DownloadRequest, verifier: string, timestamp: string)
    requires Truthy(req.filepath) && CookieUser(svc, req.cookie).Some?
    ensures var c := Commit(t, DownloadFileCorrected(svc, req, verifier, timestamp));
            var user := CookieUser(svc, req.cookie).value.username;
            && c.Success?
            && c.value.0.statusCode == 307
            && Key(req.filepath.value, DownloadRecord(user, timestamp)) in c.value.1
            && c.value.1[Key(req.filepath.value, DownloadRecord(user, timestamp))] == DownloadItem(Some(user), timestamp)
  {
    var user := CookieUser(svc, req.cookie).value.username;
    var w := RecordDownload(req.filepath, Some(user), timestamp);
    assert DownloadFileCorrected(svc, req, verifier, timestamp).writes == [w];
    assert ApplyAll(t, [w]) == Apply(t, w);
  }

  /** The authorizer entry the share and upload handlers read the caller from. */
  const HandlerUserKey := "userId"

  /** The caller's id: the authorizer context entry `userKey`. */
  function Caller(req: ApiRequest, userKey: string): JsStr {
    if userKey in req.authorizerContext then Some(req.authorizerContext[userKey]) else None
  }

  /** `event.body || '{}'`: a missing or empty body reads as an empty object. */
  function BodyText(body: JsStr): string {
    if Truthy(body) then body.value else "{}"
  }

  /** The internal share endpoint, with the caller read from the authorizer
      entry `userKey`. A missing caller is a 401 before the file path is
      looked at; a missing file path a 400; an unparsable body a
      SyntaxError and a `null` body a TypeError. Otherwise the recipient's
      internal share item is put and the answer is 200 `OK`; `sendEmail` has
      no effect. */
  function ShareFile(svc: Services, req: ApiRequest, userKey: string, timestamp: string): (r: Reply<ApiResponse>)
    ensures !Truthy(Caller(req, userKey)) ==> r == Reply(Success(Respond(401, "Unauthorized", None)), [])
    ensures Truthy(Caller(req, userKey)) && !Truthy(req.filepath) ==>
              r == Reply(Success(Respond(400, "File path parameter is missing", None)), [])
    ensures Truthy(Caller(req, userKey)) && Truthy(req.filepath) ==>
              var body := svc.parseShareBody(BodyText(req.body));
              && (body.NotJson? ==> r == Reply(Failure(SyntaxError), []))
              && (body.NullJson? ==> r == Reply(Failure(TypeError), []))
              && (body.ShareFields? ==> r.result == Success(Respond(200, "OK", None)))
    ensures r.result.Failure? ==> r.writes == []
    ensures r.result.Success? && r.result.value.statusCode == 200 ==>
              && r.result.value.body == "OK"
              && svc.parseShareBody(BodyText(req.body)).ShareFields?
              && var fields := svc.parseShareBody(BodyText(req.body));
                 r.writes == [RecordShareFileRequest(
                                ShareFileRequest(req.filepath, Caller(req, userKey), fields.userId,
                                                 fields.maxNumberOfDownloads, None, None), timestamp)]
  {
    var caller := Caller(req, userKey);
    if !Truthy(caller) then Reply(Success(Respond(401, "Unauthorized", None)), [])
    else if !Truthy(req.filepath) then Reply(Success(Respond(400, "File path parameter is missing", None)), [])
    else
      match svc.parseShareBody(BodyText(req.body))
      case NotJson => Reply(Failure(SyntaxError), [])
      case NullJson => Reply(Failure(TypeError), [])
      case ShareFields(recipient, quota, _) =>
        var request := ShareFileRequest(req.filepath, caller, recipient, quota, None, None);
        Reply(Success(Respond(200, "OK", None)), [RecordShareFileRequest(request, timestamp)])
  }

  /** A successful share is committed: the recipient's share item names the
      caller as owner, carries the body's quota, and is internal, so it has
      no external URL. */
  lemma ShareFileRecords(svc: Services, t: Table, req: ApiRequest, userKey: string, timestamp: string)
    requires Truthy(Caller(req, userKey)) && Truthy(req.filepath)
    requires svc.parseShareBody(BodyText(req.body)).ShareFields?
    ensures var fields := svc.parseShareBody(BodyText(req.body));
            var c := Commit(t, ShareFile(svc, req, userKey, timestamp));
            var k := Key(req.filepath.value, ShareRecord(Show(fields.userId)));
            && c.Success?
            && c.value.0 == Respond(200, "OK", None)
            && k in c.value.1
            && c.value.1[k] == ShareItem(Caller(req, userKey), fields.userId, fields.maxNumberOfDownloads,
                                         timestamp, Internal, None)
            && GetShareExternalUrl(c.value.1, req.filepath.value, Show(fields.userId)) == None
  {
    var fields := svc.parseShareBody(BodyText(req.body));
    var request := ShareFileRequest(req.filepath, Caller(req, userKey), fields.userId, fields.maxNumberOfDownloads, None, None);
    var w := RecordShareFileRequest(request, timestamp);
    assert ApplyAll(t, [w]) == Apply(t, w);
    ShareExternalUrlRoundTrip(t, request, timestamp);
  }

  /** The upload endpoint: 401 without a caller, then 400 without a file
      path, else 200 with a presigned PUT URL for the path tagged with the caller. */
  function UploadFile(svc: Services, req: ApiRequest, userKey: string): (r: ApiResponse)
    ensures !Truthy(Caller(req, userKey)) ==> r == Respond(401, "Unauthorized", None)
    ensures Truthy(Caller(req, userKey)) && !Truthy(req.filepath) ==>
              r == Respond(400, "File path parameter is missing", None)
    ensures Truthy(Caller(req, userKey)) && Truthy(req.filepath) ==>
              r == Respond(200, svc.presign(svc.bucketName, req.filepath.value, Caller(req, userKey), PUT), None)
  {
    var caller := Caller(req, userKey);
    if !Truthy(caller) then Respond(401, "Unauthorized", None)
    else if !Truthy(req.filepath) then Respond(400, "File path parameter is missing", None)
    else Respond(200, svc.presign(svc.bucketName, req.filepath.value, caller, PUT), None)
  }

  /** The presigner is not used on the 401 and 400 paths. */
  lemma UploadRejectsBeforePresigning(svc: Services, presign: (string, string, JsStr, HttpMethod) -> string,
                                      req: ApiRequest, userKey: string)
    requires !Truthy(Caller(req, userKey)) || !Truthy(req.filepath)
    ensures UploadFile(svc.(presign := presign), req, userKey) == UploadFile(svc, req, userKey)
    ensures UploadFile(svc, req, userKey).statusCode != 200
  {
  }

  /** One record of an S3 notification: the bucket and the object key. */
  datatype ObjectRecord = ObjectRecord(bucket: string, key: string)

  /** The uploader recorded in an object's metadata, if the metadata exist. */
  function Uploader(metadata: Option<map<string, string>>): JsStr {
    match metadata
    case None => None
    case Some(m) => if "user-id" in m then Some(m["user-id"]) else None
  }

  /** The reaction to an upload: only the first record is looked at (an
      empty list is a TypeError); a rejected `HeadObject` fails the
      invocation; otherwise the object's `user-id` metadata, when truthy,
      becomes the owner of the object key. */
  function ProcessUploadEvent(svc: Services, records: seq<ObjectRecord>, timestamp: string): (r: Reply<()>)
    ensures |records| == 0 ==> r == Reply(Failure(TypeError), [])
    ensures |records| > 0 && svc.objectMetadata(records[0].bucket, records[0].key).Failure? ==>
              r == Reply(Failure(svc.objectMetadata(records[0].bucket, records[0].key).error), [])
    ensures |records| > 0 && svc.objectMetadata(records[0].bucket, records[0].key).Success? ==>
              var uploader := Uploader(svc.objectMetadata(records[0].bucket, records[0].key).value);
              && r.result.Success?
              && (|r.writes| == 1 <==> Truthy(uploader))
              && (Truthy(uploader) ==> r.writes == [RecordFileOwner(Some(records[0].key), uploader, timestamp)])
              && (!Truthy(uploader) ==> r.writes == [])
  {
    if |records| == 0 then Reply(Failure(TypeError), [])
    else
      match svc.objectMetadata(records[0].bucket, records[0].key)
      case Failure(f) => Reply(Failure(f), [])
      case Success(metadata) =>
        var uploader := Uploader(metadata);
        if Truthy(uploader) then Reply(Success(()), [RecordFileOwner(Some(records[0].key), uploader, timestamp)])
        else Reply(Success(()), [])
  }

  /** Records after the first are ignored. */
  lemma UploadEventFirstRecordOnly(svc: Services, first: ObjectRecord, rest: seq<ObjectRecord>, timestamp: string)
    ensures ProcessUploadEvent(svc, [first] + rest, timestamp) == ProcessUploadEvent(svc, [first], timestamp)
  {
  }

  /** Once the upload event is committed, the uploader may download the
      object, whatever else the table holds. */
  lemma UploaderMayDownload(svc: Services, t: Table, first: ObjectRecord, rest: seq<ObjectRecord>, timestamp: string)
    requires first.key != ""
    requires svc.objectMetadata(first.bucket, first.key).Success?
    requires Truthy(Uploader(svc.objectMetadata(first.bucket, first.key).value))
    ensures var c := Commit(t, ProcessUploadEvent(svc, [first] + rest, timestamp));
            var uploader := Uploader(svc.objectMetadata(first.bucket, first.key).value).value;
            c.Success? && IsAllowedToDownload(c.value.1, first.key, uploader)
  {
    var uploader := Uploader(svc.objectMetadata(first.bucket, first.key).value);
    var w := RecordFileOwner(Some(first.key), uploader, timestamp);
    assert ProcessUploadEvent(svc, [first] + rest, timestamp).writes == [w];
    assert ApplyAll(t, [w]) == Apply(t, w);
  }
}
