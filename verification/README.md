# serverless-file-share: access control and request pipeline

This project models the core of serverless-file-share in Dafny. The system lets
users upload files to a private S3 bucket and share them. It is built from:

- a cookie-based Lambda authorizer in front of an API Gateway;
- the PKCE login flow against a Cognito hosted UI: login redirect, authorization-code
  callback, logout;
- a DynamoDB table `DownloadTable` keyed by (`filepath`, `record`). It holds
  `<user>#OWNER`, `<user>#SHARE` and `<user>#DOWNLOAD#<timestamp>` items;
- the access decision `isAllowedToDownload` and the external-share lookup
  `getShareExternalUrl`;
- two Step Functions express workflows, *download* and *share*, whose steps pass one
  event object along and whose final output API Gateway turns into an HTTP response;
- the single-function handlers: download, share, upload, processUploadEvent.

Modelling choices:

- **Values.** A JavaScript value that may be `undefined` is a `JsStr`
  (`Option<string>`). `Truthy` is JavaScript truthiness for such a value. `Show` is
  template-literal interpolation, where `undefined` becomes the text `"undefined"`.
- **Handlers as functions.** Every Lambda handler is a pure function. A handler that
  writes to the table returns a `Reply`: its result together with the puts it issues.
  `Events.Commit` applies the puts to a `Table` (`map<Key, Item>`). A put whose key
  attribute is missing or empty is refused, and so is the whole reply.
- **Outside services.** Everything the handlers call outside themselves is a
  function-valued field of `Events.Services`:
  - the S3 presigner and `getSignedUrl`;
  - the Cognito user lookup and the token exchange;
  - the S256 challenge;
  - the `URLSearchParams` encoder;
  - the object-metadata lookup;
  - the logout and redirect URI builders;
  - the cookie extraction of the single-function download handler;
  - `JSON.parse` of the share body.
- **Fresh values.** The fresh verifier (`uuid()`) and the ISO timestamp are parameters.
- **Workflows.** The two workflows are functions from the initial payload to an
  `Execution`. An `Execution` is either the output, the list of states visited and the
  final table, or an abort.

Modules:

- `Wrappers`: `Option` and `Result`.
- `Text`: the JavaScript string operations used (split, trim, indexOf, number
  parsing).
- `QueryString`: `URLSearchParams` serialisation and parsing.
- `Json`: `JSON.stringify` of a string.
- `Auth`: `utilities/auth.ts` and the cookie headers.
- `AccessTable`: `utilities/dynamodb.ts`.
- `Events`: the event and response shapes.
- `DownloadSteps` and `ShareSteps`: the workflow steps.
- `FileHandlers`: download.ts, share.ts, upload.ts and processUploadEvent.ts.
- `SessionHandlers`: the authorizer, login, callback and logout.
- `Pipeline`: the workflows of `lib/stack.ts` and the API Gateway integration response.

Points where the code does something other than its own names and comments suggest,
which the model follows:

- **Quotas.** `isAllowedToDownload` counts a user's downloads with
  `record === userId + '#DOWNLOAD'` (src/utilities/dynamodb.ts:125), but
  `recordDownload` writes `userId#DOWNLOAD#<timestamp>` (line 37). No recorded download
  is ever counted (Findings, row 1).
- **The `state` parameter.** The authorization URL carries no `state`: its creation and
  its entry in the parameters are commented out (src/utilities/auth.ts:45 and 55),
  although download/process.ts:31 says the file path is passed as state.
  `Auth.AuthUrlCarriesChallenge` proves there is none.
- **Validation steps.** The download workflow validates with `download/process.ts`
  (lib/stack.ts:198), and `download/start.ts` is not wired into it. The share workflow
  validates with `external_share/process.ts` (lib/stack.ts:175). `download/start.ts` is
  still modelled, and `DownloadSteps.StartAgreesWithProcess` relates the two.
- **Login redirect.** The download and share routes sit behind the custom authorizer
  (lib/stack.ts:458 and 476), which refuses every caller without a session
  (src/functions/authorizer.ts:37-50). An unauthenticated request is answered by the
  gateway and never reaches the Validate step's redirect to the login page
  (Findings, row 4).
- **Deny policy.** The authorizer's deny policy uses the effect `deny` in lower case.
  The model keeps that literal.

## Model

| member | source | states |
|---|---|---|
| Text.Split | src/utilities/auth.ts:29 | `String.prototype.split` on one character: the pieces hold no separator, there is at least one, and joining them gives back the input |
| Text.SplitJoin | src/utilities/auth.ts:29-32 | splitting a join of separator-free pieces gives back exactly those pieces |
| Text.Trim | src/utilities/auth.ts:30 | `trim()` is the input with white space, and only white space, cut from both ends, and none left at either end |
| Text.TrimUnique | src/utilities/auth.ts:30 | only one string is the input cut down that way, so `trim()` is determined by that description |
| Text.IndexOf | src/utilities/auth.ts:32 | the first occurrence of a character, or none exactly when it is absent |
| Text.DigitsToNumber | src/utilities/dynamodb.ts:137 | JavaScript's string-to-number conversion reads a decimal numeral as its value |
| Text.NumberStringRoundTrip | src/functions/external_share/record.ts:18 | `Number.prototype.toString` of an integer converts back to the same number |
| QueryString.ParseSerialize | src/utilities/auth.ts:57-58 | parsing a `URLSearchParams` serialisation gives back every encoded pair, in order |
| Json.QuoteRoundTrip | src/functions/authCallback.ts:22 | `JSON.stringify` of a string is a JSON string literal that decodes back to the same string |
| Auth.GetRedirectUri | src/utilities/auth.ts:21-24 | the callback address is an https URL from which the request's domain name can be read back |
| Auth.GetCookie | src/utilities/auth.ts:26-37 | a cookie value is found exactly when some `;` segment, once trimmed, starts with `name=`; the value holds no `=` |
| Auth.SegmentValue | src/utilities/auth.ts:32 | `split('=')[1]` is defined exactly when the segment holds an `=`, and it is the text after the first `=` up to the next `=` or the end |
| Auth.SegmentValueTruncates | src/utilities/auth.ts:32 | in `a=v=rest`, with no `=` in `a` or `v`, the value read is `v`: a value holding `=` is cut short |
| Auth.GetCookieCutsValue | src/utilities/auth.ts:26-37 | in a header built from browser cookies whose values may hold `=`, `getCookie` answers the first pair with that name, its value cut at its first `=`, and undefined when there is none (for names without `=`) |
| Auth.GetCookieTruncates | src/utilities/auth.ts:26-37 | a cookie stored as `v=w` reads back as `v` alone |
| Auth.GetCookieFromHeader | src/utilities/auth.ts:26-37 | in a header built from plain name/value pairs, `getCookie` answers the value of the first pair with that name, and undefined when there is none |
| Auth.GenerateAuthUrl | src/utilities/auth.ts:39-64 | the authorization URL is the hosted-UI authorize endpoint followed by a query, and the verifier handed back is the one the challenge was made from |
| Auth.AuthUrlParameters | src/utilities/auth.ts:48-58 | the URL's query parses back to the six encoded parameters in source order |
| Auth.AuthUrlCarriesChallenge | src/utilities/auth.ts:39-64 | the URL carries the verifier's S256 challenge, the callback address and the method `S256`, and has no `state` |
| Auth.VerifierCookieStores | src/functions/download/process.ts:39 | the `code_verifier` cookie stores the verifier with the attributes `Path=/`, `Secure`, `HttpOnly`, `SameSite=Lax`; the login variant has no `Path` |
| Auth.AccessTokenCookieStores | src/functions/authCallback.ts:34 | the session cookie stores the access token with `Secure`, `HttpOnly`, `SameSite=Strict` |
| Auth.ExpiredAccessTokenCookieStores | src/functions/logout.ts:22 | the logout cookie empties `access_token` and dates it at the epoch, so the browser drops it |
| Auth.ExpiredVerifierCookieStores | src/functions/authCallback.ts:35 | the clearing cookie empties `code_verifier`, keeps its Lax attributes and dates it at the epoch |
| AccessTable.Apply | lib/stack.ts:63-66 | a put succeeds exactly when both key attributes are present and non-empty; it sets that key's item and leaves every other key as it was |
| AccessTable.ApplyAll | lib/stack.ts:63-66 | a batch of puts succeeds exactly when every put has its key |
| AccessTable.DownloadRecordFields | src/utilities/dynamodb.ts:37 | a download record splits on `#` into the user, `DOWNLOAD` and the timestamp |
| AccessTable.OwnerRecordFields | src/utilities/dynamodb.ts:88 | an owner record splits on `#` into the user and `OWNER` |
| AccessTable.ShareRecordFields | src/utilities/dynamodb.ts:64 | a share record splits on `#` into the user and `SHARE` |
| AccessTable.Query | src/utilities/dynamodb.ts:103-116 | the key-condition query returns the file's items whose record begins with `<user>#`, with their stored attributes, all of them read as one result |
| AccessTable.IsAllowedToDownload | src/utilities/dynamodb.ts:102-138 | an owner is always allowed; a caller with neither an owner nor a share item is refused; anyone allowed holds one of the two |
| AccessTable.ShareQuotaDecides | src/utilities/dynamodb.ts:123-137 | for a recipient who is not the owner, the decision is "the exact-match download count is below the stored quota", under JavaScript's `<` |
| AccessTable.ExactDownloadCountAtMostOne | src/utilities/dynamodb.ts:125 | the exact-equality filter counts at most one item, `<user>#DOWNLOAD`, which no writer creates |
| AccessTable.DecisionIsLocal | src/utilities/dynamodb.ts:102-138 | the decision depends only on the caller's items for that file |
| AccessTable.RecordedDownloadsNeverCounted | src/utilities/dynamodb.ts:31-47 | recording a download never changes the decision for that user and file (as written) |
| AccessTable.DownloadsAccumulate | src/utilities/dynamodb.ts:31-47 | two downloads at different instants leave two distinct items |
| AccessTable.ReShareOverwrites | src/utilities/dynamodb.ts:51-79 | sharing a file again with the same recipient overwrites the earlier share item |
| AccessTable.GetShareExternalUrl | src/utilities/dynamodb.ts:141-172 | the answer is the presigned URL of the recipient's share item when that item is of kind external, and a URL is answered from no other item |
| AccessTable.ShareExternalUrlRoundTrip | src/utilities/dynamodb.ts:51-79 | after a share is recorded, the external-URL lookup returns its presigned URL if the share is external and nothing otherwise; an absent type means internal |
| AccessTable.IsAllowedToDownloadIntended | src/utilities/dynamodb.ts:125 | corrected decision: an owner is allowed and a stranger refused |
| AccessTable.IntendedShareDecides | src/utilities/dynamodb.ts:123-137 | corrected decision for a recipient: every `<user>#DOWNLOAD#…` item counts against the quota |
| AccessTable.QueryAfterPut | src/utilities/dynamodb.ts:103-116 | a put under the caller's prefix adds exactly its record to what the query returns |
| AccessTable.RecordDownloadCounts | src/utilities/dynamodb.ts:31-47 | under the corrected count, each new download raises the count by one |
| AccessTable.QuotaScenarioAsWritten | src/utilities/dynamodb.ts:125 | with a share quota of 1 and one download already recorded, the as-written check still allows a download |
| AccessTable.QuotaScenarioIntended | src/utilities/dynamodb.ts:125 | in the same situation the corrected check refuses |
| Events.WithHeader | src/functions/download/process.ts:20-22 | an undefined header value is dropped from the serialised headers; every other header is kept |
| Events.Commit | src/utilities/dynamodb.ts:31-47 | a step's reply succeeds exactly when its result does and the table accepts all its puts; it then yields the result and the updated table |
| DownloadSteps.ProcessDownload | src/functions/download/process.ts:10-47 | only the response context changes. A valid request passes through. A missing path gives 400 with the trace id. A missing user overrides that with a 302 whose headers are only the verifier cookie, the authorization URL and the trace id, and whose body is still the missing-path JSON |
| DownloadSteps.StartDownload | src/functions/download/start.ts:10-50 | resets to a bare 200; a missing path gives 400 with no headers; a missing user gives a 302 whose headers are exactly the verifier cookie and the authorization URL, with no trace id, and whose body is still the missing-path JSON |
| DownloadSteps.RecordStep | src/functions/download/record.ts:10-20 | one download put for the payload's file and user, keyed `<user>#DOWNLOAD#<ts>`; the payload passes through |
| DownloadSteps.UrlStep | src/functions/download/url.ts:11-28 | a 307 whose only header is `Location`, set to the presigned GET URL for the file tagged with the user; body empty |
| DownloadSteps.CompleteDownload | src/functions/download/complete.ts:10-16 | the HTTP response takes the status and headers of the response context; an undefined body becomes empty |
| DownloadSteps.ProcessIdempotent | src/functions/download/process.ts:10-47 | validating twice with the same verifier answers as validating once |
| DownloadSteps.StartAgreesWithProcess | src/functions/download/start.ts:13-45 | both validation steps fail the same requests with the same status, body and headers, apart from the trace header |
| DownloadSteps.RedirectPairsVerifier | src/functions/download/process.ts:27-44 | the redirect's cookie stores the very verifier whose challenge the Location URL carries, with the callback of the caller's domain |
| DownloadSteps.RecordStepUnconditional | src/functions/download/record.ts:10-20 | the record step does not look at the response context |
| DownloadSteps.RecordStepAccumulates | src/functions/download/record.ts:14 | two record steps leave two download items; with no file path the store refuses the put |
| DownloadSteps.UrlStepDropsEarlierResponse | src/functions/download/url.ts:19-25 | nothing from the earlier response survives the URL step |
| DownloadSteps.CompleteReadsOnlyResponse | src/functions/download/complete.ts:10-16 | the HTTP response depends on the response context alone |
| ShareSteps.ShareProcess | src/functions/external_share/process.ts:10-34 | only the response context changes; a present user passes through; a missing user gets the same response as the download validation (also `share/process.ts:10-34`, which is identical) |
| ShareSteps.QuotaText | src/functions/external_share/record.ts:18 | `toString()` throws on undefined and null; a string is kept; a number becomes a numeral that reads back as that number |
| ShareSteps.ShareRecordStep | src/functions/external_share/record.ts:10-27 | fails with a TypeError and no write exactly when the quota is undefined or null; otherwise one write, and the payload passes through |
| ShareSteps.ShareRecordRoundTrip | src/functions/external_share/record.ts:14-21 | after the step, the recipient's share item names the caller as owner and is external, a numeric quota reads back as itself, and `getShareExternalUrl` returns the payload's URL |
| ShareSteps.ShareRecordLastWins | src/functions/external_share/record.ts:14-21 | recording the same share twice leaves the table as recording it once at the later instant |
| FileHandlers.DownloadFile | src/functions/download.ts:29-93 | missing path: 400, no write. No user for the cookie's token: 302 to login with the verifier cookie. Otherwise a 307 to a 30-second signed URL and one put of the event, carrying the user, URL and timestamp |
| FileHandlers.DownloadFileChecksPathFirst | src/functions/download.ts:32-39 | without a path, neither the cookie nor Cognito is consulted |
| FileHandlers.DownloadFileIgnoresTable | src/functions/download.ts:66-92 | an authenticated caller gets the 307 without any access-table check |
| FileHandlers.DownloadFileRejected | src/functions/download.ts:76-79 | as written, the put of an authenticated download has no `record` key, so the table refuses it and the handler fails |
| FileHandlers.DownloadFileCorrected | src/functions/download.ts:29-93 | corrected handler: the same responses, and the same number of writes |
| FileHandlers.DownloadFileCorrectedRecords | src/functions/download.ts:76-79 | the corrected put is accepted and leaves a `<user>#DOWNLOAD#<ts>` item for the file |
| FileHandlers.ShareFile | src/functions/share.ts:10-53 | no caller: 401. No path: 400. With both, a body that is not JSON is a SyntaxError and a `null` body a TypeError, neither with a write; a parsed body gives 200 "OK". A 200 writes exactly one internal share for the caller with the body's recipient and quota |
| FileHandlers.ShareFileRecords | src/functions/share.ts:34-52 | after a share, the recipient's item holds the caller as owner, the quota, kind internal, and no external URL |
| FileHandlers.UploadFile | src/functions/upload.ts:10-45 | no caller: 401. No path: 400. Otherwise 200 with a presigned PUT URL for the path, tagged with the caller |
| FileHandlers.UploadRejectsBeforePresigning | src/functions/upload.ts:17-31 | a refused upload never calls the presigner and is never a 200 |
| FileHandlers.ProcessUploadEvent | src/functions/processUploadEvent.ts:11-26 | no record: TypeError. A rejected `HeadObject` fails the invocation with no write. Otherwise the owner item is written exactly when the first object's metadata has a truthy `user-id` |
| FileHandlers.UploadEventFirstRecordOnly | src/functions/processUploadEvent.ts:12-13 | records after the first are ignored |
| FileHandlers.UploaderMayDownload | src/functions/processUploadEvent.ts:18-25 | after an upload event whose `HeadObject` answers with a `user-id`, the uploader is allowed to download the object |
| SessionHandlers.Authorize | src/functions/authorizer.ts:10-51 | one statement on the method ARN, version 2012-10-17. Allows exactly when the `access_token` cookie names a Cognito user, with that user as principal and as context `username`. Otherwise a lower-case deny with an empty principal |
| SessionHandlers.AuthorizeWithoutToken | src/functions/authorizer.ts:11-16 | without a token, Cognito is not consulted and the answer is deny |
| SessionHandlers.AuthorizeReadsFirstToken | src/functions/authorizer.ts:11-16 | the decision follows the first `access_token` pair of the cookie header; an empty value denies |
| SessionHandlers.IntegrationCaller | src/functions/share.ts:15 | behind the authorizer, the handler's `userId` lookup finds nothing while `username` finds the user |
| SessionHandlers.HandlersRejectAuthorizedCaller | src/functions/share.ts:15-22 | as written, share and upload answer 401 to every caller the authorizer allowed |
| SessionHandlers.HandlersAcceptAuthorizedCaller | src/functions/upload.ts:15-44 | reading `username` instead, an allowed caller can share and upload as themselves |
| SessionHandlers.Login | src/functions/login.ts:10-26 | a 302 with an empty body and exactly the headers `Set-Cookie` and `Location`, the latter at the authorize endpoint |
| SessionHandlers.LoginHandsOverVerifier | src/functions/login.ts:11-22 | the login cookie stores the verifier without `Path`, and `Location` carries its challenge and the callback of the caller's domain |
| SessionHandlers.CallbackExchange | src/functions/authCallback.ts:11-26 | the exchange is attempted exactly when both `code` and the `code_verifier` cookie are present, with those values and the callback address |
| SessionHandlers.AuthCallback | src/functions/authCallback.ts:10-39 | 200 exactly when the exchange happens and answers. Without a code or a verifier, a 404 echoing whichever was there. A rejected exchange fails the invocation. On 200 the body is the token response, and two cookies set the access token and clear the verifier |
| SessionHandlers.CallbackWithoutParams | src/functions/authCallback.ts:19-24 | without both parameters the token endpoint is not called |
| SessionHandlers.CallbackSetsSession | src/functions/authCallback.ts:29-38 | the callback's cookies store the access token (Strict) and an expired, empty verifier (Lax) |
| SessionHandlers.CallbackReadsLoginCookie | src/functions/authCallback.ts:17 | the callback reads back the verifier the login cookie stored |
| SessionHandlers.LoginCallbackRoundTrip | src/functions/login.ts:11-22 | PKCE round trip: the callback exchanges the code with the login's verifier and the login's callback address, and the login URL carried that verifier's challenge and that address |
| SessionHandlers.Logout | src/functions/logout.ts:10-28 | a 302 to the Cognito logout URL with the client id and logout address; `Set-Cookie` is its only multi-value header |
| SessionHandlers.ParseTwoPairs | src/functions/logout.ts:12 | a two-parameter query without `&` or `=` in its parts parses back to its two pairs |
| SessionHandlers.LogoutQueryParameters | src/functions/logout.ts:12 | the logout query parses back to `client_id` and `logout_uri` when neither contains `&` or `=` |
| SessionHandlers.LogoutClearsSession | src/functions/logout.ts:20-25 | logout empties both cookies and dates them at the epoch, keeping each one's SameSite policy |
| Pipeline.DownloadPayload | lib/stack.ts:343-359 | the Validate Download payload takes the user from the authorizer's principal, the path parameter and the trace header, with a default 200 response |
| Pipeline.DownloadAlwaysCompletes | lib/stack.ts:379-393 | every download execution completes, visiting either Validate→Complete or Validate→Eligible→Record→URL→Complete; Complete runs once, last |
| Pipeline.DownloadGranted | lib/stack.ts:379-393 | with a path and a user, the output is a 307 to the presigned URL, and the table gains exactly the download item |
| Pipeline.DownloadRefused | lib/stack.ts:379-393 | for a download execution without a path or a user, the table is untouched and the output is the validation response: 302 without a user, 400 otherwise. Through the deployed route the user is always present |
| Pipeline.SharePayload | lib/stack.ts:289-307 | the Validate Share payload takes the user, URL, recipient e-mail and download count from the request, with a default 200 response |
| Pipeline.ShareRefused | lib/stack.ts:327-333 | a share execution started without a user goes straight to Complete, with the login redirect and no write. The gated route never starts one |
| Pipeline.ShareRecordedTwice | lib/stack.ts:314-331 | the Notify Share state runs the record function again. A valid share passes through Validate, URL, Record, Notify and Complete. The table equals one record at the later instant, and the external URL reads back |
| Pipeline.RedirectReplyHeaders | lib/stack.ts:433-437 | a redirect reply always has exactly content type `text/html`, `Set-Cookie` and `Location`. Each of the last two is the output's header, or the unresolved rendering when the output lacks it |
| Pipeline.WebIntegrationResponse | lib/stack.ts:405-444 | no mapping outside 2xx, 4xx and 5xx. 4xx gives 400 with the fixed bad-request body. 5xx or a failed execution gives 500 with an error body. A completed execution gets its own status. A 302 or 307 gets the redirect headers and a body of the template's blanks. Any other status gets the JSON text of the Complete step's output inside the template's blanks |
| Pipeline.ReplyBodyIsOutputJson | lib/stack.ts:423-442 | with a blank layout, a non-redirect reply's body trims to exactly the output's JSON, and a redirect's body trims to nothing |
| Pipeline.DownloadLoginRedirect | lib/stack.ts:433-437 | a download execution started without a user is mapped to a 302 whose cookie holds the verifier whose challenge the Location URL carries. The deployed route never starts one |
| Pipeline.DownloadRedirectsToFile | lib/stack.ts:433-437 | a granted download is mapped to a 307 to the presigned URL. Its `Set-Cookie` is the unresolved rendering, since the output sets no cookie |
| Pipeline.DownloadRoute | lib/stack.ts:463-480 | the gateway refuses the call exactly when the authorizer's policy does not allow it. Otherwise the execution runs with the user the authorizer named |
| Pipeline.AnonymousDownloadRefused | src/functions/authorizer.ts:11-50 | a caller without a resolvable `access_token` is refused before any execution, so the Validate step's login redirect is not reached |
| Pipeline.DownloadRouteIntended | src/functions/download/process.ts:26-44 | the intended route always starts the execution, and agrees with the deployed one for every allowed caller |
| Pipeline.AnonymousDownloadLogsIn | src/functions/download/process.ts:26-44 | through the intended route, a caller without a session gets the 302 to the login URL with the matching verifier cookie |

## Left out

- I/O and the AWS SDK are not modelled. S3 presigning, `getSignedUrl`, `headObject`, the
  Cognito `getUser` call and the token endpoint `fetch` are function parameters
  (`Events.Services`). `uuid()` and `new Date().toISOString()` become parameters.
- Of the external calls, only the token exchange and `HeadObject` can reject in the model
  (`Fault.ServiceRejected`, or a SyntaxError from `response.json()`); the callback and the
  upload-event handler propagate that failure. `getUserDetailsViaAccessToken` is not part
  of this model: it is a total function whose `None` covers every token it does not
  resolve, so a Cognito error that would throw is not modelled. S3 presigning and
  `getSignedUrl` are total: a signing failure (missing credentials) is not modelled.
- The SHA-256/base64url challenge and percent-encoding are opaque functions. Only their
  injectivity (`QueryString.FormEncoder`) is assumed where a round trip needs it.
- `external_share/url.ts` is a parameter of `Pipeline.RunShare`.
  `external_share/notify.ts` and `external_share/complete.ts` are not part of this
  model. The completion step is a parameter. The Notify state runs the record
  function, as `lib/stack.ts:318-321` wires it.
- `download/eligible.ts` and `share/url.ts` return their input unchanged. They are the
  identity (`Pipeline.Eligible`).
- `logoutCallback.ts`, `myFunction.ts`, `AthenaView.ts` and the rest of the CDK stack
  (buckets, CloudFront, IAM, the Athena view) are not part of this model.
- The middy middleware (logger, tracer, metrics) and `metrics.addMetric` have no effect
  on results and are dropped.
- Concurrency between workflow executions is not modelled. Each execution is a function
  of the table it starts from.
- Step Functions failures when a JsonPath field is missing (`stringAt` on an absent
  header or parameter) are not modelled. An absent value is carried as undefined.
- The VTL rendering of an absent header (`"$root.headers.Set-Cookie"` with no such
  header) and the exact blanks of the template's layout are parameters
  (`Pipeline.TemplateRendering`). The text of the 500 error body is not modelled: only
  its shape (`Pipeline.Body.ExecutionError`) is. `JSON.stringify` of the Complete
  step's output is a parameter.
- The status and body the gateway answers a refused authorizer call with (a 403 for a
  deny policy; the lower-case `deny` effect) are not modelled: `Pipeline.RouteOutcome`
  only records that no execution starts. The share route's gating is not modelled
  separately; it is the same authorizer.
- `JSON.parse` of the share body is an opaque parameter that either yields the fields or
  fails with a SyntaxError.
- AccessTable.IsAllowedToDownload: JavaScript's `count < maxNumberOfDownloads` is
  modelled for integers, booleans, null, undefined and strings of optional sign and
  decimal digits (after trimming). Other numeric spellings (hex, exponents,
  fractions, `Infinity`) count as NaN, so the result is deny. Fractional numbers are
  not modelled.
- AccessTable.Query: the source sends one `query` call (src/utilities/dynamodb.ts:116 and
  :155) and never follows `LastEvaluatedKey`, so DynamoDB returns at most the first 1 MB
  page of the partition, in ascending order of `record`. The model returns every matching
  item. AccessTable.IsAllowedToDownload and AccessTable.GetShareExternalUrl inherit this:
  `<user>#DOWNLOAD#<ts>` items sort before `<user>#OWNER` and `<user>#SHARE`, so after
  enough downloads the owner or share item can fall off the page. The deployed code would
  then refuse the owner and answer no URL, where the model allows and answers. Item sizes
  and the page bound are not modelled.
- ShareSteps.QuotaText: `Number.prototype.toString` is modelled for integers only.
- The DynamoDB 400 KB item limit, attribute types and conditional-write behaviour are
  not modelled. Only the key-attribute rule is (a put without a non-empty `filepath`
  and `record` is refused).

## Findings

| source | as written | input that shows it | evidently intended | confidence | as-written member | corrected member |
|---|---|---|---|---|---|---|
| src/utilities/dynamodb.ts:125 | downloads are counted with `record === userId + '#DOWNLOAD'`, but `recordDownload` writes `userId#DOWNLOAD#<timestamp>` (line 37), so the count is always 0 | a share item with `maxNumberOfDownloads` "1" and one recorded download: the next `isAllowedToDownload` is still true | count the items whose record starts with `userId#DOWNLOAD#` | not executed; high | AccessTable.QuotaScenarioAsWritten | AccessTable.QuotaScenarioIntended |
| src/functions/download.ts:76-79 | the whole event is put as the item, with no `record` attribute, while the table's sort key is `record` (lib/stack.ts:65) | any authenticated download with a non-empty path: DynamoDB refuses the put and the handler throws instead of answering 307 | record the download under `<user>#DOWNLOAD#<timestamp>`, as `recordDownload` does | not executed; high | FileHandlers.DownloadFileRejected | FileHandlers.DownloadFileCorrectedRecords |
| src/functions/share.ts:15 | the handlers read `requestContext.authorizer.userId`, but the authorizer's context holds only `username` (authorizer.ts:30-32), beside the `principalId` API Gateway adds | a caller with a valid `access_token` cookie: share.ts and upload.ts answer 401 | read the entry the authorizer sets (`username`, or `principalId`) | not executed; medium (share.ts and upload.ts are not wired in lib/stack.ts) | SessionHandlers.HandlersRejectAuthorizedCaller | SessionHandlers.HandlersAcceptAuthorizedCaller |
| lib/stack.ts:463-480 | the download route is gated by the custom authorizer, which denies every caller without a session (src/functions/authorizer.ts:37-50), so the Validate step's "no valid user: redirect to login page" branch (src/functions/download/process.ts:26-44) is unreachable | a browser with no `access_token` cookie opening `/download/<file>`: the gateway refuses it instead of redirecting to the hosted login | let a caller without a session reach the workflow without a user, so that it is sent to the login page with the verifier cookie | not executed; low (the authorizer may be the intended gate and the redirect a leftover) | Pipeline.AnonymousDownloadRefused | Pipeline.AnonymousDownloadLogsIn |
