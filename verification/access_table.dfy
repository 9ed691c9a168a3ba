/** The access-record table: one DynamoDB table whose partition key is the
    file path and whose sort key (`record`) is built by concatenation:
    `<user>#OWNER`, `<user>#SHARE` and `<user>#DOWNLOAD#<timestamp>`.
    Writes are puts (last write wins); the two readers query one partition
    for the sort-key prefix `<user>#` and decide from the items returned. */
module AccessTable {
  import opened Wrappers
  import opened Text

  const OwnerTag := "OWNER"
  const ShareTag := "SHARE"
  const DownloadTag := "DOWNLOAD"

  /** A stored `maxNumberOfDownloads`: whatever JavaScript value the writer passed. */
  datatype Quota = Absent | Null | Bool(b: bool) | Number(n: int) | Str(s: string)

  datatype ShareKind = Internal | External

  datatype Key = Key(filepath: string, record: string)

  /** The non-key attributes of an item. `EventItem` is the whole download
      event that the single-function download handler stores. */
  datatype Item =
    | OwnerItem(userId: JsStr, timestamp: string)
    | ShareItem(ownerUserId: JsStr, shareUserId: JsStr, maxNumberOfDownloads: Quota,
                timestamp: string, kind: ShareKind, presignedUrl: JsStr)
    | DownloadItem(userId: JsStr, timestamp: string)
    | EventItem(id: JsStr, username: string, timestamp: string, signedUrl: string,
                cookie: JsStr, host: JsStr)

  type Table = map<Key, Item>

  /** A put request: the key attributes as the writer supplied them, and the item. */
  datatype Write = Put(filepath: JsStr, record: JsStr, item: Item)

  datatype StoreError = MissingKeyAttribute

  /** DynamoDB refuses a put whose key attribute is missing or empty. */
  predicate HasKey(w: Write) {
    Truthy(w.filepath) && Truthy(w.record)
  }

  function KeyOf(w: Write): Key
    requires HasKey(w)
  {
    Key(w.filepath.value, w.record.value)
  }

  /** Applies one put: the item under its key is replaced, every other key is untouched. */
  function Apply(t: Table, w: Write): (r: Result<Table, StoreError>)
    ensures r.Success? <==> HasKey(w)
    ensures r.Success? ==> KeyOf(w) in r.value && r.value[KeyOf(w)] == w.item
    ensures r.Success? ==> forall k :: k != KeyOf(w) ==> (k in r.value <==> k in t)
    ensures r.Success? ==> forall k :: k in t && k != KeyOf(w) ==> r.value[k] == t[k]
  {
    if HasKey(w) then Success(t[KeyOf(w) := w.item]) else Failure(MissingKeyAttribute)
  }

  /** Applies puts in order, stopping at the first one the store refuses. */
  function ApplyAll(t: Table, ws: seq<Write>): (r: Result<Table, StoreError>)
    ensures r.Success? <==> forall i :: 0 <= i < |ws| ==> HasKey(ws[i])
    decreases |ws|
  {
    if |ws| == 0 then Success(t)
    else
      match Apply(t, ws[0])
      case Failure(e) => Failure(e)
      case Success(t1) => ApplyAll(t1, ws[1..])
  }

  function OwnerRecord(userId: string): string { userId + "#" + OwnerTag }
  function ShareRecord(userId: string): string { userId + "#" + ShareTag }
  function DownloadRecord(userId: string, timestamp: string): string {
    userId + "#" + DownloadTag + "#" + timestamp
  }

  /** `recordDownload`; the ISO timestamp is a parameter. */
  function RecordDownload(filepath: JsStr, userId: JsStr, timestamp: string): Write {
    Put(filepath, Some(DownloadRecord(Show(userId), timestamp)), DownloadItem(userId, timestamp))
  }

  datatype ShareFileRequest = ShareFileRequest(
    filepath: JsStr, ownerUserId: JsStr, shareUserId: JsStr,
    maxNumberOfDownloads: Quota, kind: Option<ShareKind>, presignedUrl: JsStr)

  /** `recordShareFileRequest`: an absent `type` defaults to internal. */
  function RecordShareFileRequest(req: ShareFileRequest, timestamp: string): Write {
    Put(req.filepath, Some(ShareRecord(Show(req.shareUserId))),
        ShareItem(req.ownerUserId, req.shareUserId, req.maxNumberOfDownloads, timestamp,
                  req.kind.GetOr(Internal), req.presignedUrl))
  }

  /** `recordFileOwner`. */
  function RecordFileOwner(filepath: JsStr, userId: JsStr, timestamp: string): Write {
    Put(filepath, Some(OwnerRecord(Show(userId))), OwnerItem(userId, timestamp))
  }

  /** The fields of a sort key. */
  function RecordFields(record: string): seq<string> {
    Split(record, '#')
  }

  /** A download record names its user, its tag and its timestamp, and can
      be told apart from the owner and share records of every user. */
  lemma DownloadRecordFields(userId: string, timestamp: string)
    requires '#' !in userId && '#' !in timestamp
    ensures RecordFields(DownloadRecord(userId, timestamp)) == [userId, DownloadTag, timestamp]
  {
    assert [userId, DownloadTag, timestamp][1..] == [DownloadTag, timestamp];
    assert [DownloadTag, timestamp][1..] == [timestamp];
    assert Join([DownloadTag, timestamp], '#') == DownloadTag + "#" + timestamp;
    assert DownloadRecord(userId, timestamp) == Join([userId, DownloadTag, timestamp], '#');
    SplitJoin([userId, DownloadTag, timestamp], '#');
  }

  lemma OwnerRecordFields(userId: string)
    requires '#' !in userId
    ensures RecordFields(OwnerRecord(userId)) == [userId, OwnerTag]
  {
    assert OwnerRecord(userId) == Join([userId, OwnerTag], '#');
    SplitJoin([userId, OwnerTag], '#');
  }

  lemma ShareRecordFields(userId: string)
    requires '#' !in userId
    ensures RecordFields(ShareRecord(userId)) == [userId, ShareTag]
  {
    assert ShareRecord(userId) == Join([userId, ShareTag], '#');
    SplitJoin([userId, ShareTag], '#');
  }

  /** The query `filepath = :filepath and begins_with(record, :userId#)`, keyed by sort key. */
  function Query(t: Table, filepath: string, userId: string): (items: map<string, Item>)
    ensures forall r :: r in items <==> Key(filepath, r) in t && userId + "#" <= r
    ensures forall r :: r in items ==> items[r] == t[Key(filepath, r)]
  {
    map k | k in t.Keys && k.filepath == filepath && userId + "#" <= k.record :: k.record := t[k]
  }

  /** `items.find(r => r.record === record)`: sort keys are unique in a partition. */
  function Find(items: map<string, Item>, record: string): Option<Item> {
    if record in items then Some(items[record]) else None
  }

  /** The `maxNumberOfDownloads` attribute of an item; other item kinds lack it. */
  function QuotaOf(item: Item): Quota {
    if item.ShareItem? then item.maxNumberOfDownloads else Absent
  }

  /** JavaScript's `count < quota`: the quota is converted to a number, and
      a comparison with NaN (undefined, or non-numeric text) is false. */
  predicate BelowQuota(count: nat, q: Quota) {
    match q
    case Absent => false
    case Null => count < 0
    case Bool(b) => count < (if b then 1 else 0)
    case Number(n) => count < n
    case Str(s) =>
      match StringToNumber(s)
      case None => false
      case Some(n) => count < n
  }

  /** `items.filter(r => r.record === userId#DOWNLOAD).length`. */
  function ExactDownloadCount(items: map<string, Item>, userId: string): nat {
    |set r | r in items && r == userId + "#" + DownloadTag|
  }

  /** `isAllowedToDownload`, as written. */
  function IsAllowedToDownload(t: Table, filepath: string, userId: string): (allowed: bool)
    ensures Key(filepath, OwnerRecord(userId)) in t ==> allowed
    ensures Key(filepath, OwnerRecord(userId)) !in t && Key(filepath, ShareRecord(userId)) !in t ==> !allowed
    ensures allowed ==> Key(filepath, OwnerRecord(userId)) in t || Key(filepath, ShareRecord(userId)) in t
  {
    var items := Query(t, filepath, userId);
    assert OwnerRecord(userId) in items <==> Key(filepath, OwnerRecord(userId)) in t;
    assert ShareRecord(userId) in items <==> Key(filepath, ShareRecord(userId)) in t;
    if |items| == 0 then false
    else
      var owner := Find(items, OwnerRecord(userId));
      var share := Find(items, ShareRecord(userId));
      var downloads := ExactDownloadCount(items, userId);
      if owner.Some? then true
      else if share.None? then false
      else BelowQuota(downloads, QuotaOf(share.value))
  }

  /** The exact-match download filter finds at most the single item keyed `userId#DOWNLOAD`. */
  lemma ExactDownloadCountAtMostOne(t: Table, filepath: string, userId: string)
    ensures ExactDownloadCount(Query(t, filepath, userId), userId)
            == if Key(filepath, userId + "#" + DownloadTag) in t then 1 else 0
  {
    var items := Query(t, filepath, userId);
    var k := userId + "#" + DownloadTag;
    assert userId + "#" <= k;
    if Key(filepath, k) in t {
      assert (set r | r in items && r == k) == {k};
    } else {
      assert (set r | r in items && r == k) == {};
    }
  }

  /** Without an owner record, a share record decides by comparing the quota
      with the number of items keyed exactly `userId#DOWNLOAD` (zero or one). */
  lemma ShareQuotaDecides(t: Table, filepath: string, userId: string)
    requires Key(filepath, OwnerRecord(userId)) !in t
    requires Key(filepath, ShareRecord(userId)) in t
    ensures IsAllowedToDownload(t, filepath, userId)
            == BelowQuota(if Key(filepath, userId + "#" + DownloadTag) in t then 1 else 0,
                          QuotaOf(t[Key(filepath, ShareRecord(userId))]))
  {
    var items := Query(t, filepath, userId);
    assert ShareRecord(userId) in items;
    ExactDownloadCountAtMostOne(t, filepath, userId);
  }

  /** Whether two tables hold the same items under the three sort keys the decision reads. */
  predicate SameDecisionKeys(t: Table, t': Table, filepath: string, userId: string) {
    forall record :: record in {OwnerRecord(userId), ShareRecord(userId), userId + "#" + DownloadTag} ==>
      && (Key(filepath, record) in t <==> Key(filepath, record) in t')
      && (Key(filepath, record) in t ==> t[Key(filepath, record)] == t'[Key(filepath, record)])
  }

  /** Only the items under `userId#OWNER`, `userId#SHARE` and `userId#DOWNLOAD`
      of the queried file matter: items of other files and of other users
      (even users whose id starts with `userId#`) never change the outcome. */
  lemma DecisionIsLocal(t: Table, t': Table, filepath: string, userId: string)
    requires SameDecisionKeys(t, t', filepath, userId)
    ensures IsAllowedToDownload(t, filepath, userId) == IsAllowedToDownload(t', filepath, userId)
  {
    var o := OwnerRecord(userId);
    var s := ShareRecord(userId);
    assert Key(filepath, o) in t <==> Key(filepath, o) in t';
    assert Key(filepath, s) in t <==> Key(filepath, s) in t';
    if Key(filepath, o) !in t && Key(filepath, s) in t {
      assert t[Key(filepath, s)] == t'[Key(filepath, s)];
      assert Key(filepath, userId + "#" + DownloadTag) in t <==> Key(filepath, userId + "#" + DownloadTag) in t';
      ShareQuotaDecides(t, filepath, userId);
      ShareQuotaDecides(t', filepath, userId);
    }
  }

  /** `recordDownload` never changes the decision for its own user and file:
      its sort key `userId#DOWNLOAD#<ts>` is none of the three keys read. */
  lemma RecordedDownloadsNeverCounted(t: Table, filepath: string, userId: string, timestamp: string)
    requires filepath != ""
    ensures var w := RecordDownload(Some(filepath), Some(userId), timestamp);
            Apply(t, w).Success?
            && IsAllowedToDownload(Apply(t, w).value, filepath, userId) == IsAllowedToDownload(t, filepath, userId)
  {
    var w := RecordDownload(Some(filepath), Some(userId), timestamp);
    var d := DownloadRecord(userId, timestamp);
    var n := |userId| + 1;
    assert d[n] == 'D';
    assert OwnerRecord(userId)[n] == 'O';
    assert ShareRecord(userId)[n] == 'S';
    assert |d| > |userId + "#" + DownloadTag|;
    DecisionIsLocal(Apply(t, w).value, t, filepath, userId);
  }

  /** A second share of the same file to the same recipient replaces the first. */
  lemma ReShareOverwrites(t: Table, first: ShareFileRequest, second: ShareFileRequest, ts1: string, ts2: string)
    requires Truthy(first.filepath) && first.filepath == second.filepath
    requires first.shareUserId == second.shareUserId
    ensures var r := ApplyAll(t, [RecordShareFileRequest(first, ts1), RecordShareFileRequest(second, ts2)]);
            var k := Key(first.filepath.value, ShareRecord(Show(first.shareUserId)));
            r.Success? && k in r.value && r.value[k] == RecordShareFileRequest(second, ts2).item
  {
    var w1 := RecordShareFileRequest(first, ts1);
    var w2 := RecordShareFileRequest(second, ts2);
    var t1 := Apply(t, w1).value;
    assert ApplyAll(t, [w1, w2]) == ApplyAll(t1, [w2]);
    assert ApplyAll(t1, [w2]) == ApplyAll(Apply(t1, w2).value, []);
  }

  /** Two downloads of the same file by the same user at different times
      leave two distinct items: recording is not idempotent. */
  lemma DownloadsAccumulate(t: Table, filepath: string, userId: JsStr, ts1: string, ts2: string)
    requires filepath != "" && ts1 != ts2
    ensures var r := ApplyAll(t, [RecordDownload(Some(filepath), userId, ts1), RecordDownload(Some(filepath), userId, ts2)]);
            && r.Success?
            && Key(filepath, DownloadRecord(Show(userId), ts1)) in r.value
            && Key(filepath, DownloadRecord(Show(userId), ts2)) in r.value
            && DownloadRecord(Show(userId), ts1) != DownloadRecord(Show(userId), ts2)
  {
    var w1 := RecordDownload(Some(filepath), userId, ts1);
    var w2 := RecordDownload(Some(filepath), userId, ts2);
    var p := Show(userId) + "#" + DownloadTag + "#";
    assert DownloadRecord(Show(userId), ts1) == p + ts1;
    assert DownloadRecord(Show(userId), ts2) == p + ts2;
    assert (p + ts1)[|p|..] == ts1 && (p + ts2)[|p|..] == ts2;
    var t1 := Apply(t, w1).value;
    assert ApplyAll(t, [w1, w2]) == ApplyAll(t1, [w2]);
    assert ApplyAll(t1, [w2]) == ApplyAll(Apply(t1, w2).value, []);
  }

  /** `getShareExternalUrl`: the stored URL of an external share to `userId`. */
  function GetShareExternalUrl(t: Table, filepath: string, userId: string): (url: JsStr)
    ensures url.Some? ==> var k := Key(filepath, ShareRecord(userId));
                          k in t && t[k].ShareItem? && t[k].kind == External && url == t[k].presignedUrl
    ensures var k := Key(filepath, ShareRecord(userId));
            k in t && t[k].ShareItem? && t[k].kind == External ==> url == t[k].presignedUrl
  {
    var items := Query(t, filepath, userId);
    assert ShareRecord(userId) in items <==> Key(filepath, ShareRecord(userId)) in t;
    if |items| == 0 then None
    else
      match Find(items, ShareRecord(userId))
      case Some(item) =>
        if item.ShareItem? && item.kind == External then item.presignedUrl else None
      case None => None
  }

  /** Round trip: after recording an external share with URL `p`, the recipient's
      external URL is `p`; after an internal (or untyped) share there is none. */
  lemma ShareExternalUrlRoundTrip(t: Table, req: ShareFileRequest, timestamp: string)
    requires Truthy(req.filepath)
    ensures var t' := Apply(t, RecordShareFileRequest(req, timestamp)).value;
            GetShareExternalUrl(t', req.filepath.value, Show(req.shareUserId))
            == if req.kind == Some(External) then req.presignedUrl else None
  {
    var w := RecordShareFileRequest(req, timestamp);
    var t' := Apply(t, w).value;
    var u := Show(req.shareUserId);
    assert ShareRecord(u) in Query(t', req.filepath.value, u);
  }
  /** The download items of `userId`: every sort key that starts `userId#DOWNLOAD#`. */
  function DownloadCount(items: map<string, Item>, userId: string): nat {
    |set r | r in items && userId + "#" + DownloadTag + "#" <= r|
  }

  /** The decision `isAllowedToDownload` is evidently meant to make: the
      quota is compared with the number of downloads `recordDownload` wrote. */
  function IsAllowedToDownloadIntended(t: Table, filepath: string, userId: string): (allowed: bool)
    ensures Key(filepath, OwnerRecord(userId)) in t ==> allowed
    ensures Key(filepath, OwnerRecord(userId)) !in t && Key(filepath, ShareRecord(userId)) !in t ==> !allowed
  {
    var items := Query(t, filepath, userId);
    assert OwnerRecord(userId) in items <==> Key(filepath, OwnerRecord(userId)) in t;
    assert ShareRecord(userId) in items <==> Key(filepath, ShareRecord(userId)) in t;
    if |items| == 0 then false
    else
      var owner := Find(items, OwnerRecord(userId));
      var share := Find(items, ShareRecord(userId));
      if owner.Some? then true
      else if share.None? then false
      else BelowQuota(DownloadCount(items, userId), QuotaOf(share.value))
  }

  /** Without an owner record, the corrected decision compares the quota with
      the number of recorded downloads. */
  lemma IntendedShareDecides(t: Table, filepath: string, userId: string)
    requires Key(filepath, OwnerRecord(userId)) !in t
    requires Key(filepath, ShareRecord(userId)) in t
    ensures IsAllowedToDownloadIntended(t, filepath, userId)
            == BelowQuota(DownloadCount(Query(t, filepath, userId), userId),
                          QuotaOf(t[Key(filepath, ShareRecord(userId))]))
  {
    assert ShareRecord(userId) in Query(t, filepath, userId);
  }

  /** A put under `filepath` with a sort key starting `userId#` adds that key to the query's result. */
  lemma QueryAfterPut(t: Table, w: Write, filepath: string, userId: string)
    requires HasKey(w) && KeyOf(w).filepath == filepath && userId + "#" <= KeyOf(w).record
    ensures Query(Apply(t, w).value, filepath, userId).Keys == Query(t, filepath, userId).Keys + {KeyOf(w).record}
  {
    var t' := Apply(t, w).value;
    forall r ensures r in Query(t', filepath, userId) <==> r in Query(t, filepath, userId) || r == KeyOf(w).record {
      assert Key(filepath, r) == KeyOf(w) <==> r == KeyOf(w).record;
    }
  }

  /** Adding one key that starts with `p` to a key set adds one to the number of keys starting with `p`. */
  lemma PrefixCountAfterAdd(keys: set<string>, keys': set<string>, p: string, d: string)
    requires keys' == keys + {d} && d !in keys && p <= d
    ensures |set r | r in keys' && p <= r| == |set r | r in keys && p <= r| + 1
  {
    var before := set r | r in keys && p <= r;
    var after := set r | r in keys' && p <= r;
    assert after == before + {d};
  }

  /** Each `recordDownload` at a new timestamp adds one to the count the corrected decision uses. */
  lemma RecordDownloadCounts(t: Table, filepath: string, userId: string, timestamp: string)
    requires filepath != ""
    requires Key(filepath, DownloadRecord(userId, timestamp)) !in t
    ensures var t' := Apply(t, RecordDownload(Some(filepath), Some(userId), timestamp)).value;
            DownloadCount(Query(t', filepath, userId), userId) == DownloadCount(Query(t, filepath, userId), userId) + 1
  {
    var w := RecordDownload(Some(filepath), Some(userId), timestamp);
    var d := DownloadRecord(userId, timestamp);
    var p := userId + "#" + DownloadTag + "#";
    assert d == p + timestamp;
    assert userId + "#" <= d;
    QueryAfterPut(t, w, filepath, userId);
    var t' := Apply(t, w).value;
    var keys := Query(t, filepath, userId).Keys;
    var keys' := Query(t', filepath, userId).Keys;
    PrefixCountAfterAdd(keys, keys', p, d);
    assert (set r | r in keys && p <= r) == (set r | r in Query(t, filepath, userId) && p <= r);
    assert (set r | r in keys' && p <= r) == (set r | r in Query(t', filepath, userId) && p <= r);
  }

  /** A table holding only a share of `filepath` to `userId` with the given quota. */
  function SingleShare(filepath: string, userId: string, quota: Quota): Table {
    map[Key(filepath, ShareRecord(userId)) := ShareItem(None, Some(userId), quota, "", Internal, None)]
  }

  /** The quota text "1" reads as the number 1. */
  lemma OneAsNumber()
    ensures StringToNumber("1") == Some(1)
  {
    assert AllDigits("1");
    DigitsToNumber("1");
    assert DecimalValue("1") == 10 * DecimalValue("") + 1;
  }

  /** The record kinds of one user differ at the character after `userId#`. */
  lemma RecordKindsDiffer(userId: string, timestamp: string)
    ensures OwnerRecord(userId) != ShareRecord(userId)
    ensures DownloadRecord(userId, timestamp) != OwnerRecord(userId)
    ensures DownloadRecord(userId, timestamp) != ShareRecord(userId)
    ensures userId + "#" + DownloadTag != OwnerRecord(userId)
    ensures userId + "#" + DownloadTag != ShareRecord(userId)
    ensures !(userId + "#" + DownloadTag + "#" <= ShareRecord(userId))
  {
    var n := |userId| + 1;
    assert OwnerRecord(userId)[n] == 'O';
    assert ShareRecord(userId)[n] == 'S';
    assert DownloadRecord(userId, timestamp)[n] == 'D';
    assert (userId + "#" + DownloadTag)[n] == 'D';
    assert (userId + "#" + DownloadTag + "#")[n] == 'D';
  }

  /** The only item of a single-share table that the caller's query returns is the share. */
  lemma SingleShareQuery(filepath: string, userId: string, quota: Quota)
    ensures Query(SingleShare(filepath, userId, quota), filepath, userId).Keys == {ShareRecord(userId)}
  {
    assert userId + "#" <= ShareRecord(userId);
  }

  /** The single-share table holds the share and nothing else of the user's. */
  lemma SingleShareHolds(filepath: string, userId: string, quota: Quota, timestamp: string)
    ensures Key(filepath, ShareRecord(userId)) in SingleShare(filepath, userId, quota)
    ensures QuotaOf(SingleShare(filepath, userId, quota)[Key(filepath, ShareRecord(userId))]) == quota
    ensures Key(filepath, OwnerRecord(userId)) !in SingleShare(filepath, userId, quota)
    ensures Key(filepath, userId + "#" + DownloadTag) !in SingleShare(filepath, userId, quota)
    ensures Key(filepath, DownloadRecord(userId, timestamp)) !in SingleShare(filepath, userId, quota)
  {
    RecordKindsDiffer(userId, timestamp);
  }

  /** A share limited to one download (quota text such as "1"), then one recorded download: as written,
      another download is still allowed. */
  lemma QuotaScenarioAsWritten(filepath: string, userId: string, timestamp: string, one: string)
    requires filepath != "" && StringToNumber(one) == Some(1)
    ensures var t := SingleShare(filepath, userId, Str(one));
            IsAllowedToDownload(Apply(t, RecordDownload(Some(filepath), Some(userId), timestamp)).value, filepath, userId)
  {
    var t := SingleShare(filepath, userId, Str(one));
    SingleShareHolds(filepath, userId, Str(one), timestamp);
    RecordedDownloadsNeverCounted(t, filepath, userId, timestamp);
    assert BelowQuota(0, Str(one));
    ShareQuotaDecides(t, filepath, userId);
  }

  /** A single-share table counts no download. */
  lemma SingleShareNoDownloads(filepath: string, userId: string, quota: Quota)
    ensures DownloadCount(Query(SingleShare(filepath, userId, quota), filepath, userId), userId) == 0
  {
    SingleShareQuery(filepath, userId, quota);
    RecordKindsDiffer(userId, "");
    var p := userId + "#" + DownloadTag + "#";
    assert (set r | r in Query(SingleShare(filepath, userId, quota), filepath, userId) && p <= r) == {};
  }

  /** After one recorded download, the single-share table still holds the
      share and no owner item, and the corrected count is one. */
  lemma SingleShareAfterDownload(filepath: string, userId: string, quota: Quota, timestamp: string)
    requires filepath != ""
    ensures var t' := Apply(SingleShare(filepath, userId, quota), RecordDownload(Some(filepath), Some(userId), timestamp)).value;
            && Key(filepath, OwnerRecord(userId)) !in t'
            && Key(filepath, ShareRecord(userId)) in t'
            && QuotaOf(t'[Key(filepath, ShareRecord(userId))]) == quota
            && DownloadCount(Query(t', filepath, userId), userId) == 1
  {
    SingleShareHolds(filepath, userId, quota, timestamp);
    RecordKindsDiffer(userId, timestamp);
    SingleShareNoDownloads(filepath, userId, quota);
    RecordDownloadCounts(SingleShare(filepath, userId, quota), filepath, userId, timestamp);
  }

  /** The same sequence under the corrected decision: the download is refused. */
  lemma QuotaScenarioIntended(filepath: string, userId: string, timestamp: string, one: string)
    requires filepath != "" && StringToNumber(one) == Some(1)
    ensures var t := SingleShare(filepath, userId, Str(one));
            !IsAllowedToDownloadIntended(Apply(t, RecordDownload(Some(filepath), Some(userId), timestamp)).value, filepath, userId)
  {
    var t' := Apply(SingleShare(filepath, userId, Str(one)), RecordDownload(Some(filepath), Some(userId), timestamp)).value;
    SingleShareAfterDownload(filepath, userId, Str(one), timestamp);
    assert !BelowQuota(1, Str(one));
    RefusedAtQuota(t', filepath, userId);
  }

  /** A recipient whose recorded downloads have reached the quota is refused by the corrected decision. */
  lemma RefusedAtQuota(t: Table, filepath: string, userId: string)
    requires Key(filepath, OwnerRecord(userId)) !in t
    requires Key(filepath, ShareRecord(userId)) in t
    requires !BelowQuota(DownloadCount(Query(t, filepath, userId), userId), QuotaOf(t[Key(filepath, ShareRecord(userId))]))
    ensures !IsAllowedToDownloadIntended(t, filepath, userId)
  {
    IntendedShareDecides(t, filepath, userId);
  }

}
