/**
 * The asset service's request building and record normalisation: query
 * defaults, the search text sent as `name`, string ids, thumbnails addressed
 * through the server's base URL unless already absolute, and the parts of
 * an upload form.
 */
module ApiAsset {
  import opened Wrappers
  import opened Text
  import opened Json

  const DefaultPage: int := 1
  const DefaultPageSize: int := 12

  /** The caller's query (`AssetQueryParams`); a page number or size of 0 counts as not given. */
  datatype AssetQuery = AssetQuery(categoryId: Option<string>, search: Option<string>, current: Option<int>, size: Option<int>)

  /** The query string parameters sent to the server. */
  datatype RequestParams = RequestParams(name: Option<string>, categoryId: Option<string>, current: int, size: int)

  /** An asset row as the server sends it. */
  datatype ServerAsset = ServerAsset(id: int, thumbnail: Option<string>, url: string, rest: Dict<Json>)

  /** An asset as the editor holds it. */
  datatype Asset = Asset(id: string, thumbnail: Option<string>, url: string, rest: Dict<Json>)

  /** `x || d` for an optional number. */
  function OrDefault(x: Option<int>, d: int): int
  {
    if x.Some? && x.value != 0 then x.value else d
  }

  /** The parameters `queryAssets` sends. */
  function QueryParams(q: AssetQuery): (r: RequestParams)
    ensures r.name == q.search && r.categoryId == q.categoryId
    ensures q.current.None? || q.current == Some(0) ==> r.current == DefaultPage
    ensures q.size.None? || q.size == Some(0) ==> r.size == DefaultPageSize
    ensures q.current.Some? && q.current.value != 0 ==> r.current == q.current.value
    ensures q.size.Some? && q.size.value != 0 ==> r.size == q.size.value
  {
    RequestParams(q.search, q.categoryId, OrDefault(q.current, DefaultPage), OrDefault(q.size, DefaultPageSize))
  }

  /** `thumbnail && (thumbnail.startsWith('http') ? thumbnail : baseUrl + thumbnail)` */
  function AssetThumbnail(thumbnail: Option<string>, baseUrl: string): (r: Option<string>)
    ensures thumbnail.None? || thumbnail == Some("") ==> r == thumbnail
    ensures thumbnail.Some? && StartsWith(thumbnail.value, "http") ==> r == thumbnail
    ensures thumbnail.Some? && thumbnail.value != "" && !StartsWith(thumbnail.value, "http") ==> r == Some(baseUrl + thumbnail.value)
  {
    if thumbnail.None? || thumbnail.value == "" then thumbnail
    else if StartsWith(thumbnail.value, "http") then thumbnail
    else Some(baseUrl + thumbnail.value)
  }

  /** One record of `queryAssets`' page: the id stringified, the url as sent. */
  function AssetRecord(item: ServerAsset, baseUrl: string): (r: Asset)
    ensures r.url == item.url && r.rest == item.rest && r.id == IntToString(item.id)
    ensures r.thumbnail == AssetThumbnail(item.thumbnail, baseUrl)
  {
    Asset(IntToString(item.id), AssetThumbnail(item.thumbnail, baseUrl), item.url, item.rest)
  }

  /** `queryAssets`' records, none when the page has no list. */
  function QueryRecords(records: Option<seq<ServerAsset>>, baseUrl: string): (r: seq<Asset>)
    ensures records.None? ==> r == []
    ensures records.Some? ==> |r| == |records.value|
    ensures records.Some? ==> forall i :: 0 <= i < |r| ==> r[i] == AssetRecord(records.value[i], baseUrl)
    decreases if records.Some? then |records.value| else 0
  {
    if records.None? || |records.value| == 0 then []
    else [AssetRecord(records.value[0], baseUrl)] + QueryRecords(Some(records.value[1..]), baseUrl)
  }

  /** A thumbnail made absolute once stays as it is: normalising twice is normalising once when the base URL is absolute. */
  lemma ThumbnailIdempotent(thumbnail: Option<string>, baseUrl: string)
    requires StartsWith(baseUrl, "http")
    ensures AssetThumbnail(AssetThumbnail(thumbnail, baseUrl), baseUrl) == AssetThumbnail(thumbnail, baseUrl)
  {
    if thumbnail.Some? && thumbnail.value != "" && !StartsWith(thumbnail.value, "http") {
      var t := baseUrl + thumbnail.value;
      assert t[..4] == baseUrl[..4];
    }
  }

  /** The names of the parts of the upload form, in order. */
  function UploadParts(hasThumbnail: bool): (r: seq<string>)
    ensures |r| >= 3 && r[..3] == ["file", "name", "categoryId"]
    ensures "thumbnail" in r <==> hasThumbnail
  {
    ["file", "name", "categoryId"] + (if hasThumbnail then ["thumbnail"] else [])
  }
}
