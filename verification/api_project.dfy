/**
 * The project service's record normalisation: ids become strings, uploaded
 * thumbnails are addressed through the server's base URL, a project without
 * a thumbnail shows the placeholder image, and tags arrive as a list.
 */
module ApiProject {
  import opened Wrappers
  import opened Text
  import opened Json

  const UploadsPrefix: string := "/uploads/"
  const PlaceholderThumb: string := "/images/project_thumb.png"

  /** The `tags` the server sends: none, a comma-separated string, or already a list. */
  datatype ServerTags = NoTags | TagString(s: string) | TagList(items: seq<string>)

  /** A project row as the server sends it; `rest` holds the fields passed through unchanged. */
  datatype ServerProject = ServerProject(id: int, thumbnail: Option<string>, tags: ServerTags, rest: Dict<Json>)

  /** A project as the editor holds it. */
  datatype Project = Project(id: string, thumbnail: string, tags: seq<string>, rest: Dict<Json>)

  /** `thumbnail?.startsWith('/uploads/') ? baseUrl + thumbnail : (thumbnail || placeholder)` */
  function ThumbnailUrl(thumbnail: Option<string>, baseUrl: string): (r: string)
    ensures thumbnail.Some? && StartsWith(thumbnail.value, UploadsPrefix) ==> r == baseUrl + thumbnail.value
    ensures thumbnail.None? || thumbnail == Some("") ==> r == PlaceholderThumb
    ensures thumbnail.Some? && thumbnail.value != "" && !StartsWith(thumbnail.value, UploadsPrefix) ==> r == thumbnail.value
  {
    if thumbnail.Some? && StartsWith(thumbnail.value, UploadsPrefix) then baseUrl + thumbnail.value
    else if thumbnail.Some? && thumbnail.value != "" then thumbnail.value
    else PlaceholderThumb
  }

  /** `tags ? (typeof tags === 'string' ? tags.split(',') : tags) : []`: empty pieces are kept. */
  function TagsOf(tags: ServerTags): (r: seq<string>)
    ensures tags.NoTags? || tags == TagString("") ==> r == []
    ensures tags.TagList? ==> r == tags.items
    ensures tags.TagString? && tags.s != "" ==> r == Split(tags.s, ',')
  {
    match tags
    case NoTags => []
    case TagString(s) => if s == "" then [] else Split(s, ',')
    case TagList(items) => items
  }

  /** One record of `getProjects`' page. */
  function PageRecord(item: ServerProject, baseUrl: string): (r: Project)
    ensures r.rest == item.rest
  {
    Project(IntToString(item.id), ThumbnailUrl(item.thumbnail, baseUrl), TagsOf(item.tags), item.rest)
  }

  /** `getProjects`: the page's records, none when the page has no list. */
  function GetProjects(records: Option<seq<ServerProject>>, baseUrl: string): (r: seq<Project>)
    ensures records.None? ==> r == []
    ensures records.Some? ==> |r| == |records.value|
  {
    if records.None? then []
    else seq(|records.value|, i requires 0 <= i < |records.value| => PageRecord(records.value[i], baseUrl))
  }

  /** `getById`, which writes the same three rules out again. */
  function GetById(item: ServerProject, baseUrl: string): (r: Project)
    ensures r.rest == item.rest
  {
    Project(
      IntToString(item.id),
      if item.thumbnail.Some? && StartsWith(item.thumbnail.value, UploadsPrefix) then baseUrl + item.thumbnail.value
      else if item.thumbnail.Some? && item.thumbnail.value != "" then item.thumbnail.value
      else PlaceholderThumb,
      match item.tags
      case NoTags => []
      case TagString(s) => if s == "" then [] else Split(s, ',')
      case TagList(items) => items,
      item.rest)
  }

  /** The list and the detail views normalise a project identically. */
  lemma SameNormalisation(records: seq<ServerProject>, baseUrl: string, i: nat)
    requires i < |records|
    ensures GetProjects(Some(records), baseUrl)[i] == GetById(records[i], baseUrl)
  {
  }

  /** A tag string with an empty piece keeps it: `"a,,b"` gives three tags. */
  lemma EmptyTagKept()
    ensures TagsOf(TagString("a,,b")) == ["a", "", "b"]
  {
    assert Join(["a", "", "b"], ',') == "a,,b";
    SplitJoin(["a", "", "b"], ',');
  }

  /** Tags saved as a comma-joined string of comma-free tags load back as the same list. */
  lemma TagsRoundTrip(tags: seq<string>)
    requires |tags| >= 1 && tags[0] != ""
    requires forall k, i :: 0 <= k < |tags| && 0 <= i < |tags[k]| ==> tags[k][i] != ','
    ensures TagsOf(TagString(Join(tags, ','))) == tags
  {
    JoinNonEmpty(tags, ',');
    SplitJoin(tags, ',');
  }
}
