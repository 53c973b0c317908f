/**
 * The server's asset service: storing an uploaded asset file (and its cover
 * image) under a random name in the `uploads` directory, recording the asset
 * row, classifying the file by its suffix, and the filter of the asset list.
 * Random UUIDs are parameters; the database table is a sequence of rows with
 * the next auto-increment id.
 */
module AssetService {
  import opened Wrappers
  import opened Text
  import opened ServerFiles
  import AssetUploadModal

  /** An `asset` row. */
  datatype AssetRow = AssetRow(
    id: int,
    name: Option<string>,
    assetType: string,
    url: string,
    thumbnail: Option<string>,
    categoryId: Option<string>,
    size: int)

  /** `determineType(suffix)` */
  function DetermineType(suffix: string): (r: string)
    ensures r in ["model", "image", "video", "hdr", "other"]
    ensures r == "model" <==> suffix in [".gltf", ".glb", ".obj", ".fbx", ".stl"]
    ensures r == "image" <==> suffix in [".jpg", ".jpeg", ".png", ".webp", ".gif"]
    ensures r == "video" <==> suffix in [".mp4", ".webm", ".mov"]
    ensures r == "hdr" <==> suffix in [".hdr", ".exr"]
  {
    if suffix in [".gltf", ".glb", ".obj", ".fbx", ".stl"] then "model"
    else if suffix in [".jpg", ".jpeg", ".png", ".webp", ".gif"] then "image"
    else if suffix in [".mp4", ".webm", ".mov"] then "video"
    else if suffix in [".hdr", ".exr"] then "hdr"
    else "other"
  }

  /**
   * The server's type agrees with the category the upload dialog picks for
   * the same suffix, except that the dialog's `texture` is the server's
   * `image`.
   */
  lemma TypeMatchesDialogCategory(suffix: string)
    ensures DetermineType(suffix) ==
      var c := AssetUploadModal.CategoryFor(suffix);
      if c == AssetUploadModal.Texture then "image" else c
  {
  }

  /** A file name with a dot gets the same suffix on the server as in the dialog. */
  lemma SuffixMatchesDialog(name: string)
    requires '.' in name
    ensures SuffixOf(name) == Some(AssetUploadModal.ExtensionOf(name))
  {
  }

  /** The stored name of the main file. */
  function MainFileName(uuid: string, suffix: string): string
  {
    uuid + suffix
  }

  /** The stored name of a cover image. */
  function ThumbFileName(uuid: string, suffix: string): (r: string)
    ensures StartsWith(r, "thumb_")
  {
    "thumb_" + uuid + suffix
  }

  /** A cover image is stored when one was sent with some bytes. */
  predicate HasThumb(thumbnail: Option<MultipartFile>)
  {
    thumbnail.Some? && !IsEmpty(thumbnail.value)
  }

  /** The url of a stored file. */
  function UploadUrl(fileName: string): (r: string)
    ensures StartsWith(r, UploadsPrefix) && r[|UploadsPrefix|..] == fileName
  {
    UploadsPrefix + fileName
  }

  /** A row's file, and its cover image if it has one, are uploads present in `files`. */
  predicate RowStored(row: AssetRow, files: map<string, seq<bv8>>)
  {
    StartsWith(row.url, UploadsPrefix) && row.url[|UploadsPrefix|..] in files &&
    (row.thumbnail.Some? ==>
      StartsWith(row.thumbnail.value, UploadsPrefix) && row.thumbnail.value[|UploadsPrefix|..] in files)
  }

  class AssetServiceImpl {
    const dir: UploadDir
    var rows: seq<AssetRow>
    var nextId: int

    /** Every recorded asset's file, and cover image if it has one, is in the directory. */
    predicate Valid()
      reads this, dir
    {
      forall i :: 0 <= i < |rows| ==> RowStored(rows[i], dir.files)
    }

    constructor (dir: UploadDir)
      ensures this.dir == dir && rows == [] && nextId == 1 && Valid()
    {
      this.dir := dir;
      rows := [];
      nextId := 1;
    }

    /** The stored asset's directory entries hold after more files are stored. */
    lemma GrowKeepsValid(before: map<string, seq<bv8>>)
      requires forall i :: 0 <= i < |rows| ==> RowStored(rows[i], before)
      requires before.Keys <= dir.files.Keys
      ensures Valid()
    {
    }

    /**
     * `uploadAsset`: an empty file is refused before anything is written; a
     * named file without a dot is refused before anything is written too. The
     * file is then stored under `<uuid><suffix>`. A cover image with bytes is
     * stored next under `thumb_<uuid><suffix>` (suffix `.png` when it has no
     * name); a named cover without a dot is refused after the main file was
     * written. Otherwise the asset row is saved and returned.
     */
    method UploadAsset(file: MultipartFile, thumbnail: Option<MultipartFile>, name: Option<string>, category: Option<string>,
                       uuid: string, thumbUuid: string)
      returns (r: Result<AssetRow, UploadError>)
      requires Valid()
      modifies dir`files, this`rows, this`nextId
      ensures Valid()
      ensures IsEmpty(file) ==> r == Err(EmptyFile)
      ensures !IsEmpty(file) && FileSuffix(file, "").None? ==> r == Err(NoExtension)
      ensures IsEmpty(file) || FileSuffix(file, "").None? ==>
        dir.files == old(dir.files) && rows == old(rows) && nextId == old(nextId)
      ensures !IsEmpty(file) && FileSuffix(file, "").Some? && HasThumb(thumbnail) && FileSuffix(thumbnail.value, ".png").None? ==>
        r == Err(NoExtension) && rows == old(rows) && nextId == old(nextId) &&
        dir.files == old(dir.files)[MainFileName(uuid, FileSuffix(file, "").value) := file.content]
      ensures r.Ok? ==>
        var suffix := FileSuffix(file, "").value;
        rows == old(rows) + [r.value] && nextId == old(nextId) + 1 &&
        r.value == AssetRow(old(nextId), name, DetermineType(suffix), UploadUrl(MainFileName(uuid, suffix)),
          if HasThumb(thumbnail) then Some(UploadUrl(ThumbFileName(thumbUuid, FileSuffix(thumbnail.value, ".png").value))) else None,
          category, |file.content|) &&
        dir.files == if HasThumb(thumbnail)
          then old(dir.files)[MainFileName(uuid, suffix) := file.content]
                             [ThumbFileName(thumbUuid, FileSuffix(thumbnail.value, ".png").value) := thumbnail.value.content]
          else old(dir.files)[MainFileName(uuid, suffix) := file.content]
      ensures r.Err? ==> rows == old(rows)
    {
      if IsEmpty(file) {
        return Err(EmptyFile);
      }
      var suffix := FileSuffix(file, "");
      if suffix.None? {
        return Err(NoExtension);
      }
      var before := dir.files;
      var fileName := MainFileName(uuid, suffix.value);
      dir.files := dir.files[fileName := file.content];
      var asset := AssetRow(0, name, DetermineType(suffix.value), UploadUrl(fileName), None, category, |file.content|);
      if HasThumb(thumbnail) {
        var thumbSuffix := FileSuffix(thumbnail.value, ".png");
        if thumbSuffix.None? {
          GrowKeepsValid(before);
          return Err(NoExtension);
        }
        var thumbFileName := ThumbFileName(thumbUuid, thumbSuffix.value);
        dir.files := dir.files[thumbFileName := thumbnail.value.content];
        asset := asset.(thumbnail := Some(UploadUrl(thumbFileName)));
      }
      asset := asset.(id := nextId);
      GrowKeepsValid(before);
      assert RowStored(asset, dir.files);
      rows := rows + [asset];
      nextId := nextId + 1;
      r := Ok(asset);
    }
  }

  /** The conditions `getAssetPage` puts on the query: a name substring and a category. */
  datatype AssetQuery = AssetQuery(nameLike: Option<string>, categoryEq: Option<string>)

  /** `getAssetPage`'s filter: blank names and a blank or `all` category add no condition. */
  function PageQuery(name: Option<string>, categoryId: Option<string>): (r: AssetQuery)
    ensures r.nameLike.Some? <==> name.Some? && name.value != ""
    ensures r.nameLike.Some? ==> r.nameLike == name
    ensures r.categoryEq.Some? <==> categoryId.Some? && categoryId.value != "" && categoryId.value != "all"
    ensures r.categoryEq.Some? ==> r.categoryEq == categoryId
  {
    AssetQuery(
      if name.Some? && name.value != "" then name else None,
      if categoryId.Some? && categoryId.value != "" && categoryId.value != "all" then categoryId else None)
  }

  /** Whether the query selects a row: `name LIKE '%<text>%'`, and the category. */
  predicate Selects(q: AssetQuery, row: AssetRow)
  {
    (q.nameLike.Some? ==> row.name.Some? && Like(row.name.value, "%" + q.nameLike.value + "%")) &&
    (q.categoryEq.Some? ==> row.categoryId == q.categoryEq)
  }

  /** With no name and the `all` category every asset is listed. */
  lemma AllCategorySelectsEverything(row: AssetRow)
    ensures Selects(PageQuery(None, Some("all")), row)
    ensures Selects(PageQuery(Some(""), None), row)
  {
  }

  /**
   * A named search lists only assets whose name matches `%<text>%`; when the
   * text holds no wildcard, those are the assets whose name contains it.
   */
  lemma NameSearchNarrows(name: string, categoryId: Option<string>, row: AssetRow)
    requires name != ""
    requires Selects(PageQuery(Some(name), categoryId), row)
    ensures row.name.Some? && Like(row.name.value, "%" + name + "%")
    ensures Literal(name) ==> Contains(row.name.value, name)
  {
    if Literal(name) {
      LikeContains(row.name.value, name);
    }
  }

  /** With no category, a search for wildcard-free text lists exactly the assets whose name contains it. */
  lemma NameSearchExact(name: string, row: AssetRow)
    requires name != "" && Literal(name)
    ensures Selects(PageQuery(Some(name), None), row) <==> row.name.Some? && Contains(row.name.value, name)
  {
    if row.name.Some? {
      LikeContains(row.name.value, name);
    }
  }

  /** `_` in the search text is a wildcard: searching `a_c` lists an asset named `abc`. */
  lemma UnderscoreMatchesAnyChar(row: AssetRow)
    requires row.name == Some("abc")
    ensures Selects(PageQuery(Some("a_c"), None), row) && !Contains("abc", "a_c")
  {
    assert "%" + "a_c" + "%" == "%a_c%";
    assert Like("", "%");
    assert Like("abc", "a_c%");
    assert !StartsWith("abc", "a_c") && !StartsWith("bc", "a_c") && !StartsWith("c", "a_c") && !StartsWith("", "a_c");
  }
}
