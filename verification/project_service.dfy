/**
 * The server's project service: replacing a project's cover image (store
 * the new file, point the project row at it, then delete the old cover when
 * it is an uploaded file) and the filter of the project list. The random
 * UUID is a parameter; the table is a map from id to the live (not
 * logically deleted) rows.
 */
module ProjectService {
  import opened Wrappers
  import opened Text
  import opened ServerFiles

  /** A `project` row, with the fields the service touches. */
  datatype ProjectRow = ProjectRow(name: Option<string>, thumbnail: Option<string>)

  /** The stored name of a project cover: `project_<id>_<first 8 of the uuid><suffix>`. */
  function CoverFileName(id: int, uuid: string, suffix: string): (r: string)
    requires |uuid| >= 8
    ensures StartsWith(r, "project_")
  {
    "project_" + IntToString(id) + "_" + uuid[..8] + suffix
  }

  /** The file name an old cover url names, when it is an uploaded file. */
  function OldCoverFile(oldThumbnail: Option<string>): (r: Option<string>)
    ensures r.Some? ==> oldThumbnail.Some? && oldThumbnail.value == UploadsPrefix + r.value
    ensures r.None? ==> oldThumbnail.None? || !StartsWith(oldThumbnail.value, UploadsPrefix)
  {
    if oldThumbnail.Some? && StartsWith(oldThumbnail.value, UploadsPrefix) then
      assert oldThumbnail.value == UploadsPrefix + oldThumbnail.value[|UploadsPrefix|..];
      Some(oldThumbnail.value[|UploadsPrefix|..])
    else None
  }

  /** The directory after the old cover, if it is a stored upload, is deleted. */
  function WithoutOldCover(files: map<string, seq<bv8>>, oldThumbnail: Option<string>): (r: map<string, seq<bv8>>)
    ensures OldCoverFile(oldThumbnail).None? ==> r == files
    ensures OldCoverFile(oldThumbnail).Some? ==> r == files - {OldCoverFile(oldThumbnail).value}
  {
    var prev := OldCoverFile(oldThumbnail);
    if prev.Some? && prev.value in files then files - {prev.value} else files
  }

  class ProjectServiceImpl {
    const dir: UploadDir
    var projects: map<int, ProjectRow>

    constructor (dir: UploadDir, projects: map<int, ProjectRow>)
      ensures this.dir == dir && this.projects == projects
    {
      this.dir := dir;
      this.projects := projects;
    }

    /**
     * `uploadThumbnail(id, file)`: an empty file is refused and a named file
     * without a dot throws, both before anything is written. Otherwise the
     * file is stored as `project_<id>_<8 chars><suffix>` (suffix `.png` for a
     * nameless file), the project's row, if there is one, points at it, the
     * previous cover is deleted when it was an uploaded file, and the new url
     * is returned — also for a project that does not exist.
     */
    method UploadThumbnail(id: int, file: MultipartFile, uuid: string) returns (r: Result<string, UploadError>)
      requires |uuid| >= 8
      modifies dir`files, this`projects
      ensures IsEmpty(file) ==> r == Err(EmptyFile)
      ensures !IsEmpty(file) && FileSuffix(file, ".png").None? ==> r == Err(NoExtension)
      ensures r.Err? ==> dir.files == old(dir.files) && projects == old(projects)
      ensures r.Ok? <==> !IsEmpty(file) && FileSuffix(file, ".png").Some?
      ensures r.Ok? ==>
        var fileName := CoverFileName(id, uuid, FileSuffix(file, ".png").value);
        var oldThumbnail := if id in old(projects) then old(projects)[id].thumbnail else None;
        r.value == UploadsPrefix + fileName &&
        projects == (if id in old(projects) then old(projects)[id := old(projects)[id].(thumbnail := Some(r.value))] else old(projects)) &&
        dir.files == WithoutOldCover(old(dir.files)[fileName := file.content], oldThumbnail)
    {
      if IsEmpty(file) {
        return Err(EmptyFile);
      }
      var oldProject := if id in projects then Some(projects[id]) else None;
      var oldThumbnail := if oldProject.Some? then oldProject.value.thumbnail else None;
      var suffix := FileSuffix(file, ".png");
      if suffix.None? {
        return Err(NoExtension);
      }
      var fileName := CoverFileName(id, uuid, suffix.value);
      dir.files := dir.files[fileName := file.content];
      var url := UploadsPrefix + fileName;
      if id in projects {
        projects := projects[id := projects[id].(thumbnail := Some(url))];
      }
      if oldThumbnail.Some? && StartsWith(oldThumbnail.value, UploadsPrefix) {
        var oldFileName := oldThumbnail.value[|UploadsPrefix|..];
        if oldFileName in dir.files {
          dir.files := dir.files - {oldFileName};
        }
      }
      r := Ok(url);
    }
  }

  /** After a cover upload the project's cover url names a file that is in the directory, unless it was the old cover's own name. */
  lemma NewCoverStored(files: map<string, seq<bv8>>, fileName: string, content: seq<bv8>, oldThumbnail: Option<string>)
    requires OldCoverFile(oldThumbnail) != Some(fileName)
    ensures var after := WithoutOldCover(files[fileName := content], oldThumbnail);
      fileName in after && after[fileName] == content
  {
  }

  /** A cover that is not an uploaded file (a built-in image) is never deleted. */
  lemma ExternalCoverKept(files: map<string, seq<bv8>>, oldThumbnail: string)
    requires !StartsWith(oldThumbnail, UploadsPrefix)
    ensures WithoutOldCover(files, Some(oldThumbnail)) == files
  {
  }

  /** Only the old cover's file goes; every other stored file stays. */
  lemma OnlyOldCoverDeleted(files: map<string, seq<bv8>>, oldThumbnail: Option<string>, k: string)
    requires k in files && OldCoverFile(oldThumbnail) != Some(k)
    ensures k in WithoutOldCover(files, oldThumbnail) && WithoutOldCover(files, oldThumbnail)[k] == files[k]
  {
  }

  /** `getProjectPage`'s filter: a name substring, unless the name is missing or blank. */
  function PageNameLike(name: Option<string>): (r: Option<string>)
    ensures r.Some? <==> name.Some? && name.value != ""
    ensures r.Some? ==> r == name
  {
    if name.Some? && name.value != "" then name else None
  }

  /** Whether the filter selects a row: `name LIKE '%<text>%'`. */
  predicate Selects(nameLike: Option<string>, row: ProjectRow)
  {
    nameLike.Some? ==> row.name.Some? && Like(row.name.value, "%" + nameLike.value + "%")
  }

  /** A search for wildcard-free text lists exactly the projects whose name contains it. */
  lemma NameSearchContains(name: string, row: ProjectRow)
    requires name != "" && Literal(name)
    ensures Selects(PageNameLike(Some(name)), row) <==> row.name.Some? && Contains(row.name.value, name)
  {
    if row.name.Some? {
      LikeContains(row.name.value, name);
    }
  }

  /** A blank search lists every project. */
  lemma BlankSearchSelectsAll(row: ProjectRow)
    ensures Selects(PageNameLike(None), row) && Selects(PageNameLike(Some("")), row)
  {
  }
}
