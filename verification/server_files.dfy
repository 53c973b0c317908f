/**
 * What the server's services share: an uploaded multipart file, the
 * `uploads` directory as a map from file name to contents, and the suffix
 * rule both services apply to an uploaded file's original name.
 */
module ServerFiles {
  import opened Wrappers
  import opened Text

  /** An uploaded part: its original file name (possibly missing) and its bytes. */
  datatype MultipartFile = MultipartFile(originalFilename: Option<string>, content: seq<bv8>)

  /** `MultipartFile.isEmpty()`: no bytes were sent. */
  predicate IsEmpty(f: MultipartFile)
  {
    |f.content| == 0
  }

  /** Why an upload is refused: an empty file, or a file name with no dot (`substring(-1)` throws). */
  datatype UploadError = EmptyFile | NoExtension

  /** The url prefix, and directory, of uploaded files. */
  const UploadsPrefix := "/uploads/"

  /** The server's `uploads` directory. */
  class UploadDir {
    var files: map<string, seq<bv8>>

    constructor ()
      ensures files == map[]
    {
      files := map[];
    }
  }

  /**
   * `name.substring(name.lastIndexOf(".")).toLowerCase()`: from the last dot
   * on, lower-cased; `None` where Java throws because the name has no dot.
   */
  function SuffixOf(name: string): (r: Option<string>)
    ensures r.None? <==> '.' !in name
    ensures r.Some? ==> |r.value| >= 1 && r.value[0] == '.'
  {
    var i := LastIndexOf(name, '.');
    if i < 0 then None else Some(Lower(name[i..]))
  }

  /** The suffix of a name ending in `.<ext>` is `.<ext>`, lower-cased. */
  lemma SuffixAfterLastDot(stem: string, ext: string)
    requires '.' !in ext
    ensures SuffixOf(stem + "." + ext) == Some(Lower("." + ext))
  {
    var name := stem + "." + ext;
    assert name[|stem|] == '.';
    assert forall j :: |stem| < j < |name| ==> name[j] == ext[j - |stem| - 1];
    assert LastIndexOf(name, '.') == |stem|;
    assert name[|stem|..] == "." + ext;
  }

  /** The suffix of an uploaded file, with `default` when it has no original name. */
  function FileSuffix(f: MultipartFile, default: string): Option<string>
  {
    if f.originalFilename.Some? then SuffixOf(f.originalFilename.value) else Some(default)
  }
}
