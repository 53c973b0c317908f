/**
 * The asset upload dialog: picking a file (its extension chooses the
 * category and its name the default asset name), waiting for a cover image
 * of a 3D model, and submitting the upload. File contents, object urls and
 * the thumbnail renderer are outside the model; a file is its name, and the
 * upload's success is an input.
 */
module AssetUploadModal {
  import opened Wrappers
  import opened Text

  /** The dialog's steps. */
  datatype Step = SelectFile | FillForm | Done

  /** The category ids. */
  const Model := "model"
  const Texture := "texture"
  const Hdr := "hdr"
  const Video := "video"
  const Other := "other"

  predicate IsCategory(c: string)
  {
    c == Model || c == Texture || c == Hdr || c == Video || c == Other
  }

  /** `EXTENSION_MAP[ext] || 'other'` */
  function CategoryFor(ext: string): (r: string)
    ensures IsCategory(r)
    ensures r == Model <==> ext in [".glb", ".gltf", ".obj", ".fbx", ".stl"]
    ensures r == Texture <==> ext in [".jpg", ".jpeg", ".png", ".webp", ".gif"]
    ensures r == Hdr <==> ext in [".hdr", ".exr"]
    ensures r == Video <==> ext in [".mp4", ".webm", ".mov"]
  {
    if ext == ".glb" || ext == ".gltf" || ext == ".obj" || ext == ".fbx" || ext == ".stl" then Model
    else if ext == ".jpg" || ext == ".jpeg" || ext == ".png" || ext == ".webp" || ext == ".gif" then Texture
    else if ext == ".hdr" || ext == ".exr" then Hdr
    else if ext == ".mp4" || ext == ".webm" || ext == ".mov" then Video
    else Other
  }

  /**
   * `name.substring(name.lastIndexOf('.')).toLowerCase()`: from the last dot
   * on, lower-cased; a name without a dot is taken whole.
   */
  function ExtensionOf(name: string): (r: string)
    ensures |r| <= |name|
  {
    var i := LastIndexOf(name, '.');
    Lower(if i < 0 then name else name[i..])
  }

  /** The extension is what follows the last dot, whatever the stem holds. */
  lemma ExtensionAfterLastDot(stem: string, ext: string)
    requires '.' !in ext
    ensures ExtensionOf(stem + "." + ext) == Lower("." + ext)
  {
    var name := stem + "." + ext;
    var i := LastIndexOf(name, '.');
    assert name[|stem|] == '.';
    assert forall j :: |stem| < j < |name| ==> name[j] == ext[j - |stem| - 1];
    assert i == |stem|;
    assert name[i..] == "." + ext;
  }

  /** The extension is compared without regard to case. */
  lemma UpperCaseModel(stem: string)
    ensures CategoryFor(ExtensionOf(stem + ".GLB")) == Model
  {
    ExtensionAfterLastDot(stem, "GLB");
    assert stem + "." + "GLB" == stem + ".GLB";
    assert Lower("B") == "b";
    assert Lower("LB") == "lb";
    assert Lower("GLB") == "glb";
    assert Lower(".GLB") == ".glb";
  }

  /** `name.split('.')[0]`: the name up to its first dot. */
  function DefaultName(name: string): (r: string)
    ensures '.' !in r
  {
    Split(name, '.')[0]
  }

  /** The default name is the part before the first dot. */
  lemma DefaultNameIsStem(stem: string, rest: string)
    requires '.' !in stem
    ensures DefaultName(stem + "." + rest) == stem
  {
    SplitAfterPiece(stem, '.', rest);
  }

  /** What `onUpload` receives. */
  datatype UploadRequest = UploadRequest(name: string, categoryId: string, file: string, thumbnail: Option<string>)

  class Dialog {
    var file: Option<string>
    var thumbnail: Option<string>
    var category: string
    var step: Step
    var uploading: bool
    /** The form's name field. */
    var name: string

    /** Past the file step there is a file. */
    predicate Valid()
      reads this
    {
      step != SelectFile ==> file.Some?
    }

    constructor ()
      ensures Valid()
      ensures file.None? && thumbnail.None? && category == Model && step == SelectFile && !uploading && name == ""
    {
      file := None;
      thumbnail := None;
      category := Model;
      step := SelectFile;
      uploading := false;
      name := "";
    }

    /**
     * `handleFileChange`: a picked file replaces the old one, drops the old
     * cover, sets the category from its extension and the name from its stem,
     * and moves to the form; no file changes nothing.
     */
    method HandleFileChange(selected: Option<string>)
      requires Valid()
      modifies this`file, this`thumbnail, this`category, this`name, this`step
      ensures Valid()
      ensures selected.None? ==>
        (file == old(file) && thumbnail == old(thumbnail) && category == old(category) && name == old(name) && step == old(step))
      ensures selected.Some? ==>
        (file == selected && thumbnail.None? && step == FillForm &&
         category == CategoryFor(ExtensionOf(selected.value)) && name == DefaultName(selected.value))
      ensures selected.Some? && category == Model ==> SubmitDisabled()
    {
      if selected.Some? {
        file := selected;
        thumbnail := None;
        var ext := ExtensionOf(selected.value);
        category := CategoryFor(ext);
        name := DefaultName(selected.value);
        step := FillForm;
      }
    }

    /** The cover image the renderer (or the user) supplies. */
    method CaptureThumbnail(f: string)
      modifies this`thumbnail
      ensures thumbnail == Some(f)
    {
      thumbnail := Some(f);
    }

    /** The category picker. */
    method SetCategory(c: string)
      modifies this`category
      ensures category == c
    {
      category := c;
    }

    /** The back button of the form. */
    method BackToSelect()
      requires Valid()
      modifies this`step
      ensures Valid() && step == SelectFile
    {
      step := SelectFile;
    }

    /** The submit button is disabled while a model has no cover image. */
    predicate SubmitDisabled()
      reads this
    {
      category == Model && thumbnail.None?
    }

    /**
     * `onFinish`: without a file nothing is sent. Otherwise the upload is
     * sent with the form's name and category and the cover, if any; a
     * successful upload moves to the success step, a failed one stays.
     */
    method OnFinish(uploadOk: bool) returns (request: Option<UploadRequest>)
      requires Valid()
      modifies this`step, this`uploading
      ensures Valid()
      ensures file.Some? ==> !uploading
      ensures file.None? ==> uploading == old(uploading)
      ensures request.None? <==> file.None?
      ensures request.Some? ==> request.value == UploadRequest(name, category, file.value, thumbnail)
      ensures file.None? ==> step == old(step)
      ensures file.Some? ==> step == (if uploadOk then Done else old(step))
    {
      if file.None? {
        return None;
      }
      uploading := true;
      request := Some(UploadRequest(name, category, file.value, thumbnail));
      if uploadOk {
        step := Done;
      }
      uploading := false;
    }

    /** `reset`: back to an empty dialog on the file step. */
    method Reset()
      modifies this`file, this`thumbnail, this`step
      ensures Valid() && file.None? && thumbnail.None? && step == SelectFile
    {
      file := None;
      thumbnail := None;
      step := SelectFile;
    }
  }
}
