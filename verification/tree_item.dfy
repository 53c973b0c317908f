/**
 * The rename state of one row of the scene tree: whether the row is being
 * edited and the draft name typed so far. Submitting reports a rename to the
 * caller only for a non-blank draft that differs, once trimmed, from the
 * row's current name.
 */
module TreeItem {
  import opened Wrappers
  import opened Text

  /** The rename a submitted draft asks for: the trimmed draft, when non-empty and different. */
  function RenameOf(draft: string, initialName: string): (r: Option<string>)
    ensures r.Some? <==> Trim(draft) != "" && Trim(draft) != initialName
    ensures r.Some? ==> r.value == Trim(draft)
  {
    var trimmed := Trim(draft);
    if trimmed != "" && trimmed != initialName then Some(trimmed) else None
  }

  /** A string with no white space at either end is its own trimmed form. */
  lemma TrimmedIsFixed(t: string)
    requires t != "" ==> !IsSpace(t[0]) && !IsSpace(t[|t| - 1])
    ensures Trim(t) == t
  {
    assert TrimStart(t) == t;
    if t != "" {
      assert TrimEnd(t) == t;
    }
  }

  /**
   * A name reported by a rename, typed again as the draft of the renamed row,
   * asks for nothing: renaming is stable.
   */
  lemma RenameStable(draft: string, initialName: string)
    requires RenameOf(draft, initialName).Some?
    ensures RenameOf(RenameOf(draft, initialName).value, RenameOf(draft, initialName).value) == None
  {
    TrimmedIsFixed(Trim(draft));
  }

  /** The state kept by `useTreeItem` for one row. */
  class TreeItem {
    /** The row's name when the hook was rendered. */
    const initialName: string
    var isEditing: bool
    var editingName: string

    constructor(initialName: string)
      ensures this.initialName == initialName
      ensures !isEditing && editingName == initialName
    {
      this.initialName := initialName;
      isEditing := false;
      editingName := initialName;
    }

    /** Typing into the rename box. */
    method SetEditingName(s: string)
      modifies this`editingName
      ensures editingName == s
    {
      editingName := s;
    }

    /** `startEditing`: editing, with the draft reset to the row's name. */
    method StartEditing()
      modifies this`isEditing, this`editingName
      ensures isEditing && editingName == initialName
    {
      isEditing := true;
      editingName := initialName;
    }

    /** `cancelEditing`: no longer editing, with the draft restored. */
    method CancelEditing()
      modifies this`isEditing, this`editingName
      ensures !isEditing && editingName == initialName
    {
      isEditing := false;
      editingName := initialName;
    }

    /** `submitRename`: the `onUpdate({name})` call it makes, if any; editing always ends. */
    method SubmitRename() returns (rename: Option<string>)
      modifies this`isEditing
      ensures rename == RenameOf(editingName, initialName)
      ensures !isEditing && editingName == old(editingName)
    {
      var trimmed := Trim(editingName);
      if trimmed != "" && trimmed != initialName {
        rename := Some(trimmed);
      } else {
        rename := None;
      }
      isEditing := false;
    }

    /** `handleKeyDown`: Enter submits, Escape cancels, any other key changes nothing. */
    method HandleKeyDown(key: string) returns (rename: Option<string>)
      modifies this`isEditing, this`editingName
      ensures key == "Enter" ==> rename == RenameOf(old(editingName), initialName) && !isEditing && editingName == old(editingName)
      ensures key == "Escape" ==> rename == None && !isEditing && editingName == initialName
      ensures key != "Enter" && key != "Escape" ==> rename == None && isEditing == old(isEditing) && editingName == old(editingName)
    {
      rename := None;
      if key == "Enter" {
        rename := SubmitRename();
      } else if key == "Escape" {
        CancelEditing();
      }
    }
  }
}
