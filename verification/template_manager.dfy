/**
 * The label-template manager dialog: its editing session (which template is
 * being edited, and the form holding the edited copy), the defaults of a new
 * template, field list edits, and saving the form through the template
 * service into the store. The service call and the clock are inputs: the
 * saved record (or the failure) and the current time in milliseconds.
 */
module TemplateManager {
  import opened Wrappers
  import opened Text
  import opened Scene
  import opened EditorStore
  import opened ObjectDataBinding
  import opened TemplatePreview

  /** The `editingId` that stands for a template not yet saved. */
  const NewId := "new"

  const NewHtmlHead := "<div class=\"custom-label\">\n  "
  const NewHtmlTail := "\n</div>"
  const NewCss := ".custom-label {\n  background: #333;\n  padding: 8px;\n  border-radius: 4px;\n  color: white;\n}"

  /** The form a new template starts from. */
  function NewForm(now: nat): (r: LabelTemplate)
    ensures r.id == "template_" + NatToString(now) && StartsWith(r.id, "template_")
    ensures r.name == "未命名模板" && r.fields == ["title"]
    ensures r.html == NewHtmlHead + Placeholder("title") + NewHtmlTail
  {
    LabelTemplate(
      "template_" + NatToString(now),
      "未命名模板",
      NewHtmlHead + Placeholder("title") + NewHtmlTail,
      NewCss,
      ["title"])
  }

  /** A new template's preview shows its one field's name where the placeholder was. */
  lemma NewFormPreview(now: nat)
    ensures Preview(NewForm(now).html, NewForm(now).fields) == NewHtmlHead + "title" + NewHtmlTail
  {
    var xs := [NewHtmlHead, NewHtmlTail];
    assert xs[1..] == [NewHtmlTail];
    assert Interleave(xs, Placeholder("title")) == NewForm(now).html;
    assert Interleave(xs, "title") == NewHtmlHead + "title" + NewHtmlTail;
    PreviewOneField(xs, "title");
  }

  /** `onAddField(f)`: the field is appended, even when the form already has it. */
  function AddField(fields: seq<string>, f: string): (r: seq<string>)
    ensures |r| == |fields| + 1 && r[..|fields|] == fields && r[|fields|] == f
  {
    fields + [f]
  }

  /** `onRemoveField(f)`: every copy of the field goes. */
  function RemoveField(fields: seq<string>, f: string): (r: seq<string>)
    ensures f !in r && forall g :: g != f ==> (g in r <==> g in fields)
  {
    FilterOut(fields, f)
  }

  /** Adding a field the form lacks and removing it again gives back the fields. */
  lemma RemoveUndoesAdd(fields: seq<string>, f: string)
    requires f !in fields
    ensures RemoveField(AddField(fields, f), f) == fields
  {
    FilterOutAppend(fields, f);
    FilterOutAbsent(fields, f);
  }

  /** A whole template as a `Partial<LabelTemplate>`. */
  function WholePatch(t: LabelTemplate): (r: TemplatePatch)
    ensures forall s: LabelTemplate :: MergeTemplate(s, r) == t
  {
    TemplatePatch(Some(t.id), Some(t.name), Some(t.html), Some(t.css), Some(t.fields))
  }

  /** The dialog's editing session over the store. */
  class Session {
    /** The id of the template being edited, `new` for an unsaved one, or none. */
    var editingId: Option<string>
    /** The edited copy. */
    var editForm: Option<LabelTemplate>
    const store: Store

    constructor (store: Store)
      ensures this.store == store && editingId.None? && editForm.None?
    {
      this.store := store;
      editingId := None;
      editForm := None;
    }

    /** `onSelect`: the sidebar picks a template, `new`, or nothing. */
    method Select(id: Option<string>)
      modifies this`editingId
      ensures editingId == id
    {
      editingId := id;
    }

    /**
     * The effect that follows `editingId`: the form becomes a copy of the
     * stored template with that id, or a new template's defaults for `new`;
     * otherwise the form is kept.
     */
    method SyncForm(now: nat)
      modifies this`editForm
      ensures editingId.Some? && FindTemplate(store.labelTemplates, editingId.value).Some? ==>
        editForm == FindTemplate(store.labelTemplates, editingId.value)
      ensures (editingId.None? || FindTemplate(store.labelTemplates, editingId.value).None?) && editingId == Some(NewId) ==>
        editForm == Some(NewForm(now))
      ensures (editingId.None? || FindTemplate(store.labelTemplates, editingId.value).None?) && editingId != Some(NewId) ==>
        editForm == old(editForm)
    {
      var currentTemplate := if editingId.Some? then FindTemplate(store.labelTemplates, editingId.value) else None;
      if currentTemplate.Some? {
        editForm := currentTemplate;
      } else if editingId == Some(NewId) {
        editForm := Some(NewForm(now));
      }
    }

    /** The name box. */
    method EditName(name: string)
      requires editForm.Some?
      modifies this`editForm
      ensures editForm == Some(old(editForm).value.(name := name))
    {
      editForm := Some(editForm.value.(name := name));
    }

    /** The code editor: the html or the css tab, an empty editor giving the empty text. */
    method EditCode(htmlTab: bool, val: Option<string>)
      requires editForm.Some?
      modifies this`editForm
      ensures var v := if val.Some? then val.value else "";
        editForm == Some(if htmlTab then old(editForm).value.(html := v) else old(editForm).value.(css := v))
    {
      var v := if val.Some? then val.value else "";
      if htmlTab {
        editForm := Some(editForm.value.(html := v));
      } else {
        editForm := Some(editForm.value.(css := v));
      }
    }

    /** `onAddField` */
    method AddFormField(f: string)
      requires editForm.Some?
      modifies this`editForm
      ensures editForm == Some(old(editForm).value.(fields := AddField(old(editForm).value.fields, f)))
    {
      editForm := Some(editForm.value.(fields := AddField(editForm.value.fields, f)));
    }

    /** `onRemoveField` */
    method RemoveFormField(f: string)
      requires editForm.Some?
      modifies this`editForm
      ensures editForm == Some(old(editForm).value.(fields := RemoveField(old(editForm).value.fields, f)))
    {
      editForm := Some(editForm.value.(fields := RemoveField(editForm.value.fields, f)));
    }

    /**
     * `handleSave` once the service answers. Without a form nothing happens;
     * a failed save changes nothing; a saved new template is added to the
     * store and becomes the edited one; otherwise the saved record replaces
     * the template with the edited id.
     */
    method HandleSave(saved: Result<LabelTemplate, string>)
      modifies this`editingId, store`labelTemplates
      ensures editForm.None? || saved.Err? ==>
        editingId == old(editingId) && store.labelTemplates == old(store.labelTemplates)
      ensures editForm.Some? && saved.Ok? && old(editingId) == Some(NewId) ==>
        store.labelTemplates == old(store.labelTemplates) + [saved.value] && editingId == Some(saved.value.id)
      ensures editForm.Some? && saved.Ok? && old(editingId) != Some(NewId) ==>
        editingId == old(editingId) &&
        store.labelTemplates == (if editingId.Some? then UpdateTemplates(old(store.labelTemplates), editingId.value, WholePatch(saved.value))
                                 else old(store.labelTemplates))
    {
      if editForm.None? {
        return;
      }
      if saved.Err? {
        return;
      }
      if editingId == Some(NewId) {
        store.AddLabelTemplate(saved.value);
        editingId := Some(saved.value.id);
      } else if editingId.Some? {
        store.UpdateLabelTemplate(editingId.value, WholePatch(saved.value));
      }
    }
  }

  /** Saving over the edited template stores exactly the saved record at every position that had its id. */
  lemma SaveReplacesEdited(ts: seq<LabelTemplate>, id: string, saved: LabelTemplate)
    ensures var r := UpdateTemplates(ts, id, WholePatch(saved));
      |r| == |ts| && forall i :: 0 <= i < |ts| ==> r[i] == (if ts[i].id == id then saved else ts[i])
  {
  }

  /**
   * A new template saved under a fresh id is what the session then finds
   * under its editing id.
   */
  lemma SavedNewIsFound(ts: seq<LabelTemplate>, saved: LabelTemplate)
    requires forall i :: 0 <= i < |ts| ==> ts[i].id != saved.id
    ensures FindTemplate(ts + [saved], saved.id) == Some(saved)
  {
    var r := FindTemplate(ts + [saved], saved.id);
    assert (ts + [saved])[|ts|] == saved;
    if r.Some? {
      var i :| 0 <= i < |ts + [saved]| && (ts + [saved])[i] == r.value && r.value.id == saved.id &&
        forall j :: 0 <= j < i ==> (ts + [saved])[j].id != saved.id;
      assert i == |ts|;
    }
  }
}
