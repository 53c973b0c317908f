/**
 * The template list of the template manager: creating, duplicating and
 * removing templates. Duplicates are sent to the template service with a
 * temporary `template_<time>` id that the server replaces; removing a
 * template whose id is still temporary skips the server. The service's
 * answers are inputs.
 */
module TemplateSidebar {
  import opened Wrappers
  import opened Text
  import opened Scene
  import opened EditorStore
  import opened TemplateManager
  import opened ApiTemplate

  /** The prefix of the ids the client makes up before the server has the template. */
  const TemporaryPrefix := "template_"

  /** `handleCreate`: start editing a new template. */
  method HandleCreate(session: Session)
    modifies session`editingId
    ensures session.editingId == Some(NewId)
  {
    session.Select(Some(NewId));
  }

  /** The copy `handleDuplicate` sends: the same template under a temporary id and a "(副本)" name. */
  function DuplicateOf(t: LabelTemplate, now: nat): (r: LabelTemplate)
    ensures StartsWith(r.id, TemporaryPrefix)
    ensures r.name == t.name + " (副本)"
    ensures r.html == t.html && r.css == t.css && r.fields == t.fields
  {
    t.(id := TemporaryPrefix + NatToString(now), name := t.name + " (副本)")
  }

  /** `handleDuplicate` once the service answers: the saved copy is added to the store; a failure adds nothing. */
  method HandleDuplicate(store: Store, saved: Result<LabelTemplate, string>)
    modifies store`labelTemplates
    ensures saved.Ok? ==> store.labelTemplates == old(store.labelTemplates) + [saved.value]
    ensures saved.Err? ==> store.labelTemplates == old(store.labelTemplates)
  {
    if saved.Ok? {
      store.AddLabelTemplate(saved.value);
    }
  }

  /** Whether removing the template needs the server: only ids the server gave. */
  predicate NeedsServer(id: string)
  {
    !StartsWith(id, TemporaryPrefix)
  }

  /**
   * `handleRemove(id)`: `serverCalled` says whether the service was asked to
   * delete; `deleted` is its answer. A refused delete changes nothing;
   * otherwise the template leaves the store and, when it was being edited,
   * the selection is cleared.
   */
  method HandleRemove(session: Session, id: string, deleted: bool) returns (serverCalled: bool)
    modifies session.store`labelTemplates, session`editingId
    ensures serverCalled <==> NeedsServer(id)
    ensures serverCalled && !deleted ==>
      session.store.labelTemplates == old(session.store.labelTemplates) && session.editingId == old(session.editingId)
    ensures !serverCalled || deleted ==>
      session.store.labelTemplates == RemoveTemplates(old(session.store.labelTemplates), id) &&
      session.editingId == (if old(session.editingId) == Some(id) then None else old(session.editingId))
  {
    serverCalled := false;
    if NeedsServer(id) {
      serverCalled := true;
      if !deleted {
        return;
      }
    }
    session.store.RemoveLabelTemplate(id);
    if session.editingId == Some(id) {
      session.Select(None);
    }
  }

  /**
   * A duplicate goes to the server without an id, so the server stores it as
   * a new template; removing it before a save would skip the server.
   */
  lemma DuplicateIsInserted(t: LabelTemplate, now: nat)
    ensures ToServer(DuplicateOf(t, now)).id == None
    ensures !NeedsServer(DuplicateOf(t, now).id)
  {
    TemporaryIdUndefined(DuplicateOf(t, now));
  }
}
