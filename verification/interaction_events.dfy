/**
 * The click actions of a scene object (`events.onClick`), as the property
 * panel adds, removes and edits them. Each operation builds the new `events`
 * record passed to the object update; keys of `events` other than `onClick`
 * are carried over.
 */
module InteractionEvents {
  import opened Wrappers
  import opened Json
  import opened Scene

  /** `object.events?.onClick || []` */
  function ClickList(events: Option<Events>): seq<ObjectEvent>
  {
    if events.Some? && events.value.onClick.Some? then events.value.onClick.value else []
  }

  /** The keys of `...object.events` other than `onClick`. */
  function RestOf(events: Option<Events>): Dict<Json>
  {
    if events.Some? then events.value.rest else []
  }

  /** The action `addEvent` creates: play an animation on this object, triggered from the selected mesh. */
  function NewEvent(id: string, objectId: string, selectedMeshId: Option<string>): (e: ObjectEvent)
    ensures e.id == id && e.action == PlayAnimation && e.targetId == Some(objectId)
    ensures e.sourceMeshId == selectedMeshId && e.value == JStr("") && e.targetMeshId.None?
  {
    ObjectEvent(id, PlayAnimation, selectedMeshId, Some(objectId), None, JStr(""))
  }

  /** `addEvent`: one new action at the end of the click list. */
  function AddEvent(events: Option<Events>, id: string, objectId: string, selectedMeshId: Option<string>): (r: Events)
    ensures r.onClick.Some? && |r.onClick.value| == |ClickList(events)| + 1
    ensures r.onClick.value[..|ClickList(events)|] == ClickList(events)
    ensures r.onClick.value[|ClickList(events)|] == NewEvent(id, objectId, selectedMeshId)
    ensures r.rest == RestOf(events)
  {
    Events(Some(ClickList(events) + [NewEvent(id, objectId, selectedMeshId)]), RestOf(events))
  }

  /** `list.filter(e => e.id !== id)` */
  function Without(xs: seq<ObjectEvent>, id: string): (r: seq<ObjectEvent>)
    ensures |r| <= |xs|
    ensures forall i :: 0 <= i < |r| ==> r[i].id != id && r[i] in xs
    ensures forall i :: 0 <= i < |xs| && xs[i].id != id ==> xs[i] in r
    decreases |xs|
  {
    if |xs| == 0 then []
    else
      var init := Without(xs[..|xs| - 1], id);
      assert forall i :: 0 <= i < |xs| - 1 ==> xs[..|xs| - 1][i] == xs[i];
      if xs[|xs| - 1].id == id then init else init + [xs[|xs| - 1]]
  }

  /** `removeEvent` */
  function RemoveEvent(events: Option<Events>, id: string): (r: Events)
    ensures r.onClick == Some(Without(ClickList(events), id)) && r.rest == RestOf(events)
  {
    Events(Some(Without(ClickList(events), id)), RestOf(events))
  }

  /** The fields of a `Partial<ObjectEvent>`. */
  datatype EventPatch = EventPatch(
    id: Option<string>,
    action: Option<string>,
    sourceMeshId: Option<Option<string>>,
    targetId: Option<Option<string>>,
    targetMeshId: Option<Option<string>>,
    value: Option<Json>)

  /** `{...e, ...updates}` */
  function MergeEvent(e: ObjectEvent, u: EventPatch): ObjectEvent
  {
    ObjectEvent(
      if u.id.Some? then u.id.value else e.id,
      if u.action.Some? then u.action.value else e.action,
      if u.sourceMeshId.Some? then u.sourceMeshId.value else e.sourceMeshId,
      if u.targetId.Some? then u.targetId.value else e.targetId,
      if u.targetMeshId.Some? then u.targetMeshId.value else e.targetMeshId,
      if u.value.Some? then u.value.value else e.value)
  }

  /** `list.map(e => e.id === id ? {...e, ...updates} : e)` */
  function UpdateIn(xs: seq<ObjectEvent>, id: string, u: EventPatch): (r: seq<ObjectEvent>)
    ensures |r| == |xs|
    ensures forall i :: 0 <= i < |xs| && xs[i].id != id ==> r[i] == xs[i]
    ensures forall i :: 0 <= i < |xs| && xs[i].id == id ==> r[i] == MergeEvent(xs[i], u)
  {
    if |xs| == 0 then []
    else [if xs[0].id == id then MergeEvent(xs[0], u) else xs[0]] + UpdateIn(xs[1..], id, u)
  }

  /** `updateEvent` */
  function UpdateEvent(events: Option<Events>, id: string, u: EventPatch): (r: Events)
    ensures r.onClick == Some(UpdateIn(ClickList(events), id, u)) && r.rest == RestOf(events)
  {
    Events(Some(UpdateIn(ClickList(events), id, u)), RestOf(events))
  }

  // ---------------------------------------------------------------------
  // How the three operations relate
  // ---------------------------------------------------------------------

  /** Removing an action just added, by its id, gives back the list before the add (when the id was new). */
  lemma {:induction false} RemoveUndoesAdd(events: Option<Events>, id: string, objectId: string, selectedMeshId: Option<string>)
    requires forall i :: 0 <= i < |ClickList(events)| ==> ClickList(events)[i].id != id
    ensures RemoveEvent(Some(AddEvent(events, id, objectId, selectedMeshId)), id).onClick == Some(ClickList(events))
  {
    var xs := ClickList(events);
    var added := xs + [NewEvent(id, objectId, selectedMeshId)];
    assert added[..|added| - 1] == xs;
    WithoutAbsent(xs, id);
  }

  /** Removing an id no action has leaves the list unchanged. */
  lemma {:induction false} WithoutAbsent(xs: seq<ObjectEvent>, id: string)
    requires forall i :: 0 <= i < |xs| ==> xs[i].id != id
    ensures Without(xs, id) == xs
    decreases |xs|
  {
    if |xs| > 0 {
      WithoutAbsent(xs[..|xs| - 1], id);
      assert xs[..|xs| - 1] + [xs[|xs| - 1]] == xs;
    }
  }

  /** Removing twice is removing once. */
  lemma {:induction false} RemoveIdempotent(xs: seq<ObjectEvent>, id: string)
    ensures Without(Without(xs, id), id) == Without(xs, id)
  {
    WithoutAbsent(Without(xs, id), id);
  }

  /** Removing keeps the surviving actions in their order: filtering distributes over concatenation. */
  lemma {:induction false} WithoutAppend(xs: seq<ObjectEvent>, ys: seq<ObjectEvent>, id: string)
    ensures Without(xs + ys, id) == Without(xs, id) + Without(ys, id)
    decreases |ys|
  {
    if |ys| == 0 {
      assert xs + ys == xs;
    } else {
      assert (xs + ys)[..|xs + ys| - 1] == xs + ys[..|ys| - 1];
      WithoutAppend(xs, ys[..|ys| - 1], id);
    }
  }

  /** An edit that keeps the id, followed by a removal of that id, is the removal alone. */
  lemma {:induction false} RemoveAfterUpdate(xs: seq<ObjectEvent>, id: string, u: EventPatch)
    requires u.id.None?
    ensures Without(UpdateIn(xs, id, u), id) == Without(xs, id)
    decreases |xs|
  {
    if |xs| > 0 {
      var ys := UpdateIn(xs, id, u);
      assert ys[..|ys| - 1] == UpdateIn(xs[..|xs| - 1], id, u);
      RemoveAfterUpdate(xs[..|xs| - 1], id, u);
    }
  }

  /** Editing an id no action has leaves the list unchanged. */
  lemma UpdateAbsent(xs: seq<ObjectEvent>, id: string, u: EventPatch)
    requires forall i :: 0 <= i < |xs| ==> xs[i].id != id
    ensures UpdateIn(xs, id, u) == xs
  {
  }
}
