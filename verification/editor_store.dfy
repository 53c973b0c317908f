/**
 * The editor's global store: the scene objects, the selection, the undo and
 * redo stacks, the roaming and timeline switches and the label template
 * library, with the actions that change them.
 *
 * The store is one object whose actions overwrite its fields; ids the store
 * draws at random come from `mint`, indexed by a counter the store keeps.
 */
module EditorStore {
  import opened Wrappers
  import opened Json
  import opened Text
  import opened Scene
  import opened StoreUtils

  // ---------------------------------------------------------------------
  // Undo and redo, as values
  // ---------------------------------------------------------------------

  /** What undo and redo move between: the current snapshot and the two stacks. */
  datatype History = History(current: Snapshot, past: seq<Snapshot>, future: seq<Snapshot>)

  /** Every edit pushes the current snapshot (keeping the last 50) and empties the redo stack. */
  function Record(h: History, next: Snapshot): (r: History)
    ensures r.current == next && r.future == [] && |r.past| <= HistoryLimit
    ensures |r.past| > 0 && r.past[|r.past| - 1] == h.current
  {
    History(next, RecordHistory(h.past, h.current), [])
  }

  /** `undo`: the last past snapshot becomes current and the current one goes to the front of the redo stack. */
  function Undone(h: History): (r: History)
    ensures |h.past| == 0 ==> r == h
    ensures |h.past| > 0 ==> |r.past| == |h.past| - 1 && |r.future| == |h.future| + 1
    ensures |h.past| > 0 ==> r.current == h.past[|h.past| - 1] && r.past + [r.current] == h.past
    ensures |h.past| > 0 ==> r.future[0] == h.current && r.future[1..] == h.future
  {
    if |h.past| == 0 then h
    else History(h.past[|h.past| - 1], h.past[..|h.past| - 1], [h.current] + h.future)
  }

  /** `redo`: the first redo snapshot becomes current and the current one goes to the end of the past. */
  function Redone(h: History): (r: History)
    ensures |h.future| == 0 ==> r == h
    ensures |h.future| > 0 ==> |r.past| == |h.past| + 1 && |r.future| == |h.future| - 1
    ensures |h.future| > 0 ==> r.current == h.future[0] && [r.current] + r.future == h.future
    ensures |h.future| > 0 ==> r.past[..|h.past|] == h.past && r.past[|h.past|] == h.current
  {
    if |h.future| == 0 then h
    else History(h.future[0], h.past + [h.current], h.future[1..])
  }

  /** Redo undoes an undo. */
  lemma RedoUndo(h: History)
    requires |h.past| > 0
    ensures Redone(Undone(h)) == h
  {
    assert h.past[..|h.past| - 1] + [h.past[|h.past| - 1]] == h.past;
  }

  /** Undo undoes a redo. */
  lemma UndoRedo(h: History)
    requires |h.future| > 0
    ensures Undone(Redone(h)) == h
  {
    assert [h.future[0]] + h.future[1..] == h.future;
  }

  /** Undo right after an edit brings back the state before the edit, with the edit ready to redo. */
  lemma UndoRecord(h: History, next: Snapshot)
    requires |h.past| < HistoryLimit
    ensures Undone(Record(h, next)) == History(h.current, h.past, [next])
  {
    var p := RecordHistory(h.past, h.current);
    assert p == h.past + [h.current];
    assert p[..|p| - 1] == h.past;
  }

  /** Both stacks together never hold more than 50 snapshots. */
  predicate Bounded(h: History)
  {
    |h.past| + |h.future| <= HistoryLimit
  }

  lemma BoundedKept(h: History, next: Snapshot)
    requires Bounded(h)
    ensures Bounded(Record(h, next)) && Bounded(Undone(h)) && Bounded(Redone(h))
  {
  }

  // ---------------------------------------------------------------------
  // addObject
  // ---------------------------------------------------------------------

  const DefaultMaterial: Json := JObj([
    ("color", JStr("#3b82f6")), ("metalness", JNum(0.5)), ("roughness", JNum(0.2)), ("opacity", JNum(1.0)),
    ("transparent", JBool(false)), ("wireframe", JBool(false)), ("emissive", JStr("#000000"))])

  const NewLabelHtml: string :=
    "<div style=\"color:white; background:rgba(0,0,0,0.5); padding:5px; border-radius:4px;\">新标签</div>"

  /** `typeLabels[type] || '未知对象'` */
  function TypeLabel(t: string): (r: string)
    ensures r != ""
  {
    if t == "BOX" then "立方体"
    else if t == "SPHERE" then "球体"
    else if t == "CYLINDER" then "圆柱体"
    else if t == "CONE" then "圆锥体"
    else if t == "TORUS" then "圆环"
    else if t == "PLANE" then "平面"
    else if t == "LIGHT_POINT" then "点光源"
    else if t == "LIGHT_DIR" then "平行光"
    else if t == "LIGHT_SPOT" then "聚光灯"
    else if t == "GLTF" then "外部模型"
    else if t == "LABEL" then "HTML标签"
    else if t == "SPRITE" then "精灵"
    else "未知对象"
  }

  predicate IsPrimitive(t: string)
  {
    t in {"BOX", "SPHERE", "CYLINDER", "CONE", "TORUS", "PLANE"}
  }

  /** The properties `addObject` gives a new object of type `t`. */
  function NewProps(t: string, url: Option<string>): Dict<Json>
  {
    var isLight := StartsWith(t, "LIGHT_");
    [
      ("type", JStr(t)),
      ("updated", JBool(true)),
      ("position", JArr([JNum(0.0), JNum(0.5), JNum(0.0)])),
      ("rotation", if t == "PLANE" then JArr([JNum(-1.5707963267948966), JNum(0.0), JNum(0.0)])
                   else JArr([JNum(0.0), JNum(0.0), JNum(0.0)])),
      ("scale", JArr([JNum(1.0), JNum(1.0), JNum(1.0)])),
      ("visible", JBool(true)),
      ("material", if IsPrimitive(t) || t == "SPRITE" || isLight then DefaultMaterial else JUndef),
      ("loadStatus", if Given(url) then JStr("loading") else JUndef),
      ("intensity", if isLight then JNum(if t == "LIGHT_DIR" then 1.5 else 2.0) else JUndef),
      ("distance", if isLight then JNum(0.0) else JUndef),
      ("decay", if isLight then JNum(2.0) else JUndef),
      ("castShadow", JBool(isLight)),
      ("label", if t == "LABEL" then JStr(NewLabelHtml) else JUndef)]
  }

  /** The object `addObject` creates, the `count`-th object of the top level. */
  function NewObject(t: string, url: Option<string>, id: string, count: nat): SceneObject
  {
    SceneObject(id, TypeLabel(t) + " " + NatToString(count), NoChildren, None, url,
                None, None, None, None, None, None, None, None, None, NewProps(t, url))
  }

  lemma NewPropsVisible(t: string, url: Option<string>)
    ensures Get(NewProps(t, url), "visible") == Some(JBool(true))
  {
    GetLast(NewProps(t, url), "visible", 5);
  }

  lemma NewPropsLoading(t: string, url: Option<string>)
    ensures Get(NewProps(t, url), "loadStatus") == Some(if Given(url) then JStr("loading") else JUndef)
  {
    GetLast(NewProps(t, url), "loadStatus", 7);
  }

  lemma NewPropsShadow(t: string, url: Option<string>)
    ensures Get(NewProps(t, url), "castShadow") == Some(JBool(StartsWith(t, "LIGHT_")))
  {
    GetLast(NewProps(t, url), "castShadow", 11);
  }

  /**
   * A new object is named after its type and its position in the top level,
   * is visible, is `loading` exactly when a url is given, and carries that url.
   */
  lemma NewObjectFacts(t: string, url: Option<string>, id: string, count: nat)
    ensures var o := NewObject(t, url, id, count);
      o.id == id && o.url == url && o.children.NoChildren?
      && o.name == TypeLabel(t) + " " + NatToString(count)
      && Get(o.props, "visible") == Some(JBool(true))
      && (Get(o.props, "loadStatus") == Some(JStr("loading")) <==> Given(url))
      && (Get(o.props, "castShadow") == Some(JBool(true)) <==> StartsWith(t, "LIGHT_"))
  {
    NewPropsVisible(t, url);
    NewPropsLoading(t, url);
    NewPropsShadow(t, url);
  }

  // ---------------------------------------------------------------------
  // setState's timeline rules
  // ---------------------------------------------------------------------

  /** The timeline fields of the store. */
  datatype Timeline = Timeline(
    visible: bool,
    objectId: Option<string>,
    animationId: Option<string>,
    playing: bool,
    currentTime: real,
    original: Option<OriginalState>)

  /**
   * A `Partial<EditorState>` for `setState`: `None` leaves a field alone;
   * `Some(None)` writes `null`.
   */
  datatype StatePatch = StatePatch(
    objects: Option<seq<SceneObject>>,
    selectedId: Option<Option<string>>,
    selectedMeshId: Option<Option<string>>,
    cameraBookmarks: Option<seq<CameraBookmark>>,
    bottomPanelVisible: Option<bool>,
    timelineVisible: Option<bool>,
    activeTimelineObjectId: Option<Option<string>>,
    activeTimelineAnimationId: Option<Option<string>>,
    isTimelinePlaying: Option<bool>,
    timelineCurrentTime: Option<real>,
    timelineOriginalState: Option<Option<OriginalState>>)

  function NoStateChange(): StatePatch
  {
    StatePatch(None, None, None, None, None, None, None, None, None, None, None)
  }

  /** The material whose opacity the timeline saves: the first one of a material array. */
  function MaterialOf(o: SceneObject): Json
  {
    var m := OrUndef(Get(o.props, "material"));
    if m.JArr? then (if |m.items| > 0 then m.items[0] else JUndef) else m
  }

  /** The state saved when the timeline starts editing an object, when it has a material. */
  function SaveOriginal(o: SceneObject): Option<OriginalState>
  {
    var m := MaterialOf(o);
    if Truthy(m) then
      Some(OriginalState(o.id, OrUndef(Get(o.props, "position")), OrUndef(Get(o.props, "rotation")),
                         OrUndef(Get(o.props, "scale")), OrUndef(Get(FieldsOf(m), "opacity"))))
    else None
  }

  predicate SwitchesObject(tl: Timeline, np: StatePatch)
  {
    np.activeTimelineObjectId.Some? && np.activeTimelineObjectId.value != tl.objectId
  }

  predicate SwitchesAnimation(tl: Timeline, np: StatePatch)
  {
    np.activeTimelineAnimationId.Some? && np.activeTimelineAnimationId.value != tl.animationId
  }

  predicate Closes(tl: Timeline, np: StatePatch)
  {
    np.timelineVisible == Some(false) && tl.visible && Given(tl.objectId) && tl.original.Some?
  }

  /** The objects after `setState`'s reverts, before the patch's own objects are considered. */
  function TimelineObjects(objects: seq<SceneObject>, tl: Timeline, np: StatePatch): seq<SceneObject>
  {
    var afterSwitch := if SwitchesObject(tl, np) && Given(tl.objectId) && tl.original.Some?
                       then RevertObject(objects, tl.original.value) else objects;
    if Closes(tl, np) then RevertObject(afterSwitch, tl.original.value) else afterSwitch
  }

  /** The saved original state `setState` writes, if it writes one. */
  function OriginalChange(objects: seq<SceneObject>, tl: Timeline, np: StatePatch): Option<Option<OriginalState>>
  {
    if Closes(tl, np) then Some(None)
    else if SwitchesObject(tl, np) then
      var cleared := if Given(tl.objectId) && tl.original.Some? then Some(None) else None;
      var current := if cleared.Some? then RevertObject(objects, tl.original.value) else objects;
      var next := np.activeTimelineObjectId.value;
      if Given(next) && FindObjectRecursive(current, next.value).Some?
         && SaveOriginal(FindObjectRecursive(current, next.value).value).Some?
      then Some(SaveOriginal(FindObjectRecursive(current, next.value).value))
      else cleared
    else None
  }

  /** The timeline fields after `setState`: the patch, then the changes its rules force. */
  function NextTimeline(objects: seq<SceneObject>, tl: Timeline, np: StatePatch): Timeline
  {
    var reset := SwitchesObject(tl, np) || SwitchesAnimation(tl, np);
    var oc := OriginalChange(objects, tl, np);
    Timeline(
      Pick(np.timelineVisible, tl.visible),
      if Closes(tl, np) then None else Pick(np.activeTimelineObjectId, tl.objectId),
      if Closes(tl, np) then None else Pick(np.activeTimelineAnimationId, tl.animationId),
      if reset then false else Pick(np.isTimelinePlaying, tl.playing),
      if reset then 0.0 else Pick(np.timelineCurrentTime, tl.currentTime),
      if oc.Some? then oc.value else Pick(np.timelineOriginalState, tl.original))
  }

  /** Switching the edited object or animation stops playback and rewinds to 0. */
  lemma SwitchResetsPlayer(objects: seq<SceneObject>, tl: Timeline, np: StatePatch)
    requires SwitchesObject(tl, np) || SwitchesAnimation(tl, np)
    ensures !NextTimeline(objects, tl, np).playing && NextTimeline(objects, tl, np).currentTime == 0.0
  {
  }

  /**
   * Closing the timeline while an object is edited with a saved state puts
   * that object back as saved and clears the edited object, the edited
   * animation and the saved state.
   */
  lemma CloseReverts(objects: seq<SceneObject>, tl: Timeline, np: StatePatch)
    requires Closes(tl, np) && !SwitchesObject(tl, np)
    ensures var next := NextTimeline(objects, tl, np);
      next.objectId.None? && next.animationId.None? && next.original.None? && !next.visible
    ensures TimelineObjects(objects, tl, np) == RevertObject(objects, tl.original.value)
    ensures FindObjectRecursive(TimelineObjects(objects, tl, np), tl.original.value.id)
         == if FindObjectRecursive(objects, tl.original.value.id).Some?
            then Some(FindObjectRecursive(objects, tl.original.value.id).value.(
                   props := RevertProps(FindObjectRecursive(objects, tl.original.value.id).value.props, tl.original.value)))
            else None
  {
    RevertObjectFound(objects, tl.original.value);
  }

  /** Starting to edit an object that has a material saves its transform and opacity. */
  lemma SwitchSavesOriginal(objects: seq<SceneObject>, tl: Timeline, np: StatePatch)
    requires SwitchesObject(tl, np) && !Closes(tl, np)
    requires !(Given(tl.objectId) && tl.original.Some?)
    requires Given(np.activeTimelineObjectId.value)
    requires FindObjectRecursive(objects, np.activeTimelineObjectId.value.value).Some?
    requires Truthy(MaterialOf(FindObjectRecursive(objects, np.activeTimelineObjectId.value.value).value))
    ensures var o := FindObjectRecursive(objects, np.activeTimelineObjectId.value.value).value;
      NextTimeline(objects, tl, np).original.Some?
      && NextTimeline(objects, tl, np).original.value.id == o.id
      && NextTimeline(objects, tl, np).original.value.position == OrUndef(Get(o.props, "position"))
      && NextTimeline(objects, tl, np).original.value.rotation == OrUndef(Get(o.props, "rotation"))
      && NextTimeline(objects, tl, np).original.value.scale == OrUndef(Get(o.props, "scale"))
      && NextTimeline(objects, tl, np).original.value.opacity == OrUndef(Get(FieldsOf(MaterialOf(o)), "opacity"))
  {
  }

  /**
   * The first half of `setState`: the reverts and the saved-state changes
   * that switching the edited object and closing the timeline bring.
   */
  method TimelineChanges(objects: seq<SceneObject>, tl: Timeline, np: StatePatch)
    returns (current: seq<SceneObject>, originalChange: Option<Option<OriginalState>>, closing: bool)
    ensures current == TimelineObjects(objects, tl, np)
    ensures originalChange == OriginalChange(objects, tl, np)
    ensures closing == Closes(tl, np)
  {
    current := objects;
    originalChange := None;
    closing := false;
    if np.activeTimelineObjectId.Some? && np.activeTimelineObjectId.value != tl.objectId {
      if Given(tl.objectId) && tl.original.Some? {
        current := RevertObject(current, tl.original.value);
        originalChange := Some(None);
      }
      var next := np.activeTimelineObjectId.value;
      if Given(next) {
        var target := FindObjectRecursive(current, next.value);
        if target.Some? {
          var saved := SaveOriginal(target.value);
          if saved.Some? {
            originalChange := Some(saved);
          }
        }
      }
    }
    if np.timelineVisible == Some(false) && tl.visible {
      if Given(tl.objectId) && tl.original.Some? {
        current := RevertObject(current, tl.original.value);
        originalChange := Some(None);
        closing := true;
      }
    }
  }

  /** `setState`'s timeline rules, applied: the objects and the timeline fields it leaves. */
  method TimelineStep(objects: seq<SceneObject>, tl: Timeline, np: StatePatch)
    returns (objs: seq<SceneObject>, next: Timeline)
    ensures objs == if np.objects.Some? then np.objects.value else TimelineObjects(objects, tl, np)
    ensures next == NextTimeline(objects, tl, np)
  {
    var current, originalChange, closing := TimelineChanges(objects, tl, np);
    var objectChange: Option<Option<string>> := if closing then Some(None) else None;
    var animationChange: Option<Option<string>> := if closing then Some(None) else None;
    var switchingObject := np.activeTimelineObjectId.Some? && np.activeTimelineObjectId.value != tl.objectId;
    var switchingAnimation := np.activeTimelineAnimationId.Some? && np.activeTimelineAnimationId.value != tl.animationId;
    var playing := tl.playing;
    var time := tl.currentTime;
    if switchingObject || switchingAnimation {
      playing := false;
      time := 0.0;
    } else {
      playing := Pick(np.isTimelinePlaying, playing);
      time := Pick(np.timelineCurrentTime, time);
    }
    next := Timeline(
      Pick(np.timelineVisible, tl.visible),
      Pick(objectChange, Pick(np.activeTimelineObjectId, tl.objectId)),
      Pick(animationChange, Pick(np.activeTimelineAnimationId, tl.animationId)),
      playing, time,
      Pick(originalChange, Pick(np.timelineOriginalState, tl.original)));

    objs := if np.objects.Some? then np.objects.value else current;
  }

  // ---------------------------------------------------------------------
  // Other action helpers
  // ---------------------------------------------------------------------

  /** A `Partial<SceneConfig>` update. */
  datatype ConfigPatch = ConfigPatch(backgroundType: Option<string>, backgroundValue: Option<string>, rest: Dict<Json>)

  /** `{...sceneConfig, ...updates}` */
  function MergeConfig(c: SceneConfig, u: ConfigPatch): (r: SceneConfig)
    ensures u.backgroundType.Some? ==> r.backgroundType == u.backgroundType.value
    ensures u.backgroundType.None? ==> r.backgroundType == c.backgroundType
    ensures u.backgroundValue.Some? ==> r.backgroundValue == u.backgroundValue.value
    ensures u.backgroundValue.None? ==> r.backgroundValue == c.backgroundValue
  {
    SceneConfig(Pick(u.backgroundType, c.backgroundType), Pick(u.backgroundValue, c.backgroundValue), Merge(c.rest, u.rest))
  }

  /** `{...updates, updated}`: the `updated` flag, `true` unless the update gives one. */
  function WithUpdated(p: Patch): (r: Patch)
    ensures Get(r.props, "updated").Some?
    ensures var u := Get(p.props, "updated"); (u.None? || u.value.JUndef?) ==> Get(r.props, "updated") == Some(JBool(true))
  {
    var u := Get(p.props, "updated");
    var updated := if u.None? || u.value.JUndef? then JBool(true) else u.value;
    GetSet(p.props, "updated", updated, "updated");
    p.(props := Set(p.props, "updated", updated))
  }

  /** The top level with `loadStatus` written on the objects with the id. */
  function WithLoadStatus(os: seq<SceneObject>, id: string, status: string): (r: seq<SceneObject>)
    ensures |r| == |os|
    ensures forall i :: 0 <= i < |os| ==>
      r[i] == (if os[i].id == id then os[i].(props := Set(os[i].props, "loadStatus", JStr(status))) else os[i])
  {
    if |os| == 0 then []
    else [if os[0].id == id then os[0].(props := Set(os[0].props, "loadStatus", JStr(status))) else os[0]]
         + WithLoadStatus(os[1..], id, status)
  }

  /** `objects.find(o => o.id === id)` on the top level. */
  function FindTop(os: seq<SceneObject>, id: string): (r: Option<SceneObject>)
    ensures r.Some? ==> r.value in os && r.value.id == id
    ensures r.None? ==> forall i :: 0 <= i < |os| ==> os[i].id != id
  {
    if |os| == 0 then None else if os[0].id == id then Some(os[0]) else FindTop(os[1..], id)
  }

  /** A `Partial<LabelTemplate>` update. */
  datatype TemplatePatch = TemplatePatch(
    id: Option<string>, name: Option<string>, html: Option<string>, css: Option<string>, fields: Option<seq<string>>)

  function MergeTemplate(t: LabelTemplate, u: TemplatePatch): LabelTemplate
  {
    LabelTemplate(Pick(u.id, t.id), Pick(u.name, t.name), Pick(u.html, t.html), Pick(u.css, t.css), Pick(u.fields, t.fields))
  }

  /** `labelTemplates.map(t => t.id === id ? {...t, ...updates} : t)` */
  function UpdateTemplates(ts: seq<LabelTemplate>, id: string, u: TemplatePatch): (r: seq<LabelTemplate>)
    ensures |r| == |ts|
    ensures forall i :: 0 <= i < |ts| ==> r[i] == (if ts[i].id == id then MergeTemplate(ts[i], u) else ts[i])
  {
    if |ts| == 0 then [] else [if ts[0].id == id then MergeTemplate(ts[0], u) else ts[0]] + UpdateTemplates(ts[1..], id, u)
  }

  /** `labelTemplates.filter(t => t.id !== id)` */
  function RemoveTemplates(ts: seq<LabelTemplate>, id: string): (r: seq<LabelTemplate>)
    ensures |r| <= |ts|
    ensures forall i :: 0 <= i < |r| ==> r[i].id != id
    ensures forall t :: t in ts && t.id != id ==> t in r
    ensures forall t :: t in r ==> t in ts
  {
    if |ts| == 0 then []
    else if ts[0].id == id then RemoveTemplates(ts[1..], id)
    else [ts[0]] + RemoveTemplates(ts[1..], id)
  }

  /** One template is kept exactly when its id differs. */
  lemma RemoveTemplatesOne(t: LabelTemplate, id: string)
    ensures RemoveTemplates([t], id) == if t.id == id then [] else [t]
  {
    assert [t][1..] == [];
  }

  /** Filtering keeps the order: the templates kept from two lists are those kept from each, one after the other. */
  lemma {:induction false} RemoveTemplatesAppend(a: seq<LabelTemplate>, b: seq<LabelTemplate>, id: string)
    ensures RemoveTemplates(a + b, id) == RemoveTemplates(a, id) + RemoveTemplates(b, id)
  {
    if |a| == 0 {
      assert a + b == b;
    } else {
      assert (a + b)[0] == a[0] && (a + b)[1..] == a[1..] + b;
      RemoveTemplatesAppend(a[1..], b, id);
    }
  }

  /** A string event value; other values are read as absent. */
  function StrOf(j: Json): Option<string>
  {
    if j.JStr? then Some(j.s) else None
  }

  /** A JSON array of strings. */
  function StrArr(ss: seq<string>): (r: Json)
    ensures r.JArr? && |r.items| == |ss| && forall i :: 0 <= i < |ss| ==> r.items[i] == JStr(ss[i])
  {
    JArr(seq(|ss|, i requires 0 <= i < |ss| => JStr(ss[i])))
  }

  /** The strings of a JSON array whose items are all strings. */
  function StrsOf(items: seq<Json>): (r: Option<seq<string>>)
    ensures r.Some? <==> forall i :: 0 <= i < |items| ==> items[i].JStr?
    ensures r.Some? ==> StrArr(r.value) == JArr(items)
  {
    if |items| == 0 then Some([])
    else if !items[0].JStr? then None
    else
      var rest := StrsOf(items[1..]);
      assert forall i :: 1 <= i < |items| ==> items[i] == items[1..][i - 1];
      if rest.None? then None
      else
        var ss := [items[0].s] + rest.value;
        assert StrArr(ss).items == items;
        Some(ss)
  }

  /** The typed keys of a scene object that an event update cannot set in this model. */
  predicate ForeignKeys(fs: Dict<Json>)
  {
    HasKey(fs, "id") || HasKey(fs, "children") || HasKey(fs, "structure") || HasKey(fs, "dataBindings")
    || HasKey(fs, "labelBinding") || HasKey(fs, "events") || HasKey(fs, "customAnimations")
    || HasKey(fs, "sourceObjectId") || HasKey(fs, "labelConfig")
  }

  /** A key holding a string, or absent. */
  predicate StrOrAbsent(v: Option<Json>)
  {
    v.None? || v.value.JStr?
  }

  /**
   * The object update that spreading a `SET_PROPERTY` value gives, when the
   * model can express it: the plain properties, in order, and the typed keys
   * events set, `name`, `url` and `htmlLabel` holding strings,
   * `activeAnimations` a list of strings, `activeCustomAnimationId` a string
   * or `null`. A primitive spreads no key. `None` stands for an update the
   * model does not express: another typed key, a typed key holding a value of
   * another type, or a non-empty string or array (spread as index keys).
   */
  function PatchOf(j: Json): (r: Option<Patch>)
    ensures !j.JObj? ==> r == if (j.JStr? && j.s != "") || (j.JArr? && |j.items| > 0) then None else Some(NoChange())
  {
    if !j.JObj? then
      if (j.JStr? && j.s != "") || (j.JArr? && |j.items| > 0) then None else Some(NoChange())
    else
      var fs := j.fields;
      var name, url, html := Get(fs, "name"), Get(fs, "url"), Get(fs, "htmlLabel");
      var anims, custom := Get(fs, "activeAnimations"), Get(fs, "activeCustomAnimationId");
      var active := if anims.Some? && anims.value.JArr? then StrsOf(anims.value.items) else None;
      if ForeignKeys(fs) || !StrOrAbsent(name) || !StrOrAbsent(url) || !StrOrAbsent(html)
         || (anims.Some? && active.None?)
         || (custom.Some? && !(custom.value.JStr? || custom.value.JNull? || custom.value.JUndef?))
      then None
      else
        Some(Patch(
          if name.Some? then Some(name.value.s) else None,
          if url.Some? then Some(url.value.s) else None,
          None, None, None,
          if html.Some? then Some(html.value.s) else None,
          None, None,
          active,
          if custom.Some? then Some(if custom.value.JStr? then Some(custom.value.s) else None) else None,
          None,
          PlainFields(fs)))
  }

  /**
   * What `PatchOf` reads from an object: an object without typed keys is all
   * plain properties; otherwise each plain key reads as in the object, and
   * each typed key the update gives is there with the given value.
   */
  lemma PatchOfReads(fs: Dict<Json>)
    ensures !ObjectFieldKeys(fs) ==> PatchOf(JObj(fs)) == Some(PropsPatch(fs))
    ensures PatchOf(JObj(fs)).Some? ==> forall k :: !ObjectField(k) ==> Get(PatchOf(JObj(fs)).value.props, k) == Get(fs, k)
    ensures PatchOf(JObj(fs)).Some? ==> Carried(PatchOf(JObj(fs)).value, fs)
  {
    PatchOfPlain(fs);
    PatchOfPlainKeys(fs);
    PatchOfCarried(fs);
  }

  lemma PatchOfPlain(fs: Dict<Json>)
    ensures !ObjectFieldKeys(fs) ==> PatchOf(JObj(fs)) == Some(PropsPatch(fs))
  {
    PlainFieldsOnly(fs);
    if !ObjectFieldKeys(fs) {
      NoTypedKeys(fs);
    }
  }

  /** An object without typed keys gives none of the keys the update reads. */
  lemma NoTypedKeys(fs: Dict<Json>)
    requires !ObjectFieldKeys(fs)
    ensures Get(fs, "name").None? && Get(fs, "url").None? && Get(fs, "htmlLabel").None?
    ensures Get(fs, "activeAnimations").None? && Get(fs, "activeCustomAnimationId").None?
    ensures !ForeignKeys(fs)
  {
    assert forall k :: ObjectField(k) ==> !HasKey(fs, k);
  }

  lemma PatchOfPlainKeys(fs: Dict<Json>)
    ensures PatchOf(JObj(fs)).Some? ==> forall k :: !ObjectField(k) ==> Get(PatchOf(JObj(fs)).value.props, k) == Get(fs, k)
  {
    PlainFieldsGet(fs);
  }

  lemma PatchOfCarried(fs: Dict<Json>)
    ensures PatchOf(JObj(fs)).Some? ==> Carried(PatchOf(JObj(fs)).value, fs)
  {
  }

  /** Some entry has the key of a typed object field. */
  predicate ObjectFieldKeys(fs: Dict<Json>)
  {
    exists i :: 0 <= i < |fs| && ObjectField(fs[i].0)
  }

  /**
   * Each typed key the update gives is in the object, with the given value;
   * each it does not give is absent, or, for `activeCustomAnimationId`, may
   * hold `null` or `undefined` exactly when the update clears it.
   */
  predicate Carried(p: Patch, fs: Dict<Json>)
  {
    (p.name.Some? <==> HasKey(fs, "name")) && (p.name.Some? ==> Get(fs, "name") == Some(JStr(p.name.value)))
    && (p.url.Some? <==> HasKey(fs, "url")) && (p.url.Some? ==> Get(fs, "url") == Some(JStr(p.url.value)))
    && (p.htmlLabel.Some? <==> HasKey(fs, "htmlLabel"))
    && (p.htmlLabel.Some? ==> Get(fs, "htmlLabel") == Some(JStr(p.htmlLabel.value)))
    && (p.activeAnimations.Some? <==> HasKey(fs, "activeAnimations"))
    && (p.activeAnimations.Some? ==> Get(fs, "activeAnimations") == Some(StrArr(p.activeAnimations.value)))
    && (p.activeCustomAnimationId.Some? <==> HasKey(fs, "activeCustomAnimationId"))
    && (p.activeCustomAnimationId.Some? && p.activeCustomAnimationId.value.Some? ==>
          Get(fs, "activeCustomAnimationId") == Some(JStr(p.activeCustomAnimationId.value.value)))
    && (p.activeCustomAnimationId == Some(None) ==>
          Get(fs, "activeCustomAnimationId") in {Some(JNull), Some(JUndef)})
    && p.structure.None? && p.dataBindings.None? && p.labelBinding.None? && p.events.None?
    && p.customAnimations.None? && p.labelConfig.None?
  }

  /** The entries whose keys are not typed fields of a scene object, in their order. */
  function PlainFields(fs: Dict<Json>): (r: Dict<Json>)
    ensures forall i :: 0 <= i < |r| ==> !ObjectField(r[i].0)
    ensures |r| <= |fs|
  {
    if |fs| == 0 then []
    else
      var front := PlainFields(fs[..|fs| - 1]);
      if ObjectField(fs[|fs| - 1].0) then front else front + [fs[|fs| - 1]]
  }

  /** A plain key reads the same in the plain entries as in the whole object. */
  lemma {:induction false} PlainFieldsGet(fs: Dict<Json>)
    ensures forall k :: !ObjectField(k) ==> Get(PlainFields(fs), k) == Get(fs, k)
  {
    if |fs| > 0 {
      var last := fs[|fs| - 1];
      var front := PlainFields(fs[..|fs| - 1]);
      PlainFieldsGet(fs[..|fs| - 1]);
      if !ObjectField(last.0) {
        assert (front + [last])[..|front|] == front;
      }
    }
  }

  /** An object without typed keys is all plain entries. */
  lemma {:induction false} PlainFieldsOnly(fs: Dict<Json>)
    ensures !ObjectFieldKeys(fs) ==> PlainFields(fs) == fs
  {
    if |fs| > 0 && !ObjectFieldKeys(fs) {
      assert !ObjectFieldKeys(fs[..|fs| - 1]) by {
        assert forall i :: 0 <= i < |fs| - 1 ==> fs[..|fs| - 1][i] == fs[i];
      }
      PlainFieldsOnly(fs[..|fs| - 1]);
      assert !ObjectField(fs[|fs| - 1].0);
      assert fs[..|fs| - 1] + [fs[|fs| - 1]] == fs;
    }
  }

  // ---------------------------------------------------------------------
  // The store
  // ---------------------------------------------------------------------

  class Store {
    var objects: seq<SceneObject>
    var selectedId: Option<string>
    var selectedMeshId: Option<string>
    var sceneConfig: SceneConfig
    var past: seq<Snapshot>
    var future: seq<Snapshot>
    var roamingNodes: seq<RoamingNode>
    var isRoaming: bool
    var activeRoamingIndex: int
    var activeRoamingStartTime: real
    var cameraBookmarks: seq<CameraBookmark>
    var bottomPanelVisible: bool
    var timelineVisible: bool
    var activeTimelineObjectId: Option<string>
    var activeTimelineAnimationId: Option<string>
    var isTimelinePlaying: bool
    var timelineCurrentTime: real
    var timelineOriginalState: Option<OriginalState>
    var labelTemplates: seq<LabelTemplate>
    var dataSourceValues: map<int, Dict<Json>>
    /** How many random ids have been drawn. */
    var drawn: nat
    /** The random id source. */
    const mint: nat -> string

    /** The undo/redo stacks never hold more than 50 snapshots between them. */
    predicate Valid()
      reads this`past, this`future
    {
      |past| + |future| <= HistoryLimit
    }

    function Current(): Snapshot
      reads this
    {
      Snapshot(objects, selectedId, selectedMeshId, sceneConfig)
    }

    function Hist(): History
      reads this
    {
      History(Current(), past, future)
    }

    function Tl(): Timeline
      reads this
    {
      Timeline(timelineVisible, activeTimelineObjectId, activeTimelineAnimationId, isTimelinePlaying,
               timelineCurrentTime, timelineOriginalState)
    }

    /** The initial state, with the given starting objects. */
    constructor (initial: seq<SceneObject>, config: SceneConfig, mint: nat -> string)
      ensures Valid()
      ensures objects == initial && sceneConfig == config && this.mint == mint
      ensures selectedId.None? && selectedMeshId.None? && past == [] && future == []
      ensures roamingNodes == [] && !isRoaming && activeRoamingIndex == 0 && activeRoamingStartTime == 0.0
      ensures cameraBookmarks == [] && !bottomPanelVisible && labelTemplates == [] && dataSourceValues == map[]
      ensures Tl() == Timeline(false, None, None, false, 0.0, None) && drawn == 0
    {
      objects := initial;
      selectedId := None;
      selectedMeshId := None;
      sceneConfig := config;
      past := [];
      future := [];
      roamingNodes := [];
      isRoaming := false;
      activeRoamingIndex := 0;
      activeRoamingStartTime := 0.0;
      cameraBookmarks := [];
      bottomPanelVisible := false;
      timelineVisible := false;
      activeTimelineObjectId := None;
      activeTimelineAnimationId := None;
      isTimelinePlaying := false;
      timelineCurrentTime := 0.0;
      timelineOriginalState := None;
      labelTemplates := [];
      dataSourceValues := map[];
      drawn := 0;
      this.mint := mint;
    }

    /** `recordHistory`, applied: push the current snapshot and clear the redo stack. */
    method RecordEdit()
      requires Valid()
      modifies this`past, this`future
      ensures past == RecordHistory(old(past), Current()) && future == []
      ensures Valid()
    {
      past := RecordHistory(past, Current());
      future := [];
    }

    /** `setState`: the plain fields take the patch, the timeline fields follow their rules. */
    method SetState(np: StatePatch)
      requires Valid()
      modifies this`objects, this`selectedId, this`selectedMeshId, this`cameraBookmarks, this`bottomPanelVisible
      modifies this`timelineVisible, this`activeTimelineObjectId, this`activeTimelineAnimationId
      modifies this`isTimelinePlaying, this`timelineCurrentTime, this`timelineOriginalState
      ensures objects == if np.objects.Some? then np.objects.value else TimelineObjects(old(objects), old(Tl()), np)
      ensures Tl() == NextTimeline(old(objects), old(Tl()), np)
      ensures selectedId == if np.selectedId.Some? then np.selectedId.value else old(selectedId)
      ensures selectedMeshId == if np.selectedMeshId.Some? then np.selectedMeshId.value else old(selectedMeshId)
      ensures cameraBookmarks == if np.cameraBookmarks.Some? then np.cameraBookmarks.value else old(cameraBookmarks)
      ensures bottomPanelVisible == if np.bottomPanelVisible.Some? then np.bottomPanelVisible.value else old(bottomPanelVisible)
      ensures Valid()
    {
      SetPlainFields(np);
      SetTimelineFields(np);
    }

    /** The part of `setState` that copies the patch's plain fields. */
    method SetPlainFields(np: StatePatch)
      modifies this`selectedId, this`selectedMeshId, this`cameraBookmarks, this`bottomPanelVisible
      ensures selectedId == if np.selectedId.Some? then np.selectedId.value else old(selectedId)
      ensures selectedMeshId == if np.selectedMeshId.Some? then np.selectedMeshId.value else old(selectedMeshId)
      ensures cameraBookmarks == if np.cameraBookmarks.Some? then np.cameraBookmarks.value else old(cameraBookmarks)
      ensures bottomPanelVisible == if np.bottomPanelVisible.Some? then np.bottomPanelVisible.value else old(bottomPanelVisible)
    {
      if np.selectedId.Some? {
        selectedId := np.selectedId.value;
      }
      if np.selectedMeshId.Some? {
        selectedMeshId := np.selectedMeshId.value;
      }
      if np.cameraBookmarks.Some? {
        cameraBookmarks := np.cameraBookmarks.value;
      }
      if np.bottomPanelVisible.Some? {
        bottomPanelVisible := np.bottomPanelVisible.value;
      }
    }

    /** The part of `setState` that moves the timeline and the objects it reverts. */
    method SetTimelineFields(np: StatePatch)
      modifies this`objects, this`timelineVisible, this`activeTimelineObjectId, this`activeTimelineAnimationId
      modifies this`isTimelinePlaying, this`timelineCurrentTime, this`timelineOriginalState
      ensures objects == if np.objects.Some? then np.objects.value else TimelineObjects(old(objects), old(Tl()), np)
      ensures Tl() == NextTimeline(old(objects), old(Tl()), np)
    {
      var objs, next := TimelineStep(objects, Tl(), np);
      objects := objs;
      timelineVisible := next.visible;
      activeTimelineObjectId := next.objectId;
      activeTimelineAnimationId := next.animationId;
      isTimelinePlaying := next.playing;
      timelineCurrentTime := next.currentTime;
      timelineOriginalState := next.original;
    }

    /** `addObject` */
    method AddObject(t: string, url: Option<string>)
      requires Valid()
      modifies this`objects, this`past, this`future, this`selectedId, this`selectedMeshId, this`drawn
      ensures objects == old(objects) + [NewObject(t, url, mint(old(drawn)), |old(objects)| + 1)]
      ensures selectedId == Some(mint(old(drawn))) && selectedMeshId.None?
      ensures past == RecordHistory(old(past), old(Current())) && future == []
      ensures drawn == old(drawn) + 1
      ensures Valid()
    {
      RecordEdit();
      var id := mint(drawn);
      drawn := drawn + 1;
      var o := NewObject(t, url, id, |objects| + 1);
      objects := objects + [o];
      selectedId := Some(id);
      selectedMeshId := None;
    }

    /** `updateObject`: no undo step while the timeline edits this very object. */
    method UpdateObject(id: string, p: Patch, meshId: Option<string>)
      requires Valid()
      modifies this`objects, this`past, this`future
      ensures objects == UpdateRecursive(old(objects), id, WithUpdated(p), meshId)
      ensures activeTimelineObjectId == Some(id) ==> past == old(past) && future == old(future)
      ensures activeTimelineObjectId != Some(id) ==> past == RecordHistory(old(past), old(Current())) && future == []
      ensures Valid()
    {
      if activeTimelineObjectId != Some(id) {
        RecordEdit();
      }
      objects := UpdateRecursive(objects, id, WithUpdated(p), meshId);
    }

    /** `setLoadStatus`: nothing happens when the first top-level object with the id already has the status. */
    method SetLoadStatus(id: string, status: string)
      modifies this`objects
      ensures var o := FindTop(old(objects), id);
        if o.Some? && Get(o.value.props, "loadStatus") == Some(JStr(status)) then objects == old(objects)
        else objects == WithLoadStatus(old(objects), id, status)
    {
      var o := FindTop(objects, id);
      if o.Some? && Get(o.value.props, "loadStatus") == Some(JStr(status)) {
        return;
      }
      objects := WithLoadStatus(objects, id, status);
    }

    /**
     * `removeObject`: with a mesh id the graph node is not removed but gets
     * `structure: undefined` merged into it; otherwise the object is taken out
     * of the forest wherever it is.
     */
    method RemoveObject(id: string, meshId: Option<string>)
      requires Valid()
      modifies this`objects, this`past, this`future, this`selectedId, this`selectedMeshId
      ensures past == RecordHistory(old(past), old(Current())) && future == []
      ensures Given(meshId) ==>
        objects == UpdateRecursive(old(objects), id, NoChange().(structure := Some(None)), meshId)
        && selectedId == old(selectedId)
        && selectedMeshId == (if old(selectedMeshId) == meshId then None else old(selectedMeshId))
      ensures !Given(meshId) ==>
        objects == RemoveObjects(old(objects), id) && !InForest(objects, id)
        && selectedId == (if old(selectedId) == Some(id) then None else old(selectedId))
        && selectedMeshId == (if old(selectedId) == Some(id) then None else old(selectedMeshId))
      ensures Valid()
    {
      RecordEdit();
      if Given(meshId) {
        objects := UpdateRecursive(objects, id, NoChange().(structure := Some(None)), meshId);
        if selectedMeshId == meshId {
          selectedMeshId := None;
        }
      } else {
        var rest, _ := FindAndRemoveObject(objects, id);
        objects := rest;
        if selectedId == Some(id) {
          selectedId := None;
          selectedMeshId := None;
        }
      }
    }

    /**
     * `duplicateObject`: with a mesh id and a structure, the graph node is
     * duplicated inside the object; otherwise a renamed copy of the object,
     * with fresh ids throughout, is appended to the top level and selected.
     * Nothing happens, not even an undo step, when no object has the id.
     */
    method DuplicateObject(id: string, meshId: Option<string>)
      requires Valid()
      modifies this`objects, this`past, this`future, this`selectedId, this`selectedMeshId, this`drawn
      ensures FindObjectRecursive(old(objects), id).None? ==>
        objects == old(objects) && past == old(past) && future == old(future)
        && selectedId == old(selectedId) && selectedMeshId == old(selectedMeshId) && drawn == old(drawn)
      ensures FindObjectRecursive(old(objects), id).Some? ==> past == RecordHistory(old(past), old(Current())) && future == []
      ensures var found := FindObjectRecursive(old(objects), id);
        found.Some? && Given(meshId) && found.value.structure.Some? ==>
          (objects, drawn) == DuplicateNodeRecursive(old(objects), id, meshId.value, old(drawn), mint)
          && selectedId == old(selectedId) && selectedMeshId == old(selectedMeshId)
      ensures var found := FindObjectRecursive(old(objects), id);
        found.Some? && !(Given(meshId) && found.value.structure.Some?) ==>
          |objects| == |old(objects)| + 1 && objects[..|old(objects)|] == old(objects)
          && objects[|old(objects)|] == CopyOfObject(found.value, old(drawn), mint).0
          && drawn == CopyOfObject(found.value, old(drawn), mint).1
          && selectedId == Some(mint(old(drawn))) && selectedMeshId.None?
      ensures Valid()
    {
      var found := FindObjectRecursive(objects, id);
      if found.None? {
        return;
      }
      RecordEdit();
      if Given(meshId) && found.value.structure.Some? {
        var r := DuplicateNodeRecursive(objects, id, meshId.value, drawn, mint);
        objects := r.0;
        drawn := r.1;
      } else {
        var copy := CopyOfObject(found.value, drawn, mint);
        objects := objects + [copy.0];
        drawn := copy.1;
        selectedId := Some(copy.0.id);
        selectedMeshId := None;
      }
    }

    /** `toggleRoaming`: roaming starts only with at least two waypoints; stopping always works. */
    method ToggleRoaming(now: real)
      modifies this`isRoaming, this`activeRoamingIndex, this`activeRoamingStartTime
      ensures old(isRoaming) ==>
        !isRoaming && activeRoamingIndex == old(activeRoamingIndex) && activeRoamingStartTime == old(activeRoamingStartTime)
      ensures !old(isRoaming) && |roamingNodes| < 2 ==>
        !isRoaming && activeRoamingIndex == old(activeRoamingIndex) && activeRoamingStartTime == old(activeRoamingStartTime)
      ensures !old(isRoaming) && |roamingNodes| >= 2 ==>
        isRoaming && activeRoamingIndex == 0 && activeRoamingStartTime == now - roamingNodes[0].travelTime * 1000.0
      ensures isRoaming ==> |roamingNodes| >= 2
    {
      if |roamingNodes| < 2 && !isRoaming {
        return;
      }
      if !isRoaming {
        isRoaming := true;
        activeRoamingIndex := 0;
        activeRoamingStartTime := now - roamingNodes[0].travelTime * 1000.0;
      } else {
        isRoaming := false;
      }
    }

    /** `updateSceneConfig` */
    method UpdateSceneConfig(u: ConfigPatch)
      requires Valid()
      modifies this`sceneConfig, this`past, this`future
      ensures sceneConfig == MergeConfig(old(sceneConfig), u)
      ensures past == RecordHistory(old(past), old(Current())) && future == []
      ensures Valid()
    {
      RecordEdit();
      sceneConfig := MergeConfig(sceneConfig, u);
    }

    /**
     * `executeAction`: an interaction event acts on its target object, or on
     * the selected one, through `updateObject`. `parse` is `JSON.parse`, `None`
     * when it throws.
     */
    method ExecuteAction(e: ObjectEvent, parse: string -> Option<Json>)
      requires Valid()
      modifies this`objects, this`past, this`future
      ensures var cid := if Given(e.targetId) then e.targetId else selectedId;
        !Given(cid) || FindObjectRecursive(old(objects), cid.value).None?
        || e.action !in {PlayAnimation, PlayCustomAnimation, ToggleVisible, SetProperty}
        ==> objects == old(objects) && past == old(past) && future == old(future)
      ensures var cid := if Given(e.targetId) then e.targetId else selectedId;
        Given(cid) && FindObjectRecursive(old(objects), cid.value).Some? && e.action == PlayAnimation ==>
          var target := FindObjectRecursive(old(objects), cid.value).value;
          var v := StrOf(e.value);
          var playing := target.activeAnimations.Some? && v.Some? && v.value in target.activeAnimations.value;
          objects == UpdateRecursive(old(objects), cid.value,
            WithUpdated(NoChange().(activeAnimations := Some(if playing || !Given(v) then [] else [v.value]))), e.targetMeshId)
      ensures var cid := if Given(e.targetId) then e.targetId else selectedId;
        Given(cid) && FindObjectRecursive(old(objects), cid.value).Some? && e.action == PlayCustomAnimation ==>
          var target := FindObjectRecursive(old(objects), cid.value).value;
          var playing := target.activeCustomAnimationId == StrOf(e.value);
          objects == UpdateRecursive(old(objects), cid.value,
            WithUpdated(NoChange().(activeCustomAnimationId := Some(if playing then None else StrOf(e.value)),
                                    props := [("activeCustomAnimationStartTime", if playing then JUndef else JNum(-1.0))])),
            e.targetMeshId)
      ensures var cid := if Given(e.targetId) then e.targetId else selectedId;
        Given(cid) && FindObjectRecursive(old(objects), cid.value).Some? && e.action == ToggleVisible ==>
          var target := FindObjectRecursive(old(objects), cid.value).value;
          if Given(e.targetMeshId) && target.structure.Some? then
            var node := FindNodeInTree(target.structure.value, e.targetMeshId.value);
            (node.None? ==> objects == old(objects) && past == old(past) && future == old(future))
            && (node.Some? ==> objects == UpdateRecursive(old(objects), cid.value,
                  WithUpdated(PropsPatch([("visible", JBool(!Truthy(OrUndef(Get(node.value.props, "visible")))))])), e.targetMeshId))
          else
            objects == UpdateRecursive(old(objects), cid.value,
              WithUpdated(PropsPatch([("visible", JBool(!Truthy(OrUndef(Get(target.props, "visible")))))])), None)
      ensures var cid := if Given(e.targetId) then e.targetId else selectedId;
        Given(cid) && FindObjectRecursive(old(objects), cid.value).Some? && e.action == SetProperty ==>
          var updates := if e.value.JStr? then parse(e.value.s) else Some(e.value);
          if updates.Some? && !updates.value.JNull? && !updates.value.JUndef? && PatchOf(updates.value).Some?
          then objects == UpdateRecursive(old(objects), cid.value, WithUpdated(PatchOf(updates.value).value), e.targetMeshId)
          else objects == old(objects) && past == old(past) && future == old(future)
      ensures Valid()
    {
      ActionNamesDistinct();
      var cid := if Given(e.targetId) then e.targetId else selectedId;
      if !Given(cid) {
        return;
      }
      var found := FindObjectRecursive(objects, cid.value);
      if found.None? {
        return;
      }
      var target := found.value;
      if e.action == PlayAnimation {
        PlayAnimationOn(cid.value, target, e);
      } else if e.action == PlayCustomAnimation {
        PlayCustomAnimationOn(cid.value, target, e);
      } else if e.action == ToggleVisible {
        ToggleVisibleOn(cid.value, target, e.targetMeshId);
      } else if e.action == SetProperty {
        SetPropertyOn(cid.value, e, parse);
      }
    }

    /** `PLAY_ANIMATION`: stop the named clip when it is playing, otherwise play only it. */
    method PlayAnimationOn(id: string, target: SceneObject, e: ObjectEvent)
      requires Valid()
      modifies this`objects, this`past, this`future
      ensures var v := StrOf(e.value);
        var playing := target.activeAnimations.Some? && v.Some? && v.value in target.activeAnimations.value;
        objects == UpdateRecursive(old(objects), id,
          WithUpdated(NoChange().(activeAnimations := Some(if playing || !Given(v) then [] else [v.value]))), e.targetMeshId)
      ensures Valid()
    {
      var v := StrOf(e.value);
      var playing := target.activeAnimations.Some? && v.Some? && v.value in target.activeAnimations.value;
      UpdateObject(id, NoChange().(activeAnimations := Some(if playing || !Given(v) then [] else [v.value])), e.targetMeshId);
    }

    /** `PLAY_CUSTOM_ANIMATION`: stop the custom animation when it is the one playing, otherwise start it now. */
    method PlayCustomAnimationOn(id: string, target: SceneObject, e: ObjectEvent)
      requires Valid()
      modifies this`objects, this`past, this`future
      ensures var playing := target.activeCustomAnimationId == StrOf(e.value);
        objects == UpdateRecursive(old(objects), id,
          WithUpdated(NoChange().(activeCustomAnimationId := Some(if playing then None else StrOf(e.value)),
                                  props := [("activeCustomAnimationStartTime", if playing then JUndef else JNum(-1.0))])),
          e.targetMeshId)
      ensures Valid()
    {
      var playing := target.activeCustomAnimationId == StrOf(e.value);
      UpdateObject(id, NoChange().(activeCustomAnimationId := Some(if playing then None else StrOf(e.value)),
                                   props := [("activeCustomAnimationStartTime", if playing then JUndef else JNum(-1.0))]),
                   e.targetMeshId);
    }

    /** `TOGGLE_VISIBLE`: flip a mesh node's `visible` when a node is named, else the object's own. */
    method ToggleVisibleOn(id: string, target: SceneObject, meshId: Option<string>)
      requires Valid()
      modifies this`objects, this`past, this`future
      ensures if Given(meshId) && target.structure.Some? then
          var node := FindNodeInTree(target.structure.value, meshId.value);
          (node.None? ==> objects == old(objects) && past == old(past) && future == old(future))
          && (node.Some? ==> objects == UpdateRecursive(old(objects), id,
                WithUpdated(PropsPatch([("visible", JBool(!Truthy(OrUndef(Get(node.value.props, "visible")))))])), meshId))
        else
          objects == UpdateRecursive(old(objects), id,
            WithUpdated(PropsPatch([("visible", JBool(!Truthy(OrUndef(Get(target.props, "visible")))))])), None)
      ensures Valid()
    {
      if Given(meshId) && target.structure.Some? {
        var node := FindNodeInTree(target.structure.value, meshId.value);
        if node.Some? {
          var visible := Truthy(OrUndef(Get(node.value.props, "visible")));
          UpdateObject(id, PropsPatch([("visible", JBool(!visible))]), meshId);
        }
      } else {
        var visible := Truthy(OrUndef(Get(target.props, "visible")));
        UpdateObject(id, PropsPatch([("visible", JBool(!visible))]), None);
      }
    }

    /**
     * `SET_PROPERTY`: a string value is parsed as JSON; a null or unparsable
     * update changes nothing, and neither does one the model cannot express.
     */
    method SetPropertyOn(id: string, e: ObjectEvent, parse: string -> Option<Json>)
      requires Valid()
      modifies this`objects, this`past, this`future
      ensures var updates := if e.value.JStr? then parse(e.value.s) else Some(e.value);
        if updates.Some? && !updates.value.JNull? && !updates.value.JUndef? && PatchOf(updates.value).Some?
        then objects == UpdateRecursive(old(objects), id, WithUpdated(PatchOf(updates.value).value), e.targetMeshId)
        else objects == old(objects) && past == old(past) && future == old(future)
      ensures Valid()
    {
      var updates := if e.value.JStr? then parse(e.value.s) else Some(e.value);
      if updates.Some? && !updates.value.JNull? && !updates.value.JUndef? {
        var patch := PatchOf(updates.value);
        if patch.Some? {
          UpdateObject(id, patch.value, e.targetMeshId);
        }
      }
    }

    /** `undo` */
    method Undo()
      requires Valid()
      modifies this`objects, this`selectedId, this`selectedMeshId, this`sceneConfig, this`past, this`future
      ensures Hist() == Undone(old(Hist()))
      ensures Valid()
    {
      if |past| == 0 {
        return;
      }
      var previous := past[|past| - 1];
      var now := Current();
      objects := previous.objects;
      selectedId := previous.selectedId;
      selectedMeshId := previous.selectedMeshId;
      sceneConfig := previous.sceneConfig;
      past := past[..|past| - 1];
      future := [now] + future;
    }

    /** `redo` */
    method Redo()
      requires Valid()
      modifies this`objects, this`selectedId, this`selectedMeshId, this`sceneConfig, this`past, this`future
      ensures Hist() == Redone(old(Hist()))
      ensures Valid()
    {
      if |future| == 0 {
        return;
      }
      var next := future[0];
      var now := Current();
      objects := next.objects;
      selectedId := next.selectedId;
      selectedMeshId := next.selectedMeshId;
      sceneConfig := next.sceneConfig;
      past := past + [now];
      future := future[1..];
    }

    /** `addLabelTemplate` */
    method AddLabelTemplate(t: LabelTemplate)
      modifies this`labelTemplates
      ensures labelTemplates == old(labelTemplates) + [t]
    {
      labelTemplates := labelTemplates + [t];
    }

    /** `updateLabelTemplate` */
    method UpdateLabelTemplate(id: string, u: TemplatePatch)
      modifies this`labelTemplates
      ensures labelTemplates == UpdateTemplates(old(labelTemplates), id, u)
    {
      labelTemplates := UpdateTemplates(labelTemplates, id, u);
    }

    /** `removeLabelTemplate` */
    method RemoveLabelTemplate(id: string)
      modifies this`labelTemplates
      ensures labelTemplates == RemoveTemplates(old(labelTemplates), id)
    {
      labelTemplates := RemoveTemplates(labelTemplates, id);
    }

    /** `updateDataSourceValues` */
    method UpdateDataSourceValues(sourceId: int, values: Dict<Json>)
      modifies this`dataSourceValues
      ensures dataSourceValues == old(dataSourceValues)[sourceId := values]
    {
      dataSourceValues := dataSourceValues[sourceId := values];
    }
  }

  /**
   * The copy `duplicateObject` appends: a deep copy with a fresh id, the
   * original's id as its source, a suffixed name, a cloned structure and
   * fresh ids for all its descendants, drawn in that order.
   */
  function CopyOfObject(o: SceneObject, k: nat, mint: nat -> string): (r: (SceneObject, nat))
    ensures r.0.id == mint(k) && r.0.sourceObjectId == Some(o.id) && r.0.name == o.name + CopySuffix
  {
    var top := CopyTop(o, k, mint);
    var next := if o.structure.Some? then CloneNode(o.structure.value, k + 1, mint).1 else k + 1;
    RefreshIdsShape(top, next, mint);
    RefreshIds(top, next, mint)
  }

  /**
   * The copy is the original in everything but the copied parts: it takes
   * the fresh id `mint(k)`, the original as its source and the suffixed
   * name, and keeps every other own field. Its structure, when the original
   * has one, is the original's node by node with the ids `mint(k + 1)`, ...
   * (`cloneNode`); its descendants, in pre-order, are the original's with
   * the ids that follow (`refreshIds`).
   */
  lemma CopyOfObjectShape(o: SceneObject, k: nat, mint: nat -> string)
    ensures var r := CopyOfObject(o, k, mint);
      var c := r.0;
      var m := if o.structure.Some? then k + 1 + |Flat(o.structure.value)| else k + 1;
      c == o.(id := mint(k), sourceObjectId := Some(o.id), name := o.name + CopySuffix,
              structure := c.structure, children := c.children)
      && c.structure.Some? == o.structure.Some?
      && (o.structure.Some? ==> ClonedSeq(Flat(c.structure.value), Flat(o.structure.value), k + 1, mint))
      && RefreshedSeq(FlatObjects(Kids(c)), FlatObjects(Kids(o)), m, mint)
      && r.1 == m + |FlatObjects(Kids(o))|
  {
    var m := if o.structure.Some? then k + 1 + |Flat(o.structure.value)| else k + 1;
    var ws := CopyTop(o, k, mint);
    CopyOfObjectRefreshes(o, k, mint);
    RefreshIdsShape(ws, m, mint);
    assert Kids(ws) == Kids(o);
  }

  /** The copy before `refreshIds`: fresh id, source, suffixed name and the cloned structure. */
  function CopyTop(o: SceneObject, k: nat, mint: nat -> string): (r: SceneObject)
    ensures r == o.(id := mint(k), sourceObjectId := Some(o.id), name := o.name + CopySuffix, structure := r.structure)
    ensures r.structure.Some? == o.structure.Some?
    ensures o.structure.Some? ==> ClonedSeq(Flat(r.structure.value), Flat(o.structure.value), k + 1, mint)
  {
    var top := o.(id := mint(k), sourceObjectId := Some(o.id), name := o.name + CopySuffix);
    if o.structure.Some? then
      CloneNodeShape(o.structure.value, k + 1, mint);
      top.(structure := Some(CloneNode(o.structure.value, k + 1, mint).0))
    else top
  }

  /** `duplicateObject`'s copy is `refreshIds` of `CopyTop`, drawing on after the structure's ids. */
  lemma CopyOfObjectRefreshes(o: SceneObject, k: nat, mint: nat -> string)
    ensures CopyOfObject(o, k, mint)
         == RefreshIds(CopyTop(o, k, mint), if o.structure.Some? then k + 1 + |Flat(o.structure.value)| else k + 1, mint)
  {
    if o.structure.Some? {
      CloneNodeShape(o.structure.value, k + 1, mint);
    }
  }

}
