/**
 * The editor's scene data: scene objects (a forest, through `children`), the
 * scene graph of a loaded model (`structure`, a tree of nodes), bindings,
 * label templates, interaction events and keyframe animations.
 *
 * Fields that the editor's logic reads or writes by name are typed; the rest
 * of each record (position, rotation, scale, material, visible, locked, type,
 * loadStatus, updated, light parameters, ...) lives in a `props` dictionary of
 * JavaScript values, keyed by the property name.
 */
module Scene {
  import opened Wrappers
  import opened Json

  /** An optional child list (`children?: T[]`): absent, or present and possibly empty. */
  datatype Children<T> = NoChildren | ChildList(items: seq<T>)

  /**
   * A node of a model's scene graph (`SceneGraphNode`). An object update sent
   * with a mesh id is spread onto the node: its name and plain properties go
   * to the node's own `name` and `props`, and its other keys (`url`,
   * `activeAnimations`, `structure: undefined`, ...) are kept in `spread`.
   */
  datatype Node = Node(
    id: string,
    name: string,
    children: Children<Node>,
    sourceNodeId: Option<string>,
    originalName: Option<string>,
    props: Dict<Json>,
    spread: Patch)

  /** A property binding: which data source tag drives a property. */
  datatype Binding = Binding(enabled: bool, dataSourceId: int, tagKey: string, expression: Option<string>)

  /** A label template field mapping: literal text, a data binding, or `null`. */
  datatype Mapping = Literal(text: string) | Bound(binding: Binding) | Blank

  datatype LabelBinding = LabelBinding(templateId: string, fieldMappings: Dict<Mapping>)

  datatype LabelTemplate = LabelTemplate(id: string, name: string, html: string, css: string, fields: seq<string>)

  datatype LabelConfig = LabelConfig(offset: seq<real>, showLine: bool)

  datatype ObjectEvent = ObjectEvent(
    id: string,
    action: string,
    sourceMeshId: Option<string>,
    targetId: Option<string>,
    targetMeshId: Option<string>,
    value: Json)

  /** The actions an interaction event can name. */
  const PlayAnimation: string := "PLAY_ANIMATION"
  const PlayCustomAnimation: string := "PLAY_CUSTOM_ANIMATION"
  const ToggleVisible: string := "TOGGLE_VISIBLE"
  const SetProperty: string := "SET_PROPERTY"

  /** The four action names are different strings. */
  lemma ActionNamesDistinct()
    ensures PlayAnimation != PlayCustomAnimation && PlayAnimation != ToggleVisible && PlayAnimation != SetProperty
    ensures PlayCustomAnimation != ToggleVisible && PlayCustomAnimation != SetProperty && ToggleVisible != SetProperty
  {
    assert PlayAnimation[0] == 'P' && PlayCustomAnimation[0] == 'P' && ToggleVisible[0] == 'T' && SetProperty[0] == 'S';
    assert |PlayAnimation| == 14 && |PlayCustomAnimation| == 21;
  }

  /** The `events` record: the click list, and any other keys it carries. */
  datatype Events = Events(onClick: Option<seq<ObjectEvent>>, rest: Dict<Json>)

  /** A keyframe: its time, and the captured properties (position, opacity, easing, ...). */
  datatype Keyframe = Keyframe(time: real, fields: Dict<Json>)

  datatype Track = Track(id: string, targetId: Option<string>, keyframes: seq<Keyframe>)

  datatype Animation = Animation(
    id: string,
    name: string,
    duration: real,
    loopType: string,
    autoPlay: Option<bool>,
    easing: Option<string>,
    tracks: seq<Track>)

  /** A scene object (`SceneObject`). */
  datatype SceneObject = SceneObject(
    id: string,
    name: string,
    children: Children<SceneObject>,
    structure: Option<Node>,
    url: Option<string>,
    dataBindings: Option<Dict<Binding>>,
    labelBinding: Option<LabelBinding>,
    htmlLabel: Option<string>,
    events: Option<Events>,
    customAnimations: Option<seq<Animation>>,
    activeAnimations: Option<seq<string>>,
    activeCustomAnimationId: Option<string>,
    sourceObjectId: Option<string>,
    labelConfig: Option<LabelConfig>,
    props: Dict<Json>)

  /** A saved camera view. */
  datatype CameraBookmark = CameraBookmark(id: string, name: string, position: seq<real>, target: seq<real>)

  /** A roaming waypoint: its id, its precomputed travel time, and its other fields. */
  datatype RoamingNode = RoamingNode(id: string, travelTime: real, rest: Dict<Json>)

  /** The scene configuration: the background fields the editor switches, and the rest. */
  datatype SceneConfig = SceneConfig(backgroundType: string, backgroundValue: string, rest: Dict<Json>)

  /** A string option that JavaScript would treat as true: present and non-empty. */
  predicate Given(m: Option<string>)
  {
    m.Some? && m.value != ""
  }

  /**
   * A `Partial<SceneObject>` update: `None` leaves a field alone; for the
   * fields the editor sets to `undefined`/`null`, `Some(None)` clears it.
   */
  datatype Patch = Patch(
    name: Option<string>,
    url: Option<string>,
    structure: Option<Option<Node>>,
    dataBindings: Option<Dict<Binding>>,
    labelBinding: Option<Option<LabelBinding>>,
    htmlLabel: Option<string>,
    events: Option<Events>,
    customAnimations: Option<Option<seq<Animation>>>,
    activeAnimations: Option<seq<string>>,
    activeCustomAnimationId: Option<Option<string>>,
    labelConfig: Option<LabelConfig>,
    props: Dict<Json>)

  /** The update that changes nothing. */
  function NoChange(): Patch
  {
    Patch(None, None, None, None, None, None, None, None, None, None, None, [])
  }

  /** An update of plain properties only. */
  function PropsPatch(props: Dict<Json>): Patch
  {
    NoChange().(props := props)
  }

  function Pick<T>(u: Option<T>, current: T): T
  {
    if u.Some? then u.value else current
  }

  /** `{...obj, ...updates}` */
  function MergeObject(o: SceneObject, p: Patch): (r: SceneObject)
    ensures r.id == o.id && r.children == o.children && r.sourceObjectId == o.sourceObjectId
  {
    o.(name := Pick(p.name, o.name),
       url := if p.url.Some? then p.url else o.url,
       structure := Pick(p.structure, o.structure),
       dataBindings := if p.dataBindings.Some? then p.dataBindings else o.dataBindings,
       labelBinding := Pick(p.labelBinding, o.labelBinding),
       htmlLabel := if p.htmlLabel.Some? then p.htmlLabel else o.htmlLabel,
       events := if p.events.Some? then p.events else o.events,
       customAnimations := Pick(p.customAnimations, o.customAnimations),
       activeAnimations := if p.activeAnimations.Some? then p.activeAnimations else o.activeAnimations,
       activeCustomAnimationId := Pick(p.activeCustomAnimationId, o.activeCustomAnimationId),
       labelConfig := if p.labelConfig.Some? then p.labelConfig else o.labelConfig,
       props := Merge(o.props, p.props))
  }

  /** `{...a, ...b}` for two partial updates: every key `b` gives wins. */
  function Overlay(a: Patch, b: Patch): Patch
  {
    Patch(
      if b.name.Some? then b.name else a.name,
      if b.url.Some? then b.url else a.url,
      if b.structure.Some? then b.structure else a.structure,
      if b.dataBindings.Some? then b.dataBindings else a.dataBindings,
      if b.labelBinding.Some? then b.labelBinding else a.labelBinding,
      if b.htmlLabel.Some? then b.htmlLabel else a.htmlLabel,
      if b.events.Some? then b.events else a.events,
      if b.customAnimations.Some? then b.customAnimations else a.customAnimations,
      if b.activeAnimations.Some? then b.activeAnimations else a.activeAnimations,
      if b.activeCustomAnimationId.Some? then b.activeCustomAnimationId else a.activeCustomAnimationId,
      if b.labelConfig.Some? then b.labelConfig else a.labelConfig,
      Merge(a.props, b.props))
  }

  /**
   * `{...node, ...updates}` for an object update applied to a graph node: the
   * node keeps its id, children and source fields, a given name renames it,
   * the update's plain properties win key by key, and each of the update's
   * other keys is carried by the node whether or not a node has such a field.
   */
  function MergeNode(n: Node, p: Patch): (r: Node)
    ensures r.id == n.id && r.children == n.children
    ensures r.sourceNodeId == n.sourceNodeId && r.originalName == n.originalName
    ensures r.name == if p.name.Some? then p.name.value else n.name
    ensures forall k :: Get(r.props, k) == if HasKey(p.props, k) then Get(p.props, k) else Get(n.props, k)
    ensures Carries(r.spread, p) && r.spread.name == n.spread.name && r.spread.props == n.spread.props
  {
    forall k ensures Get(Merge(n.props, p.props), k) == if HasKey(p.props, k) then Get(p.props, k) else Get(n.props, k) {
      GetMerge(n.props, p.props, k);
    }
    n.(name := Pick(p.name, n.name), props := Merge(n.props, p.props),
       spread := Overlay(n.spread, p.(name := None, props := [])))
  }

  /** A key the node carried before and the update does not give is still carried afterwards. */
  lemma MergeNodeKeeps(n: Node, p: Patch, q: Patch)
    requires Carries(n.spread, q) && Disjoint(p, q)
    ensures Carries(MergeNode(n, p).spread, q)
  {
  }

  /** A node's spread keys hold every typed key the update gives, with the given value. */
  predicate Carries(s: Patch, p: Patch)
  {
    (p.url.Some? ==> s.url == p.url)
    && (p.structure.Some? ==> s.structure == p.structure)
    && (p.dataBindings.Some? ==> s.dataBindings == p.dataBindings)
    && (p.labelBinding.Some? ==> s.labelBinding == p.labelBinding)
    && (p.htmlLabel.Some? ==> s.htmlLabel == p.htmlLabel)
    && (p.events.Some? ==> s.events == p.events)
    && (p.customAnimations.Some? ==> s.customAnimations == p.customAnimations)
    && (p.activeAnimations.Some? ==> s.activeAnimations == p.activeAnimations)
    && (p.activeCustomAnimationId.Some? ==> s.activeCustomAnimationId == p.activeCustomAnimationId)
    && (p.labelConfig.Some? ==> s.labelConfig == p.labelConfig)
  }

  /** Two updates give no typed key in common. */
  predicate Disjoint(p: Patch, q: Patch)
  {
    !(p.url.Some? && q.url.Some?) && !(p.structure.Some? && q.structure.Some?)
    && !(p.dataBindings.Some? && q.dataBindings.Some?) && !(p.labelBinding.Some? && q.labelBinding.Some?)
    && !(p.htmlLabel.Some? && q.htmlLabel.Some?) && !(p.events.Some? && q.events.Some?)
    && !(p.customAnimations.Some? && q.customAnimations.Some?)
    && !(p.activeAnimations.Some? && q.activeAnimations.Some?)
    && !(p.activeCustomAnimationId.Some? && q.activeCustomAnimationId.Some?)
    && !(p.labelConfig.Some? && q.labelConfig.Some?)
  }

  /** The children of a node, none when the list is absent. */
  function NodeKids(n: Node): seq<Node>
  {
    if n.children.ChildList? then n.children.items else []
  }

  /** The children of an object, none when the list is absent. */
  function Kids(o: SceneObject): seq<SceneObject>
  {
    if o.children.ChildList? then o.children.items else []
  }

  /** The nodes of a graph in pre-order: a node, then each child's subtree in turn. */
  function Flat(n: Node): (r: seq<Node>)
    ensures |r| >= 1 && r[0] == n
    decreases n, 1
  {
    [n] + (if n.children.ChildList? then FlatList(n.children.items) else [])
  }

  function FlatList(ns: seq<Node>): seq<Node>
    decreases ns, 0
  {
    if |ns| == 0 then [] else Flat(ns[0]) + FlatList(ns[1..])
  }

  /** The objects of a forest in pre-order. */
  function FlatObjects(os: seq<SceneObject>): seq<SceneObject>
    decreases os
  {
    if |os| == 0 then []
    else [os[0]] + (if os[0].children.ChildList? then FlatObjects(os[0].children.items) else []) + FlatObjects(os[1..])
  }

  function NodeIds(ns: seq<Node>): (r: seq<string>)
    ensures |r| == |ns| && forall i :: 0 <= i < |ns| ==> r[i] == ns[i].id
  {
    if |ns| == 0 then [] else [ns[0].id] + NodeIds(ns[1..])
  }

  function ObjectIds(os: seq<SceneObject>): (r: seq<string>)
    ensures |r| == |os| && forall i :: 0 <= i < |os| ==> r[i] == os[i].id
  {
    if |os| == 0 then [] else [os[0].id] + ObjectIds(os[1..])
  }

  lemma {:induction false} FlatListAppend(a: seq<Node>, b: seq<Node>)
    ensures FlatList(a + b) == FlatList(a) + FlatList(b)
  {
    if |a| == 0 {
      assert a + b == b;
    } else {
      assert (a + b)[0] == a[0];
      assert (a + b)[1..] == a[1..] + b;
      FlatListAppend(a[1..], b);
    }
  }

  lemma {:induction false} FlatObjectsAppend(a: seq<SceneObject>, b: seq<SceneObject>)
    ensures FlatObjects(a + b) == FlatObjects(a) + FlatObjects(b)
  {
    if |a| == 0 {
      assert a + b == b;
    } else {
      assert (a + b)[0] == a[0];
      assert (a + b)[1..] == a[1..] + b;
      FlatObjectsAppend(a[1..], b);
    }
  }
}
