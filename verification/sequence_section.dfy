/**
 * The animation-sequence section of the property panel: adding a new custom
 * animation for the object (or its selected sub-mesh), removing and editing
 * animations by id, and opening the timeline on one of them. Animation and
 * track ids are random in the editor and are parameters here.
 */
module SequenceSection {
  import opened Wrappers
  import opened Text
  import opened Json
  import opened Scene
  import opened EditorStore

  /**
   * `findNameInStructure(n, tid)`: the node's own name when it has the id;
   * otherwise the first non-empty name found among its children's subtrees.
   */
  function FindName(n: Node, tid: string): (r: Option<string>)
    ensures n.id == tid ==> r == Some(n.name)
    ensures r.Some? ==> exists m :: m in Flat(n) && m.id == tid && m.name == r.value
    ensures (forall m :: m in Flat(n) ==> m.id != tid) ==> r.None?
    decreases n, 1
  {
    if n.id == tid then Some(n.name)
    else if n.children.ChildList? then FindNameIn(n.children.items, tid)
    else None
  }

  /** The loop over the children: an empty name found in a subtree does not stop the search. */
  function FindNameIn(ns: seq<Node>, tid: string): (r: Option<string>)
    ensures r.Some? ==> r.value != "" && exists m :: m in FlatList(ns) && m.id == tid && m.name == r.value
    ensures (forall m :: m in FlatList(ns) ==> m.id != tid) ==> r.None?
    decreases ns, 0
  {
    if |ns| == 0 then None
    else
      var f := FindName(ns[0], tid);
      if f.Some? && f.value != "" then f else FindNameIn(ns[1..], tid)
  }

  /** A template literal prints a missing name as `null`. */
  function NameText(name: Option<string>): string
  {
    if name.Some? then name.value else "null"
  }

  /** `targetName`: the selected sub-mesh's name in the structure, or the object's name. */
  function TargetName(obj: SceneObject, selectedMeshId: Option<string>): Option<string>
  {
    if Given(selectedMeshId) && obj.structure.Some? then FindName(obj.structure.value, selectedMeshId.value)
    else Some(obj.name)
  }

  /** `object.customAnimations || []` */
  function AnimsOf(obj: SceneObject): seq<Animation>
  {
    if obj.customAnimations.Some? then obj.customAnimations.value else []
  }

  /** The animation `addAnimation` creates. */
  function NewAnimation(obj: SceneObject, selectedMeshId: Option<string>, animId: string, trackId: string): (r: Animation)
    ensures r.id == animId && r.duration == 3.0 && r.loopType == "loop"
    ensures r.autoPlay == Some(false) && r.easing == Some("easeInOut")
    ensures r.name == NameText(TargetName(obj, selectedMeshId)) + " 状态序列 " + NatToString(|AnimsOf(obj)| + 1)
    ensures |r.tracks| == 1 && r.tracks[0].id == trackId && r.tracks[0].keyframes == []
    ensures r.tracks[0].targetId == (if Given(selectedMeshId) then selectedMeshId else None)
  {
    var targetId := if Given(selectedMeshId) then selectedMeshId else None;
    Animation(animId,
      NameText(TargetName(obj, selectedMeshId)) + " 状态序列 " + NatToString(|AnimsOf(obj)| + 1),
      3.0, "loop", Some(false), Some("easeInOut"),
      [Track(trackId, targetId, [])])
  }

  /** `addAnimation`: the object's animations with the new one appended. */
  function AddAnimation(obj: SceneObject, selectedMeshId: Option<string>, animId: string, trackId: string): (r: seq<Animation>)
    ensures |r| == |AnimsOf(obj)| + 1
    ensures r[..|AnimsOf(obj)|] == AnimsOf(obj)
    ensures r[|AnimsOf(obj)|] == NewAnimation(obj, selectedMeshId, animId, trackId)
  {
    AnimsOf(obj) + [NewAnimation(obj, selectedMeshId, animId, trackId)]
  }

  /**
   * A selected sub-mesh that the structure does not name gives the new
   * animation a name starting with `null`.
   */
  lemma UnknownMeshNamedNull(obj: SceneObject, meshId: string, animId: string, trackId: string)
    requires meshId != "" && obj.structure.Some?
    requires forall m :: m in Flat(obj.structure.value) ==> m.id != meshId
    ensures NewAnimation(obj, Some(meshId), animId, trackId).name == "null 状态序列 " + NatToString(|AnimsOf(obj)| + 1)
  {
    assert FindName(obj.structure.value, meshId).None?;
  }

  /** `removeAnimation(id)`: the animations without those of that id, in order. */
  function RemoveAnimation(anims: seq<Animation>, id: string): (r: seq<Animation>)
    ensures |r| <= |anims|
    ensures forall a :: a in r <==> a in anims && a.id != id
  {
    if |anims| == 0 then []
    else (if anims[0].id != id then [anims[0]] else []) + RemoveAnimation(anims[1..], id)
  }

  /** Removing keeps the list as it was when no animation has the id. */
  lemma {:induction false} RemoveAbsent(anims: seq<Animation>, id: string)
    requires forall a :: a in anims ==> a.id != id
    ensures RemoveAnimation(anims, id) == anims
    decreases |anims|
  {
    if |anims| > 0 {
      assert anims[0] in anims;
      assert forall x :: x in anims[1..] ==> x in anims;
      RemoveAbsent(anims[1..], id);
      assert [anims[0]] + anims[1..] == anims;
    }
  }

  /** Removing a newly added animation gives back the list before it was added. */
  lemma RemoveUndoesAdd(obj: SceneObject, selectedMeshId: Option<string>, animId: string, trackId: string)
    requires forall a :: a in AnimsOf(obj) ==> a.id != animId
    ensures RemoveAnimation(AddAnimation(obj, selectedMeshId, animId, trackId), animId) == AnimsOf(obj)
  {
    var xs := AnimsOf(obj);
    var y := NewAnimation(obj, selectedMeshId, animId, trackId);
    RemoveAppend(xs, [y], animId);
    RemoveAbsent(xs, animId);
    assert [y][1..] == [];
  }

  /** Removing goes element by element. */
  lemma {:induction false} RemoveAppend(a: seq<Animation>, b: seq<Animation>, id: string)
    ensures RemoveAnimation(a + b, id) == RemoveAnimation(a, id) + RemoveAnimation(b, id)
    decreases |a|
  {
    if |a| == 0 {
      assert a + b == b;
    } else {
      var x := if a[0].id != id then [a[0]] else [];
      calc {
        RemoveAnimation(a + b, id);
        { RemoveCons(a, b, id); }
        x + RemoveAnimation(a[1..] + b, id);
        { RemoveAppend(a[1..], b, id); }
        x + (RemoveAnimation(a[1..], id) + RemoveAnimation(b, id));
        (x + RemoveAnimation(a[1..], id)) + RemoveAnimation(b, id);
      }
    }
  }

  /** The first animation of a non-empty `a + b` is the first of `a`. */
  lemma RemoveCons(a: seq<Animation>, b: seq<Animation>, id: string)
    requires |a| > 0
    ensures RemoveAnimation(a + b, id) == (if a[0].id != id then [a[0]] else []) + RemoveAnimation(a[1..] + b, id)
  {
    assert (a + b)[0] == a[0];
    assert (a + b)[1..] == a[1..] + b;
  }

  /** A `Partial<CustomAnimation>` update. */
  datatype AnimPatch = AnimPatch(
    name: Option<string>,
    duration: Option<real>,
    loopType: Option<string>,
    autoPlay: Option<Option<bool>>,
    easing: Option<Option<string>>,
    tracks: Option<seq<Track>>)

  /** `{...a, ...updates}` */
  function MergeAnimation(a: Animation, u: AnimPatch): (r: Animation)
    ensures r.id == a.id
  {
    a.(name := Pick(u.name, a.name), duration := Pick(u.duration, a.duration),
       loopType := Pick(u.loopType, a.loopType), autoPlay := Pick(u.autoPlay, a.autoPlay),
       easing := Pick(u.easing, a.easing), tracks := Pick(u.tracks, a.tracks))
  }

  /** `updateAnimation(id, updates)`: only the animations of that id take the update. */
  function UpdateAnimation(anims: seq<Animation>, id: string, u: AnimPatch): (r: seq<Animation>)
    ensures |r| == |anims|
    ensures forall i :: 0 <= i < |anims| ==> r[i].id == anims[i].id
    ensures forall i :: 0 <= i < |anims| && anims[i].id != id ==> r[i] == anims[i]
    ensures forall i :: 0 <= i < |anims| && anims[i].id == id ==> r[i] == MergeAnimation(anims[i], u)
  {
    if |anims| == 0 then []
    else [if anims[0].id == id then MergeAnimation(anims[0], u) else anims[0]] + UpdateAnimation(anims[1..], id, u)
  }

  /** Removing an animation after editing it is the same as removing it unedited. */
  lemma {:induction false} RemoveAfterUpdate(anims: seq<Animation>, id: string, u: AnimPatch)
    ensures RemoveAnimation(UpdateAnimation(anims, id, u), id) == RemoveAnimation(anims, id)
    decreases |anims|
  {
    if |anims| > 0 {
      assert UpdateAnimation(anims, id, u)[1..] == UpdateAnimation(anims[1..], id, u);
      RemoveAfterUpdate(anims[1..], id, u);
    }
  }

  /** `handleEditTimeline(animId)`: the `setState` patch that opens the timeline on the animation. */
  function EditTimelinePatch(objectId: string, animId: string): StatePatch
  {
    NoStateChange().(bottomPanelVisible := Some(true), timelineVisible := Some(true),
      activeTimelineAnimationId := Some(Some(animId)), activeTimelineObjectId := Some(Some(objectId)))
  }

  /**
   * After the patch the timeline is shown on that object and animation, and
   * moving it to another animation or object stops playback at time 0.
   */
  lemma EditTimelineOpens(objects: seq<SceneObject>, tl: Timeline, objectId: string, animId: string)
    ensures var next := NextTimeline(objects, tl, EditTimelinePatch(objectId, animId));
      next.visible && next.objectId == Some(objectId) && next.animationId == Some(animId)
    ensures tl.objectId != Some(objectId) || tl.animationId != Some(animId) ==>
      var next := NextTimeline(objects, tl, EditTimelinePatch(objectId, animId));
      !next.playing && next.currentTime == 0.0
  {
    var np := EditTimelinePatch(objectId, animId);
    assert !Closes(tl, np);
    if tl.objectId != Some(objectId) || tl.animationId != Some(animId) {
      assert SwitchesObject(tl, np) || SwitchesAnimation(tl, np);
      SwitchResetsPlayer(objects, tl, np);
    }
  }
}
