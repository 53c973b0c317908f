/**
 * The keyframe editor of the animation timeline: removing or editing the
 * keyframe at a (track, keyframe) position of the active animation, and
 * writing the animation's new tracks back into the edited object's custom
 * animations.
 */
module AnimationTimeline {
  import opened Wrappers
  import opened Json
  import opened Scene
  import opened TimelineRecorder

  /** The editor is open only on a position that holds a keyframe. */
  predicate Editable(anim: Animation, trackIndex: int, keyIndex: int)
  {
    0 <= trackIndex < |anim.tracks| && 0 <= keyIndex < |anim.tracks[trackIndex].keyframes|
  }

  /** `keyframes.filter((_, i) => i !== keyIndex)` */
  function WithoutIndex(ks: seq<Keyframe>, keyIndex: nat): (r: seq<Keyframe>)
    requires keyIndex < |ks|
    ensures |r| == |ks| - 1
    ensures forall j :: 0 <= j < keyIndex ==> r[j] == ks[j]
    ensures forall j :: keyIndex <= j < |r| ==> r[j] == ks[j + 1]
  {
    ks[..keyIndex] + ks[keyIndex + 1..]
  }

  /** A `Partial<Keyframe>`: a new time, if any, and fields to write. */
  datatype KeyPatch = KeyPatch(time: Option<real>, fields: Dict<Json>)

  /** `{...keyframe, ...updates}` */
  function PatchKey(k: Keyframe, u: KeyPatch): (r: Keyframe)
    ensures r.time == if u.time.Some? then u.time.value else k.time
    ensures forall f :: !HasKey(u.fields, f) ==> Get(r.fields, f) == Get(k.fields, f)
    ensures forall f :: HasKey(u.fields, f) ==> Get(r.fields, f) == Get(u.fields, f)
  {
    var fields := Merge(k.fields, u.fields);
    assert forall f :: Get(fields, f) == if HasKey(u.fields, f) then Get(u.fields, f) else Get(k.fields, f) by {
      forall f
        ensures Get(fields, f) == if HasKey(u.fields, f) then Get(u.fields, f) else Get(k.fields, f)
      {
        GetMerge(k.fields, u.fields, f);
      }
    }
    Keyframe(if u.time.Some? then u.time.value else k.time, fields)
  }

  /** The animation's tracks with one keyframe removed. */
  function KeyRemoved(tracks: seq<Track>, trackIndex: nat, keyIndex: nat): (r: seq<Track>)
    requires trackIndex < |tracks| && keyIndex < |tracks[trackIndex].keyframes|
    ensures |r| == |tracks|
    ensures forall j :: 0 <= j < |tracks| && j != trackIndex ==> r[j] == tracks[j]
    ensures r[trackIndex].id == tracks[trackIndex].id && r[trackIndex].targetId == tracks[trackIndex].targetId
    ensures r[trackIndex].keyframes == WithoutIndex(tracks[trackIndex].keyframes, keyIndex)
  {
    tracks[trackIndex := tracks[trackIndex].(keyframes := WithoutIndex(tracks[trackIndex].keyframes, keyIndex))]
  }

  /** The animation's tracks with one keyframe edited. */
  function KeyUpdated(tracks: seq<Track>, trackIndex: nat, keyIndex: nat, u: KeyPatch): (r: seq<Track>)
    requires trackIndex < |tracks| && keyIndex < |tracks[trackIndex].keyframes|
    ensures |r| == |tracks|
    ensures forall j :: 0 <= j < |tracks| && j != trackIndex ==> r[j] == tracks[j]
    ensures r[trackIndex].id == tracks[trackIndex].id && r[trackIndex].targetId == tracks[trackIndex].targetId
    ensures |r[trackIndex].keyframes| == |tracks[trackIndex].keyframes|
    ensures r[trackIndex].keyframes[keyIndex] == PatchKey(tracks[trackIndex].keyframes[keyIndex], u)
    ensures forall j :: 0 <= j < |r[trackIndex].keyframes| && j != keyIndex ==>
      r[trackIndex].keyframes[j] == tracks[trackIndex].keyframes[j]
  {
    var ks := tracks[trackIndex].keyframes;
    tracks[trackIndex := tracks[trackIndex].(keyframes := ks[keyIndex := PatchKey(ks[keyIndex], u)])]
  }

  /** `onRemove`: the `updateObject(id, {customAnimations})` call it makes. */
  method OnRemove(targetObject: SceneObject, targetAnim: Animation, trackIndex: nat, keyIndex: nat)
    returns (call: (string, Option<seq<Animation>>))
    requires Editable(targetAnim, trackIndex, keyIndex)
    ensures call == (targetObject.id,
      WithTracks(targetObject.customAnimations, targetAnim.id, KeyRemoved(targetAnim.tracks, trackIndex, keyIndex)))
  {
    var tracks := targetAnim.tracks;
    var track := tracks[trackIndex];
    track := track.(keyframes := WithoutIndex(track.keyframes, keyIndex));
    tracks := tracks[trackIndex := track];
    call := (targetObject.id, WithTracks(targetObject.customAnimations, targetAnim.id, tracks));
  }

  /** `onUpdate`: the `updateObject(id, {customAnimations})` call it makes. */
  method OnUpdate(targetObject: SceneObject, targetAnim: Animation, trackIndex: nat, keyIndex: nat, u: KeyPatch)
    returns (call: (string, Option<seq<Animation>>))
    requires Editable(targetAnim, trackIndex, keyIndex)
    ensures call == (targetObject.id,
      WithTracks(targetObject.customAnimations, targetAnim.id, KeyUpdated(targetAnim.tracks, trackIndex, keyIndex, u)))
  {
    var tracks := targetAnim.tracks;
    var track := tracks[trackIndex];
    var keyframes := track.keyframes;
    keyframes := keyframes[keyIndex := PatchKey(keyframes[keyIndex], u)];
    track := track.(keyframes := keyframes);
    tracks := tracks[trackIndex := track];
    call := (targetObject.id, WithTracks(targetObject.customAnimations, targetAnim.id, tracks));
  }

  /** The total number of keyframes of some tracks. */
  function KeyCount(tracks: seq<Track>): nat
  {
    if |tracks| == 0 then 0 else KeyCount(tracks[..|tracks| - 1]) + |tracks[|tracks| - 1].keyframes|
  }

  /** Changing one track changes the total by the change in that track. */
  lemma {:induction false} KeyCountUpdate(tracks: seq<Track>, i: nat, t: Track)
    requires i < |tracks|
    ensures KeyCount(tracks[i := t]) + |tracks[i].keyframes| == KeyCount(tracks) + |t.keyframes|
    decreases |tracks|
  {
    var n := |tracks| - 1;
    if i < n {
      assert tracks[i := t][..n] == tracks[..n][i := t];
      KeyCountUpdate(tracks[..n], i, t);
    } else {
      assert tracks[i := t][..n] == tracks[..n];
    }
  }

  /** Removing a keyframe takes exactly one keyframe out of the animation. */
  lemma RemoveOneKey(tracks: seq<Track>, trackIndex: nat, keyIndex: nat)
    requires trackIndex < |tracks| && keyIndex < |tracks[trackIndex].keyframes|
    ensures KeyCount(KeyRemoved(tracks, trackIndex, keyIndex)) + 1 == KeyCount(tracks)
  {
    KeyCountUpdate(tracks, trackIndex, KeyRemoved(tracks, trackIndex, keyIndex)[trackIndex]);
  }

  /** Editing a keyframe keeps the animation's number of keyframes. */
  lemma UpdateKeepsCount(tracks: seq<Track>, trackIndex: nat, keyIndex: nat, u: KeyPatch)
    requires trackIndex < |tracks| && keyIndex < |tracks[trackIndex].keyframes|
    ensures KeyCount(KeyUpdated(tracks, trackIndex, keyIndex, u)) == KeyCount(tracks)
  {
    KeyCountUpdate(tracks, trackIndex, KeyUpdated(tracks, trackIndex, keyIndex, u)[trackIndex]);
  }
}
