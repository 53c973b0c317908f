/**
 * Recording a keyframe on the timeline: the captured pose of the edited
 * object (or of its selected mesh) is written into the active animation's
 * track for that target. A keyframe closer than the merge window to the
 * captured time is overwritten in place; otherwise the new keyframe is added
 * and the track's keyframes are sorted by time. The three.js lookup and the
 * pose capture are inputs: whether the node was found, and the keyframe.
 */
module TimelineRecorder {
  import opened Wrappers
  import opened Json
  import opened Scene

  /** Keyframes closer together than this (in seconds) are one keyframe. */
  const MergeWindow: real := 0.005

  function Abs(x: real): real
  {
    if x < 0.0 then -x else x
  }

  predicate Sorted(ks: seq<Keyframe>)
  {
    forall i, j :: 0 <= i < j < |ks| ==> ks[i].time <= ks[j].time
  }

  // ---------------------------------------------------------------------
  // `keyframes.sort((a, b) => a.time - b.time)`, a stable sort
  // ---------------------------------------------------------------------

  /** `k` placed into sorted `ks` after every keyframe not later than it. */
  function Insert(k: Keyframe, ks: seq<Keyframe>): (r: seq<Keyframe>)
    ensures |r| == |ks| + 1
    ensures multiset(r) == multiset(ks) + multiset{k}
    decreases |ks|
  {
    if |ks| == 0 then [k]
    else if ks[|ks| - 1].time <= k.time then ks + [k]
    else
      var init := ks[..|ks| - 1];
      assert ks == init + [ks[|ks| - 1]];
      Insert(k, init) + [ks[|ks| - 1]]
  }

  lemma {:induction false} InsertSorted(k: Keyframe, ks: seq<Keyframe>)
    requires Sorted(ks)
    ensures Sorted(Insert(k, ks))
    decreases |ks|
  {
    if |ks| > 0 && ks[|ks| - 1].time > k.time {
      var init := ks[..|ks| - 1];
      var last := ks[|ks| - 1];
      SortedInit(ks);
      InsertSorted(k, init);
      InsertBelow(k, init, last.time);
      SortedSnoc(Insert(k, init), last);
    }
  }

  /** Inserting a keyframe no later than `t` among keyframes no later than `t` keeps them all no later than `t`. */
  lemma InsertBelow(k: Keyframe, ks: seq<Keyframe>, t: real)
    requires k.time <= t && forall i :: 0 <= i < |ks| ==> ks[i].time <= t
    ensures forall x :: x in Insert(k, ks) ==> x.time <= t
  {
    var r := Insert(k, ks);
    forall x | x in r
      ensures x.time <= t
    {
      assert x in multiset(r);
      if x != k {
        assert x in multiset(ks);
        var i :| 0 <= i < |ks| && ks[i] == x;
      }
    }
  }

  /** A keyframe not earlier than every keyframe of a sorted list extends it sorted. */
  lemma SortedSnoc(r: seq<Keyframe>, last: Keyframe)
    requires Sorted(r) && forall x :: x in r ==> x.time <= last.time
    ensures Sorted(r + [last])
  {
    forall i, j | 0 <= i < j < |r| + 1
      ensures (r + [last])[i].time <= (r + [last])[j].time
    {
      if j == |r| {
        assert (r + [last])[i] in r;
      } else {
        assert (r + [last])[i] == r[i] && (r + [last])[j] == r[j];
      }
    }
  }

  /** A stable sort by time: the later of two equally timed keyframes stays later. */
  function SortByTime(ks: seq<Keyframe>): (r: seq<Keyframe>)
    ensures |r| == |ks|
    ensures multiset(r) == multiset(ks)
    decreases |ks|
  {
    if |ks| == 0 then []
    else
      assert ks == ks[..|ks| - 1] + [ks[|ks| - 1]];
      Insert(ks[|ks| - 1], SortByTime(ks[..|ks| - 1]))
  }

  /** The sort's result is in time order. */
  lemma {:induction false} SortByTimeSorted(ks: seq<Keyframe>)
    ensures Sorted(SortByTime(ks))
    decreases |ks|
  {
    if |ks| > 0 {
      SortByTimeSorted(ks[..|ks| - 1]);
      InsertSorted(ks[|ks| - 1], SortByTime(ks[..|ks| - 1]));
    }
  }

  /** A keyframe not earlier than the last one goes at the end. */
  lemma InsertAtEnd(k: Keyframe, ks: seq<Keyframe>)
    requires Sorted(ks + [k])
    ensures Insert(k, ks) == ks + [k]
  {
    if |ks| > 0 {
      assert (ks + [k])[|ks| - 1] == ks[|ks| - 1] && (ks + [k])[|ks|] == k;
      assert ks[|ks| - 1].time <= k.time;
    }
  }

  /** Dropping the last keyframe of a sorted list leaves it sorted, and putting it back gives the list. */
  lemma SortedInit(ks: seq<Keyframe>)
    requires Sorted(ks) && |ks| > 0
    ensures Sorted(ks[..|ks| - 1])
    ensures ks == ks[..|ks| - 1] + [ks[|ks| - 1]]
  {
    var init := ks[..|ks| - 1];
    forall i, j | 0 <= i < j < |init|
      ensures init[i].time <= init[j].time
    {
      assert init[i] == ks[i] && init[j] == ks[j];
    }
  }

  /** The last keyframe of a sorted list is inserted back at the end. */
  lemma InsertLastAtEnd(ks: seq<Keyframe>)
    requires Sorted(ks) && |ks| > 0
    ensures Insert(ks[|ks| - 1], ks[..|ks| - 1]) == ks
  {
    SortedInit(ks);
    InsertAtEnd(ks[|ks| - 1], ks[..|ks| - 1]);
  }

  /** Sorting keyframes already in time order changes nothing. */
  lemma {:induction false} SortByTimeOfSorted(ks: seq<Keyframe>)
    requires Sorted(ks)
    ensures SortByTime(ks) == ks
    decreases |ks|
  {
    if |ks| > 0 {
      SortedInit(ks);
      SortByTimeOfSorted(ks[..|ks| - 1]);
      InsertLastAtEnd(ks);
    }
  }


  // ---------------------------------------------------------------------
  // Choosing the track and the keyframe
  // ---------------------------------------------------------------------

  /** `selectedMeshId || undefined`: the target a track for the current selection has. */
  function TrackTarget(selectedMeshId: Option<string>): Option<string>
  {
    if Given(selectedMeshId) then selectedMeshId else None
  }

  /** `tracks.findIndex(t => t.targetId === target)` */
  function FindTrack(tracks: seq<Track>, target: Option<string>): (r: int)
    ensures -1 <= r < |tracks|
    ensures r == -1 <==> forall i :: 0 <= i < |tracks| ==> tracks[i].targetId != target
    ensures r >= 0 ==> tracks[r].targetId == target && forall i :: 0 <= i < r ==> tracks[i].targetId != target
  {
    if |tracks| == 0 then -1
    else if tracks[0].targetId == target then 0
    else
      var r := FindTrack(tracks[1..], target);
      assert forall i :: 1 <= i < |tracks| ==> tracks[i] == tracks[1..][i - 1];
      if r == -1 then -1 else r + 1
  }

  /** `keys.findIndex(k => Math.abs(k.time - t) < 0.005)` */
  function FindNearKey(ks: seq<Keyframe>, t: real): (r: int)
    ensures -1 <= r < |ks|
    ensures r == -1 <==> forall i :: 0 <= i < |ks| ==> Abs(ks[i].time - t) >= MergeWindow
    ensures r >= 0 ==> Abs(ks[r].time - t) < MergeWindow && forall i :: 0 <= i < r ==> Abs(ks[i].time - t) >= MergeWindow
  {
    if |ks| == 0 then -1
    else if Abs(ks[0].time - t) < MergeWindow then 0
    else
      var r := FindNearKey(ks[1..], t);
      assert forall i :: 1 <= i < |ks| ==> ks[i] == ks[1..][i - 1];
      if r == -1 then -1 else r + 1
  }

  /** `{...old, ...newKey}`: the new keyframe's time and fields written over the old one. */
  function MergeKey(prev: Keyframe, newKey: Keyframe): (r: Keyframe)
    ensures r.time == newKey.time
    ensures forall f :: HasKey(newKey.fields, f) ==> Get(r.fields, f) == Get(newKey.fields, f)
  {
    var fields := Merge(prev.fields, newKey.fields);
    assert forall f :: HasKey(newKey.fields, f) ==> Get(fields, f) == Get(newKey.fields, f) by {
      forall f | HasKey(newKey.fields, f)
        ensures Get(fields, f) == Get(newKey.fields, f)
      {
        GetMerge(prev.fields, newKey.fields, f);
      }
    }
    Keyframe(newKey.time, fields)
  }

  /** A track's keyframes after recording `newKey`. */
  function RecordKey(ks: seq<Keyframe>, newKey: Keyframe): seq<Keyframe>
  {
    var i := FindNearKey(ks, newKey.time);
    if i >= 0 then ks[i := MergeKey(ks[i], newKey)] else SortByTime(ks + [newKey])
  }

  /** A track's tracks list after recording `newKey` for `target`; `trackId` names a new track. */
  function RecordTracks(tracks: seq<Track>, target: Option<string>, newKey: Keyframe, trackId: string): seq<Track>
  {
    var i := FindTrack(tracks, target);
    if i == -1 then tracks + [Track(trackId, target, [newKey])]
    else tracks[i := tracks[i].(keyframes := RecordKey(tracks[i].keyframes, newKey))]
  }

  /** `customAnimations?.map(a => a.id === id ? {...a, tracks} : a)` */
  function WithTracks(anims: Option<seq<Animation>>, id: string, tracks: seq<Track>): (r: Option<seq<Animation>>)
    ensures r.None? <==> anims.None?
    ensures r.Some? ==> |r.value| == |anims.value|
    ensures r.Some? ==> forall i :: 0 <= i < |r.value| ==>
      r.value[i] == if anims.value[i].id == id then anims.value[i].(tracks := tracks) else anims.value[i]
    decreases if anims.Some? then |anims.value| else 0
  {
    if anims.None? then None
    else if |anims.value| == 0 then Some([])
    else
      var a := anims.value[0];
      Some([if a.id == id then a.(tracks := tracks) else a] + WithTracks(Some(anims.value[1..]), id, tracks).value)
  }

  // ---------------------------------------------------------------------
  // What a recording does
  // ---------------------------------------------------------------------

  /** A keyframe within the merge window of an existing one overwrites it: the count stays. */
  lemma RecordKeyMerges(ks: seq<Keyframe>, newKey: Keyframe)
    requires exists i :: 0 <= i < |ks| && Abs(ks[i].time - newKey.time) < MergeWindow
    ensures |RecordKey(ks, newKey)| == |ks|
    ensures var i := FindNearKey(ks, newKey.time);
      0 <= i && RecordKey(ks, newKey)[i].time == newKey.time &&
      forall j :: 0 <= j < |ks| && j != i ==> RecordKey(ks, newKey)[j] == ks[j]
  {
  }

  /**
   * A keyframe away from every existing one is added: the count grows by one,
   * the keyframes are those before plus the new one, and they end in time order.
   */
  lemma RecordKeyInserts(ks: seq<Keyframe>, newKey: Keyframe)
    requires forall i :: 0 <= i < |ks| ==> Abs(ks[i].time - newKey.time) >= MergeWindow
    ensures |RecordKey(ks, newKey)| == |ks| + 1
    ensures multiset(RecordKey(ks, newKey)) == multiset(ks) + multiset{newKey}
    ensures Sorted(RecordKey(ks, newKey))
  {
    SortByTimeSorted(ks + [newKey]);
  }

  /** Into keyframes already in time order, the new one is inserted after every keyframe not later than it. */
  lemma RecordKeyIntoSorted(ks: seq<Keyframe>, newKey: Keyframe)
    requires Sorted(ks)
    requires forall i :: 0 <= i < |ks| ==> Abs(ks[i].time - newKey.time) >= MergeWindow
    ensures RecordKey(ks, newKey) == Insert(newKey, ks)
  {
    SortByTimeOfSorted(ks);
    assert (ks + [newKey])[..|ks|] == ks;
  }

  /** Without a track for the target, exactly one new track holding just the new keyframe is appended. */
  lemma NewTrackAppended(tracks: seq<Track>, target: Option<string>, newKey: Keyframe, trackId: string)
    requires forall i :: 0 <= i < |tracks| ==> tracks[i].targetId != target
    ensures RecordTracks(tracks, target, newKey, trackId) == tracks + [Track(trackId, target, [newKey])]
  {
  }

  /** With a track for the target, only the first such track changes, and only in its keyframes. */
  lemma ExistingTrackEdited(tracks: seq<Track>, target: Option<string>, newKey: Keyframe, trackId: string)
    requires exists i :: 0 <= i < |tracks| && tracks[i].targetId == target
    ensures var r := RecordTracks(tracks, target, newKey, trackId);
      var i := FindTrack(tracks, target);
      |r| == |tracks| && 0 <= i &&
      r[i] == tracks[i].(keyframes := RecordKey(tracks[i].keyframes, newKey)) &&
      forall j :: 0 <= j < |tracks| && j != i ==> r[j] == tracks[j]
  {
  }

  /**
   * `recordCurrentState`: the `updateObject(id, {customAnimations})` call it
   * makes, if any. `sceneReady` stands for a live three.js scene and
   * `nodeFound` for the scene holding the node being recorded.
   */
  method RecordCurrentState(sceneReady: bool, targetObject: Option<SceneObject>, targetAnim: Option<Animation>,
                            selectedMeshId: Option<string>, nodeFound: bool, newKey: Keyframe, trackId: string)
    returns (call: Option<(string, Option<seq<Animation>>)>)
    ensures !sceneReady || targetAnim.None? || targetObject.None? || !nodeFound ==> call.None?
    ensures sceneReady && targetAnim.Some? && targetObject.Some? && nodeFound ==>
      call == Some((targetObject.value.id,
        WithTracks(targetObject.value.customAnimations, targetAnim.value.id,
          RecordTracks(targetAnim.value.tracks, TrackTarget(selectedMeshId), newKey, trackId))))
  {
    if !sceneReady || targetAnim.None? || targetObject.None? {
      return None;
    }
    if !nodeFound {
      return None;
    }
    var anim := targetAnim.value;
    var tracks := anim.tracks;
    var target := TrackTarget(selectedMeshId);
    var trackIndex := FindTrack(tracks, target);
    if trackIndex == -1 {
      tracks := tracks + [Track(trackId, target, [newKey])];
    } else {
      var track := tracks[trackIndex];
      var existingKeys := track.keyframes;
      var keyIdx := FindNearKey(existingKeys, newKey.time);
      if keyIdx > -1 {
        existingKeys := existingKeys[keyIdx := MergeKey(existingKeys[keyIdx], newKey)];
      } else {
        existingKeys := existingKeys + [newKey];
        existingKeys := SortByTime(existingKeys);
      }
      track := track.(keyframes := existingKeys);
      tracks := tracks[trackIndex := track];
    }
    call := Some((targetObject.value.id, WithTracks(targetObject.value.customAnimations, anim.id, tracks)));
  }
}
