/**
 * The scene section of the property panel: switching the background kind
 * (a colour value starts with `#`; image and panorama backgrounds hold a url)
 * and the camera bookmarks. The camera is a three.js object; only its
 * position, when there is a camera, is an input here.
 */
module SceneSection {
  import opened Wrappers
  import opened Text
  import opened Json
  import opened Scene
  import opened EditorStore

  /** `BACKGROUND_TYPE.COLOR`, `.IMAGE` and `.PANORAMA` */
  const Color := "color"
  const Image := "image"
  const Panorama := "panorama"

  /** The colour a background switched to colour gets when its value is not a colour. */
  const DefaultColor := "#111111"

  /**
   * `handleBackgroundTypeChange(type)`: the scene-config update. A colour
   * value is cleared on switching to image or panorama; a non-colour value
   * becomes the default colour on switching to colour; otherwise only the
   * kind changes.
   */
  function BackgroundChange(backgroundValue: string, t: string): (r: ConfigPatch)
    ensures r.backgroundType == Some(t) && r.rest == []
    ensures (t == Image || t == Panorama) && StartsWith(backgroundValue, "#") ==> r.backgroundValue == Some("")
    ensures t == Color && !StartsWith(backgroundValue, "#") ==> r.backgroundValue == Some(DefaultColor)
    ensures r.backgroundValue.None? <==>
      (!((t == Image || t == Panorama) && StartsWith(backgroundValue, "#")) && !(t == Color && !StartsWith(backgroundValue, "#")))
  {
    var isUrlType := t == Image || t == Panorama;
    var isColor := StartsWith(backgroundValue, "#");
    if isUrlType && isColor then ConfigPatch(Some(t), Some(""), [])
    else if t == Color && !isColor then ConfigPatch(Some(t), Some(DefaultColor), [])
    else ConfigPatch(Some(t), None, [])
  }

  /**
   * After the switch the value suits the kind: a colour background holds a
   * colour, an image or panorama background does not.
   */
  lemma BackgroundSuitsKind(c: SceneConfig, t: string)
    ensures var next := MergeConfig(c, BackgroundChange(c.backgroundValue, t));
      next.backgroundType == t &&
      (t == Color ==> StartsWith(next.backgroundValue, "#")) &&
      (t == Image || t == Panorama ==> !StartsWith(next.backgroundValue, "#")) &&
      next.rest == c.rest
  {
    assert StartsWith(DefaultColor, "#");
    MergeEmpty(c.rest);
  }

  /** `saveBookmark`: the new bookmark list, or nothing without a camera. */
  function SaveBookmark(cameraPosition: Option<seq<real>>, bookmarks: seq<CameraBookmark>, id: string): (r: Option<seq<CameraBookmark>>)
    ensures r.None? <==> cameraPosition.None?
    ensures r.Some? ==> |r.value| == |bookmarks| + 1 && r.value[..|bookmarks|] == bookmarks
    ensures r.Some? ==>
      (r.value[|bookmarks|] == CameraBookmark(id, "书签 " + NatToString(|bookmarks| + 1), cameraPosition.value, [0.0, 0.0, 0.0]))
  {
    if cameraPosition.None? then None
    else Some(bookmarks + [CameraBookmark(id, "书签 " + NatToString(|bookmarks| + 1), cameraPosition.value, [0.0, 0.0, 0.0])])
  }

  /** `removeBookmark(id)`: the bookmarks without those of that id, in order. */
  function RemoveBookmark(bookmarks: seq<CameraBookmark>, id: string): (r: seq<CameraBookmark>)
    ensures |r| <= |bookmarks|
    ensures forall b :: b in r <==> b in bookmarks && b.id != id
  {
    if |bookmarks| == 0 then []
    else (if bookmarks[0].id != id then [bookmarks[0]] else []) + RemoveBookmark(bookmarks[1..], id)
  }

  /** Removing goes bookmark by bookmark. */
  lemma {:induction false} RemoveBookmarkAppend(a: seq<CameraBookmark>, b: seq<CameraBookmark>, id: string)
    ensures RemoveBookmark(a + b, id) == RemoveBookmark(a, id) + RemoveBookmark(b, id)
    decreases |a|
  {
    if |a| == 0 {
      assert a + b == b;
    } else {
      var x := a[0];
      var h := if x.id != id then [x] else [];
      calc {
        RemoveBookmark(a + b, id);
        { assert a + b == [x] + (a[1..] + b); RemoveBookmarkCons(x, a[1..] + b, id); }
        h + RemoveBookmark(a[1..] + b, id);
        { RemoveBookmarkAppend(a[1..], b, id); }
        h + (RemoveBookmark(a[1..], id) + RemoveBookmark(b, id));
        (h + RemoveBookmark(a[1..], id)) + RemoveBookmark(b, id);
        { assert a == [x] + a[1..]; RemoveBookmarkCons(x, a[1..], id); }
        RemoveBookmark(a, id) + RemoveBookmark(b, id);
      }
    }
  }

  /** Removing from a list with a first bookmark decides that one, then goes on with the rest. */
  lemma RemoveBookmarkCons(x: CameraBookmark, rest: seq<CameraBookmark>, id: string)
    ensures RemoveBookmark([x] + rest, id) == (if x.id != id then [x] else []) + RemoveBookmark(rest, id)
  {
    assert ([x] + rest)[1..] == rest;
  }

  /** Removing an id no bookmark has keeps the list. */
  lemma {:induction false} RemoveBookmarkAbsent(bookmarks: seq<CameraBookmark>, id: string)
    requires forall b :: b in bookmarks ==> b.id != id
    ensures RemoveBookmark(bookmarks, id) == bookmarks
    decreases |bookmarks|
  {
    if |bookmarks| > 0 {
      assert bookmarks[0] in bookmarks;
      assert forall x :: x in bookmarks[1..] ==> x in bookmarks;
      RemoveBookmarkAbsent(bookmarks[1..], id);
      assert [bookmarks[0]] + bookmarks[1..] == bookmarks;
    }
  }

  /** Removing a bookmark just saved under a fresh id gives back the list before it. */
  lemma RemoveUndoesSave(cameraPosition: seq<real>, bookmarks: seq<CameraBookmark>, id: string)
    requires forall b :: b in bookmarks ==> b.id != id
    ensures RemoveBookmark(SaveBookmark(Some(cameraPosition), bookmarks, id).value, id) == bookmarks
  {
    var saved := SaveBookmark(Some(cameraPosition), bookmarks, id).value;
    var nb := saved[|bookmarks|];
    assert saved == bookmarks + [nb];
    RemoveBookmarkAppend(bookmarks, [nb], id);
    RemoveBookmarkAbsent(bookmarks, id);
    assert [nb][1..] == [];
  }
}
