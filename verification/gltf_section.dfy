/**
 * The glTF section of the property panel: switching the model's built-in
 * animations on and off (several may play at once), stopping them all, and
 * committing an edited model url.
 */
module GltfSection {
  import opened Wrappers
  import opened Text

  /** `object.activeAnimations || []` */
  function ActiveOf(active: Option<seq<string>>): seq<string>
  {
    if active.Some? then active.value else []
  }

  /**
   * `handleAnimationToggle(name)`: the new active list. A playing animation
   * is stopped (every occurrence of its name goes); another one is appended.
   */
  function Toggle(active: Option<seq<string>>, name: string): (r: seq<string>)
    ensures name in ActiveOf(active) ==> name !in r && forall a :: a != name ==> (a in r <==> a in ActiveOf(active))
    ensures name !in ActiveOf(active) ==> r == ActiveOf(active) + [name]
  {
    var currentAnims := ActiveOf(active);
    if name in currentAnims then FilterOut(currentAnims, name) else currentAnims + [name]
  }

  /** Toggling the same animation twice leaves the same animations playing. */
  lemma ToggleTwice(active: Option<seq<string>>, name: string)
    ensures forall a :: a in Toggle(Some(Toggle(active, name)), name) <==> a in ActiveOf(active)
  {
    var once := Toggle(active, name);
    if name in ActiveOf(active) {
      assert Toggle(Some(once), name) == once + [name];
    } else {
      assert name in once;
    }
  }

  /** Toggling an animation that is not playing and then toggling it back restores the list exactly. */
  lemma ToggleBack(active: seq<string>, name: string)
    requires name !in active
    ensures Toggle(Some(Toggle(Some(active), name)), name) == active
  {
    FilterOutAppend(active, name);
    FilterOutAbsent(active, name);
  }

  /** `handleStopAll`: no built-in animation plays. */
  function StopAll(): (r: seq<string>)
  {
    []
  }

  /** After stopping everything, a toggle plays exactly that animation. */
  lemma ToggleAfterStopAll(name: string)
    ensures Toggle(Some(StopAll()), name) == [name]
    ensures forall a :: a !in StopAll()
  {
  }

  /** The url the field shows: `object.url || ''`. */
  function LocalUrl(url: Option<string>): string
  {
    if url.Some? then url.value else ""
  }

  /** `handleBlur`: the url update it makes, only when the field differs from the object's url. */
  function HandleBlur(localUrl: string, url: Option<string>): (r: Option<string>)
    ensures r.Some? <==> url != Some(localUrl)
    ensures r.Some? ==> r.value == localUrl
  {
    if url != Some(localUrl) then Some(localUrl) else None
  }

  /**
   * Leaving an untouched field writes nothing, except on an object without a
   * url, which is given the empty url.
   */
  lemma BlurUntouched(url: Option<string>)
    ensures HandleBlur(LocalUrl(url), url) == if url.None? then Some("") else None
  {
  }
}
