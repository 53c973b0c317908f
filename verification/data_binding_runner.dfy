/**
 * The data sources the scene needs polled: every data source named by an
 * enabled property binding or by a label field bound to data, anywhere in the
 * object forest. Source id 0 is never collected (it is falsy). Polling
 * itself is timer-driven and not part of this model.
 */
module DataBindingRunner {
  import opened Wrappers
  import opened Json
  import opened Scene

  /** The sources of the enabled bindings with a non-zero source id. */
  function BindingIds(bs: Dict<Binding>): (r: set<int>)
    ensures forall x :: x in r <==> exists i :: 0 <= i < |bs| && bs[i].1.enabled && bs[i].1.dataSourceId == x && x != 0
    decreases |bs|
  {
    if |bs| == 0 then {}
    else
      var init := bs[..|bs| - 1];
      var b := bs[|bs| - 1].1;
      assert forall i :: 0 <= i < |init| ==> init[i] == bs[i];
      BindingIds(init) + (if b.enabled && b.dataSourceId != 0 then {b.dataSourceId} else {})
  }

  /** The sources of the label fields bound to data with a non-zero source id; `enabled` is not consulted. */
  function MappingIds(ms: Dict<Mapping>): (r: set<int>)
    ensures forall x :: x in r <==> exists i :: 0 <= i < |ms| && ms[i].1.Bound? && ms[i].1.binding.dataSourceId == x && x != 0
    decreases |ms|
  {
    if |ms| == 0 then {}
    else
      var init := ms[..|ms| - 1];
      var m := ms[|ms| - 1].1;
      assert forall i :: 0 <= i < |init| ==> init[i] == ms[i];
      MappingIds(init) + (if m.Bound? && m.binding.dataSourceId != 0 then {m.binding.dataSourceId} else {})
  }

  /** The sources one object names itself, without its children. */
  function OwnIds(o: SceneObject): set<int>
  {
    (if o.dataBindings.Some? then BindingIds(o.dataBindings.value) else {})
    + (if o.labelBinding.Some? then MappingIds(o.labelBinding.value.fieldMappings) else {})
  }

  /** The sources named anywhere in a forest. */
  function SourceIds(list: seq<SceneObject>): (r: set<int>)
    ensures 0 !in r
    decreases list
  {
    if |list| == 0 then {}
    else OwnIds(list[0]) + (if list[0].children.ChildList? then SourceIds(list[0].children.items) else {}) + SourceIds(list[1..])
  }

  /** The forest's sources are those of the objects in it, children included, in any order. */
  lemma {:induction false} SourceIdsAppend(a: seq<SceneObject>, b: seq<SceneObject>)
    ensures SourceIds(a + b) == SourceIds(a) + SourceIds(b)
    decreases a
  {
    if |a| == 0 {
      assert a + b == b;
    } else {
      assert (a + b)[0] == a[0];
      assert (a + b)[1..] == a[1..] + b;
      SourceIdsAppend(a[1..], b);
    }
  }

  /** One more object of a forest adds its own sources and its children's. */
  lemma SourceIdsStep(list: seq<SceneObject>, i: nat)
    requires i < |list|
    ensures SourceIds(list[..i + 1]) == SourceIds(list[..i]) + OwnIds(list[i])
      + (if list[i].children.ChildList? then SourceIds(list[i].children.items) else {})
  {
    SourceIdsAppend(list[..i], [list[i]]);
    assert list[..i + 1] == list[..i] + [list[i]];
    assert [list[i]][1..] == [];
  }

  /** A source named by any object of the forest, at any depth, is collected. */
  lemma {:induction false} NestedSourcesCollected(list: seq<SceneObject>, o: SceneObject)
    requires o in FlatObjects(list)
    ensures OwnIds(o) <= SourceIds(list)
    decreases list
  {
    if |list| > 0 {
      var kids := if list[0].children.ChildList? then FlatObjects(list[0].children.items) else [];
      assert FlatObjects(list) == [list[0]] + kids + FlatObjects(list[1..]);
      if o == list[0] {
      } else if o in kids {
        NestedSourcesCollected(list[0].children.items, o);
      } else {
        NestedSourcesCollected(list[1..], o);
      }
    }
  }

  /** The first `forEach`: the enabled bindings' sources added to `ids`. */
  method AddBindingIds(bs: Dict<Binding>, ids: set<int>) returns (r: set<int>)
    ensures r == ids + BindingIds(bs)
  {
    r := ids;
    var i := 0;
    while i < |bs|
      invariant 0 <= i <= |bs|
      invariant r == ids + BindingIds(bs[..i])
    {
      var binding := bs[i].1;
      if binding.enabled && binding.dataSourceId != 0 {
        r := r + {binding.dataSourceId};
      }
      i := i + 1;
      assert bs[..i][..i - 1] == bs[..i - 1];
    }
    assert bs[..i] == bs;
  }

  /** The second `forEach`: the bound label fields' sources added to `ids`. */
  method AddMappingIds(ms: Dict<Mapping>, ids: set<int>) returns (r: set<int>)
    ensures r == ids + MappingIds(ms)
  {
    r := ids;
    var i := 0;
    while i < |ms|
      invariant 0 <= i <= |ms|
      invariant r == ids + MappingIds(ms[..i])
    {
      var mapping := ms[i].1;
      if mapping.Bound? && mapping.binding.dataSourceId != 0 {
        r := r + {mapping.binding.dataSourceId};
      }
      i := i + 1;
      assert ms[..i][..i - 1] == ms[..i - 1];
    }
    assert ms[..i] == ms;
  }

  /**
   * `getActiveSourceIds(list, ids)`: the accumulator grown by every source
   * the forest names. The result holds the accumulator, and never gains 0.
   */
  method GetActiveSourceIds(list: seq<SceneObject>, ids: set<int>) returns (r: set<int>)
    ensures r == ids + SourceIds(list)
    ensures ids <= r && (0 in r ==> 0 in ids)
    decreases list
  {
    r := ids;
    var i := 0;
    while i < |list|
      invariant 0 <= i <= |list|
      invariant r == ids + SourceIds(list[..i])
    {
      var obj := list[i];
      if obj.dataBindings.Some? {
        r := AddBindingIds(obj.dataBindings.value, r);
      }
      if obj.labelBinding.Some? {
        r := AddMappingIds(obj.labelBinding.value.fieldMappings, r);
      }
      if obj.children.ChildList? {
        r := GetActiveSourceIds(obj.children.items, r);
      }
      SourceIdsStep(list, i);
      i := i + 1;
    }
    assert list[..i] == list;
  }
}
