/**
 * A property field of the property panel: the binding key it stores data
 * bindings under (prefixed with the selected sub-mesh), the binding dialog's
 * outcome written into the object's bindings, and the lazy commit that only
 * reports a value that changed.
 */
module PropertyField {
  import opened Wrappers
  import opened Json
  import opened Scene
  import opened StoreUtils

  /** `actualBindingKey`: `<mesh>:<key>` when a sub-mesh is selected and the field has a key, else the key. */
  function ActualBindingKey(selectedMeshId: Option<string>, bindingKey: Option<string>): (r: Option<string>)
    ensures Given(selectedMeshId) && Given(bindingKey) ==>
      r == Some(selectedMeshId.value + ":" + bindingKey.value)
    ensures !(Given(selectedMeshId) && Given(bindingKey)) ==> r == bindingKey
  {
    if Given(selectedMeshId) && Given(bindingKey) then Some(selectedMeshId.value + ":" + bindingKey.value)
    else bindingKey
  }

  /**
   * The key a field stores is the one the binding runner parses back: the
   * selected mesh and the field's own key, or no mesh for a whole object.
   */
  lemma BindingKeyRoundTrip(selectedMeshId: Option<string>, bindingKey: string)
    requires bindingKey != "" && ':' !in bindingKey
    requires selectedMeshId.Some? ==> ':' !in selectedMeshId.value
    ensures var k := ActualBindingKey(selectedMeshId, Some(bindingKey));
      k.Some? &&
      ParseBindingKey(k.value) == (if Given(selectedMeshId) then Some(selectedMeshId.value) else None, bindingKey)
  {
    if Given(selectedMeshId) {
      ParseBindingKeyJoin(selectedMeshId.value, bindingKey);
    }
  }

  /** `binding`: the object's binding under the field's key, if any. */
  function CurrentBinding(actualKey: Option<string>, obj: Option<SceneObject>): (r: Option<Binding>)
    ensures r.Some? <==>
      (Given(actualKey) && obj.Some? && obj.value.dataBindings.Some? && HasKey(obj.value.dataBindings.value, actualKey.value))
    ensures r.Some? ==> r == Get(obj.value.dataBindings.value, actualKey.value)
  {
    if Given(actualKey) && obj.Some? && obj.value.dataBindings.Some? then Get(obj.value.dataBindings.value, actualKey.value)
    else None
  }

  /** What the binding dialog resolves to: closed, the binding cleared, or a binding chosen. */
  datatype ModalResult = Cancelled | Cleared | Chosen(binding: Binding)

  /** `object?.dataBindings || {}` */
  function BindingsOf(obj: Option<SceneObject>): Dict<Binding>
  {
    if obj.Some? && obj.value.dataBindings.Some? then obj.value.dataBindings.value else []
  }

  /**
   * `handleOpenBinding` after the dialog resolves: the `updateObject(selectedId,
   * {dataBindings})` call it makes, if any. The chosen binding is stored under
   * the field's key, or the key is removed; every other key keeps its binding.
   */
  method HandleOpenBinding(selectedId: Option<string>, actualKey: Option<string>, obj: Option<SceneObject>, result: ModalResult)
    returns (call: Option<(string, Dict<Binding>)>)
    ensures call.Some? <==> Given(selectedId) && Given(actualKey) && !result.Cancelled?
    ensures call.Some? ==> call.value.0 == selectedId.value
    ensures call.Some? && result.Chosen? ==> Get(call.value.1, actualKey.value) == Some(result.binding)
    ensures call.Some? && result.Cleared? ==> !HasKey(call.value.1, actualKey.value)
    ensures call.Some? ==> forall k :: k != actualKey.value ==> Get(call.value.1, k) == Get(BindingsOf(obj), k)
  {
    if !Given(selectedId) || !Given(actualKey) {
      return None;
    }
    if result.Cancelled? {
      return None;
    }
    var currentBindings := BindingsOf(obj);
    var key := actualKey.value;
    if result.Chosen? {
      currentBindings := Set(currentBindings, key, result.binding);
      forall k ensures Get(currentBindings, k) == if k == key then Some(result.binding) else Get(BindingsOf(obj), k) {
        GetSet(BindingsOf(obj), key, result.binding, k);
      }
    } else {
      currentBindings := Delete(currentBindings, key);
      forall k ensures Get(currentBindings, k) == if k == key then None else Get(BindingsOf(obj), k) {
        GetDelete(BindingsOf(obj), key, k);
      }
    }
    call := Some((selectedId.value, currentBindings));
  }

  /**
   * `handleCommit(val)`: the value committed is the argument, or the locally
   * edited value when there is none (`undefined`); `onChange` sees it only
   * when it differs from the field's current value.
   */
  function HandleCommit(val: Json, localValue: Json, value: Json): (r: Option<Json>)
    ensures r.Some? ==> r.value != value
    ensures r.Some? ==> r.value == (if val.JUndef? then localValue else val)
    ensures r.None? ==> (if val.JUndef? then localValue else val) == value
  {
    var commitValue := if !val.JUndef? then val else localValue;
    if commitValue != value then Some(commitValue) else None
  }

  /** Committing the value the field already shows reports nothing. */
  lemma CommitUnchanged(localValue: Json, value: Json)
    ensures HandleCommit(JUndef, localValue, value).None? <==> localValue == value
    ensures HandleCommit(value, localValue, value).None? <==> !value.JUndef? || localValue == value
  {
  }
}
