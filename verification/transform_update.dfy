/**
 * Editing one axis of a position, rotation or scale in the property panel:
 * the current vector is copied (or defaulted when missing), one component is
 * overwritten, and an update holding just that field is emitted.
 */
module TransformUpdate {
  import opened Wrappers

  datatype TransformField = Position | Rotation | Scale

  /** The property name of a field. */
  function FieldName(f: TransformField): string
  {
    match f
    case Position => "position"
    case Rotation => "rotation"
    case Scale => "scale"
  }

  /** The vector a missing field starts from: ones for scale, zeros otherwise. */
  function Default(f: TransformField): (r: seq<real>)
    ensures |r| == 3
    ensures forall i :: 0 <= i < 3 ==> r[i] == if f == Scale then 1.0 else 0.0
  {
    if f == Scale then [1.0, 1.0, 1.0] else [0.0, 0.0, 0.0]
  }

  /**
   * `handleTransformChange(axis, val, field)`: the `{[field]: vector}` update
   * it emits. The vector is a fresh buffer; `current` is left as it was.
   */
  method HandleTransformChange(current: Option<seq<real>>, axis: nat, val: real, field: TransformField)
    returns (update: (string, seq<real>))
    requires axis < 3
    requires current.Some? ==> |current.value| == 3
    ensures update.0 == FieldName(field)
    ensures |update.1| == 3 && update.1[axis] == val
    ensures current.Some? ==> forall i :: 0 <= i < 3 && i != axis ==> update.1[i] == current.value[i]
    ensures current.None? ==> forall i :: 0 <= i < 3 && i != axis ==> update.1[i] == Default(field)[i]
  {
    var currentArr := new real[3];
    if current.Some? {
      currentArr[0], currentArr[1], currentArr[2] := current.value[0], current.value[1], current.value[2];
    } else {
      currentArr[0], currentArr[1], currentArr[2] := 0.0, 0.0, 0.0;
    }
    if field == Scale && current.None? {
      currentArr[0] := 1.0;
      currentArr[1] := 1.0;
      currentArr[2] := 1.0;
    }
    currentArr[axis] := val;
    update := (FieldName(field), currentArr[..]);
  }
}
