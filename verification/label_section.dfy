/**
 * The label section of the property panel: choosing a label template for an
 * object, filling its fields with literal text or data bindings, and the
 * label's display configuration (leader line and three-axis offset).
 */
module LabelSection {
  import opened Wrappers
  import opened Json
  import opened Scene
  import opened ObjectDataBinding
  import opened PropertyField

  /**
   * `handleTemplateChange(templateId)`: the `labelBinding` update it makes.
   * `None` is no update; `Some(None)` clears the binding. A known template
   * gets a binding whose mappings hold exactly its fields, each mapped to
   * the empty text.
   */
  method HandleTemplateChange(templates: seq<LabelTemplate>, templateId: string)
    returns (update: Option<Option<LabelBinding>>)
    ensures templateId == "" ==> update == Some(None)
    ensures templateId != "" && FindTemplate(templates, templateId).None? ==> update.None?
    ensures templateId != "" && FindTemplate(templates, templateId).Some? ==>
      update.Some? && update.value.Some? && update.value.value.templateId == templateId &&
      forall f :: Get(update.value.value.fieldMappings, f) ==
        (if f in FindTemplate(templates, templateId).value.fields then Some(Literal("")) else None)
  {
    if templateId == "" {
      return Some(None);
    }
    var template := FindTemplate(templates, templateId);
    if template.None? {
      return None;
    }
    var fields := template.value.fields;
    var initialMappings: Dict<Mapping> := [];
    var i := 0;
    while i < |fields|
      invariant 0 <= i <= |fields|
      invariant forall f :: Get(initialMappings, f) == (if f in fields[..i] then Some(Literal("")) else None)
    {
      var prev := initialMappings;
      initialMappings := Set(initialMappings, fields[i], Literal(""));
      assert fields[..i + 1] == fields[..i] + [fields[i]];
      forall f ensures Get(initialMappings, f) == (if f in fields[..i + 1] then Some(Literal("")) else None) {
        GetSet(prev, fields[i], Literal(""), f);
        assert f in fields[..i + 1] <==> f in fields[..i] || f == fields[i];
      }
      i := i + 1;
    }
    assert fields[..i] == fields;
    update := Some(Some(LabelBinding(templateId, initialMappings)));
  }

  /**
   * `handleMappingChange(field, value)`: the new binding, with one field
   * mapped to the value and the template and every other field as they were;
   * no update without a binding.
   */
  function MappingChange(labelBinding: Option<LabelBinding>, field: string, value: Mapping): (r: Option<LabelBinding>)
    ensures r.None? <==> labelBinding.None?
    ensures r.Some? ==> r.value.templateId == labelBinding.value.templateId
    ensures r.Some? ==> Get(r.value.fieldMappings, field) == Some(value)
    ensures r.Some? ==> forall f :: f != field ==> Get(r.value.fieldMappings, f) == Get(labelBinding.value.fieldMappings, f)
  {
    if labelBinding.None? then None
    else
      var ms := labelBinding.value.fieldMappings;
      var r := Set(ms, field, value);
      assert forall f :: Get(r, f) == (if f == field then Some(value) else Get(ms, f)) by {
        forall f ensures Get(r, f) == (if f == field then Some(value) else Get(ms, f)) {
          GetSet(ms, field, value, f);
        }
      }
      Some(labelBinding.value.(fieldMappings := r))
  }

  /** The binding the dialog opens with: the field's binding, when it is bound to data. */
  function InitialBinding(labelBinding: LabelBinding, field: string): (r: Option<Binding>)
    ensures r.Some? <==> (var m := Get(labelBinding.fieldMappings, field); m.Some? && m.value.Bound?)
    ensures r.Some? ==> Get(labelBinding.fieldMappings, field) == Some(Bound(r.value))
  {
    var m := Get(labelBinding.fieldMappings, field);
    if m.Some? && m.value.Bound? then Some(m.value.binding) else None
  }

  /**
   * `handleOpenBinding(field)` after the dialog resolves: a closed dialog
   * changes nothing, a cleared binding stores the empty text, a chosen one
   * binds the field to data.
   */
  function OpenBindingUpdate(labelBinding: Option<LabelBinding>, field: string, result: ModalResult): (r: Option<LabelBinding>)
    ensures labelBinding.None? || result.Cancelled? ==> r.None?
    ensures labelBinding.Some? && result.Cleared? ==> r == MappingChange(labelBinding, field, Literal(""))
    ensures labelBinding.Some? && result.Chosen? ==> r == MappingChange(labelBinding, field, Bound(result.binding))
  {
    if labelBinding.None? then None
    else match result
      case Cancelled => None
      case Cleared => MappingChange(labelBinding, field, Literal(""))
      case Chosen(b) => MappingChange(labelBinding, field, Bound(b))
  }

  /** A chosen binding is what the dialog shows the next time it opens on that field. */
  lemma ChosenBindingReopens(lb: LabelBinding, field: string, b: Binding)
    ensures var r := OpenBindingUpdate(Some(lb), field, Chosen(b));
      r.Some? && InitialBinding(r.value, field) == Some(b)
  {
  }

  /** A cleared field opens the dialog with no binding, and every other field is untouched. */
  lemma ClearedBindingReopens(lb: LabelBinding, field: string, other: string)
    requires other != field
    ensures var r := OpenBindingUpdate(Some(lb), field, Cleared);
      r.Some? && InitialBinding(r.value, field).None? &&
      InitialBinding(r.value, other) == InitialBinding(lb, other)
  {
  }

  /** The offset a label has when it has no configuration. */
  function DefaultOffset(): (r: seq<real>)
    ensures |r| == 3
  {
    [3.0, 3.0, 0.0]
  }

  /** `object.labelConfig?.offset || [3, 3, 0]` */
  function OffsetOf(cfg: Option<LabelConfig>): seq<real>
  {
    if cfg.Some? then cfg.value.offset else DefaultOffset()
  }

  /** `object.labelConfig?.showLine ?? true` */
  function ShowLineOf(cfg: Option<LabelConfig>): bool
  {
    if cfg.Some? then cfg.value.showLine else true
  }

  /** The offset shown for one axis: `offset?.[index] ?? (index === 2 ? 0 : 3)`. */
  function ShownOffset(cfg: Option<LabelConfig>, index: nat): real
    requires index < 3
  {
    if cfg.Some? && index < |cfg.value.offset| then cfg.value.offset[index] else DefaultOffset()[index]
  }

  /** Offsets are triples. */
  predicate WellFormed(cfg: Option<LabelConfig>)
  {
    cfg.Some? ==> |cfg.value.offset| == 3
  }

  /** The leader-line switch: the new configuration keeps (or defaults) the offset. */
  function ShowLineUpdate(cfg: Option<LabelConfig>, checked: bool): (r: LabelConfig)
    ensures r.showLine == checked
    ensures WellFormed(cfg) ==> WellFormed(Some(r)) && forall i :: 0 <= i < 3 ==> ShownOffset(Some(r), i) == ShownOffset(cfg, i)
  {
    LabelConfig(OffsetOf(cfg), checked)
  }

  /**
   * One axis of the offset edited: the offset is copied (or defaulted), the
   * axis set to the input (0 for an empty input), and the leader-line
   * setting kept (or defaulted to shown).
   */
  method OffsetEdit(cfg: Option<LabelConfig>, index: nat, val: Option<real>) returns (update: LabelConfig)
    requires index < 3 && WellFormed(cfg)
    ensures WellFormed(Some(update))
    ensures ShownOffset(Some(update), index) == (if val.Some? then val.value else 0.0)
    ensures forall j :: 0 <= j < 3 && j != index ==> ShownOffset(Some(update), j) == ShownOffset(cfg, j)
    ensures update.showLine == ShowLineOf(cfg)
  {
    var v := if val.Some? && val.value != 0.0 then val.value else 0.0;
    var base := OffsetOf(cfg);
    var newOffset := new real[3];
    newOffset[0], newOffset[1], newOffset[2] := base[0], base[1], base[2];
    newOffset[index] := v;
    update := LabelConfig(newOffset[..], ShowLineOf(cfg));
  }
}
