/**
 * The per-object data-binding hook. Its first effect walks the object's
 * `dataBindings` and, for each binding with a live value, issues one
 * `updateObject` call for the property the binding key names; its second
 * effect fills the object's label template with the mapped field values and
 * writes the html label when it changed. The store calls are returned as a
 * list; expression evaluation and `String(...)` are parameters.
 */
module ObjectDataBinding {
  import opened Wrappers
  import opened Text
  import opened Json
  import opened Scene
  import opened StoreUtils
  import opened TreeUtils
  import opened TemplatePreview

  /** One `updateObject(id, props, meshId)` call. */
  datatype Update = Update(id: string, props: Dict<Json>, meshId: Option<string>)

  /** The material properties a binding may drive, as `material.<key>`. */
  const MaterialKeys: seq<string> :=
    ["color", "emissive", "metalness", "roughness", "emissiveIntensity", "transparent", "wireframe", "opacity"]

  /** `[v[0] ?? 0, v[1] ?? 0, v[2] ?? 0]` */
  function Triple(xs: seq<Json>): (r: Json)
    ensures r.JArr? && |r.items| == 3
    ensures forall i :: 0 <= i < 3 && i < |xs| && !xs[i].JUndef? && !xs[i].JNull? ==> r.items[i] == xs[i]
    ensures forall i :: 0 <= i < 3 && (i >= |xs| || xs[i].JUndef? || xs[i].JNull?) ==> r.items[i] == JNum(0.0)
  {
    JArr(seq(3, i requires 0 <= i < 3 => if i < |xs| then Coalesce(xs[i], JNum(0.0)) else JNum(0.0)))
  }

  /** The key `k` of a `material.<k>` path, for the listed keys only. */
  function MaterialKey(path: string): (r: Option<string>)
    ensures r.Some? <==> exists k :: k in MaterialKeys && path == "material." + k
    ensures r.Some? ==> r.value in MaterialKeys && path == "material." + r.value
  {
    var prefix := "material.";
    if |path| > |prefix| && path[..|prefix|] == prefix && path[|prefix|..] in MaterialKeys then
      assert path == prefix + path[|prefix|..];
      Some(path[|prefix|..])
    else
      assert forall k :: k in MaterialKeys && path == prefix + k ==> path[|prefix|..] == k;
      None
  }

  /** `targetNode?.material || obj.material` */
  function BaseMaterial(node: Option<Node>, obj: SceneObject): Json
  {
    if node.Some? && Truthy(OrUndef(Get(node.value.props, "material"))) then OrUndef(Get(node.value.props, "material"))
    else OrUndef(Get(obj.props, "material"))
  }

  /** The update object for a property path and value, or `None` for a path the hook does not handle. */
  function Dispatch(path: string, v: Json, node: Option<Node>, obj: SceneObject): (r: Option<Dict<Json>>)
    ensures (path == "position" || path == "rotation" || path == "scale") && v.JArr? ==> r == Some([(path, Triple(v.items))])
    ensures path == "visible" || path == "intensity" ==> r == Some([(path, v)])
    ensures MaterialKey(path).Some? ==>
      r == Some([("material", JObj(Set(FieldsOf(BaseMaterial(node, obj)), MaterialKey(path).value, v)))])
    ensures r.None? <==>
      !(path == "visible" || path == "intensity" || MaterialKey(path).Some?) &&
      !((path == "position" || path == "rotation" || path == "scale") && v.JArr?)
  {
    if (path == "position" || path == "rotation" || path == "scale") && v.JArr? then Some([(path, Triple(v.items))])
    else if path == "visible" then Some([("visible", v)])
    else if MaterialKey(path).Some? then
      Some([("material", JObj(Set(FieldsOf(BaseMaterial(node, obj)), MaterialKey(path).value, v)))])
    else if path == "intensity" then Some([("intensity", v)])
    else None
  }

  /** The node a mesh-targeted key looks up: only with a non-empty mesh id and a structure. */
  function TargetNode(obj: SceneObject, mesh: Option<string>): Option<Node>
  {
    if Given(mesh) && obj.structure.Some? then FindNodeInTree(obj.structure.value, mesh.value) else None
  }

  /** The call one `dataBindings` entry issues, if any. */
  function BindingUpdate(obj: SceneObject, key: string, b: Binding, values: map<int, Dict<Json>>,
                         eval: (string, Json) -> Option<Json>): (r: Option<Update>)
    ensures !b.enabled || b.dataSourceId !in values ==> r.None?
    ensures b.dataSourceId in values && OrUndef(Get(values[b.dataSourceId], b.tagKey)).JUndef? ==> r.None?
    ensures BindingValue(b, values, eval).None? ==> r.None?
    ensures r.Some? ==> r.value.id == obj.id && r.value.meshId == ParseBindingKey(key).0 && |r.value.props| == 1
    ensures r.Some? ==> Dispatch(ParseBindingKey(key).1, BindingValue(b, values, eval).value,
                                 TargetNode(obj, ParseBindingKey(key).0), obj) == Some(r.value.props)
  {
    var v := BindingValue(b, values, eval);
    if v.None? then None
    else
      var pk := ParseBindingKey(key);
      var node := TargetNode(obj, pk.0);
      if Given(pk.0) && obj.structure.Some? && node.None? then None
      else
        var props := Dispatch(pk.1, v.value, node, obj);
        if props.None? then None else Some(Update(obj.id, props.value, pk.0))
  }

  /** A key aimed at a node that the object's structure does not hold issues nothing. */
  lemma MissingNodeNoUpdate(obj: SceneObject, key: string, b: Binding, values: map<int, Dict<Json>>,
                            eval: (string, Json) -> Option<Json>)
    requires Given(ParseBindingKey(key).0) && obj.structure.Some?
    requires !HasId(Flat(obj.structure.value), ParseBindingKey(key).0.value)
    ensures BindingUpdate(obj, key, b, values, eval).None?
  {
    FindNodeInTreeNull(obj.structure.value, ParseBindingKey(key).0.value);
  }

  /**
   * A material binding writes one property over the base material and keeps
   * every other property of it.
   */
  lemma MaterialMerge(path: string, v: Json, node: Option<Node>, obj: SceneObject, k: string)
    requires MaterialKey(path).Some?
    ensures var m := Dispatch(path, v, node, obj).value[0].1.fields;
      Get(m, MaterialKey(path).value) == Some(v) &&
      (k != MaterialKey(path).value ==> Get(m, k) == Get(FieldsOf(BaseMaterial(node, obj)), k))
  {
    GetSet(FieldsOf(BaseMaterial(node, obj)), MaterialKey(path).value, v, k);
    GetSet(FieldsOf(BaseMaterial(node, obj)), MaterialKey(path).value, v, MaterialKey(path).value);
  }

  /** The calls of the entries, in order: one per entry that issues one. */
  function UpdatesOf(obj: SceneObject, bs: Dict<Binding>, values: map<int, Dict<Json>>,
                     eval: (string, Json) -> Option<Json>): (r: seq<Update>)
    ensures |r| <= |bs|
    ensures forall i :: 0 <= i < |r| ==> r[i].id == obj.id
    decreases |bs|
  {
    if |bs| == 0 then []
    else
      var init := UpdatesOf(obj, bs[..|bs| - 1], values, eval);
      var u := BindingUpdate(obj, bs[|bs| - 1].0, bs[|bs| - 1].1, values, eval);
      if u.Some? then init + [u.value] else init
  }

  /** Bindings that are all switched off issue no call. */
  lemma {:induction false} DisabledNoUpdates(obj: SceneObject, bs: Dict<Binding>, values: map<int, Dict<Json>>,
                                             eval: (string, Json) -> Option<Json>)
    requires forall i :: 0 <= i < |bs| ==> !bs[i].1.enabled
    ensures UpdatesOf(obj, bs, values, eval) == []
    decreases |bs|
  {
    if |bs| > 0 {
      DisabledNoUpdates(obj, bs[..|bs| - 1], values, eval);
    }
  }

  /** Every call comes from an enabled binding with a defined value on a known source. */
  lemma {:induction false} UpdatesFromLiveBindings(obj: SceneObject, bs: Dict<Binding>, values: map<int, Dict<Json>>,
                                                   eval: (string, Json) -> Option<Json>, u: Update)
    requires u in UpdatesOf(obj, bs, values, eval)
    ensures exists i :: (0 <= i < |bs| && BindingUpdate(obj, bs[i].0, bs[i].1, values, eval) == Some(u) &&
      bs[i].1.enabled && bs[i].1.dataSourceId in values)
    decreases |bs|
  {
    var init := UpdatesOf(obj, bs[..|bs| - 1], values, eval);
    var last := BindingUpdate(obj, bs[|bs| - 1].0, bs[|bs| - 1].1, values, eval);
    if u in init {
      UpdatesFromLiveBindings(obj, bs[..|bs| - 1], values, eval, u);
      var i :| 0 <= i < |bs| - 1 && BindingUpdate(obj, bs[..|bs| - 1][i].0, bs[..|bs| - 1][i].1, values, eval) == Some(u) &&
        bs[..|bs| - 1][i].1.enabled && bs[..|bs| - 1][i].1.dataSourceId in values;
      assert bs[..|bs| - 1][i] == bs[i];
    } else {
      assert last == Some(u);
    }
  }

  /** The bindings effect: the `forEach` over `Object.entries(obj.dataBindings)`. */
  method ApplyDataBindings(obj: SceneObject, values: map<int, Dict<Json>>, eval: (string, Json) -> Option<Json>)
    returns (calls: seq<Update>)
    ensures obj.dataBindings.None? ==> calls == []
    ensures obj.dataBindings.Some? ==> calls == UpdatesOf(obj, obj.dataBindings.value, values, eval)
  {
    calls := [];
    if obj.dataBindings.None? {
      return;
    }
    var bs := obj.dataBindings.value;
    var i := 0;
    while i < |bs|
      invariant 0 <= i <= |bs|
      invariant calls == UpdatesOf(obj, bs[..i], values, eval)
    {
      var u := BindingUpdate(obj, bs[i].0, bs[i].1, values, eval);
      if u.Some? {
        calls := calls + [u.value];
      }
      i := i + 1;
      assert bs[..i][..i - 1] == bs[..i - 1];
    }
    assert bs[..i] == bs;
  }

  // ---------------------------------------------------------------------
  // The label effect
  // ---------------------------------------------------------------------

  /** `labelTemplates.find(t => t.id === id)` */
  function FindTemplate(ts: seq<LabelTemplate>, id: string): (r: Option<LabelTemplate>)
    ensures r.None? <==> forall i :: 0 <= i < |ts| ==> ts[i].id != id
    ensures r.Some? ==> exists i :: (0 <= i < |ts| && ts[i] == r.value && r.value.id == id &&
      forall j :: 0 <= j < i ==> ts[j].id != id)
  {
    if |ts| == 0 then None
    else if ts[0].id == id then Some(ts[0])
    else
      var r := FindTemplate(ts[1..], id);
      assert forall i :: 1 <= i < |ts| ==> ts[i] == ts[1..][i - 1];
      if r.Some? then
        var i :| 0 <= i < |ts[1..]| && ts[1..][i] == r.value && r.value.id == id && forall j :: 0 <= j < i ==> ts[1..][j].id != id;
        assert ts[i + 1] == r.value;
        r
      else r
  }

  /** `sourceVals ? sourceVals[tagKey] : undefined` */
  function RawValue(b: Binding, values: map<int, Dict<Json>>): Json
  {
    if b.dataSourceId in values then OrUndef(Get(values[b.dataSourceId], b.tagKey)) else JUndef
  }

  /**
   * The text a field mapping puts in the label; `str` is JavaScript's
   * `String(...)` and `eval` runs the binding's expression on the raw value,
   * `None` when it throws.
   */
  function FieldText(m: Mapping, values: map<int, Dict<Json>>, eval: (string, Json) -> Option<Json>,
                     str: Json -> string): (r: string)
    ensures m.Literal? ==> r == m.text
    ensures m.Blank? ==> r == ""
    ensures m.Bound? && RawValue(m.binding, values).JUndef? ==> r == "[" + m.binding.tagKey + "]"
    ensures m.Bound? && !RawValue(m.binding, values).JUndef? && !Given(m.binding.expression) ==>
      r == str(RawValue(m.binding, values))
    ensures (m.Bound? && !RawValue(m.binding, values).JUndef? && Given(m.binding.expression) &&
             eval(m.binding.expression.value, RawValue(m.binding, values)).None?) ==> r == "Error"
    ensures (m.Bound? && !RawValue(m.binding, values).JUndef? && Given(m.binding.expression) &&
             eval(m.binding.expression.value, RawValue(m.binding, values)).Some?) ==>
      r == str(eval(m.binding.expression.value, RawValue(m.binding, values)).value)
  {
    match m
    case Literal(text) => text
    case Blank => ""
    case Bound(b) =>
      var raw := RawValue(b, values);
      if raw.JUndef? then "[" + b.tagKey + "]"
      else if Given(b.expression) then
        var x := eval(b.expression.value, raw);
        if x.None? then "Error" else str(x.value)
      else str(raw)
  }

  /** Each mapped field paired with its text. */
  function LabelSubs(fm: Dict<Mapping>, values: map<int, Dict<Json>>, eval: (string, Json) -> Option<Json>,
                     str: Json -> string): (r: seq<(string, string)>)
    ensures |r| == |fm|
    ensures forall i :: 0 <= i < |r| ==> r[i] == (fm[i].0, FieldText(fm[i].1, values, eval, str))
  {
    if |fm| == 0 then []
    else [(fm[0].0, FieldText(fm[0].1, values, eval, str))] + LabelSubs(fm[1..], values, eval, str)
  }

  /** The pairs of two lists of mapped fields, one after the other, are the pairs of the joined list. */
  lemma {:induction false} LabelSubsAppend(f: Dict<Mapping>, g: Dict<Mapping>, values: map<int, Dict<Json>>,
                                           eval: (string, Json) -> Option<Json>, str: Json -> string)
    ensures LabelSubs(f + g, values, eval, str) == LabelSubs(f, values, eval, str) + LabelSubs(g, values, eval, str)
  {
    if |f| == 0 {
      assert f + g == g;
    } else {
      assert (f + g)[0] == f[0] && (f + g)[1..] == f[1..] + g;
      LabelSubsAppend(f[1..], g, values, eval, str);
    }
  }

  /** Filling one more mapped field replaces its placeholder in the html filled so far. */
  lemma FillStep(html: string, fm: Dict<Mapping>, i: nat, values: map<int, Dict<Json>>,
                 eval: (string, Json) -> Option<Json>, str: Json -> string)
    requires i < |fm|
    ensures FillAll(html, LabelSubs(fm[..i + 1], values, eval, str))
            == ReplaceAll(FillAll(html, LabelSubs(fm[..i], values, eval, str)), Placeholder(fm[i].0),
                          FieldText(fm[i].1, values, eval, str))
  {
    assert fm[..i + 1] == fm[..i] + [fm[i]];
    LabelSubsAppend(fm[..i], [fm[i]], values, eval, str);
    var subs := LabelSubs(fm[..i], values, eval, str);
    assert (subs + [(fm[i].0, FieldText(fm[i].1, values, eval, str))])[..|subs|] == subs;
  }

  /** The filled label html, when the object has a label binding whose template exists. */
  function LabelHtml(obj: SceneObject, templates: seq<LabelTemplate>, values: map<int, Dict<Json>>,
                     eval: (string, Json) -> Option<Json>, str: Json -> string): (r: Option<string>)
    ensures r.Some? <==> obj.labelBinding.Some? && FindTemplate(templates, obj.labelBinding.value.templateId).Some?
  {
    if obj.labelBinding.None? then None
    else
      var t := FindTemplate(templates, obj.labelBinding.value.templateId);
      if t.None? then None
      else Some(FillAll(t.value.html, LabelSubs(obj.labelBinding.value.fieldMappings, values, eval, str)))
  }

  /** The label effect: the `forEach` that rewrites `html`, then the update when the label changed. */
  method ApplyLabelBinding(obj: SceneObject, templates: seq<LabelTemplate>, values: map<int, Dict<Json>>,
                           eval: (string, Json) -> Option<Json>, str: Json -> string)
    returns (call: Option<Update>)
    ensures var h := LabelHtml(obj, templates, values, eval, str);
      call == if h.Some? && obj.htmlLabel != h then Some(Update(obj.id, [("htmlLabel", JStr(h.value))], None)) else None
  {
    call := None;
    if obj.labelBinding.None? {
      return;
    }
    var template := FindTemplate(templates, obj.labelBinding.value.templateId);
    if template.None? {
      return;
    }
    var fm := obj.labelBinding.value.fieldMappings;
    var html := template.value.html;
    var i := 0;
    while i < |fm|
      invariant 0 <= i <= |fm|
      invariant html == FillAll(template.value.html, LabelSubs(fm[..i], values, eval, str))
    {
      var fieldVal := FieldText(fm[i].1, values, eval, str);
      FillStep(template.value.html, fm, i, values, eval, str);
      html := ReplaceAll(html, Placeholder(fm[i].0), fieldVal);
      i := i + 1;
    }
    assert fm[..i] == fm;
    if obj.htmlLabel != Some(html) {
      call := Some(Update(obj.id, [("htmlLabel", JStr(html))], None));
    }
  }

  /**
   * A label already showing its template, whose html holds none of the mapped
   * placeholders, is left alone: no update is issued.
   */
  lemma LabelUnchangedNoUpdate(obj: SceneObject, templates: seq<LabelTemplate>, values: map<int, Dict<Json>>,
                               eval: (string, Json) -> Option<Json>, str: Json -> string)
    requires obj.labelBinding.Some? && FindTemplate(templates, obj.labelBinding.value.templateId).Some?
    requires var t := FindTemplate(templates, obj.labelBinding.value.templateId).value;
      obj.htmlLabel == Some(t.html) &&
      forall i :: 0 <= i < |obj.labelBinding.value.fieldMappings| ==>
        !Contains(t.html, Placeholder(obj.labelBinding.value.fieldMappings[i].0))
    ensures LabelHtml(obj, templates, values, eval, str) == obj.htmlLabel
  {
    var t := FindTemplate(templates, obj.labelBinding.value.templateId).value;
    FillAllAbsent(t.html, LabelSubs(obj.labelBinding.value.fieldMappings, values, eval, str));
  }

  /**
   * A template with one field mapped to literal text shows that text at every
   * placeholder and keeps the text around them.
   */
  lemma LiteralFieldFilled(obj: SceneObject, templates: seq<LabelTemplate>, values: map<int, Dict<Json>>,
                           eval: (string, Json) -> Option<Json>, str: Json -> string,
                           xs: seq<string>, f: string, text: string)
    requires |xs| >= 1
    requires forall k, i :: 0 <= k < |xs| && 0 <= i < |xs[k]| ==> xs[k][i] != '{'
    requires obj.labelBinding.Some? && obj.labelBinding.value.fieldMappings == [(f, Literal(text))]
    requires FindTemplate(templates, obj.labelBinding.value.templateId).Some?
    requires FindTemplate(templates, obj.labelBinding.value.templateId).value.html == Interleave(xs, Placeholder(f))
    ensures LabelHtml(obj, templates, values, eval, str) == Some(Interleave(xs, text))
  {
    var subs := LabelSubs([(f, Literal(text))], values, eval, str);
    assert subs == [(f, text)];
    assert subs[..0] == [];
    var html := Interleave(xs, Placeholder(f));
    assert FillAll(html, subs) == ReplaceAll(html, Placeholder(f), text);
    ReplaceEveryPlaceholder(xs, f, text);
  }
}
