/**
 * Label-template placeholder substitution: every `{{field}}` in a template's
 * html is replaced, field by field, with a text. The editor's preview puts
 * each field's own name in its place; a bound label puts the field's value.
 * Field names are taken literally (free of regular-expression syntax).
 */
module TemplatePreview {
  import opened Text

  /** `{{f}}` */
  function Placeholder(f: string): (r: string)
    ensures |r| == |f| + 4 && r[0] == '{'
  {
    "{{" + f + "}}"
  }

  /** The html after `html.replace(/{{field}}/g, text)` for each (field, text) pair, in order. */
  function FillAll(html: string, subs: seq<(string, string)>): string
    decreases |subs|
  {
    if |subs| == 0 then html
    else
      var last := subs[|subs| - 1];
      ReplaceAll(FillAll(html, subs[..|subs| - 1]), Placeholder(last.0), last.1)
  }

  /** Each field paired with its own name, the preview's substitutions. */
  function SelfSubs(fields: seq<string>): (r: seq<(string, string)>)
    ensures |r| == |fields| && forall i :: 0 <= i < |r| ==> r[i] == (fields[i], fields[i])
  {
    if |fields| == 0 then [] else [(fields[0], fields[0])] + SelfSubs(fields[1..])
  }

  /** The preview of a template: empty for an empty html, otherwise each field's placeholder shows its name. */
  function Preview(html: string, fields: seq<string>): string
  {
    if html == "" then "" else FillAll(html, SelfSubs(fields))
  }

  /** `useTemplatePreview`: the loop that rewrites `result` once per field. */
  method PreviewHtml(html: string, fields: seq<string>) returns (result: string)
    ensures result == Preview(html, fields)
    ensures html == "" ==> result == ""
  {
    if html == "" {
      return "";
    }
    result := html;
    var i := 0;
    while i < |fields|
      invariant 0 <= i <= |fields|
      invariant result == FillAll(html, SelfSubs(fields[..i]))
    {
      var f := fields[i];
      result := ReplaceAll(result, Placeholder(f), f);
      i := i + 1;
      assert SelfSubs(fields[..i])[..i - 1] == SelfSubs(fields[..i - 1]);
    }
    assert fields[..i] == fields;
  }

  // ---------------------------------------------------------------------
  // What the substitution does
  // ---------------------------------------------------------------------

  /** Substitutions whose placeholders do not occur in the html leave it unchanged. */
  lemma {:induction false} FillAllAbsent(html: string, subs: seq<(string, string)>)
    requires forall i :: 0 <= i < |subs| ==> !Contains(html, Placeholder(subs[i].0))
    ensures FillAll(html, subs) == html
    decreases |subs|
  {
    if |subs| > 0 {
      FillAllAbsent(html, subs[..|subs| - 1]);
      ReplaceAllAbsent(html, Placeholder(subs[|subs| - 1].0), subs[|subs| - 1].1);
    }
  }

  /** Fields that do not occur in the template leave the preview equal to the html. */
  lemma PreviewAbsent(html: string, fields: seq<string>)
    requires forall i :: 0 <= i < |fields| ==> !Contains(html, Placeholder(fields[i]))
    ensures Preview(html, fields) == html
  {
    if html != "" {
      FillAllAbsent(html, SelfSubs(fields));
    }
  }

  /** `xs[0] + sep + xs[1] + sep + ... + xs[n-1]`: pieces of text separated by `sep`. */
  function Interleave(xs: seq<string>, sep: string): string
    requires |xs| >= 1
    decreases |xs|
  {
    if |xs| == 1 then xs[0] else xs[0] + sep + Interleave(xs[1..], sep)
  }

  /**
   * Every occurrence of a placeholder is replaced, and the text around the
   * placeholders is kept: when the pieces between occurrences hold no `{`,
   * replacing `{{f}}` by `t` turns each separator into `t` and nothing else.
   */
  lemma {:induction false} ReplaceEveryPlaceholder(xs: seq<string>, f: string, t: string)
    requires |xs| >= 1
    requires forall k, i :: 0 <= k < |xs| && 0 <= i < |xs[k]| ==> xs[k][i] != '{'
    ensures ReplaceAll(Interleave(xs, Placeholder(f)), Placeholder(f), t) == Interleave(xs, t)
    decreases |xs|
  {
    var p := Placeholder(f);
    if |xs| == 1 {
      ReplaceAllSkip(xs[0], "", p, t);
      assert xs[0] + "" == xs[0];
    } else {
      var rest := Interleave(xs[1..], p);
      assert Interleave(xs, p) == xs[0] + (p + rest);
      ReplaceAllSkip(xs[0], p + rest, p, t);
      ReplaceAllFront(rest, p, t);
      ReplaceEveryPlaceholder(xs[1..], f, t);
      assert Interleave(xs, t) == xs[0] + (t + Interleave(xs[1..], t));
    }
  }

  /** The preview of a one-field template shows the field's name at every placeholder and keeps the rest. */
  lemma PreviewOneField(xs: seq<string>, f: string)
    requires |xs| >= 1
    requires forall k, i :: 0 <= k < |xs| && 0 <= i < |xs[k]| ==> xs[k][i] != '{'
    ensures Preview(Interleave(xs, Placeholder(f)), [f]) == Interleave(xs, f)
  {
    var html := Interleave(xs, Placeholder(f));
    assert SelfSubs([f]) == [(f, f)];
    assert [(f, f)][..0] == [];
    assert FillAll(html, [(f, f)]) == ReplaceAll(html, Placeholder(f), f);
    ReplaceEveryPlaceholder(xs, f, f);
    if |xs| > 1 {
      assert |html| >= |Placeholder(f)|;
    }
  }
}
