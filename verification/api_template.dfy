/**
 * The label-template service's record conversion between the editor and
 * the server: the server stores a template's field list as one
 * comma-separated string and its id as a number; the editor keeps a list of
 * field names and a string id (a temporary `template_...` one before the
 * first save).
 */
module ApiTemplate {
  import opened Wrappers
  import opened Text
  import opened Scene

  /** A template row as the server sends it: a numeric id and the comma-separated fields, or `null`. */
  datatype ServerTemplate = ServerTemplate(id: int, name: string, html: string, css: string, fields: Option<string>)

  /** The body `saveTemplate` posts: the id as a number or `undefined`, the fields joined. */
  datatype OutgoingTemplate = OutgoingTemplate(id: Option<int>, name: string, html: string, css: string, fields: string)

  /**
   * `Number(s)` on the id strings the editor holds (decimal server ids and
   * temporary `template_...` ids): surrounding white space is ignored, a
   * blank string is 0, a string of decimal digits is its value, and
   * anything else is `NaN` (`None`). Signs, exponents, hexadecimal and
   * fractions, which JavaScript also reads, are outside this reading.
   */
  function NumberOf(s: string): (r: Option<int>)
    ensures r.Some? ==> r.value >= 0
  {
    var t := Trim(s);
    if t == "" then Some(0)
    else if forall i :: 0 <= i < |t| ==> IsDigit(t[i]) then Some(DigitsValue(t))
    else None
  }

  /** `fields ? fields.split(',').filter(Boolean) : []` */
  function ParseFields(fields: Option<string>): (r: seq<string>)
    ensures forall i :: 0 <= i < |r| ==> r[i] != "" && ',' !in r[i]
  {
    if fields.Some? && fields.value != "" then
      var pieces := Split(fields.value, ',');
      var kept := NonEmpty(pieces);
      assert forall i :: 0 <= i < |kept| ==> kept[i] in pieces by {
        NonEmptyFrom(pieces);
      }
      kept
    else []
  }

  /** Every piece `NonEmpty` keeps comes from its input. */
  lemma {:induction false} NonEmptyFrom(xs: seq<string>)
    ensures forall i :: 0 <= i < |NonEmpty(xs)| ==> NonEmpty(xs)[i] in xs
  {
    if |xs| > 0 {
      NonEmptyFrom(xs[1..]);
    }
  }

  /** A loaded template (`getTemplates` entries, and `saveTemplate`'s answer): string id, listed fields. */
  function FromServer(item: ServerTemplate): (r: LabelTemplate)
    ensures r.name == item.name && r.html == item.html && r.css == item.css
    ensures item.fields.None? || item.fields == Some("") ==> r.fields == []
  {
    LabelTemplate(IntToString(item.id), item.name, item.html, item.css, ParseFields(item.fields))
  }

  /** `getTemplates`: a missing list loads as no templates. */
  function GetTemplates(list: Option<seq<ServerTemplate>>): (r: seq<LabelTemplate>)
    ensures list.None? ==> r == []
    ensures list.Some? ==> |r| == |list.value| && forall i :: 0 <= i < |r| ==> r[i] == FromServer(list.value[i])
  {
    if list.None? then [] else seq(|list.value|, i requires 0 <= i < |list.value| => FromServer(list.value[i]))
  }

  /** The body `saveTemplate` sends. */
  function ToServer(t: LabelTemplate): (r: OutgoingTemplate)
    ensures r.name == t.name && r.html == t.html && r.css == t.css
  {
    OutgoingTemplate(NumberOf(t.id), t.name, t.html, t.css, Join(t.fields, ','))
  }

  // ---------------------------------------------------------------------
  // Round trips
  // ---------------------------------------------------------------------

  /**
   * Saving then loading a field list gives it back, as long as no field is
   * empty or holds a comma.
   */
  lemma FieldsRoundTrip(fields: seq<string>)
    requires forall i :: 0 <= i < |fields| ==> fields[i] != "" && ',' !in fields[i]
    ensures ParseFields(Some(Join(fields, ','))) == fields
  {
    if |fields| > 0 {
      JoinNonEmpty(fields, ',');
      forall k, i | 0 <= k < |fields| && 0 <= i < |fields[k]|
        ensures fields[k][i] != ','
      {
        assert fields[k][i] in fields[k];
      }
      SplitJoin(fields, ',');
      NonEmptyKeeps(fields);
    }
  }

  /** Empty pieces do not survive a round trip: `["a", "", "b"]` comes back as `["a", "b"]`. */
  lemma EmptyFieldDropped()
    ensures ParseFields(Some(Join(["a", "", "b"], ','))) == ["a", "b"]
  {
    var pieces := ["a", "", "b"];
    JoinNonEmpty(pieces, ',');
    SplitJoin(pieces, ',');
    assert pieces[1..] == ["", "b"] && pieces[1..][1..] == ["b"];
    assert NonEmpty(["b"]) == ["b"];
  }

  /** A decimal number's digits read back as the number. */
  lemma {:induction false} DigitsOfNat(n: nat)
    ensures forall i :: 0 <= i < |NatToString(n)| ==> IsDigit(NatToString(n)[i])
    ensures DigitsValue(NatToString(n)) == n
  {
    var s := NatToString(n);
    if n >= 10 {
      DigitsOfNat(n / 10);
      assert s[..|s| - 1] == NatToString(n / 10);
      DigitCharValue(n % 10);
    } else {
      DigitCharValue(n);
      assert s[..0] == [];
    }
  }

  /** A string of digits has nothing to trim. */
  lemma TrimDigits(s: string)
    requires |s| >= 1 && forall i :: 0 <= i < |s| ==> IsDigit(s[i])
    ensures Trim(s) == s
  {
    assert !IsSpace(s[0]);
    assert TrimStart(s) == s;
    assert !IsSpace(s[|s| - 1]);
  }

  /** `Number(String(n))` is `n` for a natural number. */
  lemma NumberOfNat(n: nat)
    ensures NumberOf(NatToString(n)) == Some(n)
  {
    DigitsOfNat(n);
    TrimDigits(NatToString(n));
  }

  /**
   * A template loaded from the server keeps its numeric id through a save:
   * the outgoing id is the server's id.
   */
  lemma IdRoundTrip(item: ServerTemplate)
    requires item.id >= 0
    ensures ToServer(FromServer(item)).id == Some(item.id)
  {
    NumberOfNat(item.id);
    assert FromServer(item).id == NatToString(item.id);
  }

  /** A string whose first character is not white space keeps a non-empty trimmed form starting with that character. */
  lemma {:induction false} TrimEndKeepsFirst(s: string)
    requires |s| >= 1 && !IsSpace(s[0])
    ensures |TrimEnd(s)| >= 1 && TrimEnd(s)[0] == s[0]
  {
    if IsSpace(s[|s| - 1]) {
      TrimEndKeepsFirst(s[..|s| - 1]);
    }
  }

  /** A temporary `template_...` id is not a number, so it is sent as `undefined` and the server inserts a new row. */
  lemma TemporaryIdUndefined(t: LabelTemplate)
    requires StartsWith(t.id, "template_")
    ensures ToServer(t).id == None
  {
    assert t.id[0] == 't';
    assert TrimStart(t.id) == t.id;
    TrimEndKeepsFirst(t.id);
    assert !IsDigit(Trim(t.id)[0]);
  }
}
