/**
 * Flattening a data source's JSON response into data tags: one tag per
 * value that is not a plain object, keyed by the dot-joined path of property
 * names leading to it. A tag whose key was known before keeps its id and
 * its display label.
 */
module DataTags {
  import opened Wrappers
  import opened Text
  import opened Json

  /** A data tag (`DataTag`). */
  datatype DataTag = DataTag(id: string, key: string, labelText: string, value: Json)

  /** A leaf of a response: the dotted key and the value found there. */
  datatype Leaf = Leaf(key: string, value: Json)

  /** `prefix ? `${prefix}.${key}` : key` */
  function FullKey(prefix: string, key: string): (r: string)
    ensures prefix != "" ==> r == prefix + "." + key
  {
    if prefix != "" then prefix + "." + key else key
  }

  /** The array positions as `for ... in` names them: "0", "1", ... */
  function Indexed(items: seq<Json>, parent: Json): (r: Dict<Json>)
    requires forall i :: 0 <= i < |items| && items[i].JObj? ==> items[i] < parent
    ensures |r| == |items|
    ensures forall i :: 0 <= i < |r| ==> r[i] == (NatToString(i), items[i])
  {
    if |items| == 0 then []
    else
      var init := items[..|items| - 1];
      assert forall i :: 0 <= i < |init| ==> init[i] == items[i];
      Indexed(init, parent) + [(NatToString(|init|), items[|init|])]
  }

  /**
   * The key/value pairs `for (const key in obj)` visits: an object's own
   * properties in own-key order, each with the value it reads as; an array's
   * or a string's positions; no others.
   */
  function Entries(obj: Json): (r: Dict<Json>)
    ensures forall i :: 0 <= i < |r| && r[i].1.JObj? ==> r[i].1 < obj
  {
    match obj
    case JObj(fs) =>
      var r := OwnEntries(fs);
      assert forall i :: 0 <= i < |r| ==> r[i] in fs;
      r
    case JArr(items) => Indexed(items, obj)
    case JStr(s) =>
      var chars := seq(|s|, i requires 0 <= i < |s| => JStr([s[i]]));
      Indexed(chars, obj)
    case _ => []
  }

  /**
   * The reference definition: the leaves of a response in visiting order.
   * A falsy response has none; a plain object's value is descended into
   * under its full key; any other value is one leaf.
   */
  function Leaves(obj: Json, prefix: string): (r: seq<Leaf>)
    ensures !Truthy(obj) ==> r == []
    decreases obj, 1, 0
  {
    if !Truthy(obj) then [] else LeavesOf(Entries(obj), prefix, obj)
  }

  function LeavesOf(es: Dict<Json>, prefix: string, parent: Json): seq<Leaf>
    requires forall i :: 0 <= i < |es| && es[i].1.JObj? ==> es[i].1 < parent
    decreases parent, 0, |es|
  {
    if |es| == 0 then []
    else
      var (key, value) := es[|es| - 1];
      LeavesOf(es[..|es| - 1], prefix, parent)
      + (if value.JObj? then Leaves(value, FullKey(prefix, key)) else [Leaf(FullKey(prefix, key), value)])
  }

  /** `existingTags.find(t => t.key === key)` */
  function FindTag(tags: seq<DataTag>, key: string): (r: Option<DataTag>)
    ensures r.Some? ==> r.value in tags && r.value.key == key
    ensures r.None? ==> forall t :: t in tags ==> t.key != key
  {
    if |tags| == 0 then None
    else if tags[0].key == key then Some(tags[0])
    else FindTag(tags[1..], key)
  }

  /** The stored value: an array is shown as `Array(n)`, anything else as it is. */
  function Shown(v: Json): (r: Json)
    ensures v.JArr? ==> r == JStr("Array(" + NatToString(|v.items|) + ")")
    ensures !v.JArr? ==> r == v
  {
    if v.JArr? then JStr("Array(" + NatToString(|v.items|) + ")") else v
  }

  /**
   * The tag of one leaf: a known tag's non-empty id and label are kept, a new
   * id is drawn (`mint(k)`) only when none is kept, and the label falls back
   * to the key.
   */
  function TagOf(l: Leaf, existing: seq<DataTag>, k: nat, mint: nat -> string): (DataTag, nat)
  {
    var ex := FindTag(existing, l.key);
    var keepId := ex.Some? && ex.value.id != "";
    var id := if keepId then ex.value.id else mint(k);
    var shownLabel := if ex.Some? && ex.value.labelText != "" then ex.value.labelText else l.key;
    (DataTag(id, l.key, shownLabel, Shown(l.value)), if keepId then k else k + 1)
  }

  /** The tags of a list of leaves, drawing new ids in order from `k`. */
  function TagsOf(ls: seq<Leaf>, existing: seq<DataTag>, k: nat, mint: nat -> string): (r: (seq<DataTag>, nat))
    ensures |r.0| == |ls| && r.1 >= k
  {
    if |ls| == 0 then ([], k)
    else
      var prev := TagsOf(ls[..|ls| - 1], existing, k, mint);
      var last := TagOf(ls[|ls| - 1], existing, prev.1, mint);
      (prev.0 + [last.0], last.1)
  }

  lemma {:induction false} TagsOfAppend(a: seq<Leaf>, b: seq<Leaf>, existing: seq<DataTag>, k: nat, mint: nat -> string)
    ensures TagsOf(a + b, existing, k, mint)
         == (TagsOf(a, existing, k, mint).0 + TagsOf(b, existing, TagsOf(a, existing, k, mint).1, mint).0,
             TagsOf(b, existing, TagsOf(a, existing, k, mint).1, mint).1)
  {
    var ta := TagsOf(a, existing, k, mint);
    if |b| == 0 {
      assert a + b == a;
      assert TagsOf(b, existing, ta.1, mint) == ([], ta.1);
      assert ta.0 + [] == ta.0;
    } else {
      var b0 := b[..|b| - 1];
      assert (a + b)[..|a + b| - 1] == a + b0;
      assert (a + b)[|a + b| - 1] == b[|b| - 1];
      TagsOfAppend(a, b0, existing, k, mint);
      var prev := TagsOf(b0, existing, ta.1, mint);
      var last := TagOf(b[|b| - 1], existing, prev.1, mint);
      assert TagsOf(b, existing, ta.1, mint) == (prev.0 + [last.0], last.1);
      assert TagsOf(a + b0, existing, k, mint) == (ta.0 + prev.0, prev.1);
      assert TagsOf(a + b, existing, k, mint) == ((ta.0 + prev.0) + [last.0], last.1);
      assert (ta.0 + prev.0) + [last.0] == ta.0 + (prev.0 + [last.0]);
    }
  }

  /** The leaves one visited entry contributes. */
  function EntryLeaves(key: string, value: Json, prefix: string): seq<Leaf>
  {
    if value.JObj? then Leaves(value, FullKey(prefix, key)) else [Leaf(FullKey(prefix, key), value)]
  }

  /** Visiting one more entry appends that entry's tags, drawing ids from where the others stopped. */
  lemma FlattenStep(es: Dict<Json>, i: nat, prefix: string, obj: Json, existing: seq<DataTag>, k: nat, mint: nat -> string)
    requires i < |es|
    requires forall j :: 0 <= j < |es| && es[j].1.JObj? ==> es[j].1 < obj
    ensures var before := TagsOf(LeavesOf(es[..i], prefix, obj), existing, k, mint);
            var step := TagsOf(EntryLeaves(es[i].0, es[i].1, prefix), existing, before.1, mint);
            TagsOf(LeavesOf(es[..i + 1], prefix, obj), existing, k, mint) == (before.0 + step.0, step.1)
  {
    assert es[..i + 1][..i] == es[..i];
    assert LeavesOf(es[..i + 1], prefix, obj) == LeavesOf(es[..i], prefix, obj) + EntryLeaves(es[i].0, es[i].1, prefix);
    TagsOfAppend(LeavesOf(es[..i], prefix, obj), EntryLeaves(es[i].0, es[i].1, prefix), existing, k, mint);
  }

  /** The tags of one leaf are that leaf's tag. */
  lemma TagsOfOne(l: Leaf, existing: seq<DataTag>, k: nat, mint: nat -> string)
    ensures TagsOf([l], existing, k, mint) == ([TagOf(l, existing, k, mint).0], TagOf(l, existing, k, mint).1)
  {
    assert [l][..0] == [];
    assert TagsOf([], existing, k, mint) == ([], k);
    assert [] + [TagOf(l, existing, k, mint).0] == [TagOf(l, existing, k, mint).0];
  }

  /** The tags of the first `i` entries the loop visits in `obj`, with ids drawn from `k`. */
  ghost function Visited(obj: Json, i: nat, prefix: string, existing: seq<DataTag>, k: nat, mint: nat -> string): (seq<DataTag>, nat)
    requires i <= |Entries(obj)|
  {
    TagsOf(LeavesOf(Entries(obj)[..i], prefix, obj), existing, k, mint)
  }

  /** Visiting a nested object appends the tags of its own leaves. */
  lemma ObjectStep(obj: Json, i: nat, prefix: string, existing: seq<DataTag>, k: nat, mint: nat -> string,
                   tags: seq<DataTag>, next: nat, sub: seq<DataTag>, after: nat)
    requires i < |Entries(obj)| && Entries(obj)[i].1.JObj?
    requires (tags, next) == Visited(obj, i, prefix, existing, k, mint)
    requires (sub, after) == TagsOf(Leaves(Entries(obj)[i].1, FullKey(prefix, Entries(obj)[i].0)), existing, next, mint)
    ensures (tags + sub, after) == Visited(obj, i + 1, prefix, existing, k, mint)
  {
    FlattenStep(Entries(obj), i, prefix, obj, existing, k, mint);
  }

  /** Visiting a value that is not a plain object appends its one tag. */
  lemma LeafStep(obj: Json, i: nat, prefix: string, existing: seq<DataTag>, k: nat, mint: nat -> string,
                 tags: seq<DataTag>, next: nat, tag: DataTag, drawn: nat)
    requires i < |Entries(obj)| && !Entries(obj)[i].1.JObj?
    requires (tags, next) == Visited(obj, i, prefix, existing, k, mint)
    requires (tag, drawn) == TagOf(Leaf(FullKey(prefix, Entries(obj)[i].0), Entries(obj)[i].1), existing, next, mint)
    ensures (tags + [tag], drawn) == Visited(obj, i + 1, prefix, existing, k, mint)
  {
    FlattenStep(Entries(obj), i, prefix, obj, existing, k, mint);
    TagsOfOne(Leaf(FullKey(prefix, Entries(obj)[i].0), Entries(obj)[i].1), existing, next, mint);
  }

  /** Before the loop nothing is visited; after it, every leaf of a truthy response is. */
  lemma VisitedEnds(obj: Json, prefix: string, existing: seq<DataTag>, k: nat, mint: nat -> string)
    ensures Visited(obj, 0, prefix, existing, k, mint) == ([], k)
    ensures Truthy(obj) ==> Visited(obj, |Entries(obj)|, prefix, existing, k, mint) == TagsOf(Leaves(obj, prefix), existing, k, mint)
  {
    assert Entries(obj)[..0] == [];
    assert Entries(obj)[..|Entries(obj)|] == Entries(obj);
  }

  /**
   * The record the loop pushes for a value that is not a plain object: a
   * known tag's non-empty id and label, else a fresh id and the key; the
   * second result is the next unused id count.
   */
  method LeafTag(fullKey: string, value: Json, existing: seq<DataTag>, next: nat, mint: nat -> string)
    returns (tag: DataTag, drawn: nat)
    ensures (tag, drawn) == TagOf(Leaf(fullKey, value), existing, next, mint)
  {
    var found := FindTag(existing, fullKey);
    var id := if found.Some? && found.value.id != "" then found.value.id else mint(next);
    var shownLabel := if found.Some? && found.value.labelText != "" then found.value.labelText else fullKey;
    var shown := if value.JArr? then JStr("Array(" + NatToString(|value.items|) + ")") else value;
    tag := DataTag(id, fullKey, shownLabel, shown);
    drawn := if found.Some? && found.value.id != "" then next else next + 1;
  }

  /**
   * `flattenDataSourceResponse(obj, existingTags, prefix)`: the `for ... in`
   * loop pushes a leaf's tag or concatenates the tags of a nested object.
   * New ids come from `mint`, counted from `k`; the second result is the next
   * unused count.
   */
  method FlattenDataSourceResponse(obj: Json, existing: seq<DataTag>, prefix: string, k: nat, mint: nat -> string)
    returns (tags: seq<DataTag>, next: nat)
    ensures (tags, next) == TagsOf(Leaves(obj, prefix), existing, k, mint)
    decreases obj, 1
  {
    tags, next := [], k;
    if !Truthy(obj) {
      return;
    }
    VisitedEnds(obj, prefix, existing, k, mint);
    var i := 0;
    while i < |Entries(obj)|
      invariant 0 <= i <= |Entries(obj)|
      invariant (tags, next) == Visited(obj, i, prefix, existing, k, mint)
    {
      tags, next := FlattenEntry(obj, i, prefix, existing, k, mint, tags, next);
      i := i + 1;
    }
  }

  /**
   * One pass of the loop: entry `i` of `obj` pushes a leaf's tag or
   * concatenates the tags of a nested object onto what came before.
   */
  method FlattenEntry(obj: Json, i: nat, prefix: string, existing: seq<DataTag>, k: nat, mint: nat -> string,
                      tags: seq<DataTag>, next: nat)
    returns (tags': seq<DataTag>, next': nat)
    requires i < |Entries(obj)|
    requires (tags, next) == Visited(obj, i, prefix, existing, k, mint)
    ensures (tags', next') == Visited(obj, i + 1, prefix, existing, k, mint)
    decreases obj, 0
  {
    var key, value := Entries(obj)[i].0, Entries(obj)[i].1;
    var fullKey := FullKey(prefix, key);
    if value.JObj? {
      var sub, after := FlattenDataSourceResponse(value, existing, fullKey, next, mint);
      ObjectStep(obj, i, prefix, existing, k, mint, tags, next, sub, after);
      tags', next' := tags + sub, after;
    } else {
      var tag, drawn := LeafTag(fullKey, value, existing, next, mint);
      LeafStep(obj, i, prefix, existing, k, mint, tags, next, tag, drawn);
      tags', next' := tags + [tag], drawn;
    }
  }

  // ---------------------------------------------------------------------
  // Properties of the tags
  // ---------------------------------------------------------------------

  /**
   * Tag by tag: the key of its leaf, the shown value of its leaf, the label
   * of a known tag or else the key, and the id of a known tag when it has one.
   */
  lemma {:induction false} TagsOfFacts(ls: seq<Leaf>, existing: seq<DataTag>, k: nat, mint: nat -> string, i: nat)
    requires i < |ls|
    ensures var t := TagsOf(ls, existing, k, mint).0[i];
            var ex := FindTag(existing, ls[i].key);
            && t.key == ls[i].key
            && t.value == Shown(ls[i].value)
            && (ex.Some? && ex.value.labelText != "" ==> t.labelText == ex.value.labelText)
            && (ex.None? ==> t.labelText == ls[i].key)
            && (ex.Some? && ex.value.id != "" ==> t.id == ex.value.id)
  {
    if i < |ls| - 1 {
      TagsOfFacts(ls[..|ls| - 1], existing, k, mint, i);
      assert ls[..|ls| - 1][i] == ls[i];
    }
  }

  /** Only new tags draw ids: the count advances by the number of leaves without a kept id, at most one per leaf. */
  lemma {:induction false} TagsOfDraws(ls: seq<Leaf>, existing: seq<DataTag>, k: nat, mint: nat -> string)
    ensures TagsOf(ls, existing, k, mint).1 <= k + |ls|
    ensures (forall i :: 0 <= i < |ls| ==> FindTag(existing, ls[i].key).Some? && FindTag(existing, ls[i].key).value.id != "")
            ==> TagsOf(ls, existing, k, mint).1 == k
  {
    if |ls| > 0 {
      TagsOfDraws(ls[..|ls| - 1], existing, k, mint);
      assert forall i :: 0 <= i < |ls| - 1 ==> ls[..|ls| - 1][i] == ls[i];
    }
  }

  // ---------------------------------------------------------------------
  // Properties of the leaves
  // ---------------------------------------------------------------------

  /** The full key of a path of property names under a prefix. */
  function JoinPath(prefix: string, ks: seq<string>): string
    decreases |ks|
  {
    if |ks| == 0 then prefix else JoinPath(FullKey(prefix, ks[0]), ks[1..])
  }

  /**
   * The entry list leads to `v` along `ks`: the first name is an entry's key,
   * and either it is the last name and the entry's value is `v`, or the
   * value is a plain object in which the rest of the names lead to `v`.
   */
  predicate ReachesIn(es: Dict<Json>, ks: seq<string>, v: Json)
    decreases |ks|
  {
    |ks| >= 1
    && (exists i :: 0 <= i < |es| && es[i].0 == ks[0]
          && ((|ks| == 1 && es[i].1 == v) || (|ks| > 1 && es[i].1.JObj? && ReachesIn(Entries(es[i].1), ks[1..], v))))
  }

  /** No leaf is a plain object: plain objects are descended into, never tagged. */
  lemma {:induction false} LeavesNotObjects(obj: Json, prefix: string)
    ensures forall l :: l in Leaves(obj, prefix) ==> !l.value.JObj?
    decreases obj, 1, 0
  {
    if Truthy(obj) {
      LeavesOfNotObjects(Entries(obj), prefix, obj);
    }
  }

  lemma {:induction false} LeavesOfNotObjects(es: Dict<Json>, prefix: string, parent: Json)
    requires forall i :: 0 <= i < |es| && es[i].1.JObj? ==> es[i].1 < parent
    ensures forall l :: l in LeavesOf(es, prefix, parent) ==> !l.value.JObj?
    decreases parent, 0, |es|
  {
    if |es| > 0 {
      var (key, value) := es[|es| - 1];
      LeavesOfNotObjects(es[..|es| - 1], prefix, parent);
      if value.JObj? {
        LeavesNotObjects(value, FullKey(prefix, key));
      }
    }
  }

  /**
   * Every leaf's key is the dot-joined path of property names under the
   * prefix, and that path leads from the response to the leaf's value.
   */
  lemma {:induction false} LeavesArePaths(obj: Json, prefix: string, l: Leaf)
    requires l in Leaves(obj, prefix)
    ensures exists ks :: |ks| >= 1 && l.key == JoinPath(prefix, ks) && ReachesIn(Entries(obj), ks, l.value)
    decreases obj, 1, 0
  {
    LeavesOfArePaths(Entries(obj), prefix, obj, l);
  }

  lemma {:induction false} LeavesOfArePaths(es: Dict<Json>, prefix: string, parent: Json, l: Leaf)
    requires forall i :: 0 <= i < |es| && es[i].1.JObj? ==> es[i].1 < parent
    requires l in LeavesOf(es, prefix, parent)
    ensures exists ks :: |ks| >= 1 && l.key == JoinPath(prefix, ks) && ReachesIn(es, ks, l.value)
    decreases parent, 0, |es|
  {
    var n := |es| - 1;
    var (key, value) := es[n];
    var init := es[..n];
    if l in LeavesOf(init, prefix, parent) {
      LeavesOfArePaths(init, prefix, parent, l);
      var ks :| |ks| >= 1 && l.key == JoinPath(prefix, ks) && ReachesIn(init, ks, l.value);
      ReachesInGrow(es, n, ks, l.value);
    } else if value.JObj? {
      assert l in Leaves(value, FullKey(prefix, key));
      LeavesArePaths(value, FullKey(prefix, key), l);
      var ks :| |ks| >= 1 && l.key == JoinPath(FullKey(prefix, key), ks) && ReachesIn(Entries(value), ks, l.value);
      NestedPath(es, n, prefix, ks, l.value);
    } else {
      assert l == Leaf(FullKey(prefix, key), value);
      EntryPath(es, n, prefix);
    }
  }

  /** A path into the first `n` entries is a path into all of them. */
  lemma ReachesInGrow(es: Dict<Json>, n: nat, ks: seq<string>, v: Json)
    requires n <= |es| && ReachesIn(es[..n], ks, v)
    ensures ReachesIn(es, ks, v)
  {
    var init := es[..n];
    var i :| 0 <= i < |init| && init[i].0 == ks[0]
      && ((|ks| == 1 && init[i].1 == v) || (|ks| > 1 && init[i].1.JObj? && ReachesIn(Entries(init[i].1), ks[1..], v)));
    assert es[i] == init[i];
  }

  /** A path inside a nested object, behind that object's key, is a path into the entries. */
  lemma NestedPath(es: Dict<Json>, n: nat, prefix: string, ks: seq<string>, v: Json)
    requires n < |es| && es[n].1.JObj? && |ks| >= 1 && ReachesIn(Entries(es[n].1), ks, v)
    ensures ReachesIn(es, [es[n].0] + ks, v)
    ensures JoinPath(prefix, [es[n].0] + ks) == JoinPath(FullKey(prefix, es[n].0), ks)
  {
    var path := [es[n].0] + ks;
    assert path[0] == es[n].0 && path[1..] == ks;
  }

  /** One entry's key is a path to its own value. */
  lemma EntryPath(es: Dict<Json>, n: nat, prefix: string)
    requires n < |es|
    ensures ReachesIn(es, [es[n].0], es[n].1)
    ensures JoinPath(prefix, [es[n].0]) == FullKey(prefix, es[n].0)
  {
    var path := [es[n].0];
    assert path[1..] == [];
  }

  /**
   * A response without nested objects gives one leaf per own key, in
   * own-key order, keyed by the property name under the prefix and holding
   * the value the key reads as.
   */
  lemma FlatResponse(fs: Dict<Json>, prefix: string)
    requires forall i :: 0 <= i < |fs| ==> !fs[i].1.JObj?
    ensures |Leaves(JObj(fs), prefix)| == |OwnKeys(fs)|
    ensures forall i :: 0 <= i < |OwnKeys(fs)| ==>
              Leaves(JObj(fs), prefix)[i] == Leaf(FullKey(prefix, OwnKeys(fs)[i]), Get(fs, OwnKeys(fs)[i]).value)
  {
    var es := OwnEntries(fs);
    assert forall i :: 0 <= i < |es| ==> es[i] in fs;
    FlatEntries(es, prefix, JObj(fs));
    forall i | 0 <= i < |OwnKeys(fs)|
      ensures es[i] == (OwnKeys(fs)[i], Get(fs, OwnKeys(fs)[i]).value)
    {
      OwnEntriesAt(fs, i);
    }
  }

  /** A response whose keys are distinct and none an array index gives its properties in order. */
  lemma PlainResponse(fs: Dict<Json>, prefix: string)
    requires forall i :: 0 <= i < |fs| ==> !fs[i].1.JObj? && !IndexKey(fs[i].0)
    requires DistinctKeys(fs)
    ensures |Leaves(JObj(fs), prefix)| == |fs|
    ensures forall i :: 0 <= i < |fs| ==> Leaves(JObj(fs), prefix)[i] == Leaf(FullKey(prefix, fs[i].0), fs[i].1)
  {
    OwnEntriesPlain(fs);
    FlatEntries(fs, prefix, JObj(fs));
  }

  lemma {:induction false} FlatEntries(es: Dict<Json>, prefix: string, parent: Json)
    requires forall i :: 0 <= i < |es| ==> !es[i].1.JObj?
    ensures |LeavesOf(es, prefix, parent)| == |es|
    ensures forall i :: 0 <= i < |es| ==> LeavesOf(es, prefix, parent)[i] == Leaf(FullKey(prefix, es[i].0), es[i].1)
    decreases |es|
  {
    if |es| > 0 {
      FlatEntries(es[..|es| - 1], prefix, parent);
    }
  }

  /** A nested object's leaves are keyed under the outer property name. */
  lemma NestedResponse(key: string, inner: Dict<Json>)
    ensures Leaves(JObj([(key, JObj(inner))]), "") == Leaves(JObj(inner), key)
  {
    var es := [(key, JObj(inner))];
    assert Entries(JObj(es)) == es by {
      OwnEntriesSingle(key, JObj(inner));
    }
    assert LeavesOf(es, "", JObj(es)) == Leaves(JObj(inner), key) by {
      assert es[..0] == [];
      assert LeavesOf(es[..0], "", JObj(es)) == [];
    }
  }

  /** Array-index keys come first: `{"b": 1, "2": 3}` gives the leaf of `2` before the leaf of `b`. */
  lemma IndexKeyFirst()
    ensures Leaves(JObj([("b", JNum(1.0)), ("2", JNum(3.0))]), "") == [Leaf("2", JNum(3.0)), Leaf("b", JNum(1.0))]
  {
    var fs := [("b", JNum(1.0)), ("2", JNum(3.0))];
    IndexKeyFirstKeys();
    FlatResponse(fs, "");
    var ls := Leaves(JObj(fs), "");
    assert ls == [ls[0], ls[1]];
  }

  /** The own keys and values of `{"b": 1, "2": 3}`. */
  lemma IndexKeyFirstKeys()
    ensures var fs := [("b", JNum(1.0)), ("2", JNum(3.0))];
            OwnKeys(fs) == ["2", "b"] && Get(fs, "2") == Some(JNum(3.0)) && Get(fs, "b") == Some(JNum(1.0))
  {
    var fs := [("b", JNum(1.0)), ("2", JNum(3.0))];
    assert !IndexKey("b");
    assert IndexKey("2") by {
      var two := "2";
      assert two[..0] == [];
    }
    assert fs[..1] == [("b", JNum(1.0))] && fs[..1][..0] == [];
    assert IndexKeys(fs) == ["2"];
    assert NamedKeys(fs) == ["b"];
  }

  /** A repeated key is one property holding its last value: `{"a": 1, "a": 3}` gives one leaf, `a` with 3. */
  lemma RepeatedKeyOnce()
    ensures Leaves(JObj([("a", JNum(1.0)), ("a", JNum(3.0))]), "") == [Leaf("a", JNum(3.0))]
  {
    var fs := [("a", JNum(1.0)), ("a", JNum(3.0))];
    assert OwnKeys(fs) == ["a"] by {
      assert !IndexKey("a");
      assert fs[..1] == [("a", JNum(1.0))] && fs[..1][..0] == [];
      assert IndexKeys(fs) == [];
      assert NamedKeys(fs) == ["a"];
    }
    FlatResponse(fs, "");
    var ls := Leaves(JObj(fs), "");
    assert ls[0] == Leaf("a", JNum(3.0)) by {
      assert Get(fs, "a") == Some(JNum(3.0));
    }
    assert ls == [ls[0]];
  }
}
