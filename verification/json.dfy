/**
 * JavaScript values as the editor stores them, JavaScript truthiness, and
 * plain objects with dynamic keys as dictionaries.
 *
 * A dictionary is a sequence of key/value entries in the order they were
 * written, repeated keys included. Reading a key returns its last entry, as
 * `JSON.parse` does for repeated keys; writing a key rewrites every entry of
 * that key in place, or appends one. The order in which `Object.keys`,
 * `Object.entries` and `for ... in` visit an object is `OwnKeys`: the keys
 * that are array indices first, in ascending numeric order, then the other
 * keys in the order of their first entry, each key once.
 */
module Json {
  import opened Wrappers
  import Text

  datatype Json =
    | JUndef
    | JNull
    | JBool(b: bool)
    | JNum(n: real)
    | JStr(s: string)
    | JArr(items: seq<Json>)
    | JObj(fields: seq<(string, Json)>)

  type Dict<V> = seq<(string, V)>

  /** JavaScript truthiness: `undefined`, `null`, `false`, `0` and `""` are falsy. */
  predicate Truthy(j: Json)
  {
    match j
    case JUndef => false
    case JNull => false
    case JBool(b) => b
    case JNum(n) => n != 0.0
    case JStr(s) => s != ""
    case JArr(_) => true
    case JObj(_) => true
  }

  /** `x ?? d`: the default replaces `null` and `undefined` only. */
  function Coalesce(j: Json, d: Json): Json
  {
    if j.JUndef? || j.JNull? then d else j
  }

  /** A missing key reads as `undefined`. */
  function OrUndef(o: Option<Json>): Json
  {
    if o.Some? then o.value else JUndef
  }

  predicate HasKey<V>(d: Dict<V>, k: string)
  {
    exists i :: 0 <= i < |d| && d[i].0 == k
  }

  function Keys<V>(d: Dict<V>): (r: seq<string>)
    ensures |r| == |d|
    ensures forall i :: 0 <= i < |d| ==> r[i] == d[i].0
  {
    if |d| == 0 then [] else Keys(d[..|d| - 1]) + [d[|d| - 1].0]
  }

  /** `d[k]`: the value of the last entry with key `k`. */
  function Get<V>(d: Dict<V>, k: string): (r: Option<V>)
    ensures r.Some? <==> HasKey(d, k)
  {
    if |d| == 0 then None
    else if d[|d| - 1].0 == k then Some(d[|d| - 1].1)
    else
      var r := Get(d[..|d| - 1], k);
      assert HasKey(d[..|d| - 1], k) ==> HasKey(d, k);
      assert HasKey(d, k) && d[|d| - 1].0 != k ==> HasKey(d[..|d| - 1], k);
      r
  }

  /** `d[k] = v` */
  function Set<V>(d: Dict<V>, k: string, v: V): (r: Dict<V>)
  {
    if HasKey(d, k) then Rewrite(d, k, v) else d + [(k, v)]
  }

  /** Every entry with key `k` gets value `v`; the keys and their order stay. */
  function Rewrite<V>(d: Dict<V>, k: string, v: V): (r: Dict<V>)
    ensures |r| == |d|
    ensures forall i :: 0 <= i < |d| ==> r[i] == (if d[i].0 == k then (k, v) else d[i])
  {
    if |d| == 0 then [] else Rewrite(d[..|d| - 1], k, v) + [if d[|d| - 1].0 == k then (k, v) else d[|d| - 1]]
  }

  /** `delete d[k]` */
  function Delete<V>(d: Dict<V>, k: string): (r: Dict<V>)
    ensures !HasKey(r, k)
  {
    if |d| == 0 then []
    else if d[|d| - 1].0 == k then Delete(d[..|d| - 1], k)
    else Delete(d[..|d| - 1], k) + [d[|d| - 1]]
  }

  /** `{...d, ...u}`: every entry of `u`, in order, written over `d`. */
  function Merge<V>(d: Dict<V>, u: Dict<V>): Dict<V>
  {
    if |u| == 0 then d else Set(Merge(d, u[..|u| - 1]), u[|u| - 1].0, u[|u| - 1].1)
  }

  /** The fields of an object, and no fields for any other value (`{...x}` of a primitive). */
  function FieldsOf(j: Json): Dict<Json>
  {
    if j.JObj? then j.fields else []
  }

  // ---------------------------------------------------------------------
  // Dictionary laws
  // ---------------------------------------------------------------------

  lemma {:induction false} GetRewrite<V>(d: Dict<V>, k: string, v: V, k2: string)
    ensures Get(Rewrite(d, k, v), k2) == (if k2 == k && HasKey(d, k) then Some(v) else Get(d, k2))
  {
    if |d| > 0 {
      var r := Rewrite(d, k, v);
      assert r[..|r| - 1] == Rewrite(d[..|d| - 1], k, v);
      GetRewrite(d[..|d| - 1], k, v, k2);
      assert HasKey(d[..|d| - 1], k) ==> HasKey(d, k);
      assert HasKey(d, k) && d[|d| - 1].0 != k ==> HasKey(d[..|d| - 1], k);
    }
  }

  /** Reading a key just written gives the written value; other keys are untouched. */
  lemma GetSet<V>(d: Dict<V>, k: string, v: V, k2: string)
    ensures Get(Set(d, k, v), k2) == (if k2 == k then Some(v) else Get(d, k2))
  {
    if HasKey(d, k) {
      GetRewrite(d, k, v, k2);
    } else {
      var r := d + [(k, v)];
      assert r[..|r| - 1] == d;
    }
  }

  lemma {:induction false} KeysRewrite<V>(d: Dict<V>, k: string, v: V)
    ensures Keys(Rewrite(d, k, v)) == Keys(d)
  {
  }

  /** A write to an existing key keeps the key order; a new key goes last. */
  lemma KeysSet<V>(d: Dict<V>, k: string, v: V)
    ensures Keys(Set(d, k, v)) == if HasKey(d, k) then Keys(d) else Keys(d) + [k]
  {
    if !HasKey(d, k) {
      var r := d + [(k, v)];
      assert r[..|r| - 1] == d;
    }
  }

  /** Reading a deleted key gives nothing; the other keys are untouched. */
  lemma {:induction false} GetDelete<V>(d: Dict<V>, k: string, k2: string)
    ensures Get(Delete(d, k), k2) == (if k2 == k then None else Get(d, k2))
  {
    if |d| > 0 {
      GetDelete(d[..|d| - 1], k, k2);
      var r := Delete(d[..|d| - 1], k) + [d[|d| - 1]];
      assert r[..|r| - 1] == Delete(d[..|d| - 1], k);
    }
  }

  /** In `{...d, ...u}` the keys of `u` win and the other keys read as in `d`. */
  lemma {:induction false} GetMerge<V>(d: Dict<V>, u: Dict<V>, k: string)
    ensures Get(Merge(d, u), k) == (if HasKey(u, k) then Get(u, k) else Get(d, k))
  {
    if |u| > 0 {
      var last := u[|u| - 1];
      GetMerge(d, u[..|u| - 1], k);
      GetSet(Merge(d, u[..|u| - 1]), last.0, last.1, k);
      HasKeyLast(u, k);
    }
  }

  /** A key is in a non-empty dictionary iff it is in all but the last entry, or is the last entry's. */
  lemma HasKeyLast<V>(d: Dict<V>, k: string)
    requires |d| > 0
    ensures HasKey(d, k) <==> HasKey(d[..|d| - 1], k) || d[|d| - 1].0 == k
  {
    assert HasKey(d[..|d| - 1], k) ==> HasKey(d, k);
    assert HasKey(d, k) && d[|d| - 1].0 != k ==> HasKey(d[..|d| - 1], k);
  }

  /** An empty dictionary has no key, and a write to it gives the one entry. */
  lemma EmptyDict<V>(k: string, v: V)
    ensures Get<V>([], k) == None && Set([], k, v) == [(k, v)]
  {
    var e: Dict<V> := [];
    assert !HasKey(e, k);
  }

  /** Merging nothing changes nothing. */
  lemma MergeEmpty<V>(d: Dict<V>)
    ensures Merge(d, []) == d
  {
  }

  /** A key's value is the one of its last entry. */
  lemma {:induction false} GetLast<V>(d: Dict<V>, k: string, i: nat)
    requires i < |d| && d[i].0 == k
    requires forall j :: i < j < |d| ==> d[j].0 != k
    ensures Get(d, k) == Some(d[i].1)
  {
    if i < |d| - 1 {
      GetLast(d[..|d| - 1], k, i);
    }
  }

  /** A key is in a dictionary iff it is in all but the last entry, or is the last entry's. */
  lemma HasKeyLastAll<V>(d: Dict<V>)
    requires |d| > 0
    ensures forall k :: HasKey(d, k) <==> HasKey(d[..|d| - 1], k) || d[|d| - 1].0 == k
  {
    forall k
      ensures HasKey(d, k) <==> HasKey(d[..|d| - 1], k) || d[|d| - 1].0 == k
    {
      HasKeyLast(d, k);
    }
  }

  /** A key's value is the value of one of its entries. */
  lemma {:induction false} GetIn<V>(d: Dict<V>, k: string)
    requires HasKey(d, k)
    ensures (k, Get(d, k).value) in d
  {
    if d[|d| - 1].0 != k {
      HasKeyLast(d, k);
      GetIn(d[..|d| - 1], k);
    }
  }

  // ---------------------------------------------------------------------
  // Own-property order
  // ---------------------------------------------------------------------

  /**
   * An array index used as a property key: the canonical decimal form of a
   * number below 2^32 - 1 ("0", or digits without a leading zero). The
   * OrdinaryOwnPropertyKeys operation of ECMA-262 lists these keys before
   * all others.
   */
  predicate IndexKey(k: string)
  {
    && |k| >= 1
    && (forall i :: 0 <= i < |k| ==> Text.IsDigit(k[i]))
    && (k[0] == '0' ==> |k| == 1)
    && Text.DigitsValue(k) < 0xFFFF_FFFF
  }

  /** The number an index key names. */
  function KeyValue(k: string): nat
    requires IndexKey(k)
  {
    Text.DigitsValue(k)
  }

  /** No key has two entries. */
  predicate DistinctKeys<V>(d: Dict<V>)
  {
    forall i, j :: 0 <= i < j < |d| ==> d[i].0 != d[j].0
  }

  predicate Distinct<T(==)>(s: seq<T>)
  {
    forall i, j :: 0 <= i < j < |s| ==> s[i] != s[j]
  }

  /** Index keys in ascending numeric order. */
  predicate IndexSorted(ks: seq<string>)
  {
    && (forall i :: 0 <= i < |ks| ==> IndexKey(ks[i]))
    && (forall i, j :: 0 <= i < j < |ks| ==> KeyValue(ks[i]) <= KeyValue(ks[j]))
  }

  /** `k` placed into ascending index keys before the first one with a larger number. */
  function InsertByValue(ks: seq<string>, k: string): (r: seq<string>)
    requires IndexSorted(ks) && IndexKey(k)
    ensures |r| == |ks| + 1 && IndexSorted(r)
    ensures forall x :: x in r <==> x in ks || x == k
    ensures Distinct(ks) && k !in ks ==> Distinct(r)
  {
    if |ks| == 0 then [k]
    else if KeyValue(k) < KeyValue(ks[0]) then
      InsertFirst(ks, k);
      [k] + ks
    else
      var rest := InsertByValue(ks[1..], k);
      InsertLater(ks, k, rest);
      [ks[0]] + rest
  }

  lemma InsertFirst(ks: seq<string>, k: string)
    requires IndexSorted(ks) && IndexKey(k) && |ks| > 0 && KeyValue(k) < KeyValue(ks[0])
    ensures IndexSorted([k] + ks)
  {
    var r := [k] + ks;
    forall i, j | 0 <= i < j < |r|
      ensures KeyValue(r[i]) <= KeyValue(r[j])
    {
      assert r[j] == ks[j - 1];
      if i > 0 {
        assert r[i] == ks[i - 1];
      }
    }
  }

  lemma InsertLater(ks: seq<string>, k: string, rest: seq<string>)
    requires IndexSorted(ks) && IndexKey(k) && |ks| > 0 && KeyValue(ks[0]) <= KeyValue(k)
    requires IndexSorted(rest)
    requires forall x :: x in rest <==> x in ks[1..] || x == k
    requires Distinct(ks[1..]) && k !in ks[1..] ==> Distinct(rest)
    ensures IndexSorted([ks[0]] + rest)
    ensures forall x :: x in [ks[0]] + rest <==> x in ks || x == k
    ensures Distinct(ks) && k !in ks ==> Distinct([ks[0]] + rest)
  {
    assert ks == [ks[0]] + ks[1..];
    InsertLaterSorted(ks, k, rest);
    if Distinct(ks) && k !in ks {
      assert Distinct(ks[1..]);
      InsertLaterDistinct(ks[0], rest);
    }
  }

  lemma InsertLaterSorted(ks: seq<string>, k: string, rest: seq<string>)
    requires IndexSorted(ks) && IndexKey(k) && |ks| > 0 && KeyValue(ks[0]) <= KeyValue(k)
    requires IndexSorted(rest)
    requires forall x :: x in rest ==> x in ks[1..] || x == k
    ensures IndexSorted([ks[0]] + rest)
  {
    var r := [ks[0]] + rest;
    forall j | 0 <= j < |rest|
      ensures KeyValue(ks[0]) <= KeyValue(rest[j])
    {
      assert rest[j] in rest;
      if rest[j] != k {
        var m :| 0 <= m < |ks[1..]| && ks[1..][m] == rest[j];
        assert ks[m + 1] == rest[j];
      }
    }
    forall i, j | 0 <= i < j < |r|
      ensures KeyValue(r[i]) <= KeyValue(r[j])
    {
      assert r[j] == rest[j - 1];
      if i > 0 {
        assert r[i] == rest[i - 1];
      }
    }
  }

  lemma InsertLaterDistinct(x: string, rest: seq<string>)
    requires Distinct(rest) && x !in rest
    ensures Distinct([x] + rest)
  {
    var r := [x] + rest;
    forall i, j | 0 <= i < j < |r|
      ensures r[i] != r[j]
    {
      assert r[j] == rest[j - 1] && rest[j - 1] in rest;
      if i > 0 {
        assert r[i] == rest[i - 1];
      }
    }
  }

  /** The position of a key's first entry. */
  function FirstPos<V>(d: Dict<V>, k: string): (r: nat)
    requires HasKey(d, k)
    ensures r < |d| && d[r].0 == k
    ensures forall j :: 0 <= j < r ==> d[j].0 != k
  {
    HasKeyLast(d, k);
    if HasKey(d[..|d| - 1], k) then FirstPos(d[..|d| - 1], k)
    else
      assert forall j :: 0 <= j < |d| - 1 ==> d[..|d| - 1][j] == d[j];
      |d| - 1
  }

  /** The keys of a dictionary that are index keys, each once, in ascending numeric order. */
  function IndexKeys<V>(d: Dict<V>): (r: seq<string>)
    ensures forall k :: k in r <==> HasKey(d, k) && IndexKey(k)
    ensures Distinct(r) && IndexSorted(r)
  {
    if |d| == 0 then []
    else
      var prev := IndexKeys(d[..|d| - 1]);
      var k := d[|d| - 1].0;
      HasKeyLastAll(d);
      if !IndexKey(k) || k in prev then prev else InsertByValue(prev, k)
  }

  /** The keys of a dictionary that are not index keys, each once, in the order of their first entry. */
  function NamedKeys<V>(d: Dict<V>): (r: seq<string>)
    ensures forall k :: k in r <==> HasKey(d, k) && !IndexKey(k)
    ensures Distinct(r)
  {
    if |d| == 0 then []
    else
      var prev := NamedKeys(d[..|d| - 1]);
      var k := d[|d| - 1].0;
      HasKeyLastAll(d);
      if IndexKey(k) || k in prev then prev else prev + [k]
  }

  /**
   * The own keys of an object in the order `Object.keys`, `Object.entries`
   * and `for ... in` visit them: every key of the dictionary exactly once.
   */
  function OwnKeys<V>(d: Dict<V>): (r: seq<string>)
    ensures forall k :: k in r <==> HasKey(d, k)
    ensures Distinct(r)
  {
    var ix, named := IndexKeys(d), NamedKeys(d);
    assert forall i, j :: 0 <= i < |ix| && 0 <= j < |named| ==> ix[i] != named[j] by {
      forall i, j | 0 <= i < |ix| && 0 <= j < |named|
        ensures ix[i] != named[j]
      {
        assert ix[i] in ix && named[j] in named;
      }
    }
    ix + named
  }

  /** `Object.entries(obj)`: each own key, in order, with the value it reads as. */
  function OwnEntries<V>(d: Dict<V>): (r: Dict<V>)
    ensures Keys(r) == OwnKeys(d)
    ensures forall e :: e in r ==> e in d
  {
    var ks := OwnKeys(d);
    var r := seq(|ks|, i requires 0 <= i < |ks| => (ks[i], Get(d, ks[i]).value));
    assert forall e :: e in r ==> e in d by {
      forall e | e in r
        ensures e in d
      {
        var i :| 0 <= i < |r| && r[i] == e;
        assert ks[i] in ks;
        GetIn(d, ks[i]);
      }
    }
    r
  }

  /** A canonical decimal index key is the decimal notation of its number. */
  lemma {:induction false} IndexKeyCanonical(k: string)
    requires IndexKey(k)
    ensures Text.NatToString(KeyValue(k)) == k
  {
    if |k| > 1 {
      var init := k[..|k| - 1];
      assert IndexKey(init) by {
        DigitsValuePrefix(k);
      }
      IndexKeyCanonical(init);
      DigitsValuePositive(init);
      var d := k[|k| - 1] as int - '0' as int;
      assert KeyValue(k) == 10 * KeyValue(init) + d;
      assert KeyValue(k) / 10 == KeyValue(init) && KeyValue(k) % 10 == d;
      Text.DigitCharValue(d);
      assert k == init + [k[|k| - 1]];
    } else {
      assert k[..0] == [] && k[|k| - 1] == k[0];
      assert Text.DigitsValue(k) == 10 * Text.DigitsValue(k[..0]) + (k[0] as int - '0' as int);
      Text.DigitCharValue(KeyValue(k));
    }
  }

  /** Dropping the last digit does not increase the value. */
  lemma DigitsValuePrefix(k: string)
    requires |k| >= 1 && forall i :: 0 <= i < |k| ==> Text.IsDigit(k[i])
    ensures Text.DigitsValue(k[..|k| - 1]) <= Text.DigitsValue(k)
  {
  }

  /** Digits without a leading zero have a positive value. */
  lemma {:induction false} DigitsValuePositive(k: string)
    requires |k| >= 1 && k[0] != '0' && forall i :: 0 <= i < |k| ==> Text.IsDigit(k[i])
    ensures Text.DigitsValue(k) >= 1
  {
    if |k| > 1 {
      DigitsValuePositive(k[..|k| - 1]);
    }
  }

  /** Two index keys with the same number are the same key. */
  lemma IndexKeyInjective(a: string, b: string)
    requires IndexKey(a) && IndexKey(b) && KeyValue(a) == KeyValue(b)
    ensures a == b
  {
    IndexKeyCanonical(a);
    IndexKeyCanonical(b);
  }

  /** A first entry found in all but the last entry is the first entry of the whole. */
  lemma FirstPosPrefix<V>(d: Dict<V>, k: string)
    requires |d| > 0 && HasKey(d[..|d| - 1], k)
    ensures HasKey(d, k) && FirstPos(d, k) == FirstPos(d[..|d| - 1], k)
  {
    HasKeyLast(d, k);
  }

  /** The named keys come in the order of their first entries. */
  lemma {:induction false} NamedKeysOrder<V>(d: Dict<V>)
    ensures forall i, j :: 0 <= i < j < |NamedKeys(d)| ==> FirstPos(d, NamedKeys(d)[i]) < FirstPos(d, NamedKeys(d)[j])
  {
    if |d| > 0 {
      var init := d[..|d| - 1];
      var prev := NamedKeys(init);
      var k := d[|d| - 1].0;
      NamedKeysOrder(init);
      var r := NamedKeys(d);
      assert r == if IndexKey(k) || k in prev then prev else prev + [k];
      forall i, j | 0 <= i < j < |r|
        ensures FirstPos(d, r[i]) < FirstPos(d, r[j])
      {
        assert r[i] == prev[i] && prev[i] in prev;
        FirstPosPrefix(d, prev[i]);
        if j < |prev| {
          assert r[j] == prev[j] && prev[j] in prev;
          FirstPosPrefix(d, prev[j]);
        } else {
          assert r[j] == k;
          HasKeyLast(d, k);
        }
      }
    }
  }

  /**
   * The own-key order: the index keys come before every other key, in
   * strictly ascending numeric order, and the other keys come in the order
   * of their first entries.
   */
  lemma OwnKeysOrder<V>(d: Dict<V>)
    ensures var r := OwnKeys(d);
            forall i, j :: 0 <= i < j < |r| ==>
              && (IndexKey(r[j]) ==> IndexKey(r[i]))
              && (IndexKey(r[i]) && IndexKey(r[j]) ==> KeyValue(r[i]) < KeyValue(r[j]))
              && (!IndexKey(r[i]) && !IndexKey(r[j]) ==> FirstPos(d, r[i]) < FirstPos(d, r[j]))
  {
    var ix, named := IndexKeys(d), NamedKeys(d);
    var r := OwnKeys(d);
    NamedKeysOrder(d);
    forall i, j | 0 <= i < j < |r|
      ensures IndexKey(r[j]) ==> IndexKey(r[i])
      ensures IndexKey(r[i]) && IndexKey(r[j]) ==> KeyValue(r[i]) < KeyValue(r[j])
      ensures !IndexKey(r[i]) && !IndexKey(r[j]) ==> FirstPos(d, r[i]) < FirstPos(d, r[j])
    {
      if j < |ix| {
        assert r[i] == ix[i] && r[j] == ix[j];
        if KeyValue(r[i]) == KeyValue(r[j]) {
          IndexKeyInjective(r[i], r[j]);
        }
      } else if i < |ix| {
        assert r[i] == ix[i] && r[i] in ix;
        assert r[j] == named[j - |ix|] && r[j] in named;
      } else {
        assert r[i] == named[i - |ix|] && r[j] == named[j - |ix|];
        assert r[i] in named && r[j] in named;
      }
    }
  }

  /** Reading any key of the reordered entries gives what it reads as in the dictionary. */
  lemma OwnEntriesGet<V>(d: Dict<V>, k: string)
    ensures Get(OwnEntries(d), k) == Get(d, k)
  {
    var r := OwnEntries(d);
    var ks := OwnKeys(d);
    if HasKey(d, k) {
      var i :| 0 <= i < |ks| && ks[i] == k;
      assert r[i].0 == k;
      GetLast(r, k, i);
    }
  }

  /**
   * A dictionary whose keys are distinct and none of them an index key
   * keeps its order: `Object.entries` gives back its entries as they are.
   */
  lemma OwnEntriesPlain<V>(d: Dict<V>)
    requires DistinctKeys(d)
    requires forall i :: 0 <= i < |d| ==> !IndexKey(d[i].0)
    ensures OwnEntries(d) == d
  {
    PlainKeys(d);
    var ks := OwnKeys(d);
    assert ks == Keys(d) by {
      assert IndexKeys(d) + NamedKeys(d) == [] + Keys(d);
    }
    var r := OwnEntries(d);
    forall i | 0 <= i < |d|
      ensures r[i] == d[i]
    {
      OwnEntriesAt(d, i);
      DistinctLast(d, i);
    }
  }

  /** An object with one entry reads back as that entry, whatever its key. */
  lemma OwnEntriesSingle<V>(k: string, v: V)
    ensures OwnEntries([(k, v)]) == [(k, v)]
  {
    var d := [(k, v)];
    var r := OwnEntries(d);
    OwnKeysSingle(k, v);
    assert |r| == 1 by {
      assert |Keys(r)| == |r|;
    }
    assert r[0] == (k, v) by {
      OwnEntriesAt(d, 0);
      assert Get(d, k) == Some(v);
    }
    assert r == [r[0]];
  }

  lemma OwnKeysSingle<V>(k: string, v: V)
    ensures OwnKeys([(k, v)]) == [k]
  {
    var d := [(k, v)];
    var ks := OwnKeys(d);
    assert d[0].0 == k;
    assert k in ks;
    assert ks[0] in ks && ks[|ks| - 1] in ks;
  }

  lemma OwnEntriesAt<V>(d: Dict<V>, i: nat)
    requires i < |OwnKeys(d)|
    ensures i < |OwnEntries(d)| && OwnEntries(d)[i] == (OwnKeys(d)[i], Get(d, OwnKeys(d)[i]).value)
  {
  }

  /** With distinct keys, every entry is the one its key reads. */
  lemma DistinctLast<V>(d: Dict<V>, i: nat)
    requires DistinctKeys(d) && i < |d|
    ensures Get(d, d[i].0) == Some(d[i].1)
  {
    GetLast(d, d[i].0, i);
  }

  lemma {:induction false} PlainKeys<V>(d: Dict<V>)
    requires DistinctKeys(d)
    requires forall i :: 0 <= i < |d| ==> !IndexKey(d[i].0)
    ensures IndexKeys(d) == [] && NamedKeys(d) == Keys(d)
  {
    if |d| > 0 {
      var init := d[..|d| - 1];
      PlainKeys(init);
      HasKeyLastAll(d);
    }
  }
}
