/**
 * String helpers with the semantics of the JavaScript and Java string
 * operations the editor and the server use: prefix tests, substring search,
 * `split`/`join` on one separator character, global literal replacement,
 * ASCII lower-casing, whitespace trimming and decimal printing.
 */
module Text {
  /** `s.startsWith(p)` */
  predicate StartsWith(s: string, p: string)
  {
    |p| <= |s| && s[..|p|] == p
  }

  /** `s.includes(sub)`: `sub` occurs at some position of `s`. */
  predicate Contains(s: string, sub: string)
    decreases |s|
  {
    StartsWith(s, sub) || (|s| > 0 && Contains(s[1..], sub))
  }

  /** `s.lastIndexOf(c)`: the last position holding `c`, or -1. */
  function LastIndexOf(s: string, c: char): (r: int)
    ensures -1 <= r < |s|
    ensures r >= 0 ==> s[r] == c
    ensures forall j :: r < j < |s| ==> s[j] != c
  {
    if |s| == 0 then -1
    else if s[|s| - 1] == c then |s| - 1
    else LastIndexOf(s[..|s| - 1], c)
  }

  /** `s.split(c)` for a one-character separator: never empty, pieces free of `c`. */
  function Split(s: string, c: char): (r: seq<string>)
    ensures |r| >= 1
    ensures c in s ==> |r| >= 2
    ensures forall i :: 0 <= i < |r| ==> c !in r[i]
  {
    if |s| == 0 then [""]
    else if s[0] == c then [""] + Split(s[1..], c)
    else
      var rest := Split(s[1..], c);
      [[s[0]] + rest[0]] + rest[1..]
  }

  /** `xs.join(c)` for a one-character separator. */
  function Join(xs: seq<string>, c: char): string
  {
    if |xs| == 0 then ""
    else if |xs| == 1 then xs[0]
    else xs[0] + [c] + Join(xs[1..], c)
  }

  /** `xs.filter(Boolean)` on strings: the empty strings are dropped. */
  function NonEmpty(xs: seq<string>): (r: seq<string>)
    ensures |r| <= |xs|
    ensures forall i :: 0 <= i < |r| ==> r[i] != ""
  {
    if |xs| == 0 then []
    else if xs[0] == "" then NonEmpty(xs[1..])
    else [xs[0]] + NonEmpty(xs[1..])
  }

  /**
   * `s.replace(new RegExp(pat, 'g'), rep)` for a pattern without regular
   * expression metacharacters and a replacement without `$` patterns:
   * every occurrence of `pat`, scanned left to right without overlap, is
   * replaced by `rep`.
   */
  function ReplaceAll(s: string, pat: string, rep: string): string
    requires |pat| > 0
    decreases |s|
  {
    if |s| < |pat| then s
    else if s[..|pat|] == pat then rep + ReplaceAll(s[|pat|..], pat, rep)
    else [s[0]] + ReplaceAll(s[1..], pat, rep)
  }

  /** `toLowerCase()` on the ASCII letters; other characters are kept. */
  function Lower(s: string): (r: string)
    ensures |r| == |s|
  {
    if |s| == 0 then ""
    else
      var c := s[0];
      [if 'A' <= c <= 'Z' then (c as int + 32) as char else c] + Lower(s[1..])
  }

  /** The characters `String.prototype.trim` removes: white space and line terminators. */
  predicate IsSpace(c: char)
  {
    c == '\t' || c == '\n' || c == '\U{000B}' || c == '\U{000C}' || c == '\r' || c == ' '
    || c == '\U{00A0}' || c == '\U{1680}' || ('\U{2000}' <= c <= '\U{200A}')
    || c == '\U{2028}' || c == '\U{2029}' || c == '\U{202F}' || c == '\U{205F}'
    || c == '\U{3000}' || c == '\U{FEFF}'
  }

  function TrimStart(s: string): (r: string)
    ensures |r| <= |s| && r == s[|s| - |r|..]
    ensures r != "" ==> !IsSpace(r[0])
  {
    if |s| > 0 && IsSpace(s[0]) then TrimStart(s[1..]) else s
  }

  function TrimEnd(s: string): (r: string)
    ensures |r| <= |s| && r == s[..|r|]
    ensures r != "" ==> !IsSpace(r[|r| - 1])
  {
    if |s| > 0 && IsSpace(s[|s| - 1]) then TrimEnd(s[..|s| - 1]) else s
  }

  /** `s.trim()` */
  function Trim(s: string): (r: string)
    ensures r != "" ==> !IsSpace(r[0]) && !IsSpace(r[|r| - 1])
  {
    TrimEnd(TrimStart(s))
  }

  function DigitChar(d: nat): char
    requires d < 10
  {
    ("0123456789")[d]
  }

  /** The character of a digit has that digit's value. */
  lemma DigitCharValue(d: nat)
    requires d < 10
    ensures DigitChar(d) as int - '0' as int == d
  {
    var ds := "0123456789";
    assert ds[0] == '0' && ds[1] == '1' && ds[2] == '2' && ds[3] == '3' && ds[4] == '4';
    assert ds[5] == '5' && ds[6] == '6' && ds[7] == '7' && ds[8] == '8' && ds[9] == '9';
  }

  predicate IsDigit(c: char)
  {
    '0' <= c <= '9'
  }

  /** The value of a string of decimal digits. */
  function DigitsValue(s: string): nat
    requires forall i :: 0 <= i < |s| ==> IsDigit(s[i])
  {
    if |s| == 0 then 0
    else
      assert IsDigit(s[|s| - 1]);
      10 * DigitsValue(s[..|s| - 1]) + (s[|s| - 1] as int - '0' as int)
  }

  /** Decimal notation of a natural number, as `String(n)` prints it. */
  function NatToString(n: nat): (r: string)
    ensures |r| >= 1
    ensures forall i :: 0 <= i < |r| ==> '0' <= r[i] <= '9'
  {
    if n < 10 then [DigitChar(n)] else NatToString(n / 10) + [DigitChar(n % 10)]
  }

  /** Decimal notation of an integer, with a leading `-` when negative. */
  function IntToString(n: int): (r: string)
    ensures |r| >= 1
  {
    if n < 0 then "-" + NatToString(-n) else NatToString(n)
  }

  // ---------------------------------------------------------------------
  // Properties of the helpers used by the modules that build on them
  // ---------------------------------------------------------------------

  /** Splitting a string without the separator gives that string alone. */
  lemma {:induction false} SplitNoSeparator(s: string, c: char)
    requires forall i :: 0 <= i < |s| ==> s[i] != c
    ensures Split(s, c) == [s]
  {
    if |s| > 0 {
      SplitNoSeparator(s[1..], c);
      assert [s[0]] + s[1..] == s;
    }
  }

  /** A separator after a separator-free prefix ends the first piece. */
  lemma {:induction false} SplitAfterPiece(x: string, c: char, rest: string)
    requires forall i :: 0 <= i < |x| ==> x[i] != c
    ensures Split(x + [c] + rest, c) == [x] + Split(rest, c)
  {
    if |x| == 0 {
      assert x + [c] + rest == [c] + rest;
      assert ([c] + rest)[1..] == rest;
    } else {
      var s := x + [c] + rest;
      assert s[0] == x[0];
      assert s[1..] == x[1..] + [c] + rest;
      SplitAfterPiece(x[1..], c, rest);
      assert [x[0]] + x[1..] == x;
    }
  }

  /** `split` undoes `join` when no piece holds the separator. */
  lemma {:induction false} SplitJoin(xs: seq<string>, c: char)
    requires |xs| >= 1
    requires forall k, i :: 0 <= k < |xs| && 0 <= i < |xs[k]| ==> xs[k][i] != c
    ensures Split(Join(xs, c), c) == xs
  {
    if |xs| == 1 {
      SplitNoSeparator(xs[0], c);
    } else {
      SplitJoin(xs[1..], c);
      SplitAfterPiece(xs[0], c, Join(xs[1..], c));
      assert [xs[0]] + xs[1..] == xs;
    }
  }

  /** A join of non-empty pieces is empty only when there are no pieces. */
  lemma {:induction false} JoinNonEmpty(xs: seq<string>, c: char)
    requires |xs| >= 1 && xs[0] != ""
    ensures Join(xs, c) != ""
  {
    if |xs| > 1 {
      assert |Join(xs, c)| >= |xs[0]|;
    }
  }

  /** Dropping empty strings from a list that has none changes nothing. */
  lemma {:induction false} NonEmptyKeeps(xs: seq<string>)
    requires forall i :: 0 <= i < |xs| ==> xs[i] != ""
    ensures NonEmpty(xs) == xs
  {
    if |xs| > 0 {
      NonEmptyKeeps(xs[1..]);
      assert [xs[0]] + xs[1..] == xs;
    }
  }

  /** A text in which the pattern does not occur is left alone. */
  lemma {:induction false} ReplaceAllAbsent(s: string, pat: string, rep: string)
    requires |pat| > 0
    requires !Contains(s, pat)
    ensures ReplaceAll(s, pat, rep) == s
    decreases |s|
  {
    if |s| >= |pat| {
      ReplaceAllAbsent(s[1..], pat, rep);
      assert [s[0]] + s[1..] == s;
    }
  }

  /** A first character that cannot start the pattern is copied and scanning moves on by one. */
  lemma ReplaceAllNoMatchHere(c: char, y: string, pat: string, rep: string)
    requires |pat| > 0 && c != pat[0]
    ensures ReplaceAll([c] + y, pat, rep) == [c] + ReplaceAll(y, pat, rep)
  {
    var s := [c] + y;
    assert s[1..] == y;
    if |s| >= |pat| {
      assert s[..|pat|][0] == c;
    } else {
      assert |y| < |pat|;
    }
  }

  /** A prefix free of the pattern's first character is copied unchanged. */
  lemma {:induction false} ReplaceAllSkip(x: string, y: string, pat: string, rep: string)
    requires |pat| > 0
    requires forall i :: 0 <= i < |x| ==> x[i] != pat[0]
    ensures ReplaceAll(x + y, pat, rep) == x + ReplaceAll(y, pat, rep)
    decreases |x|
  {
    if |x| > 0 {
      var c, rest := x[0], x[1..];
      calc {
        ReplaceAll(x + y, pat, rep);
        { assert x + y == [c] + (rest + y); }
        ReplaceAll([c] + (rest + y), pat, rep);
        { ReplaceAllNoMatchHere(c, rest + y, pat, rep); }
        [c] + ReplaceAll(rest + y, pat, rep);
        { ReplaceAllSkip(rest, y, pat, rep); }
        [c] + (rest + ReplaceAll(y, pat, rep));
        { assert [c] + rest == x; }
        x + ReplaceAll(y, pat, rep);
      }
    } else {
      assert x + y == y;
    }
  }

  /** A match at the front is replaced and scanning resumes after it. */
  lemma ReplaceAllFront(y: string, pat: string, rep: string)
    requires |pat| > 0
    ensures ReplaceAll(pat + y, pat, rep) == rep + ReplaceAll(y, pat, rep)
  {
    assert (pat + y)[..|pat|] == pat;
    assert (pat + y)[|pat|..] == y;
  }

  /** Lower-casing is a character-wise map, so it distributes over concatenation. */
  lemma {:induction false} LowerAppend(a: string, b: string)
    ensures Lower(a + b) == Lower(a) + Lower(b)
  {
    if |a| > 0 {
      assert (a + b)[0] == a[0];
      assert (a + b)[1..] == a[1..] + b;
      LowerAppend(a[1..], b);
    } else {
      assert a + b == b;
    }
  }

  /**
   * SQL `s LIKE pat`: `%` matches any run of characters, `_` any one
   * character, and every other character itself.
   */
  predicate Like(s: string, pat: string)
    decreases |pat|, |s|
  {
    if |pat| == 0 then |s| == 0
    else if pat[0] == '%' then Like(s, pat[1..]) || (|s| > 0 && Like(s[1..], pat))
    else |s| > 0 && (pat[0] == '_' || pat[0] == s[0]) && Like(s[1..], pat[1..])
  }

  /** Text that holds neither `LIKE` wildcard. */
  predicate Literal(t: string)
  {
    '%' !in t && '_' !in t
  }

  /** `%` alone matches every string. */
  lemma {:induction false} LikeAny(s: string)
    ensures Like(s, "%")
    decreases |s|
  {
    if |s| > 0 {
      LikeAny(s[1..]);
    }
  }

  /** A literal head of a pattern matches exactly the strings that start with it. */
  lemma {:induction false} LikeLiteralHead(s: string, t: string, p: string)
    requires Literal(t)
    ensures Like(s, t + p) <==> StartsWith(s, t) && Like(s[|t|..], p)
    decreases |t|
  {
    if |t| == 0 {
      assert t + p == p && s[0..] == s;
    } else {
      assert (t + p)[0] == t[0] && (t + p)[1..] == t[1..] + p;
      if |s| > 0 {
        LikeLiteralHead(s[1..], t[1..], p);
        if |t| <= |s| {
          assert s[1..][|t| - 1..] == s[|t|..];
          assert s[..|t|] == [s[0]] + s[1..][..|t| - 1];
          assert t == [t[0]] + t[1..];
        }
      }
    }
  }

  /**
   * `name LIKE '%t%'` for a literal `t` is `name.contains(t)`: the wildcards
   * only do what a substring search does.
   */
  lemma {:induction false} LikeContains(s: string, t: string)
    requires Literal(t)
    ensures Like(s, "%" + t + "%") <==> Contains(s, t)
    decreases |s|
  {
    var q := t + "%";
    assert "%" + t + "%" == "%" + q;
    assert ("%" + q)[0] == '%' && ("%" + q)[1..] == q;
    LikeLiteralHead(s, t, "%");
    if |t| <= |s| {
      LikeAny(s[|t|..]);
    }
    if |s| > 0 {
      LikeContains(s[1..], t);
    }
  }

  /** `"" .includes` holds everywhere: the empty search matches every title. */
  lemma ContainsEmpty(s: string)
    ensures Contains(s, "")
  {
    assert s[..0] == "";
  }

  /** `xs.filter(x => x !== name)` */
  function FilterOut(xs: seq<string>, name: string): (r: seq<string>)
    ensures |r| <= |xs|
    ensures forall a :: a in r <==> a in xs && a != name
  {
    if |xs| == 0 then []
    else (if xs[0] != name then [xs[0]] else []) + FilterOut(xs[1..], name)
  }

  /** One name is kept exactly when it is not the filtered one. */
  lemma FilterOutOne(x: string, name: string)
    ensures FilterOut([x], name) == if x == name then [] else [x]
  {
    assert [x][1..] == [];
  }

  /** Filtering keeps the order: the names kept from two lists are those kept from each, one after the other. */
  lemma {:induction false} FilterOutConcat(a: seq<string>, b: seq<string>, name: string)
    ensures FilterOut(a + b, name) == FilterOut(a, name) + FilterOut(b, name)
  {
    if |a| == 0 {
      assert a + b == b;
    } else {
      assert (a + b)[0] == a[0] && (a + b)[1..] == a[1..] + b;
      FilterOutConcat(a[1..], b, name);
    }
  }

  /** Filtering out a name that is not there keeps the list. */
  lemma {:induction false} FilterOutAbsent(xs: seq<string>, name: string)
    requires name !in xs
    ensures FilterOut(xs, name) == xs
    decreases |xs|
  {
    if |xs| > 0 {
      FilterOutAbsent(xs[1..], name);
    }
  }

  /** Filtering out the name that was just appended. */
  lemma {:induction false} FilterOutAppend(xs: seq<string>, name: string)
    ensures FilterOut(xs + [name], name) == FilterOut(xs, name)
    decreases |xs|
  {
    if |xs| == 0 {
      assert xs + [name] == [name];
      assert [name][1..] == [];
    } else {
      assert (xs + [name])[0] == xs[0];
      assert (xs + [name])[1..] == xs[1..] + [name];
      FilterOutAppend(xs[1..], name);
    }
  }
}
