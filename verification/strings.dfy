/**
 * The string primitives of JavaScript and Python that the model relies on:
 * `indexOf`/`find`, `replace` (first occurrence, and every occurrence),
 * `trim`, Python's negative slice `s[:-n]`, number-to-text conversion and
 * `Array.prototype.join`. Strings are sequences of characters; lengths are
 * counted in characters.
 */
module Strings {

  /** `p` occurs in `s` starting at position `i`. */
  predicate OccursAt(s: string, p: string, i: int)
  {
    0 <= i && i + |p| <= |s| && s[i..i + |p|] == p
  }

  /** First position at or after `i` where `p` occurs in `s`, or -1. */
  function IndexFrom(s: string, p: string, i: nat): (r: int)
    requires i <= |s|
    ensures r == -1 || (i <= r <= |s| && OccursAt(s, p, r))
    ensures r == -1 ==> forall j :: i <= j ==> !OccursAt(s, p, j)
    ensures r >= 0 ==> forall j :: i <= j < r ==> !OccursAt(s, p, j)
    decreases |s| - i
  {
    if OccursAt(s, p, i) then i
    else if i == |s| then -1
    else IndexFrom(s, p, i + 1)
  }

  /** `s.indexOf(p)` (JavaScript) and `s.find(p)` (Python): the first
      position of `p` in `s`, or -1 when `p` does not occur. */
  function IndexOf(s: string, p: string): (r: int)
    ensures -1 <= r <= |s|
    ensures r >= 0 ==> OccursAt(s, p, r)
    ensures r >= 0 ==> forall j :: 0 <= j < r ==> !OccursAt(s, p, j)
    ensures r == -1 <==> forall j :: !OccursAt(s, p, j)
  {
    IndexFrom(s, p, 0)
  }

  /** `p` occurs somewhere in `s`. */
  predicate Contains(s: string, p: string)
  {
    IndexOf(s, p) >= 0
  }

  lemma IndexOfPrefix(p: string, t: string)
    ensures IndexOf(p + t, p) == 0
  {
    assert (p + t)[0..|p|] == p;
    assert OccursAt(p + t, p, 0);
  }

  /** An occurrence in `t` is an occurrence in `a + t` and in `t + b`. */
  lemma ContainsWithin(a: string, t: string, b: string, p: string)
    requires Contains(t, p)
    ensures Contains(a + t, p) && Contains(t + b, p)
  {
    var j := IndexOf(t, p);
    assert (a + t)[|a| + j..|a| + j + |p|] == t[j..j + |p|];
    assert OccursAt(a + t, p, |a| + j);
    assert (t + b)[j..j + |p|] == t[j..j + |p|];
    assert OccursAt(t + b, p, j);
  }

  /** An occurrence in a suffix of `s` is an occurrence in `s`, shifted by
      where the suffix starts. */
  lemma SuffixOccurrence(s: string, a: nat, p: string, k: nat)
    requires a <= |s| && OccursAt(s[a..], p, k)
    ensures OccursAt(s, p, a + k) && Contains(s, p)
  {
    assert s[a + k..a + k + |p|] == s[a..][k..k + |p|];
    assert OccursAt(s, p, a + k);
  }

  /** Occurrences in a suffix are exactly the occurrences in `s` at or
      after where the suffix starts. */
  lemma OccursInSuffixIff(s: string, a: nat, p: string, k: nat)
    requires a <= |s|
    ensures OccursAt(s[a..], p, k) <==> OccursAt(s, p, a + k)
  {
    if a + k + |p| <= |s| {
      assert s[a + k..a + k + |p|] == s[a..][k..k + |p|];
    }
  }

  lemma IndexOfAt(s: string, p: string, i: nat)
    requires OccursAt(s, p, i)
    requires forall j :: 0 <= j < i ==> !OccursAt(s, p, j)
    ensures IndexOf(s, p) == i
  {
  }

  /** JavaScript `s.replace(p, rep)` with a string pattern: only the first
      occurrence of `p` is replaced; without one, `s` is returned as is. */
  function ReplaceFirst(s: string, p: string, rep: string): (r: string)
    ensures !Contains(s, p) ==> r == s
    ensures Contains(s, p) ==>
              r == s[..IndexOf(s, p)] + rep + s[IndexOf(s, p) + |p|..]
  {
    var i := IndexOf(s, p);
    if i < 0 then s else s[..i] + rep + s[i + |p|..]
  }

  /** Replacing the first occurrence by nothing cuts it out. */
  lemma CutAt(s: string, p: string, i: nat)
    requires IndexOf(s, p) == i
    ensures ReplaceFirst(s, p, "") == s[..i] + s[i + |p|..]
  {
    assert s[..i] + "" == s[..i];
  }

  /** Python `s.replace(p, rep)` and a JavaScript global replace with a
      literal pattern: every non-overlapping occurrence of `p`, scanning left
      to right, is replaced by `rep`. */
  function ReplaceAll(s: string, p: string, rep: string): (r: string)
    requires |p| > 0
    decreases |s|
  {
    if |s| < |p| then s
    else if s[..|p|] == p then rep + ReplaceAll(s[|p|..], p, rep)
    else [s[0]] + ReplaceAll(s[1..], p, rep)
  }

  /** Replacing a pattern that does not occur changes nothing. */
  lemma {:induction false} ReplaceAllAbsent(s: string, p: string, rep: string)
    requires |p| > 0
    requires !Contains(s, p)
    ensures ReplaceAll(s, p, rep) == s
    decreases |s|
  {
    if |s| < |p| {
    } else {
      assert !OccursAt(s, p, 0);
      assert s[..|p|] != p;
      assert !Contains(s[1..], p) by {
        forall j | OccursAt(s[1..], p, j)
          ensures false
        {
          assert s[1..][j..j + |p|] == s[j + 1..j + 1 + |p|];
          assert OccursAt(s, p, j + 1);
        }
      }
      ReplaceAllAbsent(s[1..], p, rep);
      assert s == [s[0]] + s[1..];
    }
  }

  /** When the only occurrence of `p` in `stem + p` is the final one,
      replacing every `p` swaps just that suffix: `X.json` becomes `X.sol`. */
  lemma {:induction false} ReplaceAllSuffix(stem: string, p: string, rep: string)
    requires |p| > 0
    requires forall j :: 0 <= j < |stem| ==> !OccursAt(stem + p, p, j)
    ensures ReplaceAll(stem + p, p, rep) == stem + rep
    decreases |stem|
  {
    var s := stem + p;
    if |stem| == 0 {
      assert s == p;
      assert s[..|p|] == p && s[|p|..] == "";
    } else {
      assert !OccursAt(s, p, 0);
      assert s[..|p|] != p;
      assert ReplaceAll(s, p, rep) == [s[0]] + ReplaceAll(s[1..], p, rep);
      assert s[0] == stem[0] && s[1..] == stem[1..] + p;
      SuffixShift(stem, p);
      ReplaceAllSuffix(stem[1..], p, rep);
      assert stem == [stem[0]] + stem[1..];
    }
  }

  /** Dropping the first character keeps `p` away from every position of
      the shorter stem. */
  lemma SuffixShift(stem: string, p: string)
    requires |stem| > 0
    requires forall j :: 0 <= j < |stem| ==> !OccursAt(stem + p, p, j)
    ensures forall j :: 0 <= j < |stem[1..]| ==> !OccursAt(stem[1..] + p, p, j)
  {
    var s := stem + p;
    forall j | 0 <= j < |stem[1..]|
      ensures !OccursAt(stem[1..] + p, p, j)
    {
      assert (stem[1..] + p)[j..j + |p|] == s[j + 1..j + 1 + |p|];
      assert !OccursAt(s, p, j + 1);
    }
  }

  /** Replaces every occurrence of the character `c` by `rep` (a global
      regular-expression replace whose pattern is one character). */
  function ReplaceChar(s: string, c: char, rep: string): (r: string)
  {
    if |s| == 0 then ""
    else (if s[0] == c then rep else [s[0]]) + ReplaceChar(s[1..], c, rep)
  }

  lemma {:induction false} ReplaceCharAppend(a: string, b: string, c: char, rep: string)
    ensures ReplaceChar(a + b, c, rep) == ReplaceChar(a, c, rep) + ReplaceChar(b, c, rep)
    decreases |a|
  {
    if |a| == 0 {
      assert a + b == b;
    } else {
      assert (a + b)[1..] == a[1..] + b;
      ReplaceCharAppend(a[1..], b, c, rep);
    }
  }

  /** The characters JavaScript's `String.prototype.trim` removes: white
      space (the Unicode space separators, tab, vertical tab, form feed,
      byte-order mark) and line terminators; tab, line feed, vertical tab,
      form feed and carriage return are U+0009 to U+000D. */
  predicate IsJsSpace(c: char)
  {
    || c == ' ' || '\t' <= c <= '\r' || c == '\U{00A0}' || c == '\U{1680}'
    || '\U{2000}' <= c <= '\U{200A}' || c == '\U{2028}' || c == '\U{2029}'
    || c == '\U{202F}' || c == '\U{205F}' || c == '\U{3000}' || c == '\U{FEFF}'
  }

  const JsSpaces: set<char> := set c: char | IsJsSpace(c)

  /** `s` without the leading characters that are in `ws`. */
  function TrimStart(s: string, ws: set<char>): (r: string)
    ensures |r| <= |s| && r == s[|s| - |r|..]
    ensures forall m :: 0 <= m < |s| - |r| ==> s[m] in ws
    ensures |r| > 0 ==> r[0] !in ws
  {
    if |s| > 0 && s[0] in ws then
      var r := TrimStart(s[1..], ws);
      assert forall m :: 1 <= m < |s| ==> s[m] == s[1..][m - 1];
      r
    else s
  }

  /** `s` without the trailing characters that are in `ws`. */
  function TrimEnd(s: string, ws: set<char>): (r: string)
    ensures |r| <= |s| && r == s[..|r|]
    ensures forall m :: |r| <= m < |s| ==> s[m] in ws
    ensures |r| > 0 ==> r[|r| - 1] !in ws
  {
    if |s| > 0 && s[|s| - 1] in ws then
      var r := TrimEnd(s[..|s| - 1], ws);
      assert forall m :: 0 <= m < |s| - 1 ==> s[m] == s[..|s| - 1][m];
      r
    else s
  }

  /** JavaScript `s.trim()`: what remains is a part of `s` that neither
      starts nor ends with white space; a string already without such ends is
      unchanged. */
  function Trim(s: string): (r: string)
    ensures |r| > 0 ==> r[0] !in JsSpaces && r[|r| - 1] !in JsSpaces
    ensures Contains(s, r)
    ensures (|s| == 0 || (s[0] !in JsSpaces && s[|s| - 1] !in JsSpaces)) ==> r == s
  {
    TrimBoth(s, JsSpaces)
  }

  /** `trim` removes white space and nothing else: the trimmed text sits in
      `s` after the leading white space, with only white space after it. */
  lemma TrimRemovesSpace(s: string)
    ensures SpaceAround(s, |s| - |TrimStart(s, JsSpaces)|, Trim(s), JsSpaces)
  {
    assert Trim(s) == TrimBoth(s, JsSpaces);
  }

  /** `s` without the leading and the trailing characters that are in `ws`. */
  function TrimBoth(s: string, ws: set<char>): (r: string)
    ensures |r| > 0 ==> r[0] !in ws && r[|r| - 1] !in ws
    ensures Contains(s, r)
    ensures SpaceAround(s, |s| - |TrimStart(s, ws)|, r, ws)
    ensures (|s| == 0 || (s[0] !in ws && s[|s| - 1] !in ws)) ==> r == s
  {
    TrimSlice(s, TrimStart(s, ws), TrimEnd(TrimStart(s, ws), ws), ws);
    TrimEnd(TrimStart(s, ws), ws)
  }

  /** `s` is `r`, starting at index `i`, with only characters of `ws`
      before and after it. */
  predicate SpaceAround(s: string, i: nat, r: string, ws: set<char>)
  {
    && i + |r| <= |s| && r == s[i..i + |r|]
    && (forall m :: 0 <= m < i ==> s[m] in ws)
    && (forall m :: i + |r| <= m < |s| ==> s[m] in ws)
  }

  /** What `TrimEnd(TrimStart(s))` keeps: a suffix `t` of `s` after
      leading characters of `ws`, cut to a prefix `r` of `t` followed only
      by characters of `ws`, is the slice of `s` between the two. */
  lemma TrimSlice(s: string, t: string, r: string, ws: set<char>)
    requires |t| <= |s| && t == s[|s| - |t|..] && (forall m :: 0 <= m < |s| - |t| ==> s[m] in ws)
    requires |r| <= |t| && r == t[..|r|] && (forall m :: |r| <= m < |t| ==> t[m] in ws)
    ensures SpaceAround(s, |s| - |t|, r, ws) && Contains(s, r)
  {
    SliceOfSuffix(s, t, r);
    TrimmedSuffix(s, t, |r|, ws);
    SliceContained(s, |s| - |t|, r);
  }

  /** A prefix `r` of a suffix `t` of `s` is a slice of `s`. */
  lemma SliceOfSuffix(s: string, t: string, r: string)
    requires |t| <= |s| && t == s[|s| - |t|..]
    requires |r| <= |t| && r == t[..|r|]
    ensures r == s[|s| - |t|..|s| - |t| + |r|]
  {
  }

  /** A slice of `s` occurs in `s`. */
  lemma SliceContained(s: string, i: nat, r: string)
    requires i + |r| <= |s| && r == s[i..i + |r|]
    ensures Contains(s, r)
  {
    assert OccursAt(s, r, i);
  }

  /** The characters `TrimEnd` drops from a suffix `t` of `s` are
      characters of `s`. */
  lemma TrimmedSuffix(s: string, t: string, k: nat, ws: set<char>)
    requires |t| <= |s| && t == s[|s| - |t|..] && k <= |t|
    requires forall m :: k <= m < |t| ==> t[m] in ws
    ensures forall m :: |s| - |t| + k <= m < |s| ==> s[m] in ws
  {
    forall m | |s| - |t| + k <= m < |s|
      ensures s[m] in ws
    {
      assert s[m] == t[m - (|s| - |t|)];
    }
  }

  /** Python `s[:-n]` for a positive `n`: `s` without its last `n`
      characters, or the empty string when `s` is shorter than `n`. */
  function DropLast(s: string, n: nat): (r: string)
    requires n > 0
    ensures |s| >= n ==> r == s[..|s| - n]
    ensures |s| < n ==> r == ""
  {
    if |s| >= n then s[..|s| - n] else ""
  }

  /** JavaScript `s.slice(0, -2)`: drop the last two characters. */
  function DropLastTwo(s: string): (r: string)
    ensures |s| >= 2 ==> r + s[|s| - 2..] == s
    ensures |s| < 2 ==> r == ""
  {
    if |s| >= 2 then s[..|s| - 2] else ""
  }

  /** `s` ends with `suffix` (JavaScript `s.substring(len - k, len) == suffix`). */
  predicate EndsWith(s: string, suffix: string)
  {
    |suffix| <= |s| && s[|s| - |suffix|..] == suffix
  }

  predicate IsDigit(c: char)
  {
    '0' <= c <= '9'
  }

  function DigitChar(d: nat): (c: char)
    requires d < 10
    ensures IsDigit(c) && c as int - '0' as int == d
  {
    ('0' as int + d) as char
  }

  /** The decimal text of a non-negative integer, as JavaScript writes a
      number that is concatenated to a string (`name + count`). */
  function NatToString(n: nat): (r: string)
    ensures |r| >= 1
    ensures forall k :: 0 <= k < |r| ==> IsDigit(r[k])
    decreases n
  {
    if n < 10 then [DigitChar(n)] else NatToString(n / 10) + [DigitChar(n % 10)]
  }

  function DigitValue(c: char): nat
    requires IsDigit(c)
  {
    c as int - '0' as int
  }

  /** Reads a string of decimal digits back as a number. */
  function ParseNat(s: string): nat
    requires forall k :: 0 <= k < |s| ==> IsDigit(s[k])
  {
    if |s| == 0 then 0
    else ParseNat(s[..|s| - 1]) * 10 + DigitValue(s[|s| - 1])
  }

  /** Decimal text round trip: reading back what `NatToString` writes gives
      the number. */
  lemma {:induction false} ParseNatToString(n: nat)
    ensures ParseNat(NatToString(n)) == n
    decreases n
  {
    var r := NatToString(n);
    if n < 10 {
      assert r[..|r| - 1] == [];
    } else {
      assert r[..|r| - 1] == NatToString(n / 10);
      ParseNatToString(n / 10);
    }
  }

  /** Different numbers have different decimal texts, so `name + k` and
      `name + j` differ whenever `k != j`. */
  lemma SuffixedNamesDistinct(name: string, k: nat, j: nat)
    requires k != j
    ensures name + NatToString(k) != name + NatToString(j)
  {
    if name + NatToString(k) == name + NatToString(j) {
      assert (name + NatToString(k))[|name|..] == NatToString(k);
      assert (name + NatToString(j))[|name|..] == NatToString(j);
      ParseNatToString(k);
      ParseNatToString(j);
    }
  }

  /** A non-empty string is its front followed by its last character. */
  lemma LastSplit(s: string)
    requires |s| > 0
    ensures s[..|s| - 1] + [s[|s| - 1]] == s
  {
  }

  /** The two halves of a concatenation. */
  lemma ConcatParts(a: string, b: string)
    ensures (a + b)[..|a|] == a && (a + b)[|a|..] == b
  {
  }

  /** Where each of four concatenated parts lies in the whole. */
  lemma ConcatFourAt(a: string, b: string, c: string, d: string)
    ensures var r := a + b + c + d;
      && r[..|a|] == a && OccursAt(r, b, |a|)
      && OccursAt(r, c, |a| + |b|) && EndsWith(r, d)
  {
    var r := a + b + c + d;
    assert r[..|a|] == a;
    assert r[|a|..|a| + |b|] == b;
    assert r[|a| + |b|..|a| + |b| + |c|] == c;
    assert r[|a + b + c|..] == d;
  }

  /** A concatenation keeps the first part's prefixes and the second
      part's suffix. */
  lemma ConcatKeeps(a: string, b: string, k: nat, p: string, e: string)
    requires k <= |a| && a[..k] == p && EndsWith(b, e)
    ensures (a + b)[..k] == p && EndsWith(a + b, e)
    ensures (a + b)[..|a|] == a && (a + b)[|a|..] == b
  {
    assert (a + b)[..k] == a[..k];
    assert (a + b)[|a + b| - |e|..] == b[|b| - |e|..];
  }

  /** The three parts of a concatenation: the first is a prefix, the
      second follows it, and the last is a suffix. */
  lemma ConcatThree(a: string, b: string, c: string)
    ensures |a + b + c| >= |a| + |b|
    ensures (a + b + c)[..|a|] == a
    ensures (a + b + c)[|a|..][..|b|] == b
    ensures EndsWith(a + b + c, c)
  {
    assert (a + b + c)[|a|..] == b + c;
    assert (a + b + c)[|a + b|..] == c;
  }

  /** Prepending to a concatenation prepends to its first part. */
  lemma ConsAssoc<T>(x: seq<T>, u: seq<T>, v: seq<T>)
    ensures x + (u + v) == (x + u) + v
  {
  }

  /** The concatenation of four parts, the middle two grouped, and where
      each part lies in it. */
  function FourParts(a: string, b: string, c: string, d: string): (r: string)
    ensures |r| == |a| + |b| + |c| + |d|
    ensures r[..|a|] == a
    ensures r[|a|..][..|b|] == b
    ensures r[|a| + |b|..][..|c|] == c
    ensures EndsWith(r, d)
  {
    var r := a + (b + c) + d;
    assert r[|a|..] == b + c + d;
    assert r[|a| + |b|..] == c + d;
    assert r[|a| + |b| + |c|..] == d;
    r
  }

  /** A string that starts with `a + (b + c)` starts with `a + b`. */
  lemma PrefixOfPrefix(r: string, a: string, b: string, c: string)
    requires |r| >= |a| + |b| + |c| && r[..|a| + |b| + |c|] == a + (b + c)
    ensures |r| >= |a| + |b| && r[..|a| + |b|] == a + b
  {
    assert r[..|a| + |b|] == r[..|a| + |b| + |c|][..|a| + |b|];
    assert (a + (b + c))[..|a| + |b|] == a + b;
  }

  /** A prefix of the first half is a prefix of the whole. */
  lemma PrefixOfConcat(a: string, b: string, k: nat)
    requires k <= |a|
    ensures (a + b)[..k] == a[..k]
  {
  }

  /** JavaScript `items.join(sep)`. */
  function Join(items: seq<string>, sep: string): (r: string)
    decreases |items|
  {
    if |items| == 0 then ""
    else if |items| == 1 then items[0]
    else items[0] + sep + Join(items[1..], sep)
  }

  /** The first item opens the join; the others follow a separator. */
  lemma JoinHead(items: seq<string>, sep: string)
    requires |items| > 0
    ensures Join(items, sep) == items[0] + (if |items| == 1 then "" else sep + Join(items[1..], sep))
  {
  }

  /** Appending one more item adds one separator and the item at the end. */
  lemma {:induction false} JoinSnoc(items: seq<string>, x: string, sep: string)
    ensures Join(items + [x], sep) == if |items| == 0 then x else Join(items, sep) + sep + x
    decreases |items|
  {
    if |items| == 0 {
      assert items + [x] == [x];
    } else if |items| == 1 {
      assert items + [x] == [items[0], x];
      assert (items + [x])[1..] == [x];
    } else {
      assert (items + [x])[1..] == items[1..] + [x];
      JoinSnoc(items[1..], x, sep);
    }
  }
}
