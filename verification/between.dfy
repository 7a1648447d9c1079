/**
 * The `getFromBetween` helper object of blockly-solidity/blocks/contract.js:
 * pulls out, one after another, the pieces of text framed by two delimiters,
 * deleting each framed piece before looking for the next. Its mutable
 * `string` and `results` fields become the argument and the result of pure
 * functions.
 */
module Between {
  import opened Wrappers
  import opened Strings

  /** JavaScript `s.substring(start, end)`: both bounds are clamped to
      `[0, |s|]` and swapped when the first exceeds the second. */
  function JsSubstring(s: string, start: int, end: int): (r: string)
    ensures 0 <= start <= end <= |s| ==> r == s[start..end]
    ensures 0 <= end <= start <= |s| ==> r == s[end..start]
  {
    var a := if start < 0 then 0 else if start > |s| then |s| else start;
    var b := if end < 0 then 0 else if end > |s| then |s| else end;
    if a <= b then s[a..b] else s[b..a]
  }

  /** Both delimiters occur somewhere in `s`. */
  predicate BothOccur(s: string, sub1: string, sub2: string)
  {
    Contains(s, sub1) && Contains(s, sub2)
  }

  /** Where the text after the first `sub1` starts. */
  function Start(s: string, sub1: string): (sp: nat)
    requires Contains(s, sub1)
    ensures sp <= |s|
  {
    IndexOf(s, sub1) + |sub1|
  }

  /** `sub2` occurs after the first `sub1`: the well-behaved case. */
  predicate Framed(s: string, sub1: string, sub2: string)
    requires Contains(s, sub1)
  {
    Contains(s[Start(s, sub1)..], sub2)
  }

  /** `getFromBetween(sub1, sub2)`: `None` (the script's `false`) unless both
      delimiters occur. The end is the first `sub2` after the first `sub1`;
      when `sub2` occurs only earlier, the end falls one before the start and
      `substring` swaps them, so the result is the last character of
      `sub1`. */
  function Extract(s: string, sub1: string, sub2: string): (r: Option<string>)
    ensures r.Some? <==> BothOccur(s, sub1, sub2)
    ensures r.Some? && Framed(s, sub1, sub2) ==>
              var sp := Start(s, sub1);
              var tp := sp + IndexOf(s[sp..], sub2);
              && r.value == s[sp..tp]
              && OccursAt(s, sub2, tp)
              && (forall j :: sp <= j < tp ==> !OccursAt(s, sub2, j))
    ensures r.Some? && !Framed(s, sub1, sub2) && |sub1| > 0 ==>
              r.value == [s[Start(s, sub1) - 1]] && r.value == sub1[|sub1| - 1..]
  {
    if !BothOccur(s, sub1, sub2) then None
    else
      var sp := Start(s, sub1);
      var first := s[..sp];
      var rest := s[sp..];
      var tp := |first| + IndexOf(rest, sub2);
      if Framed(s, sub1, sub2) then
        FramedEnd(s, sub1, sub2);
        Some(JsSubstring(s, sp, tp))
      else if |sub1| > 0 then
        UnframedEnd(s, sub1, sub2);
        Some(JsSubstring(s, sp, tp))
      else
        Some(JsSubstring(s, sp, tp))
  }

  /** The first `sub2` after `sp`, located in the whole string. */
  lemma FramedEnd(s: string, sub1: string, sub2: string)
    requires Contains(s, sub1) && Framed(s, sub1, sub2)
    ensures var sp := Start(s, sub1);
      var tp := sp + IndexOf(s[sp..], sub2);
      && OccursAt(s, sub2, tp)
      && (forall j :: sp <= j < tp ==> !OccursAt(s, sub2, j))
  {
    var sp := Start(s, sub1);
    var rest := s[sp..];
    var k := IndexOf(rest, sub2);
    var tp := sp + k;
    OccursInSuffixIff(s, sp, sub2, k);
    forall j | sp <= j < tp
      ensures !OccursAt(s, sub2, j)
    {
      OccursInSuffixIff(s, sp, sub2, j - sp);
    }
  }

  /** The character before the text after the first `sub1` is the last
      character of `sub1`. */
  lemma UnframedEnd(s: string, sub1: string, sub2: string)
    requires Contains(s, sub1) && |sub1| > 0
    ensures s[Start(s, sub1) - 1] == sub1[|sub1| - 1]
  {
    var p := IndexOf(s, sub1);
    assert s[p..p + |sub1|] == sub1;
  }

  /** `removeFromBetween(sub1, sub2)`: deletes the first occurrence of
      `sub1 + item + sub2`; without both delimiters the string is kept. */
  function Remove(s: string, sub1: string, sub2: string): (r: string)
    ensures !BothOccur(s, sub1, sub2) ==> r == s
    ensures r == s || |r| < |s|
  {
    match Extract(s, sub1, sub2)
    case None => s
    case Some(item) => ReplaceFirst(s, sub1 + item + sub2, "")
  }

  /** Why extraction can fail: the string did not change, so the script's
      recursion repeats the same call until the stack overflows. */
  datatype BetweenError = Diverges

  /** `getAllResults` from a given string: extract, remove, and go on while
      both delimiters remain. */
  function AllResults(s: string, sub1: string, sub2: string): (r: Result<seq<string>, BetweenError>)
    ensures !BothOccur(s, sub1, sub2) ==> r == Success([])
    ensures BothOccur(s, sub1, sub2) && r.Success? ==>
              |r.value| > 0 && Some(r.value[0]) == Extract(s, sub1, sub2)
    decreases |s|
  {
    if !BothOccur(s, sub1, sub2) then Success([])
    else
      var item := Extract(s, sub1, sub2).value;
      var s' := Remove(s, sub1, sub2);
      if s' == s then Failure(Diverges)
      else
        var rest :- AllResults(s', sub1, sub2);
        Success([item] + rest)
  }

  /** `get(string, sub1, sub2)`: the results are reset on every call, so the
      answer depends on the arguments alone. */
  function Get(s: string, sub1: string, sub2: string): (r: Result<seq<string>, BetweenError>)
    ensures r == AllResults(s, sub1, sub2)
    ensures !BothOccur(s, sub1, sub2) ==> r == Success([])
    ensures BothOccur(s, sub1, sub2) && !Framed(s, sub1, sub2) ==> r == Failure(Diverges)
  {
    if BothOccur(s, sub1, sub2) && !Framed(s, sub1, sub2) then
      NotFramedKeeps(s, sub1, sub2);
      AllResults(s, sub1, sub2)
    else
      AllResults(s, sub1, sub2)
  }

  /** One step of the extraction with a non-empty closing delimiter: an
      unframed string diverges at once; a framed one yields its item, and the
      string shrinks before the next step. */
  lemma AllResultsStep(s: string, sub1: string, sub2: string)
    requires |sub2| > 0 && BothOccur(s, sub1, sub2)
    ensures !Framed(s, sub1, sub2) ==> AllResults(s, sub1, sub2) == Failure(Diverges)
    ensures Framed(s, sub1, sub2) ==> |Remove(s, sub1, sub2)| < |s|
    ensures Framed(s, sub1, sub2) ==>
              AllResults(s, sub1, sub2) ==
                (match AllResults(Remove(s, sub1, sub2), sub1, sub2)
                 case Success(rest) => Success([Extract(s, sub1, sub2).value] + rest)
                 case Failure(e) => Failure(e))
  {
    if Framed(s, sub1, sub2) {
      FramedShrinks(s, sub1, sub2);
    } else {
      NotFramedKeeps(s, sub1, sub2);
    }
  }

  /** Removing a framed item shortens the string when the closing delimiter
      is not empty. */
  lemma FramedShrinks(s: string, sub1: string, sub2: string)
    requires |sub2| > 0 && BothOccur(s, sub1, sub2) && Framed(s, sub1, sub2)
    ensures |Remove(s, sub1, sub2)| < |s|
  {
    FramedRemoval(s, sub1, sub2);
  }

  /** The strings the extraction visits: each framed string is followed by
      what its removal leaves, and the trail stops at the first string that
      lacks a delimiter or is not framed. */
  function Trail(s: string, sub1: string, sub2: string): (r: seq<string>)
    requires |sub2| > 0
    ensures |r| > 0 && r[0] == s
    decreases |s|
  {
    if BothOccur(s, sub1, sub2) && Framed(s, sub1, sub2) then
      FramedShrinks(s, sub1, sub2);
      [s] + Trail(Remove(s, sub1, sub2), sub1, sub2)
    else [s]
  }

  /** The extraction diverges exactly when its trail ends at a string that
      holds both delimiters, that is, at one where no `sub2` follows the
      first `sub1`. */
  lemma {:induction false} TrailFailure(s: string, sub1: string, sub2: string)
    requires |sub2| > 0
    ensures var tr := Trail(s, sub1, sub2);
      AllResults(s, sub1, sub2).Failure? <==> BothOccur(tr[|tr| - 1], sub1, sub2)
    decreases |s|, 1
  {
    if BothOccur(s, sub1, sub2) && Framed(s, sub1, sub2) {
      TrailFailureFramed(s, sub1, sub2);
    } else {
      TrailEnd(s, sub1, sub2);
      if BothOccur(s, sub1, sub2) {
        AllResultsStep(s, sub1, sub2);
      }
    }
  }

  /** The inductive step of `TrailFailure`: a framed string fails like the
      rest of its trail. */
  lemma {:induction false} TrailFailureFramed(s: string, sub1: string, sub2: string)
    requires |sub2| > 0 && BothOccur(s, sub1, sub2) && Framed(s, sub1, sub2)
    ensures var tr := Trail(s, sub1, sub2);
      AllResults(s, sub1, sub2).Failure? <==> BothOccur(tr[|tr| - 1], sub1, sub2)
    decreases |s|, 0
  {
    FailsLikeRest(s, sub1, sub2);
    TrailLastOfFramed(s, sub1, sub2);
    TrailFailure(Remove(s, sub1, sub2), sub1, sub2);
  }

  /** A framed string's trail ends where the trail of what its removal
      leaves ends. */
  lemma TrailLastOfFramed(s: string, sub1: string, sub2: string)
    requires |sub2| > 0 && BothOccur(s, sub1, sub2) && Framed(s, sub1, sub2)
    ensures var tr := Trail(s, sub1, sub2);
      var tr' := Trail(Remove(s, sub1, sub2), sub1, sub2);
      tr[|tr| - 1] == tr'[|tr'| - 1]
  {
    TrailCons(s, sub1, sub2);
    LastOfCons(s, Trail(Remove(s, sub1, sub2), sub1, sub2));
  }

  /** A framed string fails exactly when what its removal leaves fails. */
  lemma FailsLikeRest(s: string, sub1: string, sub2: string)
    requires |sub2| > 0 && BothOccur(s, sub1, sub2) && Framed(s, sub1, sub2)
    ensures |Remove(s, sub1, sub2)| < |s|
    ensures AllResults(s, sub1, sub2).Failure? == AllResults(Remove(s, sub1, sub2), sub1, sub2).Failure?
  {
    AllResultsStep(s, sub1, sub2);
  }

  /** A successful extraction yields one item per framed string of the
      trail, in order: the item `getFromBetween` reads from that string. */
  lemma {:induction false} TrailItems(s: string, sub1: string, sub2: string)
    requires |sub2| > 0
    ensures var tr := Trail(s, sub1, sub2);
      AllResults(s, sub1, sub2).Success? ==>
        && |AllResults(s, sub1, sub2).value| == |tr| - 1
        && forall i :: 0 <= i < |tr| - 1 ==> Some(AllResults(s, sub1, sub2).value[i]) == Extract(tr[i], sub1, sub2)
    decreases |s|
  {
    if BothOccur(s, sub1, sub2) && Framed(s, sub1, sub2) {
      var s' := Remove(s, sub1, sub2);
      var rest := AllResults(s', sub1, sub2);
      if rest.Success? {
        assert |s'| < |s| && AllResults(s, sub1, sub2) == Success([Extract(s, sub1, sub2).value] + rest.value) by {
          AllResultsStep(s, sub1, sub2);
        }
        TrailItems(s', sub1, sub2);
        TrailCons(s, sub1, sub2);
        var read := u => Extract(u, sub1, sub2);
        ItemsCons(s, Trail(s', sub1, sub2), Extract(s, sub1, sub2).value, rest.value, read);
      } else {
        AllResultsStep(s, sub1, sub2);
      }
    } else {
      TrailEnd(s, sub1, sub2);
      if BothOccur(s, sub1, sub2) {
        AllResultsStep(s, sub1, sub2);
      }
    }
  }

  /** A framed string opens its trail, and the trail of what its removal
      leaves follows. */
  lemma TrailCons(s: string, sub1: string, sub2: string)
    requires |sub2| > 0 && BothOccur(s, sub1, sub2) && Framed(s, sub1, sub2)
    ensures |Remove(s, sub1, sub2)| < |s|
    ensures Trail(s, sub1, sub2) == [s] + Trail(Remove(s, sub1, sub2), sub1, sub2)
  {
    FramedShrinks(s, sub1, sub2);
  }

  /** Any other string ends the trail. */
  lemma TrailEnd(s: string, sub1: string, sub2: string)
    requires |sub2| > 0 && !(BothOccur(s, sub1, sub2) && Framed(s, sub1, sub2))
    ensures Trail(s, sub1, sub2) == [s]
  {
  }

  /** Prepending keeps the last element. */
  lemma LastOfCons(x: string, tail: seq<string>)
    requires |tail| > 0
    ensures ([x] + tail)[|[x] + tail| - 1] == tail[|tail| - 1]
  {
  }

  /** The items read from a trail extend by the head's item when the
      trail extends by its head. */
  lemma ItemsCons(s: string, tr: seq<string>, x: string, v: seq<string>, read: string -> Option<string>)
    requires Some(x) == read(s)
    requires |v| == |tr| - 1
    requires forall i :: 0 <= i < |tr| - 1 ==> Some(v[i]) == read(tr[i])
    ensures |[x] + v| == |[s] + tr| - 1
    ensures forall i :: 0 <= i < |[s] + tr| - 1 ==> Some(([x] + v)[i]) == read(([s] + tr)[i])
  {
    forall i | 0 <= i < |[s] + tr| - 1
      ensures Some(([x] + v)[i]) == read(([s] + tr)[i])
    {
      if i > 0 {
        assert ([s] + tr)[i] == tr[i - 1] && ([x] + v)[i] == v[i - 1];
      }
    }
  }

  /** No `sub2` starts inside `x`, even overlapping the `sub2` that follows
      it: `x` is read back whole when framed by the delimiters. */
  predicate Unbroken(x: string, sub2: string)
  {
    forall j :: 0 <= j < |x| ==> !OccursAt(x + sub2, sub2, j)
  }

  /** The text a string of framed items makes: each item between `sub1`
      and `sub2`, one after another. */
  function Wrap(items: seq<string>, sub1: string, sub2: string): (r: string)
    decreases |items|
  {
    if |items| == 0 then "" else sub1 + items[0] + sub2 + Wrap(items[1..], sub1, sub2)
  }

  /** Extraction from a framed prefix: the item is `x`, and extraction goes
      on with what follows the closing delimiter. */
  lemma AllResultsFramed(x: string, t: string, sub1: string, sub2: string)
    requires |sub2| > 0 && Unbroken(x, sub2)
    ensures var s := sub1 + x + sub2 + t;
      AllResults(s, sub1, sub2) ==
        (match AllResults(t, sub1, sub2)
         case Success(rest) => Success([x] + rest)
         case Failure(e) => Failure(e))
  {
    var s := sub1 + x + sub2 + t;
    FramedPrefix(x, t, sub1, sub2);
    AllResultsStep(s, sub1, sub2);
  }

  /** A string that opens with `sub1 + x + sub2` is framed; its item is `x`
      and removing it leaves the rest. */
  lemma FramedPrefix(x: string, t: string, sub1: string, sub2: string)
    requires Unbroken(x, sub2)
    ensures var s := sub1 + x + sub2 + t;
      && BothOccur(s, sub1, sub2) && Framed(s, sub1, sub2)
      && Extract(s, sub1, sub2) == Some(x)
      && Remove(s, sub1, sub2) == t
  {
    var u := x + sub2 + t;
    assert sub1 + x + sub2 + t == sub1 + u;
    assert u[..|x|] == x && u[|x| + |sub2|..] == t;
    UnbrokenIndex(x, t, sub2);
    FramedOpening(sub1, u, sub2, |x|);
  }

  /** `sub1 + u` with the first `sub2` of `u` at `k` frames `u[..k]`, and
      removing it leaves what follows that `sub2`. */
  lemma FramedOpening(sub1: string, u: string, sub2: string, k: nat)
    requires IndexOf(u, sub2) == k
    ensures var s := sub1 + u;
      && BothOccur(s, sub1, sub2) && Framed(s, sub1, sub2)
      && Extract(s, sub1, sub2) == Some(u[..k])
      && Remove(s, sub1, sub2) == u[k + |sub2|..]
  {
    var s := sub1 + u;
    PrefixStart(sub1, u);
    FramedAtStart(s, sub1, sub2, k);
    assert s[|sub1|..|sub1| + k] == u[..k];
    assert s[|sub1| + k + |sub2|..] == u[k + |sub2|..];
  }

  /** A string that opens with `sub1` and holds `sub2` `k` characters
      further on frames the `k` characters between them. */
  lemma FramedAtStart(s: string, sub1: string, sub2: string, k: nat)
    requires Contains(s, sub1) && IndexOf(s, sub1) == 0
    requires IndexOf(s[|sub1|..], sub2) == k
    ensures BothOccur(s, sub1, sub2) && Framed(s, sub1, sub2)
    ensures Extract(s, sub1, sub2) == Some(s[|sub1|..|sub1| + k])
    ensures Remove(s, sub1, sub2) == s[|sub1| + k + |sub2|..]
  {
    FramedAtStartOccurs(s, sub1, sub2, k);
    FramedAtStartCuts(s, sub1, sub2, k);
  }

  /** ... so both delimiters occur and `sub2` follows the opening one. */
  lemma FramedAtStartOccurs(s: string, sub1: string, sub2: string, k: nat)
    requires Contains(s, sub1) && IndexOf(s, sub1) == 0
    requires IndexOf(s[|sub1|..], sub2) == k
    ensures Start(s, sub1) == |sub1|
    ensures BothOccur(s, sub1, sub2) && Framed(s, sub1, sub2)
  {
    SuffixOccurrence(s, |sub1|, sub2, k);
  }

  /** ... and the removal cuts the string right after that `sub2`. */
  lemma FramedAtStartCuts(s: string, sub1: string, sub2: string, k: nat)
    requires Contains(s, sub1) && IndexOf(s, sub1) == 0
    requires IndexOf(s[|sub1|..], sub2) == k
    ensures BothOccur(s, sub1, sub2) && Framed(s, sub1, sub2)
    ensures Extract(s, sub1, sub2) == Some(s[|sub1|..|sub1| + k])
    ensures Remove(s, sub1, sub2) == s[|sub1| + k + |sub2|..]
  {
    FramedAtStartOccurs(s, sub1, sub2, k);
    FramedRemoval(s, sub1, sub2);
    var tp := |sub1| + k;
    assert s[..0] + s[tp + |sub2|..] == s[tp + |sub2|..];
  }

  /** After a leading `sub1`, the text starts right behind it. */
  lemma PrefixStart(sub1: string, u: string)
    ensures Contains(sub1 + u, sub1)
    ensures Start(sub1 + u, sub1) == |sub1| && (sub1 + u)[|sub1|..] == u
  {
    IndexOfPrefix(sub1, u);
  }

  /** In `x + sub2 + t` with `x` unbroken, the first `sub2` is the one
      right after `x`. */
  lemma UnbrokenIndex(x: string, t: string, sub2: string)
    requires Unbroken(x, sub2)
    ensures IndexOf(x + sub2 + t, sub2) == |x|
  {
    var u := x + sub2 + t;
    assert OccursAt(u, sub2, |x|) by {
      assert u[|x|..|x| + |sub2|] == sub2;
    }
    forall j | 0 <= j < |x|
      ensures !OccursAt(u, sub2, j)
    {
      if OccursAt(u, sub2, j) {
        assert u[j..j + |sub2|] == (x + sub2)[j..j + |sub2|];
        assert OccursAt(x + sub2, sub2, j);
      }
    }
    IndexOfAt(u, sub2, |x|);
  }

  /** Round trip: items that hold no closing delimiter, framed one after
      another, are extracted back in order. */
  lemma {:induction false} WrapRoundTrip(items: seq<string>, sub1: string, sub2: string)
    requires |sub2| > 0
    requires forall i :: 0 <= i < |items| ==> Unbroken(items[i], sub2)
    ensures AllResults(Wrap(items, sub1, sub2), sub1, sub2) == Success(items)
    decreases |items|
  {
    if |items| == 0 {
      assert !Contains("", sub2) by {
        assert forall j :: !OccursAt("", sub2, j);
      }
    } else {
      var rest := Wrap(items[1..], sub1, sub2);
      assert Wrap(items, sub1, sub2) == sub1 + items[0] + sub2 + rest;
      assert AllResults(rest, sub1, sub2) == Success(items[1..]) by {
        WrapRoundTrip(items[1..], sub1, sub2);
      }
      AllResultsFramed(items[0], rest, sub1, sub2);
      assert [items[0]] + items[1..] == items;
    }
  }

  /** Every result holds no `sub2`: each is cut off at the first `sub2`
      after its `sub1`. */
  lemma {:induction false} ResultsFree(s: string, sub1: string, sub2: string)
    requires |sub2| > 0
    requires AllResults(s, sub1, sub2).Success?
    ensures forall i :: 0 <= i < |AllResults(s, sub1, sub2).value| ==>
              !Contains(AllResults(s, sub1, sub2).value[i], sub2)
    decreases |s|
  {
    if BothOccur(s, sub1, sub2) {
      var s' := Remove(s, sub1, sub2);
      assert s' != s;
      ItemFree(s, sub1, sub2);
      ResultsFree(s', sub1, sub2);
    }
  }

  /** An extracted item that does not make the string diverge holds no
      `sub2`. */
  lemma ItemFree(s: string, sub1: string, sub2: string)
    requires BothOccur(s, sub1, sub2) && |sub2| > 0
    requires Remove(s, sub1, sub2) != s
    ensures !Contains(Extract(s, sub1, sub2).value, sub2)
  {
    if !Framed(s, sub1, sub2) {
      NotFramedKeeps(s, sub1, sub2);
    } else {
      ItemFreeFramed(s, sub1, sub2);
    }
  }

  /** In the well-behaved case the item stops at the first `sub2` after
      the opening delimiter, so it holds none. */
  lemma ItemFreeFramed(s: string, sub1: string, sub2: string)
    requires BothOccur(s, sub1, sub2) && Framed(s, sub1, sub2) && |sub2| > 0
    ensures !Contains(Extract(s, sub1, sub2).value, sub2)
  {
    var sp := Start(s, sub1);
    var tp := sp + IndexOf(s[sp..], sub2);
    assert Extract(s, sub1, sub2).value == s[sp..tp] && forall j :: sp <= j < tp ==> !OccursAt(s, sub2, j);
    SliceFree(s, sub2, sp, tp);
  }

  /** A slice of `s` over which the pattern never starts does not hold it. */
  lemma SliceFree(s: string, p: string, sp: nat, tp: nat)
    requires sp <= tp <= |s| && |p| > 0
    requires forall j :: sp <= j < tp ==> !OccursAt(s, p, j)
    ensures !Contains(s[sp..tp], p)
  {
    if Contains(s[sp..tp], p) {
      OccursInSlice(s, p, sp, tp, IndexOf(s[sp..tp], p));
      assert false;
    }
  }

  /** An occurrence inside `s[sp..tp]` is an occurrence in `s` that starts
      before `tp` when the pattern is not empty. */
  lemma OccursInSlice(s: string, p: string, sp: nat, tp: nat, k: int)
    requires sp <= tp <= |s| && |p| > 0
    ensures OccursAt(s[sp..tp], p, k) ==> OccursAt(s, p, sp + k) && sp <= sp + k < tp
  {
    if OccursAt(s[sp..tp], p, k) {
      var t := s[sp..tp];
      var u := t[k..k + |p|];
      var v := s[sp + k..sp + k + |p|];
      forall i | 0 <= i < |p|
        ensures u[i] == v[i]
      {
        assert u[i] == t[k + i] == s[sp + k + i];
      }
      assert u == v;
    }
  }

  /** An occurrence of `a + b + c` starts with an occurrence of `a` and
      has `c` right after `b`. */
  lemma SplitOccurrence(s: string, a: string, b: string, c: string, q: int)
    ensures OccursAt(s, a + b + c, q) ==>
              OccursAt(s, a, q) && OccursAt(s, c, q + |a| + |b|)
  {
    if OccursAt(s, a + b + c, q) {
      assert s[q..q + |a|] == (a + b + c)[..|a|];
      assert s[q + |a| + |b|..q + |a + b + c|] == (a + b + c)[|a| + |b|..];
    }
  }

  /** An occurrence at or after `sp` is an occurrence in `s[sp..]`. */
  lemma OccursInSuffix(s: string, p: string, sp: nat, at: int)
    requires sp <= |s|
    ensures OccursAt(s, p, at) && at >= sp ==> OccursAt(s[sp..], p, at - sp)
  {
    if OccursAt(s, p, at) && at >= sp {
      assert s[sp..][at - sp..at - sp + |p|] == s[at..at + |p|];
    }
  }

  /** The quirk: when `sub2` occurs only before the first `sub1`, the text
      to remove cannot occur and the string stays the same. */
  lemma NotFramedKeeps(s: string, sub1: string, sub2: string)
    requires BothOccur(s, sub1, sub2)
    requires !Framed(s, sub1, sub2)
    ensures Remove(s, sub1, sub2) == s
  {
    var item := Extract(s, sub1, sub2).value;
    RemovalAbsent(s, sub1, sub2, item);
    assert !Contains(s, sub1 + item + sub2);
  }

  /** Without a `sub2` after the first `sub1`, no text framed by the two
      delimiters occurs anywhere. */
  lemma RemovalAbsent(s: string, sub1: string, sub2: string, item: string)
    requires Contains(s, sub1) && !Framed(s, sub1, sub2)
    ensures forall q :: !OccursAt(s, sub1 + item + sub2, q)
  {
    var sp := Start(s, sub1);
    forall q
      ensures !OccursAt(s, sub1 + item + sub2, q)
    {
      SplitOccurrence(s, sub1, item, sub2, q);
      OccursInSuffix(s, sub2, sp, q + |sub1| + |item|);
    }
  }

  /** ... and so extraction never ends. */
  lemma NotFramedDiverges(s: string, sub1: string, sub2: string)
    requires BothOccur(s, sub1, sub2)
    requires !Framed(s, sub1, sub2)
    ensures Get(s, sub1, sub2) == Failure(Diverges)
  {
    NotFramedKeeps(s, sub1, sub2);
  }

  /** In the well-behaved case the removal cuts out exactly the first
      `sub1`, the item and the `sub2` that ends it. */
  lemma FramedRemoval(s: string, sub1: string, sub2: string)
    requires BothOccur(s, sub1, sub2) && Framed(s, sub1, sub2)
    ensures var p := IndexOf(s, sub1);
      var tp := Start(s, sub1) + IndexOf(s[Start(s, sub1)..], sub2);
      && Extract(s, sub1, sub2) == Some(s[Start(s, sub1)..tp])
      && Remove(s, sub1, sub2) == s[..p] + s[tp + |sub2|..]
  {
    var p := IndexOf(s, sub1);
    var sp := Start(s, sub1);
    var tp := sp + IndexOf(s[sp..], sub2);
    var item := s[sp..tp];
    assert Extract(s, sub1, sub2) == Some(item);
    var removal := sub1 + item + sub2;
    assert IndexOf(s, removal) == p by {
      FramedEnd(s, sub1, sub2);
      RemovalAt(s, sub1, sub2, p, tp);
      NoEarlierRemoval(s, sub1, item, sub2, p);
      IndexOfAt(s, removal, p);
    }
    assert Remove(s, sub1, sub2) == ReplaceFirst(s, removal, "");
    CutAt(s, removal, p);
  }

  /** The opening delimiter at `p`, the closing one at `tp`, and what lies
      between them form one occurrence of the whole framed text. */
  lemma RemovalAt(s: string, sub1: string, sub2: string, p: nat, tp: nat)
    requires OccursAt(s, sub1, p) && p + |sub1| <= tp && OccursAt(s, sub2, tp)
    ensures OccursAt(s, sub1 + s[p + |sub1|..tp] + sub2, p)
  {
    var sp := p + |sub1|;
    var removal := sub1 + s[sp..tp] + sub2;
    assert s[p..p + |removal|] == s[p..sp] + s[sp..tp] + s[tp..tp + |sub2|];
  }

  /** The framed text cannot occur before the first opening delimiter. */
  lemma NoEarlierRemoval(s: string, a: string, b: string, c: string, p: nat)
    requires forall j :: 0 <= j < p ==> !OccursAt(s, a, j)
    ensures forall j :: 0 <= j < p ==> !OccursAt(s, a + b + c, j)
  {
    forall j | 0 <= j < p
      ensures !OccursAt(s, a + b + c, j)
    {
      SplitOccurrence(s, a, b, c, j);
    }
  }

  /** A closing delimiter before the opening one makes extraction run
      forever. */
  lemma ClosingFirstDiverges()
    ensures Get(")(", "(", ")") == Failure(Diverges)
  {
    assert OccursAt(")(", "(", 1) && OccursAt(")(", ")", 0);
    assert IndexOf(")(", "(") == 1;
    assert ")("[2..] == "";
    NotFramedDiverges(")(", "(", ")");
  }
}
