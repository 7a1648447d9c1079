/**
 * The loop every `extractMethods` variant runs over an ABI: walk the entries
 * in order; a `function` entry contributes its `name`, a `constructor` entry
 * contributes a name chosen by the caller (derived from the file name), every
 * other entry contributes nothing. The variants differ only in where they
 * find the ABI and how they derive the constructor's name; those live in the
 * modules of the scripts themselves.
 */
module AbiMethods {
  import opened Wrappers
  import opened Json

  /** `method['type'] == 'function'`: the entry is a dict whose `type` is the
      string `function`. */
  predicate IsFunctionEntry(m: Json)
  {
    m.Obj? && Find(m.fields, "type") == Some(Str("function"))
  }

  predicate IsConstructorEntry(m: Json)
  {
    m.Obj? && Find(m.fields, "type") == Some(Str("constructor"))
  }

  /** An entry the loop can read without raising: a dict with a `type`,
      and with a `name` when it is a function. */
  predicate ReadableEntry(m: Json)
  {
    m.Obj? && "type" in Keys(m.fields) && (IsFunctionEntry(m) ==> "name" in Keys(m.fields))
  }

  /** The names one ABI entry contributes. */
  function EntryMethods(m: Json, ctorName: string): (r: Result<seq<Json>, Fault>)
    ensures r.Success? <==> ReadableEntry(m)
    ensures IsFunctionEntry(m) && r.Success? ==> r.value == [Find(m.fields, "name").value]
    ensures IsConstructorEntry(m) ==> r == Success([Str(ctorName)])
    ensures ReadableEntry(m) && !IsFunctionEntry(m) && !IsConstructorEntry(m) ==> r == Success([])
  {
    var t :- Get(m, "type");
    if t == Str("function") then
      var n :- Get(m, "name");
      Success([n])
    else if t == Str("constructor") then Success([Str(ctorName)])
    else Success([])
  }

  /** The method-name list of an ABI, in ABI order; the first unreadable
      entry aborts with its error. */
  function CollectMethods(abi: seq<Json>, ctorName: string): (r: Result<seq<Json>, Fault>)
    ensures r.Success? <==> forall i :: 0 <= i < |abi| ==> ReadableEntry(abi[i])
    ensures |abi| == 0 ==> r == Success([])
    decreases |abi|
  {
    if |abi| == 0 then Success([])
    else
      var head :- EntryMethods(abi[0], ctorName);
      var rest :- CollectMethods(abi[1..], ctorName);
      Success(head + rest)
  }

  /** Sequencing of two partial results: the first error wins, otherwise the
      lists are concatenated. */
  function Then(a: Result<seq<Json>, Fault>, b: Result<seq<Json>, Fault>): Result<seq<Json>, Fault>
  {
    match a
    case Failure(e) => Failure(e)
    case Success(x) =>
      match b
      case Failure(e) => Failure(e)
      case Success(y) => Success(x + y)
  }

  /** The extraction of a concatenated ABI is the extraction of the first
      part followed by that of the second: names stay in ABI order, and with
      `CollectSingle` this determines the list completely. */
  lemma {:induction false} CollectAppend(a: seq<Json>, b: seq<Json>, ctorName: string)
    ensures CollectMethods(a + b, ctorName) ==
            Then(CollectMethods(a, ctorName), CollectMethods(b, ctorName))
    decreases |a|
  {
    if |a| == 0 {
      assert a + b == b;
      var rb := CollectMethods(b, ctorName);
      if rb.Success? {
        assert [] + rb.value == rb.value;
      }
    } else {
      assert (a + b)[0] == a[0];
      assert (a + b)[1..] == a[1..] + b;
      CollectAppend(a[1..], b, ctorName);
      var h := EntryMethods(a[0], ctorName);
      var ra := CollectMethods(a[1..], ctorName);
      var rb := CollectMethods(b, ctorName);
      if h.Success? && ra.Success? && rb.Success? {
        assert h.value + (ra.value + rb.value) == (h.value + ra.value) + rb.value;
      }
    }
  }

  /** One entry alone yields exactly its own contribution. */
  lemma CollectSingle(m: Json, ctorName: string)
    ensures CollectMethods([m], ctorName) == EntryMethods(m, ctorName)
  {
    assert [m][1..] == [];
    var h := EntryMethods(m, ctorName);
    if h.Success? {
      assert h.value + [] == h.value;
    }
  }

  /** On success, a value is in the list exactly when it is the name of a
      function entry, or the constructor name and the ABI has a
      constructor entry. */
  lemma {:induction false} CollectMembership(abi: seq<Json>, ctorName: string, x: Json)
    requires CollectMethods(abi, ctorName).Success?
    ensures x in CollectMethods(abi, ctorName).value <==>
            ((exists i | 0 <= i < |abi| :: IsFunctionEntry(abi[i]) && Find(abi[i].fields, "name") == Some(x))
             || (x == Str(ctorName) && exists i | 0 <= i < |abi| :: IsConstructorEntry(abi[i])))
    decreases |abi|
  {
    if |abi| > 0 {
      assert ReadableEntry(abi[0]);
      CollectMembership(abi[1..], ctorName, x);
      assert forall i | 0 <= i < |abi[1..]| :: abi[1..][i] == abi[i + 1];
      var here := (IsFunctionEntry(abi[0]) && Find(abi[0].fields, "name") == Some(x))
                  || (x == Str(ctorName) && IsConstructorEntry(abi[0]));
      assert x in EntryMethods(abi[0], ctorName).value <==> here;
      if (exists i | 0 <= i < |abi| :: IsFunctionEntry(abi[i]) && Find(abi[i].fields, "name") == Some(x)) {
        var i :| 0 <= i < |abi| && IsFunctionEntry(abi[i]) && Find(abi[i].fields, "name") == Some(x);
        if i > 0 {
          assert IsFunctionEntry(abi[1..][i - 1]) && Find(abi[1..][i - 1].fields, "name") == Some(x);
        }
      }
      if (exists i | 0 <= i < |abi| :: IsConstructorEntry(abi[i])) {
        var i :| 0 <= i < |abi| && IsConstructorEntry(abi[i]);
        if i > 0 {
          assert IsConstructorEntry(abi[1..][i - 1]);
        }
      }
    }
  }

  /** The number of `function` and `constructor` entries in an ABI. */
  function CountMethodEntries(abi: seq<Json>): nat
  {
    if |abi| == 0 then 0
    else (if IsFunctionEntry(abi[0]) || IsConstructorEntry(abi[0]) then 1 else 0)
         + CountMethodEntries(abi[1..])
  }

  /** The extraction keeps exactly one name per `function` or `constructor`
      entry. */
  lemma {:induction false} CollectLength(abi: seq<Json>, ctorName: string)
    requires CollectMethods(abi, ctorName).Success?
    ensures |CollectMethods(abi, ctorName).value| == CountMethodEntries(abi)
    decreases |abi|
  {
    if |abi| > 0 {
      assert ReadableEntry(abi[0]);
      CollectLength(abi[1..], ctorName);
    }
  }
}

/**
 * The aggregation loop the parser scripts share: walk the directory listing
 * in order; a per-entry step either skips the entry or yields a key and a
 * method list, stored with Python `d[key] = value`; the first error aborts
 * the run and nothing is written.
 */
module Aggregation {
  import opened Wrappers
  import opened Json

  /** A directory listing: file names in listing order, each with its
      parsed content. */
  type Listing = seq<(string, Json)>

  /** What one script does with one listing entry: skip it (`None`), give a
      key and its method list, or raise. */
  type Step = (string, Json) -> Result<Option<(string, seq<Json>)>, Fault>

  /** The step yields a key for entry `i`. */
  predicate Yields(dir: Listing, step: Step, i: int)
    requires 0 <= i < |dir|
  {
    step(dir[i].0, dir[i].1).Success? && step(dir[i].0, dir[i].1).value.Some?
  }

  /** The keys the steps yield over the whole listing. */
  ghost function YieldedKeys(dir: Listing, step: Step): set<string>
  {
    set i | 0 <= i < |dir| && Yields(dir, step, i) :: step(dir[i].0, dir[i].1).value.value.0
  }

  function Fold(dir: Listing, step: Step, acc: Dict<seq<Json>>): (r: Result<Dict<seq<Json>>, Fault>)
    requires acc.Valid()
    ensures r.Success? ==> r.value.Valid()
    ensures r.Success? <==> forall i :: 0 <= i < |dir| ==> step(dir[i].0, dir[i].1).Success?
    decreases |dir|
  {
    if |dir| == 0 then Success(acc)
    else
      var out :- step(dir[0].0, dir[0].1);
      match out
      case None => Fold(dir[1..], step, acc)
      case Some(kv) => Fold(dir[1..], step, acc.Set(kv.0, kv.1))
  }

  /** On failure, the error is that of the first entry whose step raised. */
  lemma {:induction false} FoldFirstError(dir: Listing, step: Step, acc: Dict<seq<Json>>)
    requires acc.Valid()
    requires Fold(dir, step, acc).Failure?
    ensures exists i | 0 <= i < |dir| ::
              step(dir[i].0, dir[i].1) == Failure(Fold(dir, step, acc).error)
              && forall j | 0 <= j < i :: step(dir[j].0, dir[j].1).Success?
    decreases |dir|
  {
    var s0 := step(dir[0].0, dir[0].1);
    if s0.Failure? {
      assert step(dir[0].0, dir[0].1) == Failure(Fold(dir, step, acc).error);
    } else {
      var acc' := if s0.value.None? then acc else acc.Set(s0.value.value.0, s0.value.value.1);
      assert Fold(dir, step, acc) == Fold(dir[1..], step, acc');
      FoldFirstError(dir[1..], step, acc');
      var i :| 0 <= i < |dir[1..]| && step(dir[1..][i].0, dir[1..][i].1) == Failure(Fold(dir, step, acc).error)
               && forall j | 0 <= j < i :: step(dir[1..][j].0, dir[1..][j].1).Success?;
      assert step(dir[i + 1].0, dir[i + 1].1) == Failure(Fold(dir, step, acc).error);
      forall j | 0 <= j < i + 1
        ensures step(dir[j].0, dir[j].1).Success?
      {
        if j > 0 {
          assert dir[j] == dir[1..][j - 1];
        }
      }
    }
  }

  /** On success, the keys are those already present plus one per entry
      whose step yields one: skipped entries leave no key. */
  lemma {:induction false} FoldKeys(dir: Listing, step: Step, acc: Dict<seq<Json>>)
    requires acc.Valid()
    requires Fold(dir, step, acc).Success?
    ensures Fold(dir, step, acc).value.entries.Keys == acc.entries.Keys + YieldedKeys(dir, step)
    decreases |dir|
  {
    if |dir| > 0 {
      var s0 := step(dir[0].0, dir[0].1);
      var acc' := if s0.value.None? then acc else acc.Set(s0.value.value.0, s0.value.value.1);
      assert Fold(dir, step, acc) == Fold(dir[1..], step, acc');
      FoldKeys(dir[1..], step, acc');
      YieldedKeysCons(dir, step);
    }
  }

  lemma YieldedKeysCons(dir: Listing, step: Step)
    requires |dir| > 0
    ensures YieldedKeys(dir, step) ==
            YieldedKeys(dir[1..], step) + (if Yields(dir, step, 0) then {step(dir[0].0, dir[0].1).value.value.0} else {})
  {
    var tail := dir[1..];
    forall k | k in YieldedKeys(dir, step)
      ensures k in YieldedKeys(tail, step) + (if Yields(dir, step, 0) then {step(dir[0].0, dir[0].1).value.value.0} else {})
    {
      var i :| 0 <= i < |dir| && Yields(dir, step, i) && step(dir[i].0, dir[i].1).value.value.0 == k;
      if i > 0 {
        assert dir[i] == tail[i - 1];
        assert Yields(tail, step, i - 1);
      }
    }
    forall k | k in YieldedKeys(tail, step)
      ensures k in YieldedKeys(dir, step)
    {
      var i :| 0 <= i < |tail| && Yields(tail, step, i) && step(tail[i].0, tail[i].1).value.value.0 == k;
      assert tail[i] == dir[i + 1];
      assert Yields(dir, step, i + 1);
    }
  }

  /** On success, the entry that set a key last decides its value: Python's
      `d[key] = value` overwrites earlier values for the same key. */
  lemma {:induction false} FoldLastWins(dir: Listing, step: Step, acc: Dict<seq<Json>>, i: int)
    requires acc.Valid()
    requires Fold(dir, step, acc).Success?
    requires 0 <= i < |dir| && Yields(dir, step, i)
    requires forall j | i < j < |dir| && Yields(dir, step, j) ::
               step(dir[j].0, dir[j].1).value.value.0 != step(dir[i].0, dir[i].1).value.value.0
    ensures var kv := step(dir[i].0, dir[i].1).value.value;
            kv.0 in Fold(dir, step, acc).value.entries
            && Fold(dir, step, acc).value.entries[kv.0] == kv.1
    decreases |dir|
  {
    var s0 := step(dir[0].0, dir[0].1);
    var acc' := if s0.value.None? then acc else acc.Set(s0.value.value.0, s0.value.value.1);
    assert Fold(dir, step, acc) == Fold(dir[1..], step, acc');
    var kv := step(dir[i].0, dir[i].1).value.value;
    if i == 0 {
      assert acc'.entries[kv.0] == kv.1;
      FoldKeepsUntouched(dir[1..], step, acc', kv.0);
    } else {
      assert dir[i] == dir[1..][i - 1];
      forall j | i - 1 < j < |dir[1..]| && Yields(dir[1..], step, j)
        ensures step(dir[1..][j].0, dir[1..][j].1).value.value.0 != kv.0
      {
        assert dir[1..][j] == dir[j + 1];
        assert Yields(dir, step, j + 1);
      }
      FoldLastWins(dir[1..], step, acc', i - 1);
    }
  }

  /** A key no later step yields keeps the value it has. */
  lemma {:induction false} FoldKeepsUntouched(dir: Listing, step: Step, acc: Dict<seq<Json>>, k: string)
    requires acc.Valid()
    requires Fold(dir, step, acc).Success?
    requires k in acc.entries
    requires forall j | 0 <= j < |dir| && Yields(dir, step, j) :: step(dir[j].0, dir[j].1).value.value.0 != k
    ensures k in Fold(dir, step, acc).value.entries
    ensures Fold(dir, step, acc).value.entries[k] == acc.entries[k]
    decreases |dir|
  {
    if |dir| > 0 {
      var s0 := step(dir[0].0, dir[0].1);
      var acc' := if s0.value.None? then acc else acc.Set(s0.value.value.0, s0.value.value.1);
      assert Fold(dir, step, acc) == Fold(dir[1..], step, acc');
      if s0.value.Some? {
        assert Yields(dir, step, 0);
      }
      forall j | 0 <= j < |dir[1..]| && Yields(dir[1..], step, j)
        ensures step(dir[1..][j].0, dir[1..][j].1).value.value.0 != k
      {
        assert dir[1..][j] == dir[j + 1];
        assert Yields(dir, step, j + 1);
      }
      FoldKeepsUntouched(dir[1..], step, acc', k);
    }
  }

  /** A whole run: fold from the empty dict and serialise the dict as one
      JSON object in insertion order. */
  function Run(dir: Listing, step: Step): (r: Result<Json, Fault>)
    ensures r.Success? <==> forall i :: 0 <= i < |dir| ==> step(dir[i].0, dir[i].1).Success?
    ensures r.Success? ==> r.value.Obj?
  {
    var d :- Fold(dir, step, EmptyDict());
    Success(ListsToJson(d))
  }
}
