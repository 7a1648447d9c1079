/**
 * The dropdown builders of blockly-solidity/blocks/contract.js that list
 * external contracts, libraries and their functions from the descriptor
 * database the editor loads (`jsonObjFull`, and in registry mode the
 * per-type lists `jsonObjContracts` and `jsonObjLibs`). A database that
 * failed to load is `None`; each record is reduced to the fields the
 * builders read from `JSON.contract.descriptor`.
 */
module Dropdowns {
  import opened Wrappers
  import Strings

  /** An ABI entry: its `type` and `name`. */
  datatype AbiEntry = AbiEntry(kind: string, name: string)

  /** A database record: `name`, `contract_type` and `abi` of its
      descriptor. */
  datatype DbEntry = DbEntry(name: string, contractType: string, abi: seq<AbiEntry>)

  /** A dropdown option: the label shown and the value stored, here always
      equal. */
  type Choice = (string, string)

  function Pair(n: string): Choice
  {
    (n, n)
  }

  const LibOrContractPlaceholder: string := "select external contract or library..."
  const FunctionPlaceholder: string := "select function..."
  const NoFunctions: string := "No functions available"
  const ContractPlaceholder: string := "select external contract..."
  const LibraryPlaceholder: string := "select library..."
  const UsingOraclize: string := "usingOraclize"
  const GenericContract: string := "generic_contract"
  const Library: string := "library"

  /** The record filters the builders use. */
  predicate Any(e: DbEntry)
  {
    true
  }

  predicate IsGenericContract(e: DbEntry)
  {
    e.contractType == GenericContract
  }

  predicate IsLibrary(e: DbEntry)
  {
    e.contractType == Library
  }

  predicate NotOraclize(e: DbEntry)
  {
    e.name != UsingOraclize
  }

  /** The names of the records `keep` accepts, in database order. */
  function Listed(entries: seq<DbEntry>, keep: DbEntry -> bool): (r: seq<Choice>)
    ensures |r| <= |entries|
    ensures forall i :: 0 <= i < |r| ==> r[i].0 == r[i].1
    ensures forall n :: Pair(n) in r <==> exists e :: e in entries && keep(e) && e.name == n
    decreases |entries|
  {
    if |entries| == 0 then []
    else
      var rest := Listed(entries[1..], keep);
      assert forall e :: e in entries[1..] ==> e in entries;
      assert forall e :: e in entries ==> e == entries[0] || e in entries[1..];
      if keep(entries[0]) then [Pair(entries[0].name)] + rest else rest
  }

  /** Listing keeps database order and multiplicity: the options of two
      consecutive parts are the options of the first followed by those of
      the second, and one record gives its name exactly when `keep` accepts
      it. */
  lemma {:induction false} ListedAppend(a: seq<DbEntry>, b: seq<DbEntry>, keep: DbEntry -> bool)
    ensures Listed(a + b, keep) == Listed(a, keep) + Listed(b, keep)
    ensures |a| == 1 ==> Listed(a, keep) == (if keep(a[0]) then [Pair(a[0].name)] else [])
    decreases |a|
  {
    if |a| == 0 {
      assert a + b == b;
    } else {
      assert (a + b)[0] == a[0] && (a + b)[1..] == a[1..] + b;
      var head := if keep(a[0]) then [Pair(a[0].name)] else [];
      assert Listed(a + b, keep) == head + Listed(a[1..] + b, keep);
      assert Listed(a[1..] + b, keep) == Listed(a[1..], keep) + Listed(b, keep) by {
        ListedAppend(a[1..], b, keep);
      }
      assert Listed(a, keep) == head + Listed(a[1..], keep);
      Strings.ConsAssoc(head, Listed(a[1..], keep), Listed(b, keep));
      if |a| == 1 {
        assert a[1..] == [];
      }
    }
  }

  /** `dynamicLibsAndContractsList()`: the placeholder, then every record's
      name; `usingOraclize` is left out unless the workspace has an Oraclize
      query block. */
  function LibsAndContractsList(db: Option<seq<DbEntry>>, hasOraclizeQuery: bool): (r: seq<Choice>)
    ensures |r| >= 1 && r[0] == Pair(LibOrContractPlaceholder)
    ensures db.None? ==> r == [Pair(LibOrContractPlaceholder)]
    ensures db.Some? && hasOraclizeQuery ==> |r| == 1 + |db.value|
    ensures db.Some? && hasOraclizeQuery ==> forall i :: 0 <= i < |db.value| ==> r[i + 1] == Pair(db.value[i].name)
    ensures db.Some? && !hasOraclizeQuery ==> r[1..] == Listed(db.value, NotOraclize)
    ensures db.Some? ==> forall n :: Pair(n) in r[1..] <==>
              exists e :: e in db.value && e.name == n && (hasOraclizeQuery || n != UsingOraclize)
  {
    match db
    case None => [Pair(LibOrContractPlaceholder)]
    case Some(entries) =>
      if hasOraclizeQuery then
        ListedAll(entries, Any);
        [Pair(LibOrContractPlaceholder)] + Listed(entries, Any)
      else
        [Pair(LibOrContractPlaceholder)] + Listed(entries, NotOraclize)
  }

  /** When every record is accepted there is one option per record: its
      name, at its position. */
  lemma {:induction false} ListedAll(entries: seq<DbEntry>, keep: DbEntry -> bool)
    requires forall e :: e in entries ==> keep(e)
    ensures |Listed(entries, keep)| == |entries|
    ensures forall i :: 0 <= i < |entries| ==> Listed(entries, keep)[i] == Pair(entries[i].name)
    decreases |entries|
  {
    if |entries| > 0 {
      assert entries[0] in entries;
      assert forall e :: e in entries[1..] ==> e in entries;
      var rest := Listed(entries[1..], keep);
      assert NamesAt(entries[1..], rest) by {
        ListedAll(entries[1..], keep);
      }
      assert Listed(entries, keep) == [Pair(entries[0].name)] + rest;
      NamesAtCons(entries, rest);
    }
  }

  /** `r` holds one option per record, each record's name at its position. */
  predicate NamesAt(entries: seq<DbEntry>, r: seq<Choice>)
  {
    |r| == |entries| && forall i :: 0 <= i < |entries| ==> r[i] == Pair(entries[i].name)
  }

  /** The first record's name in front of the others' names. */
  lemma NamesAtCons(entries: seq<DbEntry>, rest: seq<Choice>)
    requires |entries| > 0 && NamesAt(entries[1..], rest)
    ensures NamesAt(entries, [Pair(entries[0].name)] + rest)
  {
    assert forall i :: 1 <= i < |entries| ==> entries[i] == entries[1..][i - 1];
  }

  /** The options one record's ABI contributes: a function its name, a
      constructor the selected name, anything else nothing; in ABI order. */
  function AbiChoices(abi: seq<AbiEntry>, libName: string): (r: seq<Choice>)
    ensures |r| <= |abi|
    ensures forall i :: 0 <= i < |r| ==> r[i].0 == r[i].1
    ensures forall n :: Pair(n) in r <==>
              (exists a :: a in abi && a.kind == "function" && a.name == n)
              || (n == libName && exists a :: a in abi && a.kind == "constructor")
    decreases |abi|
  {
    if |abi| == 0 then []
    else
      var rest := AbiChoices(abi[1..], libName);
      assert forall a :: a in abi <==> a == abi[0] || a in abi[1..];
      if abi[0].kind == "function" then [Pair(abi[0].name)] + rest
      else if abi[0].kind == "constructor" then [Pair(libName)] + rest
      else rest
  }

  /** The ABI options keep ABI order and multiplicity: one entry per
      function or constructor, none for anything else. */
  lemma {:induction false} AbiChoicesAppend(a: seq<AbiEntry>, b: seq<AbiEntry>, libName: string)
    ensures AbiChoices(a + b, libName) == AbiChoices(a, libName) + AbiChoices(b, libName)
    ensures |a| == 1 ==> AbiChoices(a, libName) == AbiChoice(a[0], libName)
    decreases |a|
  {
    if |a| == 0 {
      assert a + b == b;
    } else {
      assert (a + b)[0] == a[0] && (a + b)[1..] == a[1..] + b;
      var head := AbiChoice(a[0], libName);
      assert AbiChoices(a + b, libName) == head + AbiChoices(a[1..] + b, libName) by {
        AbiChoicesCons(a + b, libName);
      }
      assert AbiChoices(a[1..] + b, libName) == AbiChoices(a[1..], libName) + AbiChoices(b, libName) by {
        AbiChoicesAppend(a[1..], b, libName);
      }
      assert AbiChoices(a, libName) == head + AbiChoices(a[1..], libName) by {
        AbiChoicesCons(a, libName);
      }
      Strings.ConsAssoc(head, AbiChoices(a[1..], libName), AbiChoices(b, libName));
      if |a| == 1 {
        assert a[1..] == [];
      }
    }
  }

  lemma AbiChoicesCons(a: seq<AbiEntry>, libName: string)
    requires |a| > 0
    ensures AbiChoices(a, libName) == AbiChoice(a[0], libName) + AbiChoices(a[1..], libName)
  {
  }

  /** What one ABI entry contributes. */
  function AbiChoice(a: AbiEntry, libName: string): seq<Choice>
  {
    if a.kind == "function" then [Pair(a.name)]
    else if a.kind == "constructor" then [Pair(libName)]
    else []
  }

  /** The options of every record named `libName`, in database order. */
  function FunctionsOf(entries: seq<DbEntry>, libName: string): (r: seq<Choice>)
    ensures forall i :: 0 <= i < |r| ==> r[i].0 == r[i].1
    ensures forall c :: c in r <==> exists e :: e in entries && e.name == libName && c in AbiChoices(e.abi, libName)
    decreases |entries|
  {
    if |entries| == 0 then []
    else
      var rest := FunctionsOf(entries[1..], libName);
      assert forall e :: e in entries <==> e == entries[0] || e in entries[1..];
      if entries[0].name == libName then AbiChoices(entries[0].abi, libName) + rest else rest
  }

  /** The records are searched in database order: the options of two
      consecutive parts are those of the first followed by those of the
      second, and one record contributes its ABI options exactly when it
      has the selected name. */
  lemma {:induction false} FunctionsOfAppend(a: seq<DbEntry>, b: seq<DbEntry>, libName: string)
    ensures FunctionsOf(a + b, libName) == FunctionsOf(a, libName) + FunctionsOf(b, libName)
    ensures |a| == 1 ==> FunctionsOf(a, libName) == (if a[0].name == libName then AbiChoices(a[0].abi, libName) else [])
    decreases |a|
  {
    if |a| == 0 {
      assert a + b == b;
    } else {
      assert (a + b)[0] == a[0] && (a + b)[1..] == a[1..] + b;
      var head := if a[0].name == libName then AbiChoices(a[0].abi, libName) else [];
      assert FunctionsOf(a + b, libName) == head + FunctionsOf(a[1..] + b, libName);
      assert FunctionsOf(a[1..] + b, libName) == FunctionsOf(a[1..], libName) + FunctionsOf(b, libName) by {
        FunctionsOfAppend(a[1..], b, libName);
      }
      assert FunctionsOf(a, libName) == head + FunctionsOf(a[1..], libName);
      Strings.ConsAssoc(head, FunctionsOf(a[1..], libName), FunctionsOf(b, libName));
      if |a| == 1 {
        assert a[1..] == [];
      }
    }
  }

  /** `dynamicLibAndContractFunctsList(libName)`. Nothing selected (no name,
      or the placeholder) or no database gives the function placeholder; a
      selection without functions gives `No functions available`. */
  function LibAndContractFunctsList(db: Option<seq<DbEntry>>, libName: Option<string>): (r: seq<Choice>)
    ensures |r| >= 1
    ensures libName.None? || libName.value == LibOrContractPlaceholder || db.None? ==> r == [Pair(FunctionPlaceholder)]
    ensures libName.Some? && libName.value != LibOrContractPlaceholder && db.Some? ==>
              if FunctionsOf(db.value, libName.value) == [] then r == [Pair(NoFunctions)]
              else r == FunctionsOf(db.value, libName.value)
  {
    if libName.None? || libName.value == LibOrContractPlaceholder || db.None? then [Pair(FunctionPlaceholder)]
    else
      var found := FunctionsOf(db.value, libName.value);
      if |found| == 0 then [Pair(NoFunctions)] else found
  }

  /** With a single record of the selected name, its functions are listed
      by name and its constructor under the selected name, in ABI order. */
  lemma FunctionsOfOne(e: DbEntry, others: seq<DbEntry>, libName: string)
    requires e.name == libName
    requires forall o :: o in others ==> o.name != libName
    ensures FunctionsOf([e] + others, libName) == AbiChoices(e.abi, libName)
  {
    assert ([e] + others)[1..] == others;
    FunctionsOfNone(others, libName);
  }

  /** Records of other names contribute nothing. */
  lemma {:induction false} FunctionsOfNone(entries: seq<DbEntry>, libName: string)
    requires forall o :: o in entries ==> o.name != libName
    ensures FunctionsOf(entries, libName) == []
    decreases |entries|
  {
    if |entries| > 0 {
      assert entries[0] in entries;
      assert forall o :: o in entries[1..] ==> o in entries;
      FunctionsOfNone(entries[1..], libName);
    }
  }

  /** `dynamicContractsList()`: the placeholder, then the names of the
      `generic_contract` records of the full database (standalone mode) or
      every name of the registry's contract list (registry mode). */
  function ContractsList(apiMode: bool, full: Option<seq<DbEntry>>, contracts: Option<seq<DbEntry>>): (r: seq<Choice>)
    ensures |r| >= 1 && r[0] == Pair(ContractPlaceholder)
    ensures !apiMode && full.Some? ==> forall n :: Pair(n) in r[1..] <==>
              exists e :: e in full.value && e.contractType == GenericContract && e.name == n
    ensures !apiMode && full.Some? ==> r[1..] == Listed(full.value, IsGenericContract)
    ensures apiMode && contracts.Some? ==> |r| == 1 + |contracts.value|
    ensures apiMode && contracts.Some? ==> forall i :: 0 <= i < |contracts.value| ==> r[i + 1] == Pair(contracts.value[i].name)
    ensures (!apiMode && full.None?) || (apiMode && contracts.None?) ==> r == [Pair(ContractPlaceholder)]
  {
    if !apiMode then
      (match full
       case None => [Pair(ContractPlaceholder)]
       case Some(entries) => [Pair(ContractPlaceholder)] + Listed(entries, IsGenericContract))
    else
      (match contracts
       case None => [Pair(ContractPlaceholder)]
       case Some(entries) => ListedAll(entries, Any); [Pair(ContractPlaceholder)] + Listed(entries, Any))
  }

  /** `dynamicLibsList()`: as `dynamicContractsList`, for `library`
      records and the registry's library list. */
  function LibsList(apiMode: bool, full: Option<seq<DbEntry>>, libs: Option<seq<DbEntry>>): (r: seq<Choice>)
    ensures |r| >= 1 && r[0] == Pair(LibraryPlaceholder)
    ensures !apiMode && full.Some? ==> forall n :: Pair(n) in r[1..] <==>
              exists e :: e in full.value && e.contractType == Library && e.name == n
    ensures !apiMode && full.Some? ==> r[1..] == Listed(full.value, IsLibrary)
    ensures apiMode && libs.Some? ==> |r| == 1 + |libs.value|
    ensures apiMode && libs.Some? ==> forall i :: 0 <= i < |libs.value| ==> r[i + 1] == Pair(libs.value[i].name)
    ensures (!apiMode && full.None?) || (apiMode && libs.None?) ==> r == [Pair(LibraryPlaceholder)]
  {
    if !apiMode then
      (match full
       case None => [Pair(LibraryPlaceholder)]
       case Some(entries) => [Pair(LibraryPlaceholder)] + Listed(entries, IsLibrary))
    else
      (match libs
       case None => [Pair(LibraryPlaceholder)]
       case Some(entries) => ListedAll(entries, Any); [Pair(LibraryPlaceholder)] + Listed(entries, Any))
  }
}
