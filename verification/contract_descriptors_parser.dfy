/**
 * external-contracts-importer/ContractDescriptorsParser.py: for every
 * descriptor file in `contract-descriptor-files` except `.DS_Store`, the
 * method names of the ABI found under `contract.abi`, keyed by the file name
 * without its last five characters (`.json`); the dict is written to
 * `BlocklyLibrariesList.json`.
 */
module ContractDescriptorsParser {
  import opened Wrappers
  import opened Strings
  import opened Json
  import opened AbiMethods
  import opened Aggregation

  /** The folder-metadata entry the directory loops skip. */
  const DsStore: string := ".DS_Store"

  /** How many characters `name[:-5]` strips: the length of `.json`. */
  const ExtensionLength: nat := 5

  /** The logical contract name of a descriptor file. */
  function StrippedName(fileName: string): (r: string)
    ensures EndsWith(fileName, ".json") ==> r + ".json" == fileName
    ensures |fileName| >= 5 ==> r == fileName[..|fileName| - 5]
    ensures |fileName| < 5 ==> r == ""
  {
    DropLast(fileName, ExtensionLength)
  }

  /** `extractMethods(contractName)`: reads the ABI from `contract.abi`; a
      constructor entry contributes the file name minus five characters. */
  function ExtractMethods(fileName: string, data: Json): (r: Result<seq<Json>, Fault>)
    ensures At(data, ["contract", "abi"]).None? ==> r.Failure?
    ensures At(data, ["contract", "abi"]).Some? && At(data, ["contract", "abi"]).value.Arr? ==>
              r == CollectMethods(At(data, ["contract", "abi"]).value.items, StrippedName(fileName))
  {
    var contract :- Get(data, "contract");
    var abi :- Get(contract, "abi");
    var items :- Iterate(abi);
    CollectMethods(items, StrippedName(fileName))
  }

  /** One pass of the directory loop. */
  function Step(fileName: string, data: Json): (r: Result<Option<(string, seq<Json>)>, Fault>)
    ensures fileName == DsStore ==> r == Success(None)
    ensures fileName != DsStore ==>
              (r.Success? <==> ExtractMethods(fileName, data).Success?)
    ensures fileName != DsStore && r.Success? ==>
              r.value == Some((StrippedName(fileName), ExtractMethods(fileName, data).value))
  {
    if fileName == DsStore then Success(None)
    else
      var methods :- ExtractMethods(fileName, data);
      Success(Some((StrippedName(fileName), methods)))
  }

  /** The whole script: the name-keyed dict, or the error that aborted it. */
  function BuildMap(dir: Listing): (r: Result<Dict<seq<Json>>, Fault>)
    ensures r.Success? ==> r.value.Valid()
    ensures r.Success? <==>
              forall i :: 0 <= i < |dir| && dir[i].0 != DsStore ==> ExtractMethods(dir[i].0, dir[i].1).Success?
  {
    var r := Fold(dir, Step, EmptyDict());
    assert forall i :: 0 <= i < |dir| ==>
             (Step(dir[i].0, dir[i].1).Success? <==>
              (dir[i].0 != DsStore ==> ExtractMethods(dir[i].0, dir[i].1).Success?));
    r
  }

  /** The output file `BlocklyLibrariesList.json`. */
  function Output(dir: Listing): (r: Result<Json, Fault>)
    ensures r.Success? <==> BuildMap(dir).Success?
    ensures r.Success? ==> r.value == ListsToJson(BuildMap(dir).value)
  {
    var d :- BuildMap(dir);
    Success(ListsToJson(d))
  }

  /** The dict has one key per listing entry other than `.DS_Store`: the
      entry's name minus its last five characters. */
  lemma MapKeys(dir: Listing)
    requires BuildMap(dir).Success?
    ensures BuildMap(dir).value.entries.Keys ==
            set i | 0 <= i < |dir| && dir[i].0 != DsStore :: StrippedName(dir[i].0)
  {
    FoldKeys(dir, Step, EmptyDict());
    var want := set i | 0 <= i < |dir| && dir[i].0 != DsStore :: StrippedName(dir[i].0);
    forall k | k in YieldedKeys(dir, Step)
      ensures k in want
    {
      var i :| 0 <= i < |dir| && Yields(dir, Step, i) && Step(dir[i].0, dir[i].1).value.value.0 == k;
      assert dir[i].0 != DsStore;
    }
    forall k | k in want
      ensures k in YieldedKeys(dir, Step)
    {
      var i :| 0 <= i < |dir| && dir[i].0 != DsStore && StrippedName(dir[i].0) == k;
      assert Yields(dir, Step, i);
    }
  }

  /** The value under an entry's key is that entry's method list, unless a
      later entry strips to the same key and overwrites it. */
  lemma MapValue(dir: Listing, i: int)
    requires BuildMap(dir).Success?
    requires 0 <= i < |dir| && dir[i].0 != DsStore
    requires forall j | i < j < |dir| && dir[j].0 != DsStore :: StrippedName(dir[j].0) != StrippedName(dir[i].0)
    ensures StrippedName(dir[i].0) in BuildMap(dir).value.entries
    ensures BuildMap(dir).value.entries[StrippedName(dir[i].0)] == ExtractMethods(dir[i].0, dir[i].1).value
  {
    assert Yields(dir, Step, i);
    FoldLastWins(dir, Step, EmptyDict(), i);
  }
}
