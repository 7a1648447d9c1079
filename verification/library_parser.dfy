/**
 * blockly-solidity/libraryParser.py: for every file in
 * `librariesDescriptors` except `.DS_Store` and `_template.jsx`, the method
 * names of the ABI found at the top-level `abi` key, keyed by the full file
 * name; a constructor entry contributes the full, unstripped file name. The
 * dict is written to `librariesList.json`.
 */
module LibraryParser {
  import opened Wrappers
  import opened Json
  import opened AbiMethods
  import opened Aggregation

  const DsStore: string := ".DS_Store"

  /** The template file kept in the libraries folder, also skipped. */
  const Template: string := "_template.jsx"

  /** `extractMethods(contractName)`: reads the ABI from the top-level `abi`. */
  function ExtractMethods(fileName: string, data: Json): (r: Result<seq<Json>, Fault>)
    ensures At(data, ["abi"]).None? ==> r.Failure?
    ensures At(data, ["abi"]).Some? && At(data, ["abi"]).value.Arr? ==>
              r == CollectMethods(At(data, ["abi"]).value.items, fileName)
  {
    var abi :- Get(data, "abi");
    var items :- Iterate(abi);
    CollectMethods(items, fileName)
  }

  predicate Skipped(fileName: string)
  {
    fileName == DsStore || fileName == Template
  }

  function Step(fileName: string, data: Json): (r: Result<Option<(string, seq<Json>)>, Fault>)
    ensures Skipped(fileName) ==> r == Success(None)
    ensures !Skipped(fileName) ==> (r.Success? <==> ExtractMethods(fileName, data).Success?)
    ensures !Skipped(fileName) && r.Success? ==>
              r.value == Some((fileName, ExtractMethods(fileName, data).value))
  {
    if fileName == DsStore then Success(None)
    else if fileName == Template then Success(None)
    else
      var methods :- ExtractMethods(fileName, data);
      Success(Some((fileName, methods)))
  }

  function BuildMap(dir: Listing): (r: Result<Dict<seq<Json>>, Fault>)
    ensures r.Success? ==> r.value.Valid()
    ensures r.Success? <==>
              forall i :: 0 <= i < |dir| && !Skipped(dir[i].0) ==> ExtractMethods(dir[i].0, dir[i].1).Success?
  {
    var r := Fold(dir, Step, EmptyDict());
    assert forall i :: 0 <= i < |dir| ==>
             (Step(dir[i].0, dir[i].1).Success? <==>
              (!Skipped(dir[i].0) ==> ExtractMethods(dir[i].0, dir[i].1).Success?));
    r
  }

  /** The keys are the full names of the entries other than `.DS_Store`
      and `_template.jsx`. */
  lemma MapKeys(dir: Listing)
    requires BuildMap(dir).Success?
    ensures BuildMap(dir).value.entries.Keys == set i | 0 <= i < |dir| && !Skipped(dir[i].0) :: dir[i].0
  {
    FoldKeys(dir, Step, EmptyDict());
    var want := set i | 0 <= i < |dir| && !Skipped(dir[i].0) :: dir[i].0;
    forall k | k in YieldedKeys(dir, Step)
      ensures k in want
    {
      var i :| 0 <= i < |dir| && Yields(dir, Step, i) && Step(dir[i].0, dir[i].1).value.value.0 == k;
      assert !Skipped(dir[i].0);
    }
    forall k | k in want
      ensures k in YieldedKeys(dir, Step)
    {
      var i :| 0 <= i < |dir| && !Skipped(dir[i].0) && dir[i].0 == k;
      assert Yields(dir, Step, i);
    }
  }

  /** Since a directory lists each name once and keys are not stripped,
      every kept entry's key holds that entry's own method list. */
  lemma MapValue(dir: Listing, i: int)
    requires BuildMap(dir).Success?
    requires forall a, b :: 0 <= a < b < |dir| ==> dir[a].0 != dir[b].0
    requires 0 <= i < |dir| && !Skipped(dir[i].0)
    ensures dir[i].0 in BuildMap(dir).value.entries
    ensures BuildMap(dir).value.entries[dir[i].0] == ExtractMethods(dir[i].0, dir[i].1).value
  {
    assert Yields(dir, Step, i);
    FoldLastWins(dir, Step, EmptyDict(), i);
  }
}
