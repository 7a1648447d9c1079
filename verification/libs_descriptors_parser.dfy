/**
 * external-contracts-importer/parser-scripts/LibsDescriptorsParser.py: like
 * ContractDescriptorsParser.py, but only descriptors whose
 * `contract.contract_type` is `library` get a key; the dict is written to
 * `LibsAndContractsList.json`. Its `extractMethods` is a verbatim copy of
 * the one in ContractDescriptorsParser.py (ABI under `contract.abi`,
 * constructor named after the file minus five characters), so the model
 * reuses that function.
 */
module LibsDescriptorsParser {
  import opened Wrappers
  import opened Json
  import opened AbiMethods
  import opened Aggregation
  import CDP = ContractDescriptorsParser

  /** The descriptor declares itself a library. */
  predicate IsLibrary(data: Json)
  {
    At(data, ["contract", "contract_type"]) == Some(Str("library"))
  }

  /** One pass of the loop: `.DS_Store` is skipped; otherwise the type test
      runs first (and raises when `contract.contract_type` is missing), and
      only a library's methods are extracted. */
  function Step(fileName: string, data: Json): (r: Result<Option<(string, seq<Json>)>, Fault>)
    ensures fileName == CDP.DsStore ==> r == Success(None)
    ensures fileName != CDP.DsStore && At(data, ["contract", "contract_type"]).None? ==> r.Failure?
    ensures fileName != CDP.DsStore && At(data, ["contract", "contract_type"]).Some? && !IsLibrary(data) ==>
              r == Success(None)
    ensures fileName != CDP.DsStore && IsLibrary(data) ==>
              (r.Success? <==> CDP.ExtractMethods(fileName, data).Success?)
    ensures fileName != CDP.DsStore && IsLibrary(data) && r.Success? ==>
              r.value == Some((CDP.StrippedName(fileName), CDP.ExtractMethods(fileName, data).value))
  {
    if fileName == CDP.DsStore then Success(None)
    else
      var contract :- Get(data, "contract");
      var contractType :- Get(contract, "contract_type");
      if contractType == Str("library") then
        var methods :- CDP.ExtractMethods(fileName, data);
        Success(Some((CDP.StrippedName(fileName), methods)))
      else Success(None)
  }

  function BuildMap(dir: Listing): (r: Result<Dict<seq<Json>>, Fault>)
    ensures r.Success? ==> r.value.Valid()
    ensures r.Success? <==> forall i :: 0 <= i < |dir| ==> Step(dir[i].0, dir[i].1).Success?
  {
    Fold(dir, Step, EmptyDict())
  }

  /** Only libraries get a key: the keys are exactly the stripped names of
      the entries other than `.DS_Store` whose `contract_type` is
      `library`. */
  lemma MapKeys(dir: Listing)
    requires BuildMap(dir).Success?
    ensures BuildMap(dir).value.entries.Keys ==
            set i | 0 <= i < |dir| && dir[i].0 != CDP.DsStore && IsLibrary(dir[i].1) :: CDP.StrippedName(dir[i].0)
  {
    FoldKeys(dir, Step, EmptyDict());
    YieldedAreLibraries(dir);
    LibrariesAreYielded(dir);
  }

  /** Every key the fold yields is the stripped name of a library entry. */
  lemma YieldedAreLibraries(dir: Listing)
    ensures forall k :: k in YieldedKeys(dir, Step) ==>
      k in set i | 0 <= i < |dir| && dir[i].0 != CDP.DsStore && IsLibrary(dir[i].1) :: CDP.StrippedName(dir[i].0)
  {
    forall k | k in YieldedKeys(dir, Step)
      ensures k in set i | 0 <= i < |dir| && dir[i].0 != CDP.DsStore && IsLibrary(dir[i].1) :: CDP.StrippedName(dir[i].0)
    {
      var i :| 0 <= i < |dir| && Yields(dir, Step, i) && Step(dir[i].0, dir[i].1).value.value.0 == k;
      assert dir[i].0 != CDP.DsStore && IsLibrary(dir[i].1);
    }
  }

  /** The stripped name of every library entry is a key the fold yields. */
  lemma LibrariesAreYielded(dir: Listing)
    requires BuildMap(dir).Success?
    ensures forall i :: 0 <= i < |dir| && dir[i].0 != CDP.DsStore && IsLibrary(dir[i].1) ==>
      CDP.StrippedName(dir[i].0) in YieldedKeys(dir, Step)
  {
    forall i | 0 <= i < |dir| && dir[i].0 != CDP.DsStore && IsLibrary(dir[i].1)
      ensures CDP.StrippedName(dir[i].0) in YieldedKeys(dir, Step)
    {
      assert Step(dir[i].0, dir[i].1).Success?;
      assert Yields(dir, Step, i);
    }
  }

  /** A library's key holds its method list, whose constructor entry (if
      any) is named exactly like the key. */
  lemma MapValue(dir: Listing, i: int)
    requires BuildMap(dir).Success?
    requires 0 <= i < |dir| && dir[i].0 != CDP.DsStore && IsLibrary(dir[i].1)
    requires forall j | i < j < |dir| && dir[j].0 != CDP.DsStore && IsLibrary(dir[j].1) ::
               CDP.StrippedName(dir[j].0) != CDP.StrippedName(dir[i].0)
    ensures CDP.StrippedName(dir[i].0) in BuildMap(dir).value.entries
    ensures BuildMap(dir).value.entries[CDP.StrippedName(dir[i].0)] == CDP.ExtractMethods(dir[i].0, dir[i].1).value
  {
    assert Step(dir[i].0, dir[i].1).Success?;
    assert Yields(dir, Step, i);
    forall j | i < j < |dir| && Yields(dir, Step, j)
      ensures Step(dir[j].0, dir[j].1).value.value.0 != Step(dir[i].0, dir[i].1).value.value.0
    {
      assert dir[j].0 != CDP.DsStore && IsLibrary(dir[j].1);
    }
    FoldLastWins(dir, Step, EmptyDict(), i);
  }
}
