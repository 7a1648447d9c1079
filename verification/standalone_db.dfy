/**
 * standalone-mode/smartContractDescriptorsParser.py: bundles every contract
 * descriptor with the Solidity source it was compiled from into
 * `{name, contract_type, JSON, code}` records, written as one JSON array
 * (`smartContractDescriptorsDB.json`) that the editor loads in standalone
 * mode.
 */
module StandaloneDb {
  import opened Wrappers
  import opened Strings
  import opened Json
  import opened Aggregation
  import MC = MetadataConverter

  /** The folder holding the Solidity sources. */
  const ContractsFolder: string := "contracts/"

  /** Where the script looks for a descriptor's source: the folder plus the
      entry name with every `.json` replaced by `.sol`. */
  function SourcePath(fileName: string): (r: string)
    ensures |r| >= |ContractsFolder| && r[..|ContractsFolder|] == ContractsFolder
  {
    ContractsFolder + ReplaceAll(fileName, ".json", ".sol")
  }

  /** For an ordinary descriptor name `X.json` (no other `.json` inside),
      the source is `contracts/X.sol`. */
  lemma SourcePathOfDescriptor(stem: string)
    requires forall j :: 0 <= j < |stem| ==> !OccursAt(stem + ".json", ".json", j)
    ensures SourcePath(stem + ".json") == ContractsFolder + stem + ".sol"
  {
    ReplaceAllSuffix(stem, ".json", ".sol");
  }

  /** One record. The source file is opened before the descriptor's fields
      are read, so a missing source is reported first. The source files are
      given as a map from path to text. */
  function Record(fileName: string, data: Json, sources: map<string, string>): (r: Result<Json, Fault>)
    ensures SourcePath(fileName) !in sources ==> r == Failure(FileNotFound(SourcePath(fileName)))
    ensures r.Success? <==>
              && SourcePath(fileName) in sources
              && At(data, ["contract", "descriptor", "name"]).Some?
              && At(data, ["contract", "descriptor", "contract_type"]).Some?
    ensures r.Success? ==>
              && r.value.Obj? && Names(r.value.fields) == ["name", "contract_type", "JSON", "code"]
              && At(r.value, ["name"]) == At(data, ["contract", "descriptor", "name"])
              && At(r.value, ["contract_type"]) == At(data, ["contract", "descriptor", "contract_type"])
              && At(r.value, ["JSON"]) == Some(data)
              && At(r.value, ["code"]) == Some(Str(sources[SourcePath(fileName)]))
  {
    var path := SourcePath(fileName);
    if path !in sources then Failure(FileNotFound(path))
    else
      var contract :- Get(data, "contract");
      var descriptor :- Get(contract, "descriptor");
      var name :- Get(descriptor, "name");
      var contractType :- Get(descriptor, "contract_type");
      var fields := [("name", name), ("contract_type", contractType), ("JSON", data), ("code", Str(sources[path]))];
      AtOwnField(fields, 0);
      AtOwnField(fields, 1);
      AtOwnField(fields, 2);
      AtOwnField(fields, 3);
      Success(Obj(fields))
  }

  /** The loop of the script: `make` applied to every entry, the results
      appended in order; the first failure aborts. */
  function Collect(entries: Listing, make: (string, Json) -> Result<Json, Fault>): (r: Result<seq<Json>, Fault>)
    ensures r.Success? <==> forall i :: 0 <= i < |entries| ==> make(entries[i].0, entries[i].1).Success?
    ensures r.Success? ==> |r.value| == |entries|
    ensures r.Success? ==>
              forall i :: 0 <= i < |entries| ==> Success(r.value[i]) == make(entries[i].0, entries[i].1)
    ensures r.Failure? ==> exists i :: 0 <= i < |entries| && make(entries[i].0, entries[i].1) == Failure(r.error)
                              && forall j :: 0 <= j < i ==> make(entries[j].0, entries[j].1).Success?
    decreases |entries|
  {
    if |entries| == 0 then Success([])
    else
      var head := make(entries[0].0, entries[0].1);
      var tail := Collect(entries[1..], make);
      assert forall i :: 1 <= i < |entries| ==> entries[i] == entries[1..][i - 1];
      if head.Failure? then
        assert make(entries[0].0, entries[0].1) == Failure(head.error);
        Failure(head.error)
      else if tail.Failure? then
        var k :| 0 <= k < |entries[1..]| && make(entries[1..][k].0, entries[1..][k].1) == Failure(tail.error)
                 && forall j :: 0 <= j < k ==> make(entries[1..][j].0, entries[1..][j].1).Success?;
        assert make(entries[k + 1].0, entries[k + 1].1) == Failure(tail.error);
        assert forall j :: 0 <= j < k + 1 ==> make(entries[j].0, entries[j].1).Success?;
        Failure(tail.error)
      else
        var records := [head.value] + tail.value;
        assert forall i :: 1 <= i < |entries| ==> records[i] == tail.value[i - 1];
        Success(records)
  }

  /** The records of the given entries, in order; the first failure aborts. */
  function Records(entries: Listing, sources: map<string, string>): (r: Result<seq<Json>, Fault>)
    ensures r.Success? <==> forall i :: 0 <= i < |entries| ==> Record(entries[i].0, entries[i].1, sources).Success?
    ensures r.Success? ==> |r.value| == |entries|
    ensures r.Success? ==>
              forall i :: 0 <= i < |entries| ==> Success(r.value[i]) == Record(entries[i].0, entries[i].1, sources)
    ensures r.Failure? ==> exists i :: 0 <= i < |entries| && Record(entries[i].0, entries[i].1, sources) == Failure(r.error)
                              && forall j :: 0 <= j < i ==> Record(entries[j].0, entries[j].1, sources).Success?
  {
    Collect(entries, (name, data) => Record(name, data, sources))
  }

  /** The whole script: a JSON array with one record per listing entry other
      than `.DS_Store`, in listing order. */
  function Db(dir: Listing, sources: map<string, string>): (r: Result<Json, Fault>)
    ensures r.Success? <==>
              forall i :: 0 <= i < |MC.Kept(dir)| ==> Record(MC.Kept(dir)[i].0, MC.Kept(dir)[i].1, sources).Success?
    ensures r.Success? ==> r.value.Arr? && |r.value.items| == |MC.Kept(dir)|
    ensures r.Success? ==> forall i :: 0 <= i < |MC.Kept(dir)| ==>
              Success(r.value.items[i]) == Record(MC.Kept(dir)[i].0, MC.Kept(dir)[i].1, sources)
    ensures r.Failure? ==> exists i :: 0 <= i < |MC.Kept(dir)| && Record(MC.Kept(dir)[i].0, MC.Kept(dir)[i].1, sources) == Failure(r.error)
                              && forall j :: 0 <= j < i ==> Record(MC.Kept(dir)[j].0, MC.Kept(dir)[j].1, sources).Success?
  {
    var kept := MC.Kept(dir);
    var records := Records(kept, sources);
    if records.Success? then Success(Arr(records.value))
    else
      assert !forall i :: 0 <= i < |kept| ==> Record(kept[i].0, kept[i].1, sources).Success?;
      Failure(records.error)
  }

  /** A descriptor produced by the metadata converter bundles into a record
      named after the compilation target, of type `generic_contract`, that
      embeds the descriptor unchanged. */
  lemma BundleConverted(fileName: string, metadata: Json, sources: map<string, string>)
    requires MC.Convert(metadata).Success?
    requires SourcePath(fileName) in sources
    ensures Record(fileName, MC.Convert(metadata).value, sources).Success?
    ensures At(metadata, ["settings", "compilationTarget"]).Some?
    ensures FirstValue(At(metadata, ["settings", "compilationTarget"]).value).Success?
    ensures var rec := Record(fileName, MC.Convert(metadata).value, sources).value;
      && At(rec, ["name"]) == Some(FirstValue(At(metadata, ["settings", "compilationTarget"]).value).value)
      && At(rec, ["contract_type"]) == Some(Str(MC.GenericContract))
      && At(rec, ["JSON"]) == Some(MC.Convert(metadata).value)
  {
    MC.ConvertedDescriptor(metadata);
  }
}
