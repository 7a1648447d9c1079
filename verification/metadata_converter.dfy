/**
 * external-contracts-importer/SolidityMetadata2ContractDescriptorCONVERTER.py:
 * turns the metadata the Solidity compiler emits for a contract into a
 * contract descriptor `{contract: {descriptor, endpoint, dev}}`, filling the
 * fields the metadata lacks with fixed defaults, and writes one descriptor
 * per metadata file.
 */
module MetadataConverter {
  import opened Wrappers
  import opened Strings
  import opened Json
  import opened Aggregation
  import CDP = ContractDescriptorsParser

  const DefaultAuthor: string := "Unknown"
  const GenericContract: string := "generic_contract"
  const DefaultVersion: string := "1.0"
  /** The placeholder deployment address every descriptor receives. */
  const DefaultAddress: string := "0x314159265dd8dbb310642f98f50c066173c1259b"
  const DefaultNetworkId: int := 1
  const DefaultChainId: int := 1

  /** The metadata values the conversion reads, in the order it reads them. */
  datatype Inputs = Inputs(
    name: Json, author: Json, language: Json, abi: Json, userdoc: Json,
    devdoc: Json, sources: Json, libraries: Json, version: Json, evmVersion: Json)

  /** `'author' in devdoc` followed, when true, by `devdoc['author']` does
      not raise: a dict always works, while a list or string that contains
      `author` passes the test and then cannot be indexed by a string. */
  predicate AuthorReadable(devdoc: Json)
  {
    || devdoc.Obj?
    || (devdoc.Arr? && Str("author") !in devdoc.items)
    || (devdoc.Str? && !Contains(devdoc.s, "author"))
  }

  /** The author: `devdoc.author` when present, otherwise `"Unknown"`. */
  function Author(devdoc: Json): (r: Result<Json, Fault>)
    ensures r.Success? <==> AuthorReadable(devdoc)
    ensures devdoc.Obj? && "author" in Keys(devdoc.fields) ==>
              r == Success(Find(devdoc.fields, "author").value)
    ensures devdoc.Obj? && "author" !in Keys(devdoc.fields) ==> r == Success(Str(DefaultAuthor))
    ensures !devdoc.Obj? && r.Success? ==> r.value == Str(DefaultAuthor)
  {
    var present :- HasKey(devdoc, "author");
    if present then Get(devdoc, "author") else Success(Str(DefaultAuthor))
  }

  /** Reads the metadata in the order the script does; the first missing
      key, or a value of the wrong kind, aborts the conversion. */
  function Read(data: Json): (r: Result<Inputs, Fault>)
    ensures r.Success? ==>
              && At(data, ["settings", "compilationTarget"]).Some?
              && FirstValue(At(data, ["settings", "compilationTarget"]).value) == Success(r.value.name)
              && At(data, ["output", "devdoc"]) == Some(r.value.devdoc)
              && Author(r.value.devdoc) == Success(r.value.author)
              && Some(r.value.language) == At(data, ["language"])
              && Some(r.value.abi) == At(data, ["output", "abi"])
              && Some(r.value.userdoc) == At(data, ["output", "userdoc"])
              && Some(r.value.sources) == At(data, ["sources"])
              && Some(r.value.libraries) == At(data, ["settings", "libraries"])
              && Some(r.value.version) == At(data, ["compiler", "version"])
              && Some(r.value.evmVersion) == At(data, ["settings", "evmVersion"])
  {
    var settings :- Get(data, "settings");
    var target :- Get(settings, "compilationTarget");
    var name :- FirstValue(target);
    var output :- Get(data, "output");
    var devdoc :- Get(output, "devdoc");
    var author :- Author(devdoc);
    var language :- Get(data, "language");
    var abi :- Get(output, "abi");
    var userdoc :- Get(output, "userdoc");
    var sources :- Get(data, "sources");
    var libraries :- Get(settings, "libraries");
    var compiler :- Get(data, "compiler");
    var version :- Get(compiler, "version");
    var evmVersion :- Get(settings, "evmVersion");
    Success(Inputs(name, author, language, abi, userdoc, devdoc, sources, libraries, version, evmVersion))
  }

  /** The `endpoint` part, which does not depend on the metadata. */
  function Endpoint(): (r: Json)
    ensures r.Obj? && Names(r.fields) == ["address", "networkID", "chainID"]
    ensures r.fields[0].1 == Str(DefaultAddress)
    ensures r.fields[1].1 == Num(DefaultNetworkId) && r.fields[2].1 == Num(DefaultChainId)
  {
    Obj([("address", Str(DefaultAddress)), ("networkID", Num(DefaultNetworkId)), ("chainID", Num(DefaultChainId))])
  }

  function Assemble(m: Inputs): Json
  {
    var descriptor := Obj([
      ("name", m.name), ("author", m.author), ("language", m.language),
      ("contract_type", Str(GenericContract)), ("contract_version", Str(DefaultVersion)),
      ("descriptor_version", Str(DefaultVersion)), ("abi", m.abi), ("userdoc", m.userdoc)]);
    var compiler := Obj([("version", m.version), ("evmVersion", m.evmVersion)]);
    var dev := Obj([("devdoc", m.devdoc), ("sources", m.sources), ("libraries", m.libraries), ("compiler", compiler)]);
    Obj([("contract", Obj([("descriptor", descriptor), ("endpoint", Endpoint()), ("dev", dev)]))])
  }

  /** `convertSolidityMetadata2ContractDescriptor` on a parsed metadata file. */
  function Convert(data: Json): (r: Result<Json, Fault>)
    ensures r.Success? <==> Convertible(data)
    ensures r.Success? ==> r.value.Obj? && Names(r.value.fields) == ["contract"]
    ensures r.Success? ==> var contract := r.value.fields[0].1;
              contract.Obj? && Names(contract.fields) == ["descriptor", "endpoint", "dev"]
    ensures r.Success? ==> r.value == Assemble(Read(data).value)
  {
    ReadSucceeds(data);
    var m :- Read(data);
    AssembleShape(m);
    Success(Assemble(m))
  }

  /** Reading succeeds exactly on convertible metadata. */
  lemma ReadSucceeds(data: Json)
    ensures Read(data).Success? <==> Convertible(data)
  {
  }

  /** The assembled descriptor has the key `contract` holding `descriptor`,
      `endpoint` and `dev`. */
  lemma AssembleShape(m: Inputs)
    ensures Assemble(m).Obj? && Names(Assemble(m).fields) == ["contract"]
    ensures var contract := Assemble(m).fields[0].1;
      contract.Obj? && Names(contract.fields) == ["descriptor", "endpoint", "dev"]
  {
  }

  /** Every path the conversion reads is present and of a usable kind. */
  predicate Convertible(data: Json)
  {
    && At(data, ["settings", "compilationTarget"]).Some?
    && At(data, ["settings", "compilationTarget"]).value.Obj?
    && |At(data, ["settings", "compilationTarget"]).value.fields| > 0
    && At(data, ["output", "devdoc"]).Some?
    && AuthorReadable(At(data, ["output", "devdoc"]).value)
    && At(data, ["language"]).Some?
    && At(data, ["output", "abi"]).Some?
    && At(data, ["output", "userdoc"]).Some?
    && At(data, ["sources"]).Some?
    && At(data, ["settings", "libraries"]).Some?
    && At(data, ["compiler", "version"]).Some?
    && At(data, ["settings", "evmVersion"]).Some?
  }

  /** Reading `contract.<part>.<key>` of an assembled descriptor. */
  lemma AtPart(m: Inputs, part: int, k: string)
    requires 0 <= part < 3
    ensures var contract := Assemble(m).fields[0].1;
      At(Assemble(m), ["contract", contract.fields[part].0, k]) == At(contract.fields[part].1, [k])
  {
    var out := Assemble(m);
    var contract := out.fields[0].1;
    AtField(out.fields, 0, [contract.fields[part].0, k]);
    AtField(contract.fields, part, [k]);
  }

  lemma AssembledDescriptor(m: Inputs)
    ensures var out := Assemble(m);
      && At(out, ["contract", "descriptor", "name"]) == Some(m.name)
      && At(out, ["contract", "descriptor", "author"]) == Some(m.author)
      && At(out, ["contract", "descriptor", "language"]) == Some(m.language)
      && At(out, ["contract", "descriptor", "contract_type"]) == Some(Str(GenericContract))
      && At(out, ["contract", "descriptor", "contract_version"]) == Some(Str(DefaultVersion))
      && At(out, ["contract", "descriptor", "descriptor_version"]) == Some(Str(DefaultVersion))
      && At(out, ["contract", "descriptor", "abi"]) == Some(m.abi)
      && At(out, ["contract", "descriptor", "userdoc"]) == Some(m.userdoc)
  {
    DescriptorField(m, 0);
    DescriptorField(m, 1);
    DescriptorField(m, 2);
    DescriptorField(m, 3);
    DescriptorField(m, 4);
    DescriptorField(m, 5);
    DescriptorField(m, 6);
    DescriptorField(m, 7);
  }

  lemma DescriptorField(m: Inputs, i: int)
    requires 0 <= i < 8
    ensures var d := Assemble(m).fields[0].1.fields[0].1;
      At(Assemble(m), ["contract", "descriptor", d.fields[i].0]) == Some(d.fields[i].1)
  {
    var d := Assemble(m).fields[0].1.fields[0].1;
    DescriptorKeys(m);
    AtPart(m, 0, d.fields[i].0);
    AtOwnField(d.fields, i);
  }

  /** The descriptor's eight keys are distinct. */
  lemma DescriptorKeys(m: Inputs)
    ensures var d := Assemble(m).fields[0].1.fields[0].1;
      && d.Obj? && |d.fields| == 8
      && forall a, b :: 0 <= a < b < |d.fields| ==> d.fields[a].0 != d.fields[b].0
  {
    var d := Assemble(m).fields[0].1.fields[0].1;
    assert forall a :: 0 <= a < 8 ==> |d.fields[a].0| == [4, 6, 8, 13, 16, 18, 3, 7][a];
  }

  lemma ConvertedDescriptor(data: Json)
    requires Convert(data).Success?
    ensures At(data, ["settings", "compilationTarget"]).Some?
    ensures FirstValue(At(data, ["settings", "compilationTarget"]).value).Success?
    ensures At(data, ["output", "devdoc"]).Some? && Author(At(data, ["output", "devdoc"]).value).Success?
    ensures var out := Convert(data).value;
      && At(out, ["contract", "descriptor", "name"]) ==
         Some(FirstValue(At(data, ["settings", "compilationTarget"]).value).value)
      && At(out, ["contract", "descriptor", "author"]) == Some(Author(At(data, ["output", "devdoc"]).value).value)
      && At(out, ["contract", "descriptor", "language"]) == At(data, ["language"])
      && At(out, ["contract", "descriptor", "contract_type"]) == Some(Str(GenericContract))
      && At(out, ["contract", "descriptor", "contract_version"]) == Some(Str(DefaultVersion))
      && At(out, ["contract", "descriptor", "descriptor_version"]) == Some(Str(DefaultVersion))
      && At(out, ["contract", "descriptor", "abi"]) == At(data, ["output", "abi"])
      && At(out, ["contract", "descriptor", "userdoc"]) == At(data, ["output", "userdoc"])
  {
    AssembledDescriptor(Read(data).value);
  }

  lemma AssembledEndpoint(m: Inputs)
    ensures var out := Assemble(m);
      && At(out, ["contract", "endpoint", "address"]) == Some(Str(DefaultAddress))
      && At(out, ["contract", "endpoint", "networkID"]) == Some(Num(DefaultNetworkId))
      && At(out, ["contract", "endpoint", "chainID"]) == Some(Num(DefaultChainId))
  {
    var e := Endpoint();
    AtPart(m, 1, "address");
    AtOwnField(e.fields, 0);
    AtPart(m, 1, "networkID");
    AtOwnField(e.fields, 1);
    AtPart(m, 1, "chainID");
    AtOwnField(e.fields, 2);
  }

  /** The `endpoint` part is the same fixed record whatever the metadata. */
  lemma ConvertedEndpoint(data: Json)
    requires Convert(data).Success?
    ensures var out := Convert(data).value;
      && At(out, ["contract", "endpoint", "address"]) == Some(Str(DefaultAddress))
      && At(out, ["contract", "endpoint", "networkID"]) == Some(Num(DefaultNetworkId))
      && At(out, ["contract", "endpoint", "chainID"]) == Some(Num(DefaultChainId))
  {
    AssembledEndpoint(Read(data).value);
  }

  lemma AssembledDev(m: Inputs)
    ensures var out := Assemble(m);
      && At(out, ["contract", "dev", "devdoc"]) == Some(m.devdoc)
      && At(out, ["contract", "dev", "sources"]) == Some(m.sources)
      && At(out, ["contract", "dev", "libraries"]) == Some(m.libraries)
      && At(out, ["contract", "dev", "compiler"]) == Some(Obj([("version", m.version), ("evmVersion", m.evmVersion)]))
  {
    var dev := Assemble(m).fields[0].1.fields[2].1;
    AtPart(m, 2, "devdoc");
    AtOwnField(dev.fields, 0);
    AtPart(m, 2, "sources");
    AtOwnField(dev.fields, 1);
    AtPart(m, 2, "libraries");
    AtOwnField(dev.fields, 2);
    AtPart(m, 2, "compiler");
    AtOwnField(dev.fields, 3);
  }

  /** The `dev` part carries the developer documentation, the sources and the
      linked libraries unchanged, and the compiler and EVM versions. */
  lemma ConvertedDev(data: Json)
    requires Convert(data).Success?
    ensures At(data, ["compiler", "version"]).Some? && At(data, ["settings", "evmVersion"]).Some?
    ensures var out := Convert(data).value;
      && At(out, ["contract", "dev", "devdoc"]) == At(data, ["output", "devdoc"])
      && At(out, ["contract", "dev", "sources"]) == At(data, ["sources"])
      && At(out, ["contract", "dev", "libraries"]) == At(data, ["settings", "libraries"])
      && At(out, ["contract", "dev", "compiler"]) ==
         Some(Obj([("version", At(data, ["compiler", "version"]).value),
                   ("evmVersion", At(data, ["settings", "evmVersion"]).value)]))
  {
    AssembledDev(Read(data).value);
  }

  /** The converter writes the ABI under `contract.descriptor`, while
      ContractDescriptorsParser.py reads `contract.abi`: feeding a converted
      descriptor to that parser raises `KeyError: 'abi'`, so the two stages
      do not compose. */
  lemma ParserMissesConvertedAbi(fileName: string, data: Json)
    requires Convert(data).Success?
    ensures CDP.ExtractMethods(fileName, Convert(data).value) == Failure(KeyError("abi"))
  {
    var out := Convert(data).value;
    var contract := out.fields[0].1;
    assert Get(out, "contract") == Success(contract) by {
      GetField(out.fields, 0);
    }
    AssembledWithoutAbi(Read(data).value);
  }

  /** The assembled `contract` object has no `abi` key. */
  lemma AssembledWithoutAbi(m: Inputs)
    ensures Get(Assemble(m).fields[0].1, "abi") == Failure(KeyError("abi"))
  {
    var contract := Assemble(m).fields[0].1;
    assert "abi" !in Keys(contract.fields) by {
      assert Names(contract.fields) == ["descriptor", "endpoint", "dev"];
    }
  }

  /** The listing without the folder-metadata entry, in listing order. */
  function Kept(dir: Listing): (r: Listing)
    ensures |r| <= |dir|
    ensures forall e :: e in r <==> e in dir && e.0 != CDP.DsStore
  {
    if |dir| == 0 then []
    else if dir[0].0 == CDP.DsStore then Kept(dir[1..])
    else [dir[0]] + Kept(dir[1..])
  }

  /** `Kept` filters entry by entry: it keeps order and multiplicity, so
      the kept listing of a concatenation is the concatenation of the kept
      listings, and one entry is kept exactly when it is not the
      folder-metadata entry. */
  lemma {:induction false} KeptAppend(a: Listing, b: Listing)
    ensures Kept(a + b) == Kept(a) + Kept(b)
    ensures |a| == 1 ==> Kept(a) == (if a[0].0 == CDP.DsStore then [] else a)
    decreases |a|
  {
    if |a| == 0 {
      assert a + b == b;
    } else {
      assert (a + b)[0] == a[0] && (a + b)[1..] == a[1..] + b;
      var head := if a[0].0 == CDP.DsStore then [] else [a[0]];
      assert Kept(a + b) == head + Kept(a[1..] + b) by {
        KeptCons(a + b);
      }
      assert Kept(a[1..] + b) == Kept(a[1..]) + Kept(b) by {
        KeptAppend(a[1..], b);
      }
      assert Kept(a) == head + Kept(a[1..]) by {
        KeptCons(a);
      }
      ConsAssoc(head, Kept(a[1..]), Kept(b));
      if |a| == 1 {
        assert a[1..] == [] && a == [a[0]];
      }
    }
  }

  lemma KeptCons(dir: Listing)
    requires |dir| > 0
    ensures Kept(dir) == (if dir[0].0 == CDP.DsStore then [] else [dir[0]]) + Kept(dir[1..])
  {
  }

  /** A file the conversion loop leaves behind. The output file is opened
      for writing before the conversion runs, so the entry whose conversion
      raises leaves an empty file (`None`). */
  datatype Written = Written(name: string, content: Option<Json>)

  /** The files written, and the error that stopped the loop, if any. */
  datatype Run = Run(files: seq<Written>, fault: Option<Fault>)

  /** Converts the kept entries one by one with `convert`, stopping at
      the first that raises: the files follow the entries in order, under
      the same names, each written file holding its entry's conversion. */
  function ConvertEach(entries: Listing, convert: Json -> Result<Json, Fault>): (r: Run)
    ensures |r.files| <= |entries|
    ensures forall i :: 0 <= i < |r.files| ==> r.files[i].name == entries[i].0
    ensures forall i :: 0 <= i < |r.files| && r.files[i].content.Some? ==>
              convert(entries[i].1) == Success(r.files[i].content.value)
    decreases |entries|
  {
    if |entries| == 0 then Run([], None)
    else
      match convert(entries[0].1)
      case Failure(e) => Run([Written(entries[0].0, None)], Some(e))
      case Success(descriptor) =>
        var rest := ConvertEach(entries[1..], convert);
        var files := [Written(entries[0].0, Some(descriptor))] + rest.files;
        assert forall i :: 1 <= i < |entries| ==> entries[i] == entries[1..][i - 1];
        assert forall i :: 1 <= i < |files| ==> files[i] == rest.files[i - 1];
        Run(files, rest.fault)
  }

  /** Where the loop stops: it completes, with every file written, exactly
      when every entry converts; otherwise the last file is the empty one of
      the entry that raised, with that entry's error, and every file before
      it is written. */
  lemma {:induction false} ConvertEachStops(entries: Listing, convert: Json -> Result<Json, Fault>)
    ensures var r := ConvertEach(entries, convert);
      r.fault.None? <==> forall i :: 0 <= i < |entries| ==> convert(entries[i].1).Success?
    ensures var r := ConvertEach(entries, convert);
      r.fault.None? ==> |r.files| == |entries| && forall i :: 0 <= i < |r.files| ==> r.files[i].content.Some?
    ensures var r := ConvertEach(entries, convert);
      r.fault.Some? ==>
        && |r.files| > 0
        && r.files[|r.files| - 1].content.None?
        && convert(entries[|r.files| - 1].1) == Failure(r.fault.value)
        && forall i :: 0 <= i < |r.files| - 1 ==> r.files[i].content.Some?
    decreases |entries|
  {
    StopsAt(entries, convert);
  }

  /** `ConvertEachStops`, gathered into `Stops`, by induction over the
      entries. */
  lemma {:induction false} StopsAt(entries: Listing, convert: Json -> Result<Json, Fault>)
    ensures Stops(entries, convert, ConvertEach(entries, convert))
    decreases |entries|, 1
  {
    if |entries| > 0 && convert(entries[0].1).Success? {
      StopsAfterFirst(entries, convert);
    } else if |entries| > 0 {
      assert ConvertEach(entries, convert) == Run([Written(entries[0].0, None)], Some(convert(entries[0].1).error));
    }
  }

  /** The inductive step of `StopsAt`: a first entry that converts. */
  lemma {:induction false} StopsAfterFirst(entries: Listing, convert: Json -> Result<Json, Fault>)
    requires |entries| > 0 && convert(entries[0].1).Success?
    ensures Stops(entries, convert, ConvertEach(entries, convert))
    decreases |entries|, 0
  {
    var rest := ConvertEach(entries[1..], convert);
    StopsAt(entries[1..], convert);
    StopsCons(entries, convert, rest, ConvertEach(entries, convert));
  }

  /** The three facts `ConvertEachStops` states about a run `r` of the loop
      over `entries`. */
  predicate Stops(entries: Listing, convert: Json -> Result<Json, Fault>, r: Run)
  {
    && (r.fault.None? <==> forall i :: 0 <= i < |entries| ==> convert(entries[i].1).Success?)
    && (r.fault.None? ==> |r.files| == |entries| && forall i :: 0 <= i < |r.files| ==> r.files[i].content.Some?)
    && (r.fault.Some? ==>
          && |r.files| > 0
          && r.files[|r.files| - 1].content.None?
          && |r.files| <= |entries|
          && convert(entries[|r.files| - 1].1) == Failure(r.fault.value)
          && forall i :: 0 <= i < |r.files| - 1 ==> r.files[i].content.Some?)
  }

  /** A converting first entry puts its file in front of the rest's run and
      keeps the rest's outcome. */
  lemma StopsCons(entries: Listing, convert: Json -> Result<Json, Fault>, rest: Run, r: Run)
    requires |entries| > 0 && convert(entries[0].1).Success?
    requires r.files == [Written(entries[0].0, Some(convert(entries[0].1).value))] + rest.files
    requires r.fault == rest.fault
    requires Stops(entries[1..], convert, rest)
    ensures Stops(entries, convert, r)
  {
    assert forall i :: 1 <= i < |entries| ==> entries[i] == entries[1..][i - 1];
    assert forall i :: 1 <= i < |r.files| ==> r.files[i] == rest.files[i - 1];
  }

  /** Quantifying over the kept entries by position or by membership is the
      same. */
  lemma KeptAll(dir: Listing, ok: Json -> bool)
    ensures (forall e :: e in dir && e.0 != CDP.DsStore ==> ok(e.1)) <==>
            (forall i :: 0 <= i < |Kept(dir)| ==> ok(Kept(dir)[i].1))
  {
    if forall i :: 0 <= i < |Kept(dir)| ==> ok(Kept(dir)[i].1) {
      KeptAllByPosition(dir, ok);
    } else if forall e :: e in dir && e.0 != CDP.DsStore ==> ok(e.1) {
      KeptAllByMembership(dir, ok);
      assert false;
    }
  }

  lemma KeptAllByPosition(dir: Listing, ok: Json -> bool)
    requires forall i :: 0 <= i < |Kept(dir)| ==> ok(Kept(dir)[i].1)
    ensures forall e :: e in dir && e.0 != CDP.DsStore ==> ok(e.1)
  {
    var k := Kept(dir);
    forall e | e in dir && e.0 != CDP.DsStore
      ensures ok(e.1)
    {
      assert e in k;
      var i :| 0 <= i < |k| && k[i] == e;
    }
  }

  lemma KeptAllByMembership(dir: Listing, ok: Json -> bool)
    requires forall e :: e in dir && e.0 != CDP.DsStore ==> ok(e.1)
    ensures forall i :: 0 <= i < |Kept(dir)| ==> ok(Kept(dir)[i].1)
  {
    var k := Kept(dir);
    forall i | 0 <= i < |k|
      ensures ok(k[i].1)
    {
      assert k[i] in k;
    }
  }

  /** The per-file loop: one output file per entry other than `.DS_Store`,
      in listing order and under the same file name, each holding the
      converted descriptor, until a conversion raises. */
  function ConvertAll(dir: Listing): (r: Run)
    ensures r.fault.None? <==> forall e :: e in dir && e.0 != CDP.DsStore ==> Convert(e.1).Success?
    ensures |r.files| <= |Kept(dir)|
    ensures forall i :: 0 <= i < |r.files| ==> r.files[i].name == Kept(dir)[i].0
    ensures r.fault.None? ==> |r.files| == |Kept(dir)|
  {
    KeptConverts(dir);
    ConvertEachStops(Kept(dir), Convert);
    ConvertEach(Kept(dir), Convert)
  }

  lemma KeptConverts(dir: Listing)
    ensures (forall e :: e in dir && e.0 != CDP.DsStore ==> Convert(e.1).Success?) <==>
            (forall i :: 0 <= i < |Kept(dir)| ==> Convert(Kept(dir)[i].1).Success?)
  {
    KeptAll(dir, d => Convert(d).Success?);
  }
}
