# Blockly-Solidity contract descriptors and code generator, in Dafny

This project models two parts of the Blockly-Solidity editor.

**The contract-descriptor pipeline.** These are the Python scripts that turn files into files.
- The metadata converter projects Solidity compiler metadata into a `{contract: {descriptor, endpoint, dev}}` descriptor.
- The standalone bundler wraps each descriptor into a `{name, contract_type, JSON, code}` record of the editor's offline database.
- Three `extractMethods` parsers build a name-keyed map of the ABI method names of a folder of descriptors. They are:
  - the contract-descriptor parser;
  - the library-only parser;
  - the editor's library parser.

**The Blockly → Solidity generators.** These are the JavaScript functions that turn a block's field values and children's code into Solidity text.
- The shared helpers are:
  - operator precedence;
  - `quote_`;
  - `finish` and `scrubNakedValue`;
  - scoped variable names;
  - the scope walk;
  - the type → check update.
- The per-block generators cover contracts, state, events, modifiers, enums, structs, mappings, arrays, Oraclize, NatSpec, methods, calls and logic.
- The block-side helpers are:
  - the `getFromBetween` substring extractor;
  - the fresh-name rule of `declareOrUpdateVariable`;
  - the dropdown builders over the descriptor database.

Parsed JSON is a datatype whose objects keep their members in document order. A Python exception is a `Failure(Fault)` that aborts the script. A directory is a sequence of `(file name, parsed content)` pairs in listing order.

On the generator side, the results of Blockly's `valueToCode`/`statementToCode` and `getFieldValue` are plain strings. A missing child reads as `""`, and JavaScript's `x || d` is `Or(x, d)`. "The next block has the same type" and "there is a surrounding parent" are booleans. A workspace variable is a record holding its id, stored name, type, group and scope-block id.

## Model

| member | source | states |
|---|---|---|
| Json.Get | external-contracts-importer/ContractDescriptorsParser.py:13 | Python `d[k]` succeeds exactly on a dict holding `k`; it raises `KeyError(k)` on a dict without it and a type error on anything else |
| Json.HasKey | external-contracts-importer/SolidityMetadata2ContractDescriptorCONVERTER.py:20 | `k in d` is key membership on a dict, element membership on a list and substring search on a string; it raises on any other value |
| Json.Iterate | external-contracts-importer/ContractDescriptorsParser.py:13 | `for x in d` visits the elements of a list, the keys of a dict in iteration order, or the characters of a string |
| Json.KeyOrder | external-contracts-importer/ContractDescriptorsParser.py:11-13 | a dict loaded from a document iterates each bound key exactly once, even when the document repeats it |
| Json.KeyOrderFirstBound | external-contracts-importer/ContractDescriptorsParser.py:11-13 | dict keys come in the order of their first binding in the document |
| Json.KeyOrderDistinct | external-contracts-importer/ContractDescriptorsParser.py:11-13 | without repeated keys, dict iteration follows document order |
| Json.FirstValue | external-contracts-importer/SolidityMetadata2ContractDescriptorCONVERTER.py:17 | `list(d.values())[0]` is the value of the dict's first key; an empty dict raises `IndexError` |
| Json.Set | external-contracts-importer/ContractDescriptorsParser.py:33 | `d[k] = v` keeps an existing key's position and appends a new key; the keys stay distinct |
| Json.ListsToJson | external-contracts-importer/ContractDescriptorsParser.py:36-37 | the dumped object lists the dict's keys in insertion order, each with its method list |
| AbiMethods.EntryMethods | external-contracts-importer/ContractDescriptorsParser.py:14-17 | a `function` entry contributes its `name`, a `constructor` entry the caller's constructor name, any other entry nothing; an entry without `type`, or a function without `name`, raises |
| AbiMethods.CollectMethods | external-contracts-importer/ContractDescriptorsParser.py:9-18 | the extraction succeeds exactly when every entry is readable; an empty ABI gives `[]` |
| AbiMethods.CollectAppend | external-contracts-importer/ContractDescriptorsParser.py:13-18 | the names of a concatenated ABI are those of the first part followed by those of the second, so ABI order is kept |
| AbiMethods.CollectSingle | external-contracts-importer/ContractDescriptorsParser.py:13-18 | a one-entry ABI yields exactly that entry's contribution |
| AbiMethods.CollectMembership | external-contracts-importer/ContractDescriptorsParser.py:13-18 | a value is listed iff it is some function entry's name, or it is the constructor name and the ABI has a constructor |
| AbiMethods.CollectLength | external-contracts-importer/ContractDescriptorsParser.py:13-18 | there is exactly one name per `function` or `constructor` entry |
| Aggregation.Fold | external-contracts-importer/ContractDescriptorsParser.py:31-33 | the directory loop succeeds iff every entry's step succeeds, and the dict it builds keeps distinct keys |
| Aggregation.FoldFirstError | external-contracts-importer/ContractDescriptorsParser.py:31-33 | a failed run reports the error of the first entry whose step raised |
| Aggregation.FoldKeys | external-contracts-importer/ContractDescriptorsParser.py:31-33 | the keys are exactly those some entry yields; skipped entries leave no key |
| Aggregation.FoldLastWins | external-contracts-importer/ContractDescriptorsParser.py:33 | the last entry to yield a key decides its value |
| Aggregation.FoldKeepsUntouched | external-contracts-importer/ContractDescriptorsParser.py:33 | a key no later entry yields keeps its value |
| Aggregation.Run | external-contracts-importer/ContractDescriptorsParser.py:29-37 | a whole run writes one JSON object, exactly when every step succeeds |
| ContractDescriptorsParser.StrippedName | external-contracts-importer/ContractDescriptorsParser.py:17 | `name[:-5]` keeps all but the last five characters, whatever they are, so it removes a trailing `.json`; a name shorter than five characters becomes empty |
| ContractDescriptorsParser.ExtractMethods | external-contracts-importer/ContractDescriptorsParser.py:8-18 | the ABI is read from `contract.abi`, and the constructor's name is the stripped file name; a missing path raises |
| ContractDescriptorsParser.Step | external-contracts-importer/ContractDescriptorsParser.py:31-33 | `.DS_Store` is skipped; any other entry yields its stripped name and its method list |
| ContractDescriptorsParser.BuildMap | external-contracts-importer/ContractDescriptorsParser.py:29-33 | the map is built exactly when every entry other than `.DS_Store` extracts |
| ContractDescriptorsParser.Output | external-contracts-importer/ContractDescriptorsParser.py:36-37 | `BlocklyLibrariesList.json` is the built map as one object |
| ContractDescriptorsParser.MapKeys | external-contracts-importer/ContractDescriptorsParser.py:31-33 | the keys are the names of the entries other than `.DS_Store`, minus their last five characters |
| ContractDescriptorsParser.MapValue | external-contracts-importer/ContractDescriptorsParser.py:33 | an entry's key holds its method list unless a later entry strips to the same key |
| LibsDescriptorsParser.Step | external-contracts-importer/parser-scripts/LibsDescriptorsParser.py:33-37 | `.DS_Store` and non-libraries are skipped, a descriptor without `contract.contract_type` raises, and a library yields its stripped name and methods |
| LibsDescriptorsParser.BuildMap | external-contracts-importer/parser-scripts/LibsDescriptorsParser.py:31-37 | the map is built exactly when every step succeeds |
| LibsDescriptorsParser.MapKeys | external-contracts-importer/parser-scripts/LibsDescriptorsParser.py:34-37 | only descriptors whose `contract.contract_type` is `library` get a key: their stripped file name |
| LibsDescriptorsParser.MapValue | external-contracts-importer/parser-scripts/LibsDescriptorsParser.py:22-37 | a library's key holds its method list, whose constructor name is that same stripped key |
| LibraryParser.ExtractMethods | blockly-solidity/libraryParser.py:8-18 | the ABI is read from the top-level `abi`, and a constructor contributes the full, unstripped file name |
| LibraryParser.Step | blockly-solidity/libraryParser.py:31-34 | `.DS_Store` and `_template.jsx` are skipped; any other entry is keyed by its full name |
| LibraryParser.BuildMap | blockly-solidity/libraryParser.py:29-34 | the map is built exactly when every entry that is not skipped extracts |
| LibraryParser.MapKeys | blockly-solidity/libraryParser.py:32-34 | the keys are the full names of the entries that are not skipped |
| LibraryParser.MapValue | blockly-solidity/libraryParser.py:34 | with the distinct names of a directory listing, each entry's key holds its own method list |
| MetadataConverter.Author | external-contracts-importer/SolidityMetadata2ContractDescriptorCONVERTER.py:19-21 | the author is `output.devdoc.author` when that key exists and `"Unknown"` otherwise |
| MetadataConverter.Read | external-contracts-importer/SolidityMetadata2ContractDescriptorCONVERTER.py:17-48 | every value the converter copies comes from its metadata path: the name is the first value of `settings.compilationTarget`, and so on |
| MetadataConverter.Endpoint | external-contracts-importer/SolidityMetadata2ContractDescriptorCONVERTER.py:33-36 | the endpoint is the fixed address, `networkID` 1 and `chainID` 1 |
| MetadataConverter.Convert | external-contracts-importer/SolidityMetadata2ContractDescriptorCONVERTER.py:8-61 | conversion succeeds exactly on metadata with every path it reads; the result has exactly `contract` with `descriptor`, `endpoint`, `dev` in that order |
| MetadataConverter.AssembledDescriptor | external-contracts-importer/SolidityMetadata2ContractDescriptorCONVERTER.py:16-28 | the descriptor's eight fields, in order, with the defaults for type and versions |
| MetadataConverter.ConvertedDescriptor | external-contracts-importer/SolidityMetadata2ContractDescriptorCONVERTER.py:17-28 | `descriptor.name` is the first compilation target; `language`, `abi` and `userdoc` are copied unchanged; `contract_type` is `generic_contract` and both versions are `1.0` |
| MetadataConverter.AssembledEndpoint | external-contracts-importer/SolidityMetadata2ContractDescriptorCONVERTER.py:33-58 | the endpoint sits at `contract.endpoint` with its three fixed fields |
| MetadataConverter.ConvertedEndpoint | external-contracts-importer/SolidityMetadata2ContractDescriptorCONVERTER.py:33-36 | the endpoint is the same record whatever the metadata |
| MetadataConverter.AssembledDev | external-contracts-importer/SolidityMetadata2ContractDescriptorCONVERTER.py:41-50 | the `dev` part has `devdoc`, `sources`, `libraries`, `compiler` in that order |
| MetadataConverter.ConvertedDev | external-contracts-importer/SolidityMetadata2ContractDescriptorCONVERTER.py:41-50 | `dev` carries `devdoc`, `sources` and `settings.libraries` unchanged, plus `compiler {version, evmVersion}` |
| MetadataConverter.ParserMissesConvertedAbi | external-contracts-importer/SolidityMetadata2ContractDescriptorCONVERTER.py:27-57 | a converted descriptor has no `contract.abi`, so the contract-descriptor parser raises `KeyError('abi')` on it: composing the two is not a round trip |
| MetadataConverter.Kept | external-contracts-importer/SolidityMetadata2ContractDescriptorCONVERTER.py:66 | every entry other than `.DS_Store` and nothing else; never more entries than the listing |
| MetadataConverter.KeptAppend | external-contracts-importer/SolidityMetadata2ContractDescriptorCONVERTER.py:65-66 | filtering a concatenated listing is the concatenation of the filtered parts, so the kept entries stay in listing order and keep their multiplicity; one entry is kept exactly when it is not `.DS_Store` |
| MetadataConverter.ConvertEach | external-contracts-importer/SolidityMetadata2ContractDescriptorCONVERTER.py:65-68 | the files follow the entries in order, under the same names, and every written file holds its entry's converted descriptor |
| MetadataConverter.ConvertEachStops | external-contracts-importer/SolidityMetadata2ContractDescriptorCONVERTER.py:65-68 | the loop completes, every file written, exactly when every entry converts; otherwise the last file is the empty one of the entry that raised, with that entry's error, and all files before it are written |
| MetadataConverter.KeptAll | external-contracts-importer/SolidityMetadata2ContractDescriptorCONVERTER.py:65-66 | a property holds of every entry other than `.DS_Store` exactly when it holds at every position of the kept listing |
| MetadataConverter.ConvertAll | external-contracts-importer/SolidityMetadata2ContractDescriptorCONVERTER.py:65-68 | one output file per entry other than `.DS_Store`, in order and with the same name; the run completes, with one file per kept entry, exactly when every kept entry converts |
| StandaloneDb.SourcePath | standalone-mode/smartContractDescriptorsParser.py:18 | the source is looked up under `contracts/` |
| StandaloneDb.SourcePathOfDescriptor | standalone-mode/smartContractDescriptorsParser.py:18 | the source of `X.json` is `contracts/X.sol` |
| StandaloneDb.Record | standalone-mode/smartContractDescriptorsParser.py:16-24 | a missing source raises; otherwise the record is `{name, contract_type, JSON, code}` holding the descriptor's name and type, the descriptor unchanged and the source text |
| StandaloneDb.Collect | standalone-mode/smartContractDescriptorsParser.py:14-25 | the loop that appends one record per entry: one result per position, in order, succeeding exactly when every entry succeeds, a failure carrying the error of the first entry that fails |
| StandaloneDb.Records | standalone-mode/smartContractDescriptorsParser.py:14-25 | one record per entry, in order; a failure is the error of the first entry whose record cannot be built |
| StandaloneDb.Db | standalone-mode/smartContractDescriptorsParser.py:14-29 | the database is one JSON array with one record per entry other than `.DS_Store`, in listing order; a failure is the error of the first such entry whose record cannot be built |
| StandaloneDb.BundleConverted | standalone-mode/smartContractDescriptorsParser.py:21-22 | a converted descriptor bundles into a record whose name is the metadata's compilation target and whose type is `generic_contract` |
| Between.JsSubstring | blockly-solidity/blocks/contract.js:204 | JavaScript `substring` swaps its bounds when the end is before the start |
| Between.Extract | blockly-solidity/blocks/contract.js:199-205 | nothing unless both delimiters occur; otherwise the text after the first `sub1` up to the first `sub2` after it, or, when `sub2` occurs only earlier, the last character of `sub1` |
| Between.Remove | blockly-solidity/blocks/contract.js:207-210 | the string is unchanged or shorter, and unchanged when a delimiter is missing |
| Between.AllResults | blockly-solidity/blocks/contract.js:212-227 | `[]` without both delimiters; when a result list exists and both delimiters occur, it is non-empty and its first item is the first extraction |
| Between.Get | blockly-solidity/blocks/contract.js:229-234 | the results are reset on every call, so a call returns the full extraction sequence itself; `[]` when a delimiter is missing; the endless-recursion failure when `sub2` occurs only before the first `sub1` |
| Between.AllResultsStep | blockly-solidity/blocks/contract.js:212-227 | one loop step: with both delimiters present, an unframed string fails; a framed one is strictly shortened, and its result list is the current extraction followed by the results of the shortened string |
| Between.TrailFailure | blockly-solidity/blocks/contract.js:212-227 | along the sequence of strings the loop visits, the extraction fails exactly when the last visited string still holds both delimiters |
| Between.TrailItems | blockly-solidity/blocks/contract.js:212-227 | on success there is one result per visited string but the last, and result `i` is the extraction from the `i`-th visited string, in visiting order |
| Between.AllResultsFramed | blockly-solidity/blocks/contract.js:212-227 | a string that starts with `sub1 + x + sub2`, where `x` holds no `sub2`, yields `x` first and then exactly the results of the rest, or the rest's failure |
| Between.WrapRoundTrip | blockly-solidity/blocks/contract.js:199-227 | wrapping items that hold no `sub2` each in `sub1 … sub2` and extracting gives back exactly those items in order |
| Between.ResultsFree | blockly-solidity/blocks/contract.js:199-227 | no result contains `sub2` |
| Between.ItemFree | blockly-solidity/blocks/contract.js:199-210 | an item whose removal changes the string holds no `sub2` |
| Between.FramedRemoval | blockly-solidity/blocks/contract.js:207-210 | in the well-behaved case the removal deletes exactly the first `sub1 + item + sub2` |
| Between.NotFramedKeeps | blockly-solidity/blocks/contract.js:201-210 | when `sub2` occurs only before the first `sub1` the removal string never matches |
| Between.NotFramedDiverges | blockly-solidity/blocks/contract.js:221-224 | ... so the recursion never ends |
| Between.ClosingFirstDiverges | blockly-solidity/blocks/contract.js:229-234 | `get(")(", "(", ")")` recurses forever |
| Scope.Ancestors | blockly-solidity/generators/solidity.js:448-457 | the chain starts at the block and follows parent links through workspace blocks |
| Scope.VariableIsInScope | blockly-solidity/generators/solidity.js:448-457 | the climb skips runs of ancestors of the left block's type; the result is true when the block is the variable's scope, false on an empty chain, and agrees with the declarative `InScope` |
| Scope.SetVariableName | blockly-solidity/generators/solidity.js:459-461 | the stored name is `_scope("<scope id>")_` followed by the plain name; nothing else changes |
| Scope.GetVariableName | blockly-solidity/generators/solidity.js:463-465 | a name without the prefix is returned unchanged, and the result is never longer |
| Scope.NameRoundTrip | blockly-solidity/generators/solidity.js:459-465 | `getVariableName(setVariableName(v, n)) == n` for every `n` |
| Scope.VariablesInScope | blockly-solidity/generators/solidity.js:471-475 | exactly the variables in scope that pass the group filter |
| Scope.VariablesInScopeAppend | blockly-solidity/generators/solidity.js:471-475 | filtering keeps workspace order and multiplicity: it distributes over concatenation, and one variable is kept exactly when it is in scope and in the group |
| Scope.GroupFilter | blockly-solidity/generators/solidity.js:474 | with no group (`null` or `""`) all in-scope variables; with a group exactly those of that group |
| Scope.VariableByName | blockly-solidity/generators/solidity.js:428-432 | a visible variable of the group with that plain name, the first such in workspace order, and none only when there is none |
| Naming.FirstFreeSuffix | blockly-solidity/blocks/contract.js:49-54 | the counter stops at the first `k >= 2` whose `name+k` is not taken; every smaller `k` from 2 is taken |
| Naming.FreshName | blockly-solidity/blocks/contract.js:46-55 | the requested name when free, otherwise `name+k` for the smallest free `k >= 2`; the result is never taken |
| Naming.TakenBound | blockly-solidity/blocks/contract.js:50-54 | the counter cannot exceed the number of plain names, so the search ends |
| Naming.FindById | blockly-solidity/generators/solidity.js:418-420 | the position of the variable with that id, or none when no variable has it |
| Naming.DeclareOrUpdateVariable | blockly-solidity/blocks/contract.js:31-70 | the old name without a parent or on an unforced same name; otherwise a fresh name, recorded on a new variable or by renaming the existing one, nothing else changing |
| Dropdowns.Listed | blockly-solidity/blocks/contract.js:350-353 | the names of the accepted records, each as a `[name, name]` pair |
| Dropdowns.ListedAppend | blockly-solidity/blocks/contract.js:350-353 | listing a concatenation concatenates the listings, so the options follow database order with one option per accepted record; a single record is listed exactly when accepted |
| Dropdowns.ListedAll | blockly-solidity/blocks/contract.js:310-317 | accepting every record lists every record |
| Dropdowns.LibsAndContractsList | blockly-solidity/blocks/contract.js:307-322 | the placeholder comes first; `usingOraclize` is listed only when an Oraclize query block exists |
| Dropdowns.AbiChoices | blockly-solidity/blocks/contract.js:333-337 | one option per function or constructor entry at most, each a `[name, name]` pair; an option exists exactly for a function entry's name or, given a constructor entry, the library name |
| Dropdowns.AbiChoicesAppend | blockly-solidity/blocks/contract.js:333-337 | the options of a concatenated ABI are the options of each part in turn, so they follow ABI order; a single entry contributes exactly its own option |
| Dropdowns.FunctionsOf | blockly-solidity/blocks/contract.js:331-337 | an option is listed exactly when some record with the selected name offers it, each as a `[name, name]` pair |
| Dropdowns.FunctionsOfAppend | blockly-solidity/blocks/contract.js:331-337 | the options over a concatenated database are those of each part in turn, so they follow database order; one record contributes its ABI's options exactly when it has the selected name |
| Dropdowns.LibAndContractFunctsList | blockly-solidity/blocks/contract.js:324-345 | only the placeholder when nothing is selected; an empty list becomes `No functions available` |
| Dropdowns.FunctionsOfOne | blockly-solidity/blocks/contract.js:331-337 | with one record of the selected name, its ABI's options |
| Dropdowns.FunctionsOfNone | blockly-solidity/blocks/contract.js:331-337 | records of other names contribute nothing |
| Dropdowns.ContractsList | blockly-solidity/blocks/contract.js:347-365 | the placeholder first; in standalone mode the rest is the listing of the `generic_contract` records in database order; in API mode the registry's records in order, one per record; only the placeholder when the list is missing |
| Dropdowns.LibsList | blockly-solidity/blocks/contract.js:369-387 | the placeholder first; in standalone mode the rest is the listing of the `library` records in database order; in API mode the registry's records in order, one per record; only the placeholder when the list is missing |
| SolidityGenerator.Rank | blockly-solidity/generators/solidity.js:58-91 | `ORDER_ATOMIC` is 0, `ORDER_NONE` is 99, and nothing binds looser |
| SolidityGenerator.RankIncreasing | blockly-solidity/generators/solidity.js:58-91 | the `ORDER_*` values strictly increase down the table, each level binding tighter than the one listed after it |
| SolidityGenerator.VariableValue | blockly-solidity/generators/solidity/contract.js:150-159 | nothing for a missing variable; otherwise an atom |
| SolidityGenerator.VariableValueName | blockly-solidity/generators/solidity.js:459-465 | a variable named `n` generates exactly `n` |
| SolidityGenerator.Stack | blockly-solidity/generators/solidity/methods.js:59-68 | every block but the last of a stack carries the separator |
| SolidityGenerator.StackJoin | blockly-solidity/generators/solidity/contract.js:306-313 | a stack's per-block separators give the same text as `join` |
| SolidityGenerator.PassesEscape | blockly-solidity/generators/solidity.js:192-194 | the three global replaces, backslashes first, escape each character independently |
| SolidityGenerator.Quote | blockly-solidity/generators/solidity.js:189-196 | the input, escaped, between single quotes |
| SolidityGenerator.UnescapeEscape | blockly-solidity/generators/solidity.js:192-194 | decoding the escapes recovers the input |
| SolidityGenerator.Unquote | blockly-solidity/generators/solidity.js:195 | a literal decodes exactly when it is wrapped in single quotes |
| SolidityGenerator.QuoteRoundTrip | blockly-solidity/generators/solidity.js:189-196 | unquoting `quote_(s)` gives back `s` |
| SolidityGenerator.Finish | blockly-solidity/generators/solidity.js:159-170 | the definitions joined by blank lines, three newlines, then the code |
| SolidityGenerator.FinishSnoc | blockly-solidity/generators/solidity.js:169 | one more definition adds one blank-line separator before it |
| SolidityGenerator.ScrubNakedValue | blockly-solidity/generators/solidity.js:178-180 | the line followed by `;\n` |
| SolidityGenerator.CheckFor | blockly-solidity/generators/solidity.js:366-385 | `TYPE_BOOL` → Boolean, `TYPE_INT`/`TYPE_UINT` → Number, `TYPE_ADDRESS`/`TYPE_BYTES_ARRAY`/`TYPE_STRING` → String, anything else no change |
| SolidityGenerator.Retype | blockly-solidity/generators/solidity.js:365-386 | only the first input's check changes, and only when it is the value input and the type is known |
| SolidityGenerator.RetypeIdempotent | blockly-solidity/generators/solidity.js:365-386 | updating twice is updating once |
| SolidityGenerator.Stop | blockly-solidity/generators/solidity.js:349-363 | the first block whose variable is missing |
| SolidityGenerator.UpdateWorkspaceTypes | blockly-solidity/generators/solidity.js:345-389 | blocks before the first missing variable are updated; that block and all after it are untouched |
| ContractGenerator.LibNames | blockly-solidity/generators/solidity/contract.js:49-51 | the selected library names of the importing blocks |
| ContractGenerator.AddNew | blockly-solidity/generators/solidity/contract.js:52-56 | the list grows at the end only, by exactly the names not skipped |
| ContractGenerator.FirstOccurrences | blockly-solidity/generators/solidity/contract.js:52-56 | the first occurrences of the names: no repeats, no skipped name |
| ContractGenerator.AddNewFirstOccurrences | blockly-solidity/generators/solidity/contract.js:52-56 | the import list is the names in first-occurrence order, each once |
| ContractGenerator.ImportNames | blockly-solidity/generators/solidity/contract.js:49-57 | exactly the selected names other than the three placeholders |
| ContractGenerator.ImportLinesContain | blockly-solidity/generators/solidity/contract.js:57 | there is an `import "./<name>.sol";` line for each name |
| ContractGenerator.ImportLinesAppend | blockly-solidity/generators/solidity/contract.js:52-57 | the lines of a concatenation are the lines of each part in turn, so imports follow the list's order, one line per name |
| ContractGenerator.FirstOraclize | blockly-solidity/generators/solidity/contract.js:65-66 | the first Oraclize block, if any |
| ContractGenerator.Imports | blockly-solidity/generators/solidity/contract.js:55-72 | the import lines then a blank line, headed by the oraclizeAPI import when an Oraclize URL is set |
| ContractGenerator.InheritNames | blockly-solidity/generators/solidity/contract.js:67-80 | `usingOraclize` heads the list when Oraclize is active; otherwise the selected bases minus the placeholder |
| ContractGenerator.InheritClause | blockly-solidity/generators/solidity/contract.js:82-91 | the bases joined by `", "`, wrapped as ` is … ` only when longer than one character |
| ContractGenerator.OneLetterBaseNotWrapped | blockly-solidity/generators/solidity/contract.js:89-91 | a one-letter base is written bare |
| ContractGenerator.Header | blockly-solidity/generators/solidity/contract.js:114-117 | the pragma and imports, then the NatSpec docs with `  ///` turned into `///`, then the contract line, and nothing else |
| ContractGenerator.HeaderPlainDocs | blockly-solidity/generators/solidity/contract.js:114-117 | docs without an indented `///` are copied unchanged between the imports and the contract line |
| ContractGenerator.Members | blockly-solidity/generators/solidity/contract.js:94-124 | the member sections end in `\n}\n` |
| ContractGenerator.Contract | blockly-solidity/generators/solidity/contract.js:45-127 | the header, then the member sections ending in `\n}\n`, and nothing else; it starts with the pragma and imports |
| ContractGenerator.OraclizeAddsNoEvent | blockly-solidity/generators/solidity/contract.js:69-98 | Oraclize blocks do not change the member text, because the later `var events` overwrites the Oraclize event |
| ContractGenerator.OraclizeFirstBase | blockly-solidity/generators/solidity/contract.js:67-72 | with Oraclize active the clause starts ` is usingOraclize` |
| ContractGenerator.OraclizeFirstImport | blockly-solidity/generators/solidity/contract.js:70-72 | with Oraclize active the oraclizeAPI import follows the pragma |
| ContractGenerator.ContractState | blockly-solidity/generators/solidity/contract.js:130-141 | `<type> <vis> <name> = <value>;` with the type's default when no value is attached |
| ContractGenerator.WildcardStateUndefined | blockly-solidity/generators/solidity/contract.js:10-43 | the wildcard type has no entry in the table of defaults, so an empty initial value is written as `undefined` |
| ContractGenerator.ContractStateGet | blockly-solidity/generators/solidity/contract.js:150-159 | nothing for a missing variable, otherwise its plain name |
| ContractGenerator.AssignedValue | blockly-solidity/generators/solidity/contract.js:167-180 | an attached address whose length is neither 40 nor 42 becomes the zero address and one of length 40 or 42 is kept; any other attached value is kept; a missing value becomes the type's default, or `0` for a type without one |
| ContractGenerator.ContractStateSet | blockly-solidity/generators/solidity/contract.js:161-183 | `''` exactly when the variable is missing; otherwise the assignment of the checked value |
| ContractGenerator.AddressTransfer | blockly-solidity/generators/solidity/contract.js:192-198 | the amount defaults to `0` |
| ContractGenerator.EventDefinition | blockly-solidity/generators/solidity/contract.js:201-206 | `event <name>(`, a newline, the argument text unchanged, then `);` and a blank line |
| ContractGenerator.EventArgument | blockly-solidity/generators/solidity/contract.js:209-220 | the type, then two spaces, `indexed ` exactly when the box is ticked, the name, and a comma only when another argument follows |
| Strings.Trim | blockly-solidity/generators/solidity/contract.js:231 | JavaScript `trim`: the result occurs in the input, neither end of a non-empty result is JavaScript whitespace, and an input without whitespace at either end comes back unchanged |
| Strings.TrimRemovesSpace | blockly-solidity/generators/solidity/contract.js:231 | `trim` removes whitespace and nothing else: the result is the slice of the input after its leading whitespace, and every character before or after that slice is whitespace |
| ContractGenerator.ArgumentList | blockly-solidity/generators/solidity/contract.js:228-233 | the trimmed argument text minus its last character |
| ContractGenerator.EventEmission | blockly-solidity/generators/solidity/contract.js:223-238 | `''` exactly for the placeholder; otherwise `emit` with the argument list |
| ContractGenerator.ModifierDefinition | blockly-solidity/generators/solidity/contract.js:246-255 | a missing condition is written `null` |
| ContractGenerator.ModifierUsage | blockly-solidity/generators/solidity/contract.js:279-295 | `''` exactly for the placeholder; otherwise the call with the argument list |
| ContractGenerator.EnumMember | blockly-solidity/generators/solidity/contract.js:306-313 | a comma only when another member follows |
| ContractGenerator.EnumMembersJoin | blockly-solidity/generators/solidity/contract.js:306-313 | a stack of members is the names joined by `", "` |
| ContractGenerator.Declaration | blockly-solidity/generators/solidity/contract.js:315-323 | `''` exactly when the type selector shows its placeholder |
| ContractGenerator.Assignment | blockly-solidity/generators/solidity/contract.js:325-333 | a missing value is written as a space |
| ContractGenerator.StructVariableSet | blockly-solidity/generators/solidity/contract.js:377-386 | `''` exactly for the struct-variable placeholder; otherwise `<name> = <value>;`, with a missing value written as a space |
| ContractGenerator.MemberAccess | blockly-solidity/generators/solidity/contract.js:406-421 | a name ending in `[]` becomes `base[index].member`; any other becomes `name.member` |
| ContractGenerator.StructMemberGet | blockly-solidity/generators/solidity/contract.js:413-422 | an atom: for a variable named `base[]` the text `base[index].member`, for any other name `name.member` |
| ContractGenerator.StructMemberSet | blockly-solidity/generators/solidity/contract.js:397-410 | for a variable named `base[]` the statement `base[index].member = value;`, for any other `name.member = value;`; a missing value is written as a space |
| ContractGenerator.StructSetWritesWhatGetReads | blockly-solidity/generators/solidity/contract.js:397-422 | for every value, including a missing one, the setter assigns to exactly the text the getter reads |
| ContractGenerator.MappingGet | blockly-solidity/generators/solidity/contract.js:450-459 | nothing exactly for the placeholder; a missing key is written as a space |
| ContractGenerator.MappingSet | blockly-solidity/generators/solidity/contract.js:436-447 | `''` exactly for the placeholder |
| ContractGenerator.MappingSetWritesWhatGetReads | blockly-solidity/generators/solidity/contract.js:436-459 | the setter assigns to exactly what the getter reads |
| ContractGenerator.ArrayVariableDeclare | blockly-solidity/generators/solidity/contract.js:462-470 | `''` exactly for the type placeholder; otherwise a dynamic array of the type |
| ContractGenerator.ArrayVariableSet | blockly-solidity/generators/solidity/contract.js:473-482 | `''` exactly when no array variable is attached; otherwise `<array> = <value>;`, a missing value written as a space |
| ContractGenerator.ArrayVariablePush | blockly-solidity/generators/solidity/contract.js:485-494 | `''` exactly when no array variable is attached; otherwise `<array>.push(<element>);`, a missing element written as a space |
| ContractGenerator.ArrayElementGet | blockly-solidity/generators/solidity/contract.js:497-506 | nothing exactly when no array variable is attached; otherwise the atom `<array>[<index>]`, the index defaulting to `0` |
| ContractGenerator.ArraySetWritesWhatGetReads | blockly-solidity/generators/solidity/contract.js:473-506 | assigning to an element read by `array_element_get` writes `<array>[<index>] = <value>;` |
| ContractGenerator.ArrayVariableGet | blockly-solidity/generators/solidity/contract.js:508-514 | nothing exactly for the placeholder; otherwise the variable's name as an atom |
| ContractGenerator.UsingFor | blockly-solidity/generators/solidity/contract.js:516-524 | `''` exactly for the library placeholder |
| ContractGenerator.OraclizeQuery | blockly-solidity/generators/solidity/contract.js:532-538 | `''` for the URL placeholder; otherwise the query of the URL |
| ContractGenerator.OraclizeScheduledQuery | blockly-solidity/generators/solidity/contract.js:541-548 | as the query, with the delay first |
| ContractGenerator.EnumGet | blockly-solidity/generators/solidity/contract.js:342-344 | the selected enum name, unchanged, as an atom |
| ContractGenerator.StructVariableCreate | blockly-solidity/generators/solidity/contract.js:366-374 | `''` exactly for the struct-type placeholder; otherwise `<type> <visibility> <name>;` |
| ContractGenerator.DocLine | blockly-solidity/generators/solidity/contract.js:563-570 | a `///` line exactly for a non-empty field |
| ContractGenerator.NatSpecContract | blockly-solidity/generators/solidity/contract.js:556-573 | one line per non-empty field, in title, author (tagged `@autor`), notice, dev order; empty exactly when every field is |
| ContractGenerator.NatSpecFunction | blockly-solidity/generators/solidity/contract.js:576-597 | nothing when every field is empty |
| ContractGenerator.NatSpecFunctionParameter | blockly-solidity/generators/solidity/contract.js:600-605 | a `@param` line exactly for a non-empty name |
| ContractGenerator.CtorOwner | blockly-solidity/generators/solidity/contract.js:608-619 | `''` exactly for a missing variable; otherwise it is assigned `msg.sender` |
| MethodsGenerator.ContractMethod | blockly-solidity/generators/solidity/methods.js:10-19 | the signature (docs, name, trimmed parameters, type, modifiers), then exactly the body in braces and a blank line, nothing in between |
| MethodsGenerator.ContractMethodWithReturn | blockly-solidity/generators/solidity/methods.js:22-39 | the signature, the `returns` clause, the body, then `return <value>;` and the closing brace, each part at its place and nothing else |
| MethodsGenerator.UnknownReturnType | blockly-solidity/generators/solidity/methods.js:30-32 | only bool, int and uint map; any other return type is written `undefined` |
| MethodsGenerator.ContractCtor | blockly-solidity/generators/solidity/methods.js:42-55 | `''` without a surrounding contract; otherwise a plain method named after the contract |
| MethodsGenerator.MethodParameter | blockly-solidity/generators/solidity/methods.js:58-69 | a trailing `", "` only when the next block is also a parameter |
| MethodsGenerator.ParametersJoin | blockly-solidity/generators/solidity/methods.js:58-69 | a stack of parameters is the declarations joined by `", "` |
| MethodsGenerator.ParameterGet | blockly-solidity/generators/solidity/methods.js:72-81 | nothing exactly for a missing variable; otherwise an atom holding its plain name, which is the stored name when that has no scope prefix |
| MethodsGenerator.Sha3 | blockly-solidity/generators/solidity/methods.js:84-89 | the argument defaults to `0` |
| MethodsGenerator.Present | blockly-solidity/generators/solidity/methods.js:98-106 | exactly the attached arguments, never more than were given; all of them when none is missing |
| MethodsGenerator.PresentAppend | blockly-solidity/generators/solidity/methods.js:98-106 | filtering a concatenation concatenates the filtered parts, so the attached arguments keep their order and multiplicity |
| MethodsGenerator.PresentThree | blockly-solidity/generators/solidity/methods.js:98-106 | for ARG1, ARG2, ARG3 the attached ones, in that order |
| MethodsGenerator.CallArguments | blockly-solidity/generators/solidity/methods.js:98-106 | the attached ARG1, ARG2, ARG3, in that order, joined by `", "` |
| MethodsGenerator.MethodCallValue | blockly-solidity/generators/solidity/methods.js:116-137 | nothing exactly when the method variable is missing; otherwise the call, as an atom |
| MethodsGenerator.MethodCall | blockly-solidity/generators/solidity/methods.js:92-113 | `''` for a missing method variable; otherwise the value block's call as a statement |
| MethodsGenerator.LibraryCallValue | blockly-solidity/generators/solidity/methods.js:161-179 | nothing exactly when no function is chosen or the library shows its placeholder |
| MethodsGenerator.LibraryCall | blockly-solidity/generators/solidity/methods.js:140-158 | `''` when not callable; otherwise `Lib.fn(args);` and a blank line |
| LogicGenerator.ControlsIf | blockly-solidity/generators/solidity/logic.js:32-51 | the loop over `IF0, IF1, …` gives the clauses joined by ` else `, then the optional else branch and `\n` |
| LogicGenerator.IfChainStartsWithFirst | blockly-solidity/generators/solidity/logic.js:36-41 | the chain opens with the first `if` clause |
| LogicGenerator.IfChainEnds | blockly-solidity/generators/solidity/logic.js:46-50 | it ends with the else branch iff an `ELSE` input exists, otherwise with the last clause |
| LogicGenerator.IfWithoutCondition | blockly-solidity/generators/solidity/logic.js:37-38 | a missing condition is `false` |
| LogicGenerator.ControlsFor | blockly-solidity/generators/solidity/logic.js:56-65 | the `uint` loop header from `from` to `to`, both defaulting to `0`, then exactly the indented body and the closing brace |
| LogicGenerator.LogicCompare | blockly-solidity/generators/solidity/logic.js:68-85 | the operands, defaulting to `0`, around the operator the field names (`undefined` for an unknown field); equality precedence exactly for EQ/NEQ and relational otherwise |
| LogicGenerator.LogicOperation | blockly-solidity/generators/solidity/logic.js:87-110 | `&&` exactly for AND; both missing gives `false op false`; one missing becomes the identity |
| LogicGenerator.IdentityHasNoEffect | blockly-solidity/generators/solidity/logic.js:99-106 | the substituted operand does not change the value, on either side |
| LogicGenerator.LogicNegate | blockly-solidity/generators/solidity/logic.js:112-119 | `!` before the operand, which defaults to `true` |
| LogicGenerator.LogicBoolean | blockly-solidity/generators/solidity/logic.js:121-125 | `true` exactly for the field `TRUE` |
| LogicGenerator.LogicNull | blockly-solidity/generators/solidity/logic.js:127-130 | the atom `null` |
| LogicGenerator.LogicTernary | blockly-solidity/generators/solidity/logic.js:132-142 | `cond ? then : else` at the conditional level, the operands defaulting to `false`, `null`, `null` |
| LogicGenerator.Text | blockly-solidity/generators/solidity/logic.js:145-149 | the field between double quotes, unchanged |
| LogicGenerator.TextNotEscaped | blockly-solidity/generators/solidity/logic.js:147-148 | unlike `quote_`, a double quote in the field is not escaped |
| LogicGenerator.TextLength | blockly-solidity/generators/solidity/logic.js:151-156 | `.length` of the operand, which defaults to `''` |

## Left out

- File and directory I/O, `json.loads`/`json.dump` and the `pretty` printer. A directory is the sequence of its entries with their parsed contents; the output is the JSON value written.
- Malformed JSON files: a file is given already parsed.
- JSON numbers other than integers: no script reads one.
- The registry and standalone loading over XMLHttpRequest. The descriptor database is a parameter of the dropdown builders.
- The Blockly UI: block definitions, mutators, change handlers, events and timers. These are foreign framework code.
- Blockly internals: `valueToCode`, `statementToCode`, indentation, comments and `scrub_`. They appear as string inputs.
- `getAdjusted` in blockly-solidity/generators/solidity.js: floating-point arithmetic on fractional precedence levels.
- `struct_variable_get`: it reads an undeclared variable and always throws.
- The Doxity scraper and the copy scripts: HTML scraping and file copying only.
- Scope.Ancestors: the walk takes a fuel bound (the number of blocks), which bounds the depth of any acyclic workspace; a cyclic parent map is not modelled.
- `finish`'s clean-up of the generator's temporary dictionaries. `definitions_` is modelled as the ordered list of its values.
- `owner_var_declaration`, `address_balance_get`, `msg_get`, `modifier_onlyBy`/`onlyOwner`/`onlyAfter`, `enum_definition`, `struct_definition`, `struct_member`, `mapping_definition`, `inherit`, `oraclize_result`: fixed templates of their inputs. They are defined, with no contract beyond their text.
- String lengths are counted in characters, not UTF-16 code units. They agree for the ASCII addresses `contract_state_set` checks.
- The dropdown database holds typed records `(name, contract_type, abi)` instead of raw JSON. Missing fields, which JavaScript reads as `undefined`, are not modelled.
- Between.Get: where the script recurses forever, the model returns `Failure(Diverges)`.
- Between.TrailFailure: it assumes a non-empty `sub2`; with an empty closing delimiter only `AllResults` itself describes the loop.
- Between.TrailItems: it assumes a non-empty `sub2`; with an empty closing delimiter only `AllResults` itself describes the loop.
- Between.AllResultsFramed: it assumes a non-empty `sub2`; with an empty closing delimiter only `AllResults` itself describes the loop.
- Between.WrapRoundTrip: it assumes a non-empty `sub2`; with an empty closing delimiter only `AllResults` itself describes the loop.
- ContractGenerator.Members: it states only the closing `\n}\n`, not the order of the sections.
- ContractGenerator.NatSpecFunction: it states only the all-empty case, not each line's position.

Where the descriptions of the scripts suggest otherwise, the code is followed:
- each parser reads its ABI from one fixed path, with no fallback;
- the converter writes the ABI under `contract.descriptor`, so the contract-descriptor parser cannot read a converted file.
