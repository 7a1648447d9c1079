/**
 * blockly-solidity/generators/solidity/contract.js: the generator of the
 * `contract` block, which assembles the whole source file (pragma, imports,
 * documentation, inheritance and members), and the generators of the
 * blocks that go inside it: state variables, events, modifiers, enums,
 * structs, mappings, arrays, `using … for`, Oraclize queries and NatSpec
 * comments. Field values and the code of attached blocks are plain inputs.
 */
module ContractGenerator {
  import opened Wrappers
  import opened Strings
  import opened Scope
  import opened SolidityGenerator

  /** The Solidity type written for each `TYPE_*` field value. */
  const Types: map<string, string> := map[
    "TYPE_BOOL" := "bool", "TYPE_INT" := "int", "TYPE_UINT" := "uint",
    "TYPE_ADDRESS" := "address", "TYPE_BYTES" := "bytes", "TYPE_BYTES32" := "bytes32",
    "TYPE_STRING" := "string", "TYPE_BOOL_ARRAY" := "bool[]", "TYPE_INT_ARRAY" := "int[]",
    "TYPE_UINT_ARRAY" := "uint[]", "TYPE_ADDRESS_ARRAY" := "address[]",
    "TYPE_BYTES_ARRAY" := "bytes[]", "TYPE_BYTES32_ARRAY" := "bytes32[]",
    "TYPE_STRING_ARRAY" := "string[]", "TYPE_STAR" := "*"]

  /** The initial value written for a state variable of each type; the
      wildcard type has none. */
  const DefaultValues: map<string, string> := map[
    "TYPE_BOOL" := "false", "TYPE_INT" := "0", "TYPE_UINT" := "0",
    "TYPE_ADDRESS" := ZeroAddress, "TYPE_BYTES" := "\"\"", "TYPE_BYTES32" := "\"\"",
    "TYPE_STRING" := "\"\"", "TYPE_BOOL_ARRAY" := "[]", "TYPE_INT_ARRAY" := "[]",
    "TYPE_UINT_ARRAY" := "[]", "TYPE_ADDRESS_ARRAY" := "[]", "TYPE_BYTES_ARRAY" := "[]",
    "TYPE_BYTES32_ARRAY" := "[]", "TYPE_STRING_ARRAY" := "[]"]

  const ZeroAddress: string := "0x0000000000000000000000000000000000000000"

  /** The first line of every generated file. */
  const Pragma: string := "pragma solidity 0.4.24;\n\n"

  // ---------------------------------------------------------------------
  // The contract assembler
  // ---------------------------------------------------------------------

  /** A block of the main workspace as the assembler scans it: its kind,
      its `LIB_NAME` field (library calls, `usingFor` and `inherit`
      blocks) and its `URL` field (Oraclize query blocks). */
  datatype WorkspaceBlock = WorkspaceBlock(kind: string, libName: string, url: string)

  /** The kinds of block whose library is imported. */
  const ImportingKinds: set<string> :=
    {"library_method_call", "library_method_call_with_return_value", "usingFor", "inherit"}

  /** The selector placeholders that never name a library. */
  const ImportPlaceholders: set<string> :=
    {"select external contract or library...", "select library...", "select external contract..."}

  const InheritPlaceholder: string := "select external contract..."

  const OraclizeKinds: set<string> := {"oraclize_query", "oraclize_scheduled_query"}
  const UrlPlaceholder: string := "URL to query"
  const OraclizeBase: string := "usingOraclize"
  const OraclizeImport: string := "import \"github.com/oraclize/ethereum-api/oraclizeAPI.sol\";\n"

  /** The `LIB_NAME` of every block of one of `kinds`, in workspace order. */
  function LibNames(blocks: seq<WorkspaceBlock>, kinds: set<string>): (r: seq<string>)
    ensures forall n :: n in r <==> exists b :: b in blocks && b.kind in kinds && b.libName == n
    decreases |blocks|
  {
    if |blocks| == 0 then []
    else
      var rest := LibNames(blocks[1..], kinds);
      assert forall b :: b in blocks <==> b == blocks[0] || b in blocks[1..];
      if blocks[0].kind in kinds then [blocks[0].libName] + rest else rest
  }

  /** The `includes`/`push` loop: appends each name that is neither a
      placeholder in `skip` nor already listed. */
  function AddNew(acc: seq<string>, names: seq<string>, skip: set<string>): (r: seq<string>)
    ensures |acc| <= |r| && r[..|acc|] == acc
    ensures forall x :: x in r <==> x in acc || (x in names && x !in skip)
    decreases |names|
  {
    if |names| == 0 then acc
    else
      var acc' := if names[0] !in skip && names[0] !in acc then acc + [names[0]] else acc;
      assert forall x :: x in names <==> x == names[0] || x in names[1..];
      AddNew(acc', names[1..], skip)
  }

  /** Name `i` is the first occurrence of a name that is neither skipped nor
      in `acc`. */
  predicate FirstOccurrence(names: seq<string>, acc: seq<string>, skip: set<string>, i: int)
    requires 0 <= i < |names|
  {
    names[i] !in skip && names[i] !in acc && names[i] !in names[..i]
  }

  /** The reference for `AddNew`: among the first `n` names, those at their
      first occurrence, in order. */
  function FirstOccurrences(names: seq<string>, acc: seq<string>, skip: set<string>, n: nat): (r: seq<string>)
    requires n <= |names|
    ensures forall x :: x in r <==> x in names[..n] && x !in skip && x !in acc
    ensures forall a, b :: 0 <= a < b < |r| ==> r[a] != r[b]
    decreases n
  {
    if n == 0 then []
    else
      var prev := FirstOccurrences(names, acc, skip, n - 1);
      assert names[..n] == names[..n - 1] + [names[n - 1]];
      if FirstOccurrence(names, acc, skip, n - 1) then prev + [names[n - 1]] else prev
  }

  lemma FirstOccurrencesStep(names: seq<string>, acc: seq<string>, skip: set<string>, k: nat)
    requires k < |names|
    ensures FirstOccurrences(names, acc, skip, k + 1) ==
            FirstOccurrences(names, acc, skip, k) + (if FirstOccurrence(names, acc, skip, k) then [names[k]] else [])
    ensures (names[k] !in skip && names[k] !in acc + FirstOccurrences(names, acc, skip, k)) <==>
            FirstOccurrence(names, acc, skip, k)
  {
    var x := names[k];
    var fo := FirstOccurrences(names, acc, skip, k);
    assert x in acc + fo <==> x in acc || x in fo;
    assert x in fo <==> x in names[..k] && x !in skip && x !in acc;
  }

  lemma {:induction false} AddNewFrom(acc: seq<string>, names: seq<string>, skip: set<string>, k: nat)
    requires k <= |names|
    ensures AddNew(acc + FirstOccurrences(names, acc, skip, k), names[k..], skip) ==
            acc + FirstOccurrences(names, acc, skip, |names|)
    decreases |names| - k
  {
    if k < |names| {
      var cur := acc + FirstOccurrences(names, acc, skip, k);
      var next := if names[k] !in skip && names[k] !in cur then cur + [names[k]] else cur;
      calc {
        AddNew(cur, names[k..], skip);
        { assert names[k..][0] == names[k] && names[k..][1..] == names[k + 1..]; AddNewCons(cur, names[k..], skip); }
        AddNew(next, names[k + 1..], skip);
        { NextFirstOccurrences(names, acc, skip, k); }
        AddNew(acc + FirstOccurrences(names, acc, skip, k + 1), names[k + 1..], skip);
        { AddNewFrom(acc, names, skip, k + 1); }
        acc + FirstOccurrences(names, acc, skip, |names|);
      }
    } else {
      assert names[k..] == [];
    }
  }

  /** One more step of the loop extends the accumulated first occurrences
      by the next name's. */
  lemma NextFirstOccurrences(names: seq<string>, acc: seq<string>, skip: set<string>, k: nat)
    requires k < |names|
    ensures var cur := acc + FirstOccurrences(names, acc, skip, k);
      (if names[k] !in skip && names[k] !in cur then cur + [names[k]] else cur) ==
      acc + FirstOccurrences(names, acc, skip, k + 1)
  {
    FirstOccurrencesStep(names, acc, skip, k);
    var fo := FirstOccurrences(names, acc, skip, k);
    if FirstOccurrence(names, acc, skip, k) {
      assert acc + fo + [names[k]] == acc + (fo + [names[k]]);
    } else {
      assert fo + [] == fo;
    }
  }

  lemma AddNewCons(acc: seq<string>, names: seq<string>, skip: set<string>)
    requires |names| > 0
    ensures AddNew(acc, names, skip) ==
            AddNew(if names[0] !in skip && names[0] !in acc then acc + [names[0]] else acc, names[1..], skip)
  {
  }

  /** The `includes`/`push` loop keeps exactly the first occurrence of each
      name that is not skipped and not already present, in the order the
      names come; the result never lists a name twice when `acc` does not. */
  lemma AddNewFirstOccurrences(acc: seq<string>, names: seq<string>, skip: set<string>)
    ensures AddNew(acc, names, skip) == acc + FirstOccurrences(names, acc, skip, |names|)
    ensures (forall a, b :: 0 <= a < b < |acc| ==> acc[a] != acc[b]) ==>
              forall a, b :: 0 <= a < b < |AddNew(acc, names, skip)| ==>
                AddNew(acc, names, skip)[a] != AddNew(acc, names, skip)[b]
  {
    calc {
      AddNew(acc, names, skip);
      { assert acc + FirstOccurrences(names, acc, skip, 0) == acc && names[0..] == names; }
      AddNew(acc + FirstOccurrences(names, acc, skip, 0), names[0..], skip);
      { AddNewFrom(acc, names, skip, 0); }
      acc + FirstOccurrences(names, acc, skip, |names|);
    }
    if forall a, b :: 0 <= a < b < |acc| ==> acc[a] != acc[b] {
      DistinctAppend(acc, FirstOccurrences(names, acc, skip, |names|));
    }
  }

  /** Two lists without repeats and without a common name concatenate to a
      list without repeats. */
  lemma DistinctAppend(xs: seq<string>, ys: seq<string>)
    requires forall a, b :: 0 <= a < b < |xs| ==> xs[a] != xs[b]
    requires forall a, b :: 0 <= a < b < |ys| ==> ys[a] != ys[b]
    requires forall y :: y in ys ==> y !in xs
    ensures forall a, b :: 0 <= a < b < |xs + ys| ==> (xs + ys)[a] != (xs + ys)[b]
  {
    var r := xs + ys;
    forall a, b | 0 <= a < b < |r|
      ensures r[a] != r[b]
    {
      if b < |xs| {
      } else if a < |xs| {
        assert r[b] == ys[b - |xs|] && r[b] in ys;
        assert r[a] in xs;
      } else {
        assert r[a] == ys[a - |xs|] && r[b] == ys[b - |xs|];
      }
    }
  }

  /** The libraries imported by the contract: first occurrences of the
      `LIB_NAME`s of library-call, `usingFor` and `inherit` blocks, without
      the placeholders. */
  function ImportNames(blocks: seq<WorkspaceBlock>): (r: seq<string>)
    ensures forall n :: n in r <==>
              n !in ImportPlaceholders && exists b :: b in blocks && b.kind in ImportingKinds && b.libName == n
  {
    AddNew([], LibNames(blocks, ImportingKinds), ImportPlaceholders)
  }

  function ImportLine(name: string): string
  {
    "import \"./" + name + ".sol\";\n"
  }

  /** One import line per name, in order. */
  function ImportLines(names: seq<string>): (r: string)
    decreases |names|
  {
    if |names| == 0 then "" else ImportLine(names[0]) + ImportLines(names[1..])
  }

  /** Every name gets its import line. */
  lemma {:induction false} ImportLinesContain(names: seq<string>)
    ensures ImportsEach(ImportLines(names), names)
    decreases |names|
  {
    if |names| > 0 {
      var head := ImportLine(names[0]);
      var rest := ImportLines(names[1..]);
      ImportLinesContain(names[1..]);
      IndexOfPrefix(head, rest);
      forall i | 1 <= i < |names|
        ensures Contains(head + rest, ImportLine(names[i]))
      {
        assert names[i] == names[1..][i - 1];
        ContainsWithin(head, rest, "", ImportLine(names[i]));
      }
    }
  }

  /** `r` holds the import line of every name. */
  predicate ImportsEach(r: string, names: seq<string>)
  {
    forall i :: 0 <= i < |names| ==> Contains(r, ImportLine(names[i]))
  }

  /** The import lines keep the order and multiplicity of the names: the
      lines of two consecutive lists are those of the first followed by
      those of the second, and one name gives exactly its own line. */
  lemma {:induction false} ImportLinesAppend(a: seq<string>, b: seq<string>)
    ensures ImportLines(a + b) == ImportLines(a) + ImportLines(b)
    ensures |a| == 1 ==> ImportLines(a) == ImportLine(a[0])
    decreases |a|
  {
    if |a| == 0 {
      assert a + b == b;
    } else {
      assert (a + b)[0] == a[0] && (a + b)[1..] == a[1..] + b;
      var head := ImportLine(a[0]);
      assert ImportLines(a + b) == head + ImportLines(a[1..] + b) by {
        ImportLinesCons(a + b);
      }
      assert ImportLines(a[1..] + b) == ImportLines(a[1..]) + ImportLines(b) by {
        ImportLinesAppend(a[1..], b);
      }
      assert ImportLines(a) == head + ImportLines(a[1..]) by {
        ImportLinesCons(a);
      }
      ConsAssoc(head, ImportLines(a[1..]), ImportLines(b));
      if |a| == 1 {
        assert a[1..] == [];
      }
    }
  }

  lemma ImportLinesCons(names: seq<string>)
    requires |names| > 0
    ensures ImportLines(names) == ImportLine(names[0]) + ImportLines(names[1..])
  {
  }

  /** The first Oraclize query block of the workspace, if any. */
  function FirstOraclize(blocks: seq<WorkspaceBlock>): (r: Option<WorkspaceBlock>)
    ensures r.None? <==> forall b :: b in blocks ==> b.kind !in OraclizeKinds
    ensures r.Some? ==> r.value in blocks && r.value.kind in OraclizeKinds
    ensures |blocks| > 0 && blocks[0].kind in OraclizeKinds ==> r == Some(blocks[0])
    decreases |blocks|
  {
    if |blocks| == 0 then None
    else if blocks[0].kind in OraclizeKinds then Some(blocks[0])
    else
      assert forall b :: b in blocks <==> b == blocks[0] || b in blocks[1..];
      FirstOraclize(blocks[1..])
  }

  /** The first Oraclize query block has a URL other than the placeholder. */
  predicate OraclizeActive(blocks: seq<WorkspaceBlock>)
  {
    FirstOraclize(blocks).Some? && FirstOraclize(blocks).value.url != UrlPlaceholder
  }

  /** The import section: the Oraclize API first when a query is active,
      one line per imported library, then a blank line. */
  function Imports(blocks: seq<WorkspaceBlock>): (r: string)
    ensures OraclizeActive(blocks) ==> r == OraclizeImport + ImportLines(ImportNames(blocks)) + "\n"
    ensures !OraclizeActive(blocks) ==> r == ImportLines(ImportNames(blocks)) + "\n"
  {
    var lines := ImportLines(ImportNames(blocks)) + "\n";
    if OraclizeActive(blocks) then OraclizeImport + lines else lines
  }

  /** The base contracts: `usingOraclize` first when a query is active, then
      the first occurrence of each inherited contract other than the
      placeholder. */
  function InheritNames(blocks: seq<WorkspaceBlock>): (r: seq<string>)
    ensures OraclizeActive(blocks) ==> |r| > 0 && r[0] == OraclizeBase
    ensures forall n :: n in r <==>
              (OraclizeActive(blocks) && n == OraclizeBase) ||
              (n != InheritPlaceholder && exists b :: b in blocks && b.kind == "inherit" && b.libName == n)
  {
    var start := if OraclizeActive(blocks) then [OraclizeBase] else [];
    var r := AddNew(start, LibNames(blocks, {"inherit"}), {InheritPlaceholder});
    assert OraclizeActive(blocks) ==> r[..1] == [OraclizeBase];
    r
  }

  /** The inheritance clause: the names joined by `", "`, wrapped as
      ` is … ` only when that text is longer than one character. */
  function InheritClause(names: seq<string>): (r: string)
    ensures |names| == 0 ==> r == ""
    ensures |Join(names, ", ")| > 1 ==> r == " is " + Join(names, ", ") + " "
    ensures |Join(names, ", ")| <= 1 ==> r == Join(names, ", ")
  {
    var joined := Join(names, ", ");
    if |joined| > 1 then " is " + joined + " " else joined
  }

  /** A single one-letter base contract is not wrapped: `contract C` with
      base `A` is written `contract CA {`. */
  lemma OneLetterBaseNotWrapped(base: string)
    requires |base| == 1
    ensures InheritClause([base]) == base
  {
  }

  /** The inputs of the `contract` block: its name field and the code of
      its statement inputs. */
  datatype ContractBlock = ContractBlock(
    name: string, docs: string, states: string, modifiers: string, events: string,
    ctor: string, methods: string, methodsWithReturn: string)

  /** The line that opens the contract body. */
  function ContractLine(name: string, blocks: seq<WorkspaceBlock>): string
  {
    "contract " + name + InheritClause(InheritNames(blocks)) + " {\n\n"
  }

  /** Everything up to the contract's opening brace: pragma, imports,
      documentation outdented by two spaces, and the contract line. */
  function Header(c: ContractBlock, blocks: seq<WorkspaceBlock>): (r: string)
    ensures |r| == |Pragma| + |Imports(blocks)| + |ReplaceAll(c.docs, "  ///", "///")| + |ContractLine(c.name, blocks)|
    ensures r[..|Pragma| + |Imports(blocks)|] == Pragma + Imports(blocks)
    ensures r[|Pragma| + |Imports(blocks)|..|r| - |ContractLine(c.name, blocks)|] == ReplaceAll(c.docs, "  ///", "///")
    ensures EndsWith(r, ContractLine(c.name, blocks))
  {
    var top := Pragma + Imports(blocks);
    var line := ContractLine(c.name, blocks);
    var mid := top + ReplaceAll(c.docs, "  ///", "///");
    ConcatParts(mid, line);
    PrefixOfConcat(mid, line, |top|);
    ConcatParts(top, ReplaceAll(c.docs, "  ///", "///"));
    assert (mid + line)[|top|..|mid|] == mid[|top|..];
    mid + line
  }

  /** Documentation without a two-space-indented `///` is copied into the
      header unchanged, between the imports and the contract line. */
  lemma HeaderPlainDocs(c: ContractBlock, blocks: seq<WorkspaceBlock>)
    requires !Contains(c.docs, "  ///")
    ensures Header(c, blocks) == Pragma + Imports(blocks) + c.docs + ContractLine(c.name, blocks)
  {
    ReplaceAllAbsent(c.docs, "  ///", "///");
  }

  /** The members: states (followed by a blank line when there are any),
      modifiers, events, and the constructor and methods with their
      documentation outdented; the last two characters of the methods, or
      else of the constructor, are cut before the closing brace. */
  function Members(c: ContractBlock): (r: string)
    ensures EndsWith(r, "\n}\n")
  {
    var states := if |c.states| > 0 then c.states + "\n" else "";
    var ctor := if |c.methods| == 0 && |c.ctor| > 0 then DropLastTwo(c.ctor) else c.ctor;
    var methods := if |c.methods| > 0 then DropLastTwo(c.methods) else c.methods;
    var r := states + c.modifiers + c.events
      + ReplaceAll(ctor, "    ///", "  ///")
      + ReplaceAll(methods, "    ///", "  ///")
      + ReplaceAll(c.methodsWithReturn, "    ///", "  ///")
      + "\n}\n";
    assert r[|r| - 3..] == "\n}\n";
    r
  }

  /** The `contract` generator: the whole source file, the header
      followed by the members. */
  function Contract(c: ContractBlock, blocks: seq<WorkspaceBlock>): (r: string)
    ensures |r| >= |Pragma| + |Imports(blocks)|
    ensures r[..|Pragma| + |Imports(blocks)|] == Pragma + Imports(blocks)
    ensures EndsWith(r, "\n}\n")
    ensures |r| == |Header(c, blocks)| + |Members(c)|
    ensures r[..|Header(c, blocks)|] == Header(c, blocks)
    ensures r[|Header(c, blocks)|..] == Members(c)
  {
    var h := Header(c, blocks);
    var m := Members(c);
    ConcatKeeps(h, m, |Pragma| + |Imports(blocks)|, Pragma + Imports(blocks), "\n}\n");
    h + m
  }

  /** The workspace's blocks shape only the header: an Oraclize query adds
      an import and a base contract but no event declaration, because the
      event line it appends is overwritten when the events are read. */
  lemma OraclizeAddsNoEvent(c: ContractBlock, blocks1: seq<WorkspaceBlock>, blocks2: seq<WorkspaceBlock>)
    ensures Contract(c, blocks1)[|Header(c, blocks1)|..] == Contract(c, blocks2)[|Header(c, blocks2)|..]
  {
  }

  /** An active Oraclize query makes `usingOraclize` the first base. */
  lemma OraclizeFirstBase(blocks: seq<WorkspaceBlock>)
    requires OraclizeActive(blocks)
    ensures |InheritClause(InheritNames(blocks))| >= 4 + |OraclizeBase|
    ensures InheritClause(InheritNames(blocks))[..4 + |OraclizeBase|] == " is " + OraclizeBase
  {
    var names := InheritNames(blocks);
    var base := names[0];
    var joined := Join(names, ", ");
    if |names| == 1 {
      assert joined == base;
    } else {
      assert joined == base + ", " + Join(names[1..], ", ");
      PrefixOfConcat(base, ", " + Join(names[1..], ", "), |base|);
    }
    assert joined[..|base|] == base;
    assert |joined| > 1;
    PrefixOfConcat(" is " + joined, " ", 4 + |base|);
    PrefixOfConcat(" is ", joined, 4);
    assert (" is " + joined)[..4 + |base|] == " is " + joined[..|base|];
  }

  /** An active Oraclize query puts the Oraclize API import right after the
      pragma. */
  lemma OraclizeFirstImport(c: ContractBlock, blocks: seq<WorkspaceBlock>)
    requires OraclizeActive(blocks)
    ensures |Contract(c, blocks)| >= |Pragma| + |OraclizeImport|
    ensures Contract(c, blocks)[..|Pragma| + |OraclizeImport|] == Pragma + OraclizeImport
  {
    var rest := ImportLines(ImportNames(blocks)) + "\n";
    assert Imports(blocks) == OraclizeImport + rest;
    PrefixOfPrefix(Contract(c, blocks), Pragma, OraclizeImport, rest);
  }

  // ---------------------------------------------------------------------
  // State variables and addresses
  // ---------------------------------------------------------------------

  /** A state variable declaration with its initial value. */
  function StateDeclaration(name: string, value: string, kind: string, visibility: string): string
  {
    Lookup(Types, kind) + " " + visibility + " " + name + " = " + value + ";\n"
  }

  /** `contract_state`: `<type> <visibility> <name> = <value>;`, the value
      being the type's default when nothing is attached. */
  function ContractState(name: string, value: string, kind: string, visibility: string): (r: string)
    ensures value == "" ==> r == StateDeclaration(name, Lookup(DefaultValues, kind), kind, visibility)
    ensures value != "" ==> r == StateDeclaration(name, value, kind, visibility)
    ensures value == "" && kind in DefaultValues ==>
              r == Types[kind] + " " + visibility + " " + name + " = " + DefaultValues[kind] + ";\n"
  {
    StateDeclaration(name, if value == "" then Lookup(DefaultValues, kind) else value, kind, visibility)
  }

  /** The wildcard type has no default: an unset `*` state variable is
      initialised with the text `undefined`. */
  lemma WildcardStateUndefined(name: string, visibility: string)
    ensures ContractState(name, "", "TYPE_STAR", visibility) ==
            "* " + visibility + " " + name + " = undefined;\n"
  {
  }

  /** `owner_var_declaration`. */
  function OwnerVarDeclaration(name: string, visibility: string): string
  {
    "address " + visibility + " " + name + ";\n"
  }

  /** `contract_state_get`: the variable's plain name. */
  function ContractStateGet(variable: Option<Variable>): (r: Value)
    ensures r == VariableValue(variable)
    ensures r.Empty? <==> variable.None?
  {
    VariableValue(variable)
  }

  /** The value `contract_state_set` assigns: the attached value, else the
      type's default, else `0`; an address whose length is neither 40 nor
      42 characters becomes the zero address. */
  function AssignedValue(varType: string, value: string): (r: string)
    ensures varType == "TYPE_ADDRESS" ==> |r| == 40 || |r| == 42
    ensures varType == "TYPE_ADDRESS" && (|value| == 40 || |value| == 42) ==> r == value
    ensures varType == "TYPE_ADDRESS" && value != "" && |value| != 40 && |value| != 42 ==> r == ZeroAddress
    ensures varType != "TYPE_ADDRESS" && value != "" ==> r == value
    ensures value == "" && varType in DefaultValues ==> r == DefaultValues[varType]
    ensures value == "" && varType !in DefaultValues ==> r == "0"
  {
    var fallback := if varType in DefaultValues then DefaultValues[varType] else "0";
    var v := Or(value, fallback);
    if varType == "TYPE_ADDRESS" && |v| != 40 && |v| != 42 then ZeroAddress else v
  }

  /** `contract_state_set`: `''` for a missing variable, else an assignment
      of `AssignedValue` to its plain name. */
  function ContractStateSet(variable: Option<Variable>, value: string): (r: string)
    ensures variable.None? <==> r == ""
    ensures variable.Some? ==>
              r == GetVariableName(variable.value) + " = " + AssignedValue(variable.value.valueType, value) + ";\n"
  {
    match variable
    case None => ""
    case Some(v) => GetVariableName(v) + " = " + AssignedValue(v.valueType, value) + ";\n"
  }

  /** `address_balance_get`. */
  function AddressBalanceGet(addressName: string): Value
  {
    Code(addressName + ".balance", Atomic)
  }

  /** `address_transfer`: the amount defaults to `0`. */
  function AddressTransfer(addressName: string, amount: string): (r: string)
    ensures amount == "" ==> r == addressName + ".transfer(0);\n\n"
    ensures amount != "" ==> r == addressName + ".transfer(" + amount + ");\n\n"
  {
    addressName + ".transfer(" + Or(amount, "0") + ");\n\n"
  }

  /** `msg_get`. */
  function MsgGet(messageType: string): Value
  {
    Code("msg." + messageType, Atomic)
  }

  // ---------------------------------------------------------------------
  // Events and modifiers
  // ---------------------------------------------------------------------

  /** `event_definition`. */
  function EventDefinition(name: string, args: string): (r: string)
    ensures |r| == |name| + |args| + 12
    ensures r[..6 + |name|] == "event " + name
    ensures r[6 + |name|..8 + |name|] == "(\n"
    ensures r[8 + |name|..8 + |name| + |args|] == args
    ensures EndsWith(r, ");\n\n")
  {
    var a := "event " + name;
    var b := a + "(\n";
    var c := b + args;
    assert |a| == 6 + |name| && |b| == 8 + |name|;
    ConcatParts(c, ");\n\n");
    ConcatParts(b, args);
    ConcatParts(a, "(\n");
    assert (c + ");\n\n")[..|a|] == a by { PrefixOfConcat(c, ");\n\n", |a|); PrefixOfConcat(b, args, |a|); }
    assert (c + ");\n\n")[|a|..|b|] == c[|a|..|b|] == b[|a|..];
    assert (c + ");\n\n")[|b|..|c|] == c[|b|..];
    var r := c + ");\n\n";
    r
  }

  /** `event_argument`: the type, ` indexed` when the box is ticked, the
      name, and a comma only when the next block is also an event
      argument. */
  function EventArgument(name: string, kind: string, indexed: bool, nextIsArgument: bool): (r: string)
    ensures |r| >= |Lookup(Types, kind)| && r[..|Lookup(Types, kind)|] == Lookup(Types, kind)
    ensures nextIsArgument ==> EndsWith(r, " " + name + ",\n")
    ensures !nextIsArgument ==> EndsWith(r, " " + name + "\n")
    ensures indexed ==> r == Lookup(Types, kind) + "  indexed " + name + (if nextIsArgument then ",\n" else "\n")
    ensures !indexed ==> r == Lookup(Types, kind) + "  " + name + (if nextIsArgument then ",\n" else "\n")
  {
    var t := Lookup(Types, kind);
    var sep := if nextIsArgument then ",\n" else "\n";
    var gap := if indexed then "  indexed" else " ";
    assert gap + " " == (if indexed then "  indexed " else "  ");
    SpacedParts(t, gap, name, sep);
    t + gap + (" " + name + sep)
  }

  /** The parts of an argument line: the type, the gap, a space, the name
      and the separator. */
  lemma SpacedParts(t: string, gap: string, name: string, sep: string)
    ensures var r := t + gap + (" " + name + sep);
      && |r| >= |t| && r[..|t|] == t && EndsWith(r, " " + name + sep)
      && r == t + (gap + " ") + name + sep
  {
    ConcatThree(t, gap, " " + name + sep);
  }

  /** The argument text of an event emission or modifier usage: the
      trimmed code of the argument blocks without its last character (the
      separator the last argument block leaves). */
  function ArgumentList(args: string): (r: string)
    ensures args == "" || Trim(args) == "" ==> r == ""
    ensures Trim(args) != "" ==> r + [Trim(args)[|Trim(args)| - 1]] == Trim(args)
  {
    if args == "" then ""
    else
      var t := Trim(args);
      if |t| == 0 then "" else
        LastSplit(t);
        t[..|t| - 1]
  }

  const EventPlaceholder: string := "select event..."
  const ModifierPlaceholder: string := "select modifier..."

  /** `event_emission`: `''` for the placeholder. */
  function EventEmission(eventName: string, args: string): (r: string)
    ensures eventName == EventPlaceholder <==> r == ""
    ensures eventName != EventPlaceholder ==> r == "emit " + eventName + "(" + ArgumentList(args) + ");\n"
  {
    if eventName == EventPlaceholder then "" else "emit " + eventName + "(" + ArgumentList(args) + ");\n"
  }

  /** A modifier that requires `condition`, failing with `message`. */
  function ModifierText(name: string, params: string, condition: string, message: string): string
  {
    "modifier " + name + "(" + Trim(params) + ")\n{\n\trequire(\n\t\t" + condition
      + ",\n\t\t\"" + message + "\"\n\t);\n\t_;\n}\n\n"
  }

  /** `modifier_definition`: a missing condition is written `null`. */
  function ModifierDefinition(name: string, params: string, condition: string, message: string): (r: string)
    ensures condition == "" ==> r == ModifierText(name, params, "null", message)
    ensures condition != "" ==> r == ModifierText(name, params, condition, message)
  {
    ModifierText(name, params, Or(condition, "null"), message)
  }

  /** `modifier_onlyBy`. */
  function ModifierOnlyBy(name: string): string
  {
    "modifier " + name + "(address _account)"
      + "\n{\n\trequire(\n\t\tmsg.sender == _account,\n\t\t\"Only the specified account can call this function.\"\n\t);\n\t _;\n}\n\n"
  }

  /** `modifier_onlyOwner`. */
  function ModifierOnlyOwner(name: string): string
  {
    "modifier " + name + "\n{\n\trequire(\n\t\tmsg.sender == owner,\n\t\t\"Only owner can call this function.\"\n\t);\n\t _;\n}\n\n"
  }

  /** `modifier_onlyAfter`. */
  function ModifierOnlyAfter(name: string): string
  {
    "modifier " + name + "(uint _time)" + "\n{\n\trequire(\n\t\tnow >= _time,\n\t\t\"Function called too early.\"\n\t);\n\t _;\n}\n\n"
  }

  /** `modifier_usage`: `''` for the placeholder. */
  function ModifierUsage(modifierName: string, args: string): (r: string)
    ensures modifierName == ModifierPlaceholder <==> r == ""
    ensures modifierName != ModifierPlaceholder ==> r == modifierName + "(" + ArgumentList(args) + ") "
  {
    if modifierName == ModifierPlaceholder then "" else modifierName + "(" + ArgumentList(args) + ") "
  }

  // ---------------------------------------------------------------------
  // Enums and structs
  // ---------------------------------------------------------------------

  /** `enum_definition`. */
  function EnumDefinition(name: string, members: string): string
  {
    "enum " + name + " {" + Trim(members) + "}\n\n"
  }

  /** `enum_member`: followed by `", "` only when the next block is also an
      enum member. */
  function EnumMember(name: string, nextIsMember: bool): (r: string)
    ensures r == name + (if nextIsMember then ", " else "")
  {
    name + (if nextIsMember then ", " else "")
  }

  /** A stack of enum members lists the names separated by `", "`. */
  lemma EnumMembersJoin(names: seq<string>)
    ensures Concat(seq(|names|, i requires 0 <= i < |names| => EnumMember(names[i], i + 1 < |names|)))
            == Join(names, ", ")
  {
    assert seq(|names|, i requires 0 <= i < |names| => EnumMember(names[i], i + 1 < |names|)) == Stack(names, ", ");
    StackJoin(names, ", ");
  }

  /** A declaration `<type> <visibility> <name>;`, or `''` while the type
      selector shows its placeholder. */
  function Declaration(typeName: string, placeholder: string, visibility: string, varName: string): (r: string)
    ensures typeName == placeholder ==> r == ""
    ensures typeName != placeholder ==> r == typeName + " " + visibility + " " + varName + ";\n"
  {
    if typeName == placeholder then "" else typeName + " " + visibility + " " + varName + ";\n"
  }

  /** `enum_variable_create`. */
  function EnumVariableCreate(enumType: string, visibility: string, varName: string): string
  {
    Declaration(enumType, "select enum type...", visibility, varName)
  }

  /** An assignment statement whose missing value is written as one space. */
  function Assignment(target: string, value: string): (r: string)
    ensures value == "" ==> r == target + " =  ;\n"
    ensures value != "" ==> r == target + " = " + value + ";\n"
  {
    target + " = " + Or(value, " ") + ";\n"
  }

  /** `enum_variable_set`. */
  function EnumVariableSet(variableName: string, value: string): string
  {
    Assignment(variableName, value)
  }

  /** `enum_member_get` and `enum_get`: the name as an atom. */
  function EnumGet(name: string): (r: Value)
    ensures r.Code? && r.order == Atomic && r.text == name
  {
    Code(name, Atomic)
  }

  /** `struct_definition`. */
  function StructDefinition(name: string, members: string): string
  {
    "struct " + name + " {\n" + Trim(members) + "\n}\n\n"
  }

  /** `struct_member`. */
  function StructMember(kind: string, name: string): string
  {
    "\t" + Lookup(Types, kind) + " " + name + ";\n"
  }

  /** `struct_variable_create`. */
  function StructVariableCreate(structType: string, visibility: string, varName: string): (r: string)
    ensures structType == "select struct type..." <==> r == ""
    ensures structType != "select struct type..." ==> r == structType + " " + visibility + " " + varName + ";\n"
  {
    Declaration(structType, "select struct type...", visibility, varName)
  }

  /** `struct_variable_set`: `''` for the placeholder. */
  function StructVariableSet(variableName: string, value: string): (r: string)
    ensures variableName == "select struct variable..." <==> r == ""
    ensures variableName != "select struct variable..." && value == "" ==> r == variableName + " =  ;\n"
    ensures variableName != "select struct variable..." && value != "" ==> r == variableName + " = " + value + ";\n"
  {
    if variableName == "select struct variable..." then "" else Assignment(variableName, value)
  }

  /** The member a struct block addresses: on a variable whose name ends
      with `[]`, the member of the element at `index`; otherwise the member
      of the variable itself. */
  function MemberAccess(variableName: string, memberName: string, index: string): (r: string)
    ensures EndsWith(variableName, "[]") ==>
              r == variableName[..|variableName| - 2] + "[" + index + "]." + memberName
    ensures !EndsWith(variableName, "[]") ==> r == variableName + "." + memberName
  {
    if EndsWith(variableName, "[]")
    then variableName[..|variableName| - 2] + "[" + index + "]." + memberName
    else variableName + "." + memberName
  }

  /** `struct_member_get`. */
  function StructMemberGet(variableName: string, memberName: string, index: string): (r: Value)
    ensures r.Code? && r.order == Atomic
    ensures EndsWith(variableName, "[]") ==>
              r.text == variableName[..|variableName| - 2] + "[" + index + "]." + memberName
    ensures !EndsWith(variableName, "[]") ==> r.text == variableName + "." + memberName
  {
    Code(MemberAccess(variableName, memberName, index), Atomic)
  }

  /** `struct_member_set`. */
  function StructMemberSet(variableName: string, memberName: string, value: string, index: string): (r: string)
    ensures EndsWith(variableName, "[]") ==>
              r == variableName[..|variableName| - 2] + "[" + index + "]." + memberName + " = " + Or(value, " ") + ";\n"
    ensures !EndsWith(variableName, "[]") ==> r == variableName + "." + memberName + " = " + Or(value, " ") + ";\n"
  {
    Assignment(MemberAccess(variableName, memberName, index), value)
  }

  /** The struct setter assigns to exactly the location the getter reads. */
  lemma StructSetWritesWhatGetReads(variableName: string, memberName: string, value: string, index: string)
    ensures StructMemberSet(variableName, memberName, value, index) ==
            StructMemberGet(variableName, memberName, index).text + " = " + Or(value, " ") + ";\n"
  {
  }

  // ---------------------------------------------------------------------
  // Mappings, arrays, libraries
  // ---------------------------------------------------------------------

  const MappingPlaceholder: string := "select mapping variable..."

  /** `mapping_definition`. */
  function MappingDefinition(type1: string, type2: string, visibility: string, varName: string): string
  {
    "mapping(" + Lookup(Types, type1) + " => " + Lookup(Types, type2) + ") " + visibility + " " + varName + ";\n"
  }

  /** `mapping_get`: nothing for the placeholder; a missing key is written
      as one space. */
  function MappingGet(variableName: string, arg: string): (r: Value)
    ensures variableName == MappingPlaceholder <==> r.Empty?
    ensures r.Code? ==> r.order == Atomic && r.text == variableName + "[" + Or(arg, " ") + "]"
  {
    if variableName == MappingPlaceholder then Empty
    else Code(variableName + "[" + Or(arg, " ") + "]", Atomic)
  }

  /** `mapping_set`: `''` for the placeholder. */
  function MappingSet(variableName: string, arg: string, value: string): (r: string)
    ensures variableName == MappingPlaceholder <==> r == ""
  {
    if variableName == MappingPlaceholder then ""
    else variableName + "[" + Or(arg, " ") + "] = " + Or(value, " ") + ";\n"
  }

  /** The mapping setter assigns to exactly the entry the getter reads. */
  lemma MappingSetWritesWhatGetReads(variableName: string, arg: string, value: string)
    requires variableName != MappingPlaceholder
    ensures MappingSet(variableName, arg, value) ==
            TextOf(MappingGet(variableName, arg)) + " = " + Or(value, " ") + ";\n"
  {
  }

  /** `array_variable_declare`: `''` while the type is unselected. */
  function ArrayVariableDeclare(arrayType: string, visibility: string, varName: string): (r: string)
    ensures arrayType == "select type..." <==> r == ""
    ensures arrayType in Types ==> r == Types[arrayType] + "[] " + visibility + " " + varName + ";\n"
  {
    if arrayType == "select type..." then ""
    else Lookup(Types, arrayType) + "[] " + visibility + " " + varName + ";\n"
  }

  /** The array operand of an array block, with the one-space default; the
      blocks produce nothing when it is blank. */
  predicate NoArray(variableCode: string)
  {
    Or(variableCode, " ") == " "
  }

  /** `array_variable_set`. */
  function ArrayVariableSet(variableCode: string, value: string): (r: string)
    ensures r == "" <==> variableCode == "" || variableCode == " "
    ensures r != "" ==> r == variableCode + " = " + Or(value, " ") + ";\n"
  {
    if NoArray(variableCode) then "" else Assignment(variableCode, value)
  }

  /** `array_variable_push`. */
  function ArrayVariablePush(variableCode: string, newElement: string): (r: string)
    ensures r == "" <==> variableCode == "" || variableCode == " "
    ensures r != "" ==> r == variableCode + ".push(" + Or(newElement, " ") + ");\n"
  {
    if NoArray(variableCode) then "" else variableCode + ".push(" + Or(newElement, " ") + ");\n"
  }

  /** `array_variable_element_get`: the index defaults to `0`. */
  function ArrayElementGet(variableCode: string, index: string): (r: Value)
    ensures r.Empty? <==> variableCode == "" || variableCode == " "
    ensures r.Code? ==> r.order == Atomic && r.text == variableCode + "[" + Or(index, "0") + "]"
    ensures r.Code? && index == "" ==> r.text == variableCode + "[0]"
  {
    if NoArray(variableCode) then Empty else Code(variableCode + "[" + Or(index, "0") + "]", Atomic)
  }

  /** `array_variable_get`. */
  function ArrayVariableGet(variableName: string): (r: Value)
    ensures r.Empty? <==> variableName == "select array variable..."
    ensures r.Code? ==> r.order == Atomic && r.text == variableName
  {
    if variableName == "select array variable..." then Empty else Code(variableName, Atomic)
  }

  /** An element read from an array can be assigned: plugging the element
      getter into the array setter writes to that element. */
  lemma ArraySetWritesWhatGetReads(variableCode: string, index: string, value: string)
    requires !NoArray(variableCode)
    ensures ArrayVariableSet(TextOf(ArrayElementGet(variableCode, index)), value) ==
            variableCode + "[" + Or(index, "0") + "] = " + Or(value, " ") + ";\n"
  {
  }

  /** `usingFor`: `''` while no library is selected. */
  function UsingFor(libraryName: string, attachedType: string): (r: string)
    ensures libraryName == "select library..." <==> r == ""
    ensures libraryName != "select library..." ==>
              r == "using " + libraryName + " for " + Lookup(Types, attachedType) + ";\n\n"
  {
    if libraryName == "select library..." then ""
    else "using " + libraryName + " for " + Lookup(Types, attachedType) + ";\n\n"
  }

  /** `inherit` produces no code: its only effect is on the assembler's
      import and inheritance lists. */
  function Inherit(): string
  {
    ""
  }

  // ---------------------------------------------------------------------
  // Oraclize
  // ---------------------------------------------------------------------

  /** The code of an Oraclize query block, given the arguments of its
      `oraclize_query` call. */
  function OraclizeCode(callback: string, queryArgs: string): string
  {
    "function __callback(bytes32 myid, string result) {\n  require(msg.sender == oraclize_cbAddress());\n"
      + callback
      + "\n  emit LogAPIUpdated(usingOraclize.strConcat(\"Oraclize query response received: \", result, \"\", \"\", \"\"));\n}\n\n\n"
      + "if (oraclize_getPrice(\"URL\") > this.balance) {\n  emit LogNewOraclizeQuery(\"Oraclize query was NOT sent, please add some ETH to cover for the query fee\");\n} else {\n  emit LogNewOraclizeQuery(\"Oraclize query was sent, standing by for the answer..\");\n  bytes32 queryId = oraclize_query("
      + queryArgs + ");\n}" + "\n\n\n"
  }

  /** `oraclize_query`: nothing for the placeholder URL. */
  function OraclizeQuery(url: string, callback: string): (r: string)
    ensures url == UrlPlaceholder ==> r == ""
    ensures url != UrlPlaceholder ==> r == OraclizeCode(callback, "\"URL\", \"" + url + "\"")
  {
    if url == UrlPlaceholder then "" else OraclizeCode(callback, "\"URL\", \"" + url + "\"")
  }

  /** `oraclize_scheduled_query`: the plain query with the time as the
      first argument of the query call. */
  function OraclizeScheduledQuery(url: string, time: string, callback: string): (r: string)
    ensures url == UrlPlaceholder ==> r == ""
    ensures url != UrlPlaceholder ==> r == OraclizeCode(callback, time + ", \"URL\", \"" + url + "\"")
  {
    if url == UrlPlaceholder then "" else OraclizeCode(callback, time + ", \"URL\", \"" + url + "\"")
  }

  /** `oraclize_result`. */
  function OraclizeResult(): Value
  {
    Code("result", Atomic)
  }

  // ---------------------------------------------------------------------
  // NatSpec and the constructor owner
  // ---------------------------------------------------------------------

  /** One NatSpec line, or nothing for an empty field. */
  function DocLine(tag: string, text: string): (r: string)
    ensures text == "" <==> r == ""
    ensures text != "" ==> r == "/// " + tag + " " + text + "\n"
  {
    if text == "" then "" else "/// " + tag + " " + text + "\n"
  }

  /** `NatSpec_contract`: a line for each non-empty field, in the order
      title, author (tagged `@autor`), notice, dev; nothing at all when
      every field is empty. */
  function NatSpecContract(title: string, author: string, notice: string, dev: string): (r: string)
    ensures r == "" <==> title == "" && author == "" && notice == "" && dev == ""
    ensures |r| >= |DocLine("@title", title)|
    ensures r[..|DocLine("@title", title)|] == DocLine("@title", title)
    ensures OccursAt(r, DocLine("@autor", author), |DocLine("@title", title)|)
    ensures OccursAt(r, DocLine("@notice", notice), |DocLine("@title", title)| + |DocLine("@autor", author)|)
    ensures EndsWith(r, DocLine("@dev", dev))
    ensures |r| == |DocLine("@title", title)| + |DocLine("@autor", author)| + |DocLine("@notice", notice)| + |DocLine("@dev", dev)|
  {
    var a, b, c, d := DocLine("@title", title), DocLine("@autor", author), DocLine("@notice", notice), DocLine("@dev", dev);
    ConcatFourAt(a, b, c, d);
    a + b + c + d
  }

  /** `NatSpec_function`: author, notice and dev lines, the parameter
      lines, the return line, with two-space indents before `///` removed. */
  function NatSpecFunction(author: string, notice: string, dev: string, parameters: string, returnValue: string): (r: string)
    ensures author == "" && notice == "" && dev == "" && parameters == "" && returnValue == "" ==> r == ""
  {
    var s := DocLine("@autor", author) + DocLine("@notice", notice) + DocLine("@dev", dev)
      + parameters + DocLine("@return", returnValue);
    assert s == "" ==> ReplaceAll(s, "  ///", "///") == "" by {
      if s == "" {
        assert !Contains(s, "  ///") by { assert !OccursAt(s, "  ///", 0); }
        ReplaceAllAbsent(s, "  ///", "///");
      }
    }
    ReplaceAll(s, "  ///", "///")
  }

  /** `NatSpec_function_parameter`. */
  function NatSpecFunctionParameter(paramName: string): (r: string)
    ensures r == DocLine("@param", paramName)
  {
    if paramName != "" then "/// @param " + paramName + "\n" else ""
  }

  /** `ctor_owner`: the owner variable receives the deployer's address;
      `''` for a missing variable. */
  function CtorOwner(variable: Option<Variable>): (r: string)
    ensures variable.None? <==> r == ""
    ensures variable.Some? ==> r == TextOf(VariableValue(variable)) + " = msg.sender;\n\n"
  {
    match variable
    case None => ""
    case Some(v) => GetVariableName(v) + " = msg.sender;\n\n"
  }
}
