/**
 * blockly-solidity/generators/solidity/methods.js: the generators of the
 * method, method-with-return, constructor and parameter blocks, and of the
 * blocks that call a contract method or a library function with up to three
 * arguments.
 */
module MethodsGenerator {
  import opened Wrappers
  import opened Strings
  import opened Scope
  import opened SolidityGenerator

  /** The only types a parameter or a return value may have. */
  const ParameterTypes: map<string, string> :=
    map["TYPE_BOOL" := "bool", "TYPE_INT" := "int", "TYPE_UINT" := "uint"]

  const LibraryPlaceholder: string := "select library..."

  /** The signature shared by the method blocks: documentation, name,
      trimmed parameters, function type and modifiers. */
  function Signature(docs: string, params: string, functionType: string, modifiers: string, name: string): string
  {
    docs + "function " + name + "(" + Trim(params) + ")" + functionType + modifiers
  }

  /** `contract_method`: the signature, then the body in braces. */
  function ContractMethod(docs: string, params: string, functionType: string, modifiers: string,
                          name: string, body: string): (r: string)
    ensures |r| == |Signature(docs, params, functionType, modifiers, name)| + |body| + 5
    ensures r[..|Signature(docs, params, functionType, modifiers, name)|] == Signature(docs, params, functionType, modifiers, name)
    ensures EndsWith(r, "{\n" + body + "}\n\n")
  {
    var sig := Signature(docs, params, functionType, modifiers, name);
    ConcatParts(sig, "{\n" + body + "}\n\n");
    sig + ("{\n" + body + "}\n\n")
  }

  /** The `returns` clause of a method with a return value. */
  function ReturnClause(returnType: string): string
  {
    " returns (" + Lookup(ParameterTypes, returnType) + ") {\n"
  }

  /** A return type other than `bool`, `int` and `uint` is written as
      `undefined`. */
  lemma UnknownReturnType(returnType: string)
    requires returnType !in ParameterTypes
    ensures ReturnClause(returnType) == " returns (undefined) {\n"
  {
  }

  /** `contract_method_with_return`: the same signature as a plain method,
      then the `returns` clause, the body, and a `return` of the value. */
  function ContractMethodWithReturn(docs: string, params: string, functionType: string, modifiers: string,
                                    name: string, body: string, returnType: string, returnValue: string): (r: string)
    ensures |r| == |Signature(docs, params, functionType, modifiers, name)| + |ReturnClause(returnType)| + |body| + |returnValue| + 14
    ensures r[..|Signature(docs, params, functionType, modifiers, name)|] == Signature(docs, params, functionType, modifiers, name)
    ensures r[|Signature(docs, params, functionType, modifiers, name)|..][..|ReturnClause(returnType)|] == ReturnClause(returnType)
    ensures r[|Signature(docs, params, functionType, modifiers, name)| + |ReturnClause(returnType)|..][..|body|] == body
    ensures EndsWith(r, "\n return " + returnValue + ";\n}\n\n")
  {
    var sig := Signature(docs, params, functionType, modifiers, name);
    var clause := ReturnClause(returnType);
    var ret := "\n return " + returnValue + ";\n}\n\n";
    FourParts(sig, clause, body, ret)
  }

  /** `contract_ctor`: nothing outside a contract; inside one, a method
      named after the contract with no function type or modifiers. */
  function ContractCtor(parentName: Option<string>, docs: string, params: string, body: string): (r: string)
    ensures parentName.None? ==> r == ""
    ensures parentName.Some? ==> r == ContractMethod(docs, params, " ", "", parentName.value, body)
  {
    match parentName
    case None => ""
    case Some(contractName) =>
      var trimmed := Trim(params);
      CtorSignature(docs, contractName, trimmed, body);
      docs + "function " + contractName + "(" + trimmed + ") {\n" + body + "}\n\n"
  }

  /** The constructor's `") {"` is a method's `")"`, its `" "` function
      type, no modifiers, and the opening brace. */
  lemma CtorSignature(docs: string, name: string, params: string, body: string)
    ensures docs + "function " + name + "(" + params + ") {\n" + body + "}\n\n"
            == (docs + "function " + name + "(" + params + ")" + " " + "") + ("{\n" + body + "}\n\n")
  {
    var head := docs + "function " + name + "(" + params;
    assert ")" + " " + "" == ") ";
    assert head + ") {\n" + body + "}\n\n" == (head + ") ") + ("{\n" + body + "}\n\n");
  }

  /** A parameter's declaration: its type and name. */
  function ParameterDeclaration(name: string, kind: string): string
  {
    Lookup(ParameterTypes, kind) + " " + name
  }

  /** `contract_method_parameter`: the declaration, followed by `", "` only
      when the next block is also a parameter. */
  function MethodParameter(name: string, kind: string, nextIsParameter: bool): (r: string)
    ensures nextIsParameter ==> r == ParameterDeclaration(name, kind) + ", "
    ensures !nextIsParameter ==> r == ParameterDeclaration(name, kind)
  {
    var sep := if nextIsParameter then ", " else "";
    Lookup(ParameterTypes, kind) + " " + name + sep
  }

  /** A stack of parameter blocks writes the declarations separated by
      `", "`, with no separator before the first or after the last. */
  lemma ParametersJoin(ps: seq<(string, string)>)
    ensures Concat(seq(|ps|, i requires 0 <= i < |ps| => MethodParameter(ps[i].0, ps[i].1, i + 1 < |ps|)))
            == Join(seq(|ps|, i requires 0 <= i < |ps| => ParameterDeclaration(ps[i].0, ps[i].1)), ", ")
  {
    var decls := seq(|ps|, i requires 0 <= i < |ps| => ParameterDeclaration(ps[i].0, ps[i].1));
    assert seq(|ps|, i requires 0 <= i < |ps| => MethodParameter(ps[i].0, ps[i].1, i + 1 < |ps|))
           == Stack(decls, ", ");
    StackJoin(decls, ", ");
  }

  /** `contract_method_parameter_get`: the parameter's plain name. */
  function ParameterGet(variable: Option<Variable>): (r: Value)
    ensures r.Empty? <==> variable.None?
    ensures r.Code? ==> r.order == Atomic && r.text == GetVariableName(variable.value)
    ensures variable.Some? && !Contains(variable.value.name, ScopePrefix(variable.value.scope)) ==>
              r == Code(variable.value.name, Atomic)
  {
    VariableValue(variable)
  }

  /** `contract_intrinsic_sha3`: the argument defaults to `0`. */
  function Sha3(argument: string): (r: Value)
    ensures r.Code? && r.order == Atomic
    ensures argument == "" ==> r.text == "sha3(0)"
    ensures argument != "" ==> r.text == "sha3(" + argument + ")"
  {
    Code("sha3(" + Or(argument, "0") + ")", Atomic)
  }

  /** The arguments that are attached, in order. */
  function Present(args: seq<string>): (r: seq<string>)
    ensures forall a :: a in r <==> a in args && a != ""
    ensures |r| <= |args|
    ensures (forall i :: 0 <= i < |args| ==> args[i] != "") ==> r == args
    decreases |args|
  {
    if |args| == 0 then []
    else
      assert forall a :: a in args <==> a == args[0] || a in args[1..];
      if args[0] == "" then Present(args[1..]) else [args[0]] + Present(args[1..])
  }

  /** `Present` keeps order and multiplicity: the attached arguments of
      two consecutive lists are those of the first followed by those of
      the second, and one argument is kept exactly when it is attached. */
  lemma {:induction false} PresentAppend(a: seq<string>, b: seq<string>)
    ensures Present(a + b) == Present(a) + Present(b)
    ensures |a| == 1 ==> Present(a) == (if a[0] == "" then [] else a)
    decreases |a|
  {
    if |a| == 0 {
      assert a + b == b;
    } else {
      assert (a + b)[0] == a[0] && (a + b)[1..] == a[1..] + b;
      var head := if a[0] == "" then [] else [a[0]];
      assert Present(a + b) == head + Present(a[1..] + b) by {
        PresentCons(a + b);
      }
      assert Present(a[1..] + b) == Present(a[1..]) + Present(b) by {
        PresentAppend(a[1..], b);
      }
      assert Present(a) == head + Present(a[1..]) by {
        PresentCons(a);
      }
      ConsAssoc(head, Present(a[1..]), Present(b));
      if |a| == 1 {
        assert a[1..] == [] && a == [a[0]];
      }
    }
  }

  lemma PresentCons(args: seq<string>)
    requires |args| > 0
    ensures Present(args) == (if args[0] == "" then [] else [args[0]]) + Present(args[1..])
  {
  }

  /** The argument list of a call: the attached arguments among `ARG1`,
      `ARG2`, `ARG3`, in that order, joined by `", "`. */
  function CallArguments(arg1: string, arg2: string, arg3: string): (r: string)
    ensures r == Join(Present([arg1, arg2, arg3]), ", ")
    ensures arg1 == "" && arg2 == "" && arg3 == "" ==> r == ""
    ensures arg1 != "" && arg2 != "" && arg3 != "" ==> r == arg1 + ", " + arg2 + ", " + arg3
    ensures arg1 != "" && arg2 == "" && arg3 == "" ==> r == arg1
    ensures arg1 == "" && arg2 != "" && arg3 == "" ==> r == arg2
    ensures arg1 == "" && arg2 == "" && arg3 != "" ==> r == arg3
    ensures arg1 != "" && arg2 == "" && arg3 != "" ==> r == arg1 + ", " + arg3
  {
    PresentThree(arg1, arg2, arg3);
    JoinSmall(arg1, arg2, arg3, ", ");
    JoinSmall(arg1, arg3, arg3, ", ");
    JoinSmall(arg2, arg3, arg3, ", ");
    JoinSmall(arg3, arg3, arg3, ", ");
    Join(Present([arg1, arg2, arg3]), ", ")
  }

  lemma PresentThree(arg1: string, arg2: string, arg3: string)
    ensures Present([arg1, arg2, arg3]) ==
            (if arg1 == "" then [] else [arg1]) + (if arg2 == "" then [] else [arg2]) + (if arg3 == "" then [] else [arg3])
  {
    assert [arg3][1..] == [];
    assert Present([arg3]) == (if arg3 == "" then [] else [arg3]) + Present([]);
    assert [arg2, arg3][1..] == [arg3];
    assert Present([arg2, arg3]) == (if arg2 == "" then [] else [arg2]) + Present([arg3]);
    assert [arg1, arg2, arg3][1..] == [arg2, arg3];
    assert Present([arg1, arg2, arg3]) == (if arg1 == "" then [] else [arg1]) + Present([arg2, arg3]);
  }

  /** Joining one, two or three items. */
  lemma JoinSmall(x: string, y: string, z: string, sep: string)
    ensures Join([], sep) == ""
    ensures Join([x], sep) == x
    ensures Join([x, y], sep) == x + sep + y
    ensures Join([x, y, z], sep) == x + sep + y + sep + z
  {
    assert [x, y][1..] == [y];
    assert [y, z][1..] == [z];
    assert Join([y, z], sep) == y + sep + z;
    assert [x, y, z][1..] == [y, z];
    assert Join([x, y, z], sep) == x + sep + Join([y, z], sep);
  }

  /** `contract_method_call_with_return_value`: nothing when the method
      variable is missing; otherwise the call, as an atom. */
  function MethodCallValue(target: Option<Variable>, arg1: string, arg2: string, arg3: string): (r: Value)
    ensures r.Empty? <==> target.None?
    ensures r.Code? ==> r.order == Atomic
    ensures r.Code? ==> r.text == GetVariableName(target.value) + "(" + CallArguments(arg1, arg2, arg3) + ")"
  {
    match target
    case None => Empty
    case Some(v) => Code(GetVariableName(v) + "(" + CallArguments(arg1, arg2, arg3) + ")", Atomic)
  }

  /** `contract_method_call`: `''` when the method variable is missing;
      otherwise the same call as the value block, as a statement. */
  function MethodCall(target: Option<Variable>, arg1: string, arg2: string, arg3: string): (r: string)
    ensures target.None? ==> r == ""
    ensures target.Some? ==> r == TextOf(MethodCallValue(target, arg1, arg2, arg3)) + ";\n"
  {
    match target
    case None => ""
    case Some(v) =>
      var call := GetVariableName(v) + "(" + CallArguments(arg1, arg2, arg3) + ")";
      call + ";\n"
  }

  /** A library call is written only when a function is selected and the
      library selector does not show its placeholder. */
  predicate LibraryCallable(libraryName: string, functionName: Option<string>)
  {
    functionName.Some? && libraryName != LibraryPlaceholder
  }

  /** `library_method_call_with_return_value`. */
  function LibraryCallValue(libraryName: string, functionName: Option<string>, arg1: string, arg2: string, arg3: string): (r: Value)
    ensures r.Empty? <==> !LibraryCallable(libraryName, functionName)
    ensures r.Code? ==> r.order == Atomic
    ensures r.Code? ==> r.text == libraryName + "." + functionName.value + "(" + CallArguments(arg1, arg2, arg3) + ")"
  {
    if functionName.None? || libraryName == LibraryPlaceholder then Empty
    else Code(libraryName + "." + functionName.value + "(" + CallArguments(arg1, arg2, arg3) + ")", Atomic)
  }

  /** `library_method_call`: `''` when not callable; otherwise the value
      block's call as a statement followed by a blank line. */
  function LibraryCall(libraryName: string, functionName: Option<string>, arg1: string, arg2: string, arg3: string): (r: string)
    ensures !LibraryCallable(libraryName, functionName) ==> r == ""
    ensures LibraryCallable(libraryName, functionName) ==>
              r == TextOf(LibraryCallValue(libraryName, functionName, arg1, arg2, arg3)) + ";\n\n"
  {
    if functionName.None? || libraryName == LibraryPlaceholder then ""
    else libraryName + "." + functionName.value + "(" + CallArguments(arg1, arg2, arg3) + ");\n\n"
  }
}
