/**
 * blockly-solidity/generators/solidity.js: the pieces of the Solidity code
 * generator shared by every block generator. Operator precedence, the
 * string-literal escaping `quote_`, `finish` and `scrubNakedValue`, and the
 * type-to-check mapping applied by `updateWorkspaceTypes`. Generators return
 * plain text; a value block returns its text together with its precedence.
 */
module SolidityGenerator {
  import opened Wrappers
  import opened Strings
  import opened Scope

  /** The `ORDER_*` precedence levels, tightest first. */
  datatype Order =
    | Atomic | New | Member | FunctionCall
    | Increment | Decrement | UnaryPlus | UnaryNegation | Typeof | Void | Delete | LogicalNot | BitwiseNot
    | Exponentiation | Multiplication | Division | Modulus | Subtraction | Addition
    | BitwiseShift | BitwiseAnd | BitwiseXor | BitwiseOr
    | Relational | Equality | LogicalAnd | LogicalOr | Conditional | Assignment | Comma
    | Outermost  // ORDER_NONE

  /** The numeric value of each `ORDER_*` constant, in tenths, so that the
      fractional levels such as `ORDER_MEMBER = 1.2` stay integral. */
  function Rank(o: Order): (r: nat)
    ensures o == Atomic <==> r == 0
    ensures o == Outermost <==> r == 990
    ensures r <= 990
  {
    match o
    case Atomic => 0
    case New => 11
    case Member => 12
    case FunctionCall => 13
    case Increment => 21
    case Decrement => 22
    case UnaryPlus => 23
    case UnaryNegation => 24
    case Typeof => 25
    case Void => 26
    case Delete => 27
    case LogicalNot => 28
    case BitwiseNot => 29
    case Exponentiation => 30
    case Multiplication => 41
    case Division => 42
    case Modulus => 43
    case Subtraction => 51
    case Addition => 52
    case BitwiseShift => 60
    case BitwiseAnd => 70
    case BitwiseXor => 80
    case BitwiseOr => 90
    case Relational => 100
    case Equality => 110
    case LogicalAnd => 120
    case LogicalOr => 130
    case Conditional => 140
    case Assignment => 150
    case Comma => 160
    case Outermost => 990
  }

  /** The level the `ORDER_*` table lists right after `o`, one step
      looser; `Outermost` is the last. */
  function Looser(o: Order): Order
  {
    match o
    case Atomic => New
    case New => Member
    case Member => FunctionCall
    case FunctionCall => Increment
    case Increment => Decrement
    case Decrement => UnaryPlus
    case UnaryPlus => UnaryNegation
    case UnaryNegation => Typeof
    case Typeof => Void
    case Void => Delete
    case Delete => LogicalNot
    case LogicalNot => BitwiseNot
    case BitwiseNot => Exponentiation
    case Exponentiation => Multiplication
    case Multiplication => Division
    case Division => Modulus
    case Modulus => Subtraction
    case Subtraction => Addition
    case Addition => BitwiseShift
    case BitwiseShift => BitwiseAnd
    case BitwiseAnd => BitwiseXor
    case BitwiseXor => BitwiseOr
    case BitwiseOr => Relational
    case Relational => Equality
    case Equality => LogicalAnd
    case LogicalAnd => LogicalOr
    case LogicalOr => Conditional
    case Conditional => Assignment
    case Assignment => Comma
    case Comma => Outermost
    case Outermost => Outermost
  }

  /** Down the table every level binds strictly tighter than the next, so
      no two levels share a value. */
  lemma RankIncreasing(o: Order)
    requires o != Outermost
    ensures Rank(o) < Rank(Looser(o))
  {
  }

  /** What a value generator returns: nothing (the `''` a generator returns
      when its selection is missing), or code with its precedence. */
  datatype Value = Empty | Code(text: string, order: Order)

  /** The text `valueToCode` yields for a value: an empty value gives `''`. */
  function TextOf(v: Value): string
  {
    if v.Code? then v.text else ""
  }

  /** JavaScript `code || fallback` on the string `valueToCode` returns:
      the empty string is falsy and gives way to the fallback. */
  function Or(code: string, fallback: string): string
  {
    if code == "" then fallback else code
  }

  /** JavaScript string concatenation of a table lookup: a key the table
      does not have reads as `undefined`, which concatenates as that word. */
  function Lookup(table: map<string, string>, key: string): string
  {
    if key in table then table[key] else "undefined"
  }

  /** A value block that reads a workspace variable by id: nothing when
      the variable is missing, otherwise its plain name as an atom. */
  function VariableValue(variable: Option<Variable>): (r: Value)
    ensures r.Empty? <==> variable.None?
    ensures r.Code? ==> r.order == Atomic
  {
    match variable
    case None => Empty
    case Some(v) => Code(GetVariableName(v), Atomic)
  }

  /** A variable named through `setVariableName` reads back as the name it
      was given, without its scope prefix. */
  lemma VariableValueName(v: Variable, name: string)
    ensures VariableValue(Some(SetVariableName(v, name))) == Code(name, Atomic)
  {
    NameRoundTrip(v, name);
  }

  /** What `statementToCode` collects from a stack of blocks, before Blockly
      indents it: each block's code, top to bottom, with nothing between. */
  function Concat(parts: seq<string>): (r: string)
    ensures |parts| == 0 ==> r == ""
    decreases |parts|
  {
    if |parts| == 0 then "" else parts[0] + Concat(parts[1..])
  }

  /** The codes of a stack of blocks that each append `sep` when the next
      block is of the same kind. */
  function Stack(items: seq<string>, sep: string): (r: seq<string>)
    ensures |r| == |items|
    ensures forall i :: 0 <= i < |items| - 1 ==> r[i] == items[i] + sep
    ensures |items| > 0 ==> r[|items| - 1] == items[|items| - 1]
  {
    seq(|items|, i requires 0 <= i < |items| => items[i] + (if i + 1 < |items| then sep else ""))
  }

  /** Blocks that separate themselves from a following block of their kind
      produce, stacked, exactly the join of their items: no leading and no
      trailing separator. */
  lemma {:induction false} StackJoin(items: seq<string>, sep: string)
    ensures Concat(Stack(items, sep)) == Join(items, sep)
    decreases |items|
  {
    if |items| == 0 {
    } else if |items| == 1 {
      assert Stack(items, sep) == [items[0]];
      assert Concat([items[0]]) == items[0] + Concat([]);
    } else {
      var st := Stack(items, sep);
      assert st[1..] == Stack(items[1..], sep);
      StackJoin(items[1..], sep);
    }
  }

  /** How `quote_` writes one character: a backslash, a newline and a single
      quote are preceded by a backslash; anything else stands for itself. */
  function EscapeChar(c: char): string
  {
    if c == '\\' || c == '\n' || c == '\'' then ['\\', c] else [c]
  }

  /** Character-by-character escaping, the reference for `quote_`. */
  function Escape(s: string): (r: string)
    ensures |r| >= |s|
  {
    if |s| == 0 then "" else EscapeChar(s[0]) + Escape(s[1..])
  }

  /** The three global replaces of `quote_`, in source order: backslashes
      first, then newlines, then single quotes. */
  function Passes(s: string): string
  {
    ReplaceChar(ReplaceChar(ReplaceChar(s, '\\', "\\\\"), '\n', "\\\n"), '\'', "\\'")
  }

  lemma PassesAppend(a: string, b: string)
    ensures Passes(a + b) == Passes(a) + Passes(b)
  {
    ReplaceCharAppend(a, b, '\\', "\\\\");
    var a1, b1 := ReplaceChar(a, '\\', "\\\\"), ReplaceChar(b, '\\', "\\\\");
    ReplaceCharAppend(a1, b1, '\n', "\\\n");
    var a2, b2 := ReplaceChar(a1, '\n', "\\\n"), ReplaceChar(b1, '\n', "\\\n");
    ReplaceCharAppend(a2, b2, '\'', "\\'");
  }

  lemma PassesOne(c: char)
    ensures Passes([c]) == EscapeChar(c)
  {
    var s1 := ReplaceChar([c], '\\', "\\\\");
    assert s1 == (if c == '\\' then "\\\\" else [c]) + ReplaceChar([c][1..], '\\', "\\\\");
    assert [c][1..] == "";
    if c == '\\' {
      assert s1 == ['\\'] + ['\\'];
      ReplaceCharAppend(['\\'], ['\\'], '\n', "\\\n");
      var s2 := ReplaceChar(s1, '\n', "\\\n");
      assert ReplaceChar(['\\'], '\n', "\\\n") == ['\\'] + ReplaceChar([], '\n', "\\\n");
      assert s2 == ['\\'] + ['\\'];
      ReplaceCharAppend(['\\'], ['\\'], '\'', "\\'");
      assert ReplaceChar(['\\'], '\'', "\\'") == ['\\'] + ReplaceChar([], '\'', "\\'");
    } else if c == '\n' {
      assert s1 == [c];
      var s2 := ReplaceChar(s1, '\n', "\\\n");
      assert s2 == "\\\n" + ReplaceChar([], '\n', "\\\n");
      assert s2 == ['\\'] + ['\n'];
      ReplaceCharAppend(['\\'], ['\n'], '\'', "\\'");
      assert ReplaceChar(['\\'], '\'', "\\'") == ['\\'] + ReplaceChar([], '\'', "\\'");
      assert ReplaceChar(['\n'], '\'', "\\'") == ['\n'] + ReplaceChar([], '\'', "\\'");
    } else {
      assert s1 == [c];
      var s2 := ReplaceChar(s1, '\n', "\\\n");
      assert s2 == [c] + ReplaceChar([], '\n', "\\\n");
      assert s2 == [c];
      assert ReplaceChar([c], '\'', "\\'") == (if c == '\'' then "\\'" else [c]) + ReplaceChar([], '\'', "\\'");
    }
  }

  /** The three passes escape each character independently: the newline and
      quote passes add backslashes the earlier backslash pass never sees. */
  lemma {:induction false} PassesEscape(s: string)
    ensures Passes(s) == Escape(s)
    decreases |s|
  {
    if |s| == 0 {
    } else {
      assert s == [s[0]] + s[1..];
      PassesAppend([s[0]], s[1..]);
      PassesOne(s[0]);
      PassesEscape(s[1..]);
    }
  }

  /** `quote_`: the text wrapped in single quotes, every backslash, newline
      and single quote inside preceded by a backslash. */
  function Quote(s: string): (r: string)
    ensures r == "'" + Escape(s) + "'"
    ensures |r| >= |s| + 2
  {
    PassesEscape(s);
    "'" + Passes(s) + "'"
  }

  /** Reading an escaped literal body back: a backslash stands for the
      character that follows it. */
  function Unescape(t: string): string
    decreases |t|
  {
    if |t| == 0 then ""
    else if t[0] == '\\' && |t| >= 2 then [t[1]] + Unescape(t[2..])
    else [t[0]] + Unescape(t[1..])
  }

  lemma {:induction false} UnescapeEscape(s: string)
    ensures Unescape(Escape(s)) == s
    decreases |s|
  {
    if |s| > 0 {
      UnescapeEscape(s[1..]);
      UnescapeOne(s[0], Escape(s[1..]));
      assert s == [s[0]] + s[1..];
    }
  }

  /** One escaped character reads back as itself. */
  lemma UnescapeOne(c: char, rest: string)
    ensures Unescape(EscapeChar(c) + rest) == [c] + Unescape(rest)
  {
    var t := EscapeChar(c) + rest;
    if c == '\\' || c == '\n' || c == '\'' {
      assert t[0] == '\\' && t[1] == c && t[2..] == rest;
    } else {
      assert t[0] == c && t[1..] == rest;
    }
  }

  /** Reads a single-quoted literal; `None` when it is not wrapped in
      single quotes. */
  function Unquote(q: string): (r: Option<string>)
    ensures r.Some? <==> |q| >= 2 && q[0] == '\'' && q[|q| - 1] == '\''
  {
    if |q| >= 2 && q[0] == '\'' && q[|q| - 1] == '\'' then Some(Unescape(q[1..|q| - 1])) else None
  }

  /** Decoding what `quote_` writes gives back the original text. */
  lemma QuoteRoundTrip(s: string)
    ensures Unquote(Quote(s)) == Some(s)
  {
    var q := Quote(s);
    assert q[1..|q| - 1] == Escape(s);
    UnescapeEscape(s);
  }

  /** `finish`: the definitions joined by blank lines, then two more blank
      lines, then the code. */
  function Finish(definitions: seq<string>, code: string): (r: string)
    ensures EndsWith(r, "\n\n\n" + code)
    ensures r[..|r| - |code| - 3] == Join(definitions, "\n\n")
    ensures |definitions| == 0 ==> r == "\n\n\n" + code
  {
    var r := Join(definitions, "\n\n") + "\n\n\n" + code;
    assert r[|r| - |"\n\n\n" + code|..] == "\n\n\n" + code;
    r
  }

  /** One more definition adds one blank-line separator before the code. */
  lemma FinishSnoc(definitions: seq<string>, d: string, code: string)
    requires |definitions| > 0
    ensures Finish(definitions + [d], code) ==
            Join(definitions, "\n\n") + "\n\n" + d + "\n\n\n" + code
  {
    JoinSnoc(definitions, d, "\n\n");
  }

  /** `scrubNakedValue`: a dangling value becomes a statement. */
  function ScrubNakedValue(line: string): (r: string)
    ensures |r| == |line| + 2 && r[..|line|] == line
    ensures EndsWith(r, ";\n")
  {
    line + ";\n"
  }

  /** The type check `updateWorkspaceTypes` puts on a value input for a
      variable of the given type; `None` keeps the input's existing type check. */
  function CheckFor(varType: string): (r: Option<string>)
    ensures r == Some("Boolean") <==> varType == "TYPE_BOOL"
    ensures r == Some("Number") <==> varType == "TYPE_INT" || varType == "TYPE_UINT"
    ensures r == Some("String") <==>
              varType == "TYPE_ADDRESS" || varType == "TYPE_BYTES_ARRAY" || varType == "TYPE_STRING"
    ensures r.Some? ==> r.value in {"Boolean", "Number", "String"}
  {
    match varType
    case "TYPE_BOOL" => Some("Boolean")
    case "TYPE_INT" => Some("Number")
    case "TYPE_UINT" => Some("Number")
    case "TYPE_ADDRESS" => Some("String")
    case "TYPE_BYTES_ARRAY" => Some("String")
    case "TYPE_STRING" => Some("String")
    case _ => None
  }

  /** A block input: its name and the type check it accepts (`None` for
      any). */
  datatype Input = Input(name: string, check: Option<string>)

  /** A workspace block as `updateWorkspaceTypes` sees it: the values of its
      fields, by field name, and its inputs in order. */
  datatype WsBlock = WsBlock(fields: map<string, string>, inputs: seq<Input>)

  /** The update for one block whose variable has type `varType`: when the
      first input is the value input, its check follows the type. */
  function Retype(b: WsBlock, varType: string, valueField: string): (r: WsBlock)
    ensures r.fields == b.fields && |r.inputs| == |b.inputs|
    ensures forall k :: 0 < k < |b.inputs| ==> r.inputs[k] == b.inputs[k]
    ensures |b.inputs| > 0 ==> r.inputs[0].name == b.inputs[0].name
    ensures |b.inputs| > 0 && b.inputs[0].name == valueField && CheckFor(varType).Some? ==>
              r.inputs[0].check == CheckFor(varType)
    ensures !(|b.inputs| > 0 && b.inputs[0].name == valueField && CheckFor(varType).Some?) ==> r == b
  {
    if |b.inputs| > 0 && b.inputs[0].name == valueField && CheckFor(varType).Some? then
      b.(inputs := b.inputs[0 := b.inputs[0].(check := CheckFor(varType))])
    else b
  }

  /** Updating twice is updating once. */
  lemma RetypeIdempotent(b: WsBlock, varType: string, valueField: string)
    ensures Retype(Retype(b, varType, valueField), varType, valueField) == Retype(b, varType, valueField)
  {
  }

  /** Block `i` names a variable that the workspace does not have. */
  predicate Dangling(blocks: seq<WsBlock>, varTypes: map<string, string>, nameField: string, i: int)
    requires 0 <= i < |blocks|
  {
    nameField in blocks[i].fields && blocks[i].fields[nameField] !in varTypes
  }

  /** Where a scan started at `k` stops: the first dangling block from
      `k` on, or the end. */
  function StopFrom(blocks: seq<WsBlock>, varTypes: map<string, string>, nameField: string, k: nat): (r: nat)
    requires k <= |blocks|
    ensures k <= r <= |blocks|
    ensures forall j :: k <= j < r ==> !Dangling(blocks, varTypes, nameField, j)
    ensures r < |blocks| ==> Dangling(blocks, varTypes, nameField, r)
    decreases |blocks| - k
  {
    if k == |blocks| then k
    else if Dangling(blocks, varTypes, nameField, k) then k
    else StopFrom(blocks, varTypes, nameField, k + 1)
  }

  /** Where the scan stops: the first dangling block, or the end. */
  function Stop(blocks: seq<WsBlock>, varTypes: map<string, string>, nameField: string): (r: nat)
    ensures r <= |blocks|
    ensures forall j :: 0 <= j < r ==> !Dangling(blocks, varTypes, nameField, j)
    ensures r < |blocks| ==> Dangling(blocks, varTypes, nameField, r)
  {
    StopFrom(blocks, varTypes, nameField, 0)
  }

  /** The new state of block `i` when the scan reaches it. */
  function Updated(b: WsBlock, varTypes: map<string, string>, nameField: string, valueField: string): WsBlock
  {
    if nameField in b.fields && b.fields[nameField] in varTypes
    then Retype(b, varTypes[b.fields[nameField]], valueField)
    else b
  }

  /** `updateWorkspaceTypes(workspace, nameFieldName, valueFieldName)`:
      blocks without the name field are skipped; the scan gives up at the
      first block whose variable is missing, leaving it and every later block
      as they were; every block before it has its value input's check set
      from its variable's type. */
  method UpdateWorkspaceTypes(blocks: seq<WsBlock>, varTypes: map<string, string>, nameField: string, valueField: string)
    returns (r: seq<WsBlock>)
    ensures |r| == |blocks|
    ensures forall i :: 0 <= i < Stop(blocks, varTypes, nameField) ==>
              r[i] == Updated(blocks[i], varTypes, nameField, valueField)
    ensures forall i :: Stop(blocks, varTypes, nameField) <= i < |blocks| ==> r[i] == blocks[i]
  {
    r := blocks;
    var i := 0;
    while i < |blocks|
      invariant 0 <= i <= |blocks| && |r| == |blocks|
      invariant forall j :: 0 <= j < i ==> !Dangling(blocks, varTypes, nameField, j)
      invariant forall j :: 0 <= j < i ==> r[j] == Updated(blocks[j], varTypes, nameField, valueField)
      invariant forall j :: i <= j < |blocks| ==> r[j] == blocks[j]
    {
      if nameField !in blocks[i].fields {
        i := i + 1;
        continue;
      }
      var variableId := blocks[i].fields[nameField];
      if variableId !in varTypes {
        assert Dangling(blocks, varTypes, nameField, i);
        return;
      }
      r := r[i := Retype(blocks[i], varTypes[variableId], valueField)];
      i := i + 1;
    }
  }
}
