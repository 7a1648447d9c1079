/**
 * blockly-solidity/generators/solidity/logic.js: the generators of the
 * `if`/`else if`/`else` chain, the counting `for` loop, comparisons, the
 * boolean operators, literals, the ternary operator, string literals and
 * `.length`.
 */
module LogicGenerator {
  import opened Wrappers
  import opened Strings
  import opened SolidityGenerator

  /* ------------------------------------------------------------------ */
  /* controls_if                                                         */
  /* ------------------------------------------------------------------ */

  /** One `IFn`/`DOn` pair of an `if` block: the condition's code (`""`
      when the socket is empty) and the branch's statements. */
  datatype Clause = Clause(condition: string, branch: string)

  /** The text of one clause; an empty condition reads as `false`. */
  function ClauseText(c: Clause): string
  {
    "if (" + Or(c.condition, "false") + ") {\n" + c.branch + "}"
  }

  function ClauseTexts(cs: seq<Clause>): (r: seq<string>)
    ensures |r| == |cs|
    ensures forall i :: 0 <= i < |cs| ==> r[i] == ClauseText(cs[i])
  {
    seq(|cs|, i requires 0 <= i < |cs| => ClauseText(cs[i]))
  }

  /** The `else` part: nothing when the block has no `ELSE` input. */
  function ElseText(elseBranch: Option<string>): string
  {
    match elseBranch
    case None => ""
    case Some(b) => " else {\n" + b + "}"
  }

  /** The whole chain: the clauses joined by `" else "`, then the `else`
      part and a newline. */
  function IfChain(clauses: seq<Clause>, elseBranch: Option<string>): string
  {
    Join(ClauseTexts(clauses), " else ") + ElseText(elseBranch) + "\n"
  }

  /** `controls_if`: the do-while over the inputs `IF0`, `IF1`, ... (the
      first is always visited), prefixing every clause after the first
      with `" else "`, then the optional `ELSE` branch. */
  method ControlsIf(first: Clause, rest: seq<Clause>, elseBranch: Option<string>) returns (code: string)
    ensures code == IfChain([first] + rest, elseBranch)
  {
    var all := [first] + rest;
    code := "";
    var n := 0;
    while n < |all|
      invariant 0 <= n <= |all|
      invariant code == Join(ClauseTexts(all[..n]), " else ")
    {
      JoinSnoc(ClauseTexts(all[..n]), ClauseText(all[n]), " else ");
      assert ClauseTexts(all[..n + 1]) == ClauseTexts(all[..n]) + [ClauseText(all[n])];
      code := code + (if n > 0 then " else " else "") + ClauseText(all[n]);
      n := n + 1;
    }
    assert all[..n] == all;
    code := code + ElseText(elseBranch);
    code := code + "\n";
  }

  /** The chain opens with the first clause, whatever follows it. */
  lemma {:induction false} IfChainStartsWithFirst(first: Clause, rest: seq<Clause>, elseBranch: Option<string>)
    ensures |IfChain([first] + rest, elseBranch)| >= |ClauseText(first)|
    ensures IfChain([first] + rest, elseBranch)[..|ClauseText(first)|] == ClauseText(first)
  {
    var head := ClauseText(first);
    var texts := ClauseTexts([first] + rest);
    var more := if |texts| == 1 then "" else " else " + Join(texts[1..], " else ");
    var tail := more + ElseText(elseBranch) + "\n";
    calc {
      IfChain([first] + rest, elseBranch);
      Join(texts, " else ") + ElseText(elseBranch) + "\n";
      { assert texts[0] == head; JoinHead(texts, " else "); }
      head + more + ElseText(elseBranch) + "\n";
      head + tail;
    }
    ConcatParts(head, tail);
  }

  /** With an `ELSE` input the chain ends with the `else` branch; without
      one it ends with the last clause. */
  lemma IfChainEnds(clauses: seq<Clause>, elseBranch: Option<string>)
    requires |clauses| > 0
    ensures elseBranch.Some? ==> EndsWith(IfChain(clauses, elseBranch), " else {\n" + elseBranch.value + "}\n")
    ensures elseBranch.None? ==> EndsWith(IfChain(clauses, elseBranch), ClauseText(clauses[|clauses| - 1]) + "\n")
  {
    var joined := Join(ClauseTexts(clauses), " else ");
    match elseBranch
    case None =>
      var last := ClauseText(clauses[|clauses| - 1]);
      var init := JoinedBeforeLast(clauses);
      assert IfChain(clauses, elseBranch) == init + (last + "\n");
      ConcatParts(init, last + "\n");
    case Some(b) =>
      assert IfChain(clauses, elseBranch) == joined + (" else {\n" + b + "}\n");
      ConcatParts(joined, " else {\n" + b + "}\n");
  }

  /** The joined clauses end with the last clause; what comes before it is
      returned. */
  lemma JoinedBeforeLast(clauses: seq<Clause>) returns (init: string)
    requires |clauses| > 0
    ensures Join(ClauseTexts(clauses), " else ") == init + ClauseText(clauses[|clauses| - 1])
  {
    var front := clauses[..|clauses| - 1];
    var last := ClauseText(clauses[|clauses| - 1]);
    assert ClauseTexts(clauses) == ClauseTexts(front) + [last];
    JoinSnoc(ClauseTexts(front), last, " else ");
    init := if |front| == 0 then "" else Join(ClauseTexts(front), " else ") + " else ";
  }

  /** A lone `if` with an empty condition tests `false`. */
  lemma IfWithoutCondition(branch: string)
    ensures IfChain([Clause("", branch)], None) == "if (false) {\n" + branch + "}\n"
  {
    assert ClauseTexts([Clause("", branch)]) == [ClauseText(Clause("", branch))];
  }

  /* ------------------------------------------------------------------ */
  /* controls_for                                                        */
  /* ------------------------------------------------------------------ */

  /** The header of a counting loop over `variable` from `from` up to, but
      not including, `to`. */
  function ForHeader(variable: string, from: string, to: string): string
  {
    "for (uint " + variable + "=" + from + "; " + variable + "<" + to + "; " + variable + "++) {\n"
  }

  /** `controls_for`: a `uint` loop whose bounds default to `0`, the body
      indented by two spaces, a closing brace and two blank lines. */
  function ControlsFor(variable: string, from: string, to: string, body: string): (r: string)
    ensures |r| == |ForHeader(variable, Or(from, "0"), Or(to, "0"))| + |body| + 7
    ensures r[..|ForHeader(variable, Or(from, "0"), Or(to, "0"))|] == ForHeader(variable, Or(from, "0"), Or(to, "0"))
    ensures EndsWith(r, "  " + body + "\n}\n\n\n")
  {
    var header := ForHeader(variable, Or(from, "0"), Or(to, "0"));
    ConcatParts(header, "  " + body + "\n}\n\n\n");
    assert "for (uint " + variable + "=" + Or(from, "0") + "; " + variable + "<" + Or(to, "0") + "; " + variable + "++) {\n  "
           + body + "\n}\n\n\n" == header + ("  " + body + "\n}\n\n\n");
    "for (uint " + variable + "=" + Or(from, "0") + "; " + variable + "<" + Or(to, "0") + "; " + variable + "++) {\n  "
    + body + "\n}\n\n\n"
  }

  /* ------------------------------------------------------------------ */
  /* logic_compare                                                       */
  /* ------------------------------------------------------------------ */

  const CompareOperators: map<string, string> :=
    map["EQ" := "==", "NEQ" := "!=", "LT" := "<", "LTE" := "<=", "GT" := ">", "GTE" := ">="]

  /** Of the field values, only `EQ` and `NEQ` look up an equality
      operator. */
  lemma EqualityLookup(op: string)
    ensures var operator := Lookup(CompareOperators, op);
      operator == "==" || operator == "!=" <==> op == "EQ" || op == "NEQ"
  {
    if op !in CompareOperators {
      assert Lookup(CompareOperators, op) == "undefined";
    }
  }

  /** `logic_compare`: equality operators bind at the equality level, all
      others (an unknown one included) at the relational level; a missing
      operand reads as `0`. */
  function LogicCompare(op: string, a: string, b: string): (r: Value)
    ensures r.Code?
    ensures r.order == Equality <==> op == "EQ" || op == "NEQ"
    ensures r.order != Equality ==> r.order == Relational
    ensures r.text == Or(a, "0") + " " + Lookup(CompareOperators, op) + " " + Or(b, "0")
    ensures op !in CompareOperators ==> r.text == Or(a, "0") + " undefined " + Or(b, "0")
  {
    var operator := Lookup(CompareOperators, op);
    EqualityLookup(op);
    var order := if operator == "==" || operator == "!=" then Equality else Relational;
    Code(Or(a, "0") + " " + operator + " " + Or(b, "0"), order)
  }

  /* ------------------------------------------------------------------ */
  /* logic_operation                                                     */
  /* ------------------------------------------------------------------ */

  function OperationSymbol(op: string): string
  {
    if op == "AND" then "&&" else "||"
  }

  /** The operand that leaves the operator's result unchanged. */
  function Identity(op: string): string
  {
    if op == "AND" then "true" else "false"
  }

  /** `logic_operation`: `&&` for `AND` and `||` for anything else; with
      no operand both sides are `false`; a single missing operand becomes
      the operator's identity. */
  function LogicOperation(op: string, a: string, b: string): (r: Value)
    ensures r.Code?
    ensures r.order == LogicalAnd <==> op == "AND"
    ensures r.order != LogicalAnd ==> r.order == LogicalOr
    ensures a == "" && b == "" ==> r.text == "false " + OperationSymbol(op) + " false"
    ensures a != "" && b != "" ==> r.text == a + " " + OperationSymbol(op) + " " + b
    ensures a == "" && b != "" ==> r.text == Identity(op) + " " + OperationSymbol(op) + " " + b
    ensures a != "" && b == "" ==> r.text == a + " " + OperationSymbol(op) + " " + Identity(op)
  {
    var operator := if op == "AND" then "&&" else "||";
    var order := if operator == "&&" then LogicalAnd else LogicalOr;
    var defaultArgument := if operator == "&&" then "true" else "false";
    var (argument0, argument1) :=
      if a == "" && b == "" then ("false", "false")
      else (Or(a, defaultArgument), Or(b, defaultArgument));
    Code(argument0 + " " + operator + " " + argument1, order)
  }

  /** The boolean meaning of an operator symbol and of a literal. */
  function Apply(symbol: string, x: bool, y: bool): bool
  {
    if symbol == "&&" then x && y else x || y
  }

  function Truth(literal: string): bool
  {
    literal == "true"
  }

  /** A missing operand has no effect on the value: the identity combined
      with any `x` gives `x`, on either side. */
  lemma IdentityHasNoEffect(op: string, x: bool)
    ensures Apply(OperationSymbol(op), Truth(Identity(op)), x) == x
    ensures Apply(OperationSymbol(op), x, Truth(Identity(op))) == x
  {
  }

  /* ------------------------------------------------------------------ */
  /* logic_negate, logic_boolean, logic_null, logic_ternary              */
  /* ------------------------------------------------------------------ */

  /** `logic_negate`: `!` before the operand, which defaults to `true`. */
  function LogicNegate(a: string): (r: Value)
    ensures r.Code? && r.order == LogicalNot
    ensures |r.text| >= 2 && r.text[0] == '!'
    ensures a != "" ==> r.text[1..] == a
    ensures a == "" ==> r.text == "!true"
  {
    Code("!" + Or(a, "true"), LogicalNot)
  }

  /** `logic_boolean`: the field `TRUE` gives `true`, any other value
      `false`. */
  function LogicBoolean(field: string): (r: Value)
    ensures r.Code? && r.order == Atomic
    ensures Truth(r.text) <==> field == "TRUE"
    ensures r.text == "true" || r.text == "false"
  {
    Code(if field == "TRUE" then "true" else "false", Atomic)
  }

  /** `logic_null`: the literal `null`, as an atom. */
  function LogicNull(): (r: Value)
    ensures r.Code? && r.order == Atomic && r.text == "null"
  {
    Code("null", Atomic)
  }

  /** `logic_ternary`: condition, then and else parts at the conditional
      level, defaulting to `false`, `null` and `null`. */
  function LogicTernary(condition: string, thenValue: string, elseValue: string): (r: Value)
    ensures r.Code? && r.order == Conditional
    ensures r.text == Or(condition, "false") + " ? " + Or(thenValue, "null") + " : " + Or(elseValue, "null")
    ensures condition == "" && thenValue == "" && elseValue == "" ==> r.text == "false ? null : null"
  {
    Code(Or(condition, "false") + " ? " + Or(thenValue, "null") + " : " + Or(elseValue, "null"), Conditional)
  }

  /* ------------------------------------------------------------------ */
  /* text, text_length                                                   */
  /* ------------------------------------------------------------------ */

  /** `text`: the field between double quotes, as an atom. */
  function Text(t: string): (r: Value)
    ensures r.Code? && r.order == Atomic
    ensures |r.text| == |t| + 2
    ensures r.text[0] == '"' && r.text[|r.text| - 1] == '"'
    ensures r.text[1..|r.text| - 1] == t
  {
    Code("\"" + t + "\"", Atomic)
  }

  /** Unlike `quote_`, the `text` block does not escape: a field holding a
      double quote closes the literal early, whereas the same field given
      to `quote_` comes back intact. */
  lemma TextNotEscaped()
    ensures Text("\"").text == "\"\"\""
    ensures Unquote(Quote("\"")) == Some("\"")
  {
    QuoteRoundTrip("\"");
  }

  /** `text_length`: `.length` of the operand, which defaults to the empty
      string literal `''`, at the member-access level. */
  function TextLength(value: string): (r: Value)
    ensures r.Code? && r.order == Member
    ensures EndsWith(r.text, ".length")
    ensures r.text[..|r.text| - 7] == Or(value, "''")
  {
    Code(Or(value, "''") + ".length", Member)
  }
}
