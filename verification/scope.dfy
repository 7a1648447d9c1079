/**
 * Variable scoping of blockly-solidity/generators/solidity.js: which
 * variables a block can see (`variableIsInScope`, `getVariablesInScope`) and
 * how a variable's stored name encodes the block that declares it
 * (`setVariableName`, `getVariableName`). The Blockly workspace becomes a
 * map from block id to the block's type and parent.
 */
module Scope {
  import opened Wrappers
  import opened Strings

  /** A block as the scope walk sees it. */
  datatype Block = Block(id: string, kind: string)

  /** A workspace block: its type and the id of its parent, if any. */
  datatype BlockInfo = BlockInfo(kind: string, parent: Option<string>)

  type Workspace = map<string, BlockInfo>

  /** A workspace variable: the id of the block that declares it, its stored
      name, type, group and the id of its scope block. */
  datatype Variable = Variable(id: string, name: string, valueType: string, group: string, scope: string)

  /** The ancestor chain of a block: the block itself, then its parent, and
      so on up to a root. At most `fuel` blocks are listed; a workspace of
      `n` blocks whose parent links have no cycle needs `n`. */
  function Ancestors(ws: Workspace, start: Option<string>, fuel: nat): (chain: seq<Block>)
    ensures |chain| <= fuel
    ensures start.None? || start.value !in ws ==> chain == []
    ensures forall i :: 0 <= i < |chain| ==> chain[i].id in ws && chain[i].kind == ws[chain[i].id].kind
    ensures |chain| > 0 ==> chain[0].id == start.value
    ensures forall i :: 0 <= i < |chain| - 1 ==> ws[chain[i].id].parent == Some(chain[i + 1].id)
    decreases fuel
  {
    if fuel == 0 || start.None? || start.value !in ws then []
    else
      var info := ws[start.value];
      [Block(start.value, info.kind)] + Ancestors(ws, info.parent, fuel - 1)
  }

  /** Position `j` of the chain starts a run of blocks of one type. */
  predicate RunStart(chain: seq<Block>, j: int)
    requires 0 <= j < |chain|
  {
    j == 0 || chain[j].kind != chain[j - 1].kind
  }

  /** A variable whose scope block is `scopeId` is visible from the first
      block of `chain` when the scope is the first block of one of the
      chain's runs of same-typed ancestors. */
  predicate InScope(scopeId: string, chain: seq<Block>)
  {
    exists j :: 0 <= j < |chain| && RunStart(chain, j) && chain[j].id == scopeId
  }

  /** `variableIsInScope(variable, scope)`: climbs from the block, and each
      time it leaves a block it also skips the ancestors of that block's
      type, until it reaches the variable's scope or runs out of parents. */
  method VariableIsInScope(scopeId: string, chain: seq<Block>) returns (r: bool)
    ensures r <==> InScope(scopeId, chain)
    ensures |chain| > 0 && chain[0].id == scopeId ==> r
    ensures |chain| == 0 ==> !r
  {
    var i := 0;
    while i < |chain| && chain[i].id != scopeId
      invariant 0 <= i <= |chain|
      invariant i < |chain| ==> RunStart(chain, i)
      invariant forall j :: 0 <= j < i && RunStart(chain, j) ==> chain[j].id != scopeId
      decreases |chain| - i
    {
      var left := i;
      var t := chain[i].kind;
      i := i + 1;
      while i < |chain| && chain[i].kind == t
        invariant left < i <= |chain|
        invariant forall k :: left < k < i ==> chain[k].kind == t
        invariant forall j :: 0 <= j < i && RunStart(chain, j) ==> chain[j].id != scopeId
        decreases |chain| - i
      {
        i := i + 1;
      }
    }
    r := i < |chain|;
  }

  /** The text that prefixes the plain name of a variable declared in the
      block `scopeId`. */
  function ScopePrefix(scopeId: string): string
  {
    "_scope(\"" + scopeId + "\")_"
  }

  /** `setVariableName(variable, name)`. */
  function SetVariableName(v: Variable, name: string): (r: Variable)
    ensures |r.name| == |ScopePrefix(v.scope)| + |name|
    ensures r.name[..|ScopePrefix(v.scope)|] == ScopePrefix(v.scope)
    ensures r.name[|ScopePrefix(v.scope)|..] == name
    ensures r == v.(name := r.name)
  {
    v.(name := ScopePrefix(v.scope) + name)
  }

  /** `getVariableName(variable)`: the stored name with the first occurrence
      of its scope prefix removed. */
  function GetVariableName(v: Variable): (r: string)
    ensures !Contains(v.name, ScopePrefix(v.scope)) ==> r == v.name
    ensures |r| <= |v.name|
  {
    ReplaceFirst(v.name, ScopePrefix(v.scope), "")
  }

  /** The plain name survives being stored: reading back the name just set
      gives it, whatever it is. */
  lemma NameRoundTrip(v: Variable, name: string)
    ensures GetVariableName(SetVariableName(v, name)) == name
  {
    var p := ScopePrefix(v.scope);
    IndexOfPrefix(p, name);
    assert (p + name)[|p|..] == name;
  }

  /** The variable passes the group filter: no group (JavaScript `null` or
      the empty string) lets every variable through. */
  predicate InGroup(v: Variable, group: Option<string>)
  {
    group.None? || group.value == "" || v.group == group.value
  }

  /** `getVariablesInScope(block, group)`, `chain` being the block's
      ancestors: the workspace variables visible from the block that pass
      the group filter, in workspace order. */
  function VariablesInScope(vars: seq<Variable>, chain: seq<Block>, group: Option<string>): (r: seq<Variable>)
    ensures |r| <= |vars|
    ensures forall v :: v in r <==> v in vars && InScope(v.scope, chain) && InGroup(v, group)
    decreases |vars|
  {
    if |vars| == 0 then []
    else
      var rest := VariablesInScope(vars[1..], chain, group);
      if InScope(vars[0].scope, chain) && InGroup(vars[0], group) then [vars[0]] + rest else rest
  }

  /** Without a group the result is every visible variable; with one, it is
      exactly the visible variables of that group. */
  lemma GroupFilter(vars: seq<Variable>, chain: seq<Block>, g: string)
    ensures forall v :: v in VariablesInScope(vars, chain, None) <==> v in vars && InScope(v.scope, chain)
    ensures forall v :: v in VariablesInScope(vars, chain, Some("")) <==> v in vars && InScope(v.scope, chain)
    ensures g != "" ==> forall v :: v in VariablesInScope(vars, chain, Some(g)) <==>
              v in VariablesInScope(vars, chain, None) && v.group == g
  {
  }

  /** `v` is visible from the block, passes the group filter and has the
      plain name `name`. */
  predicate Named(v: Variable, chain: seq<Block>, group: Option<string>, name: string)
  {
    InScope(v.scope, chain) && InGroup(v, group) && GetVariableName(v) == name
  }

  /** `getVariableByNameAndScope(name, scope, group)`: the first visible
      variable of the group whose plain name is `name`. */
  function VariableByName(vars: seq<Variable>, chain: seq<Block>, group: Option<string>, name: string): (r: Option<Variable>)
    ensures r.Some? ==> r.value in vars && InScope(r.value.scope, chain) && InGroup(r.value, group)
                        && GetVariableName(r.value) == name
    ensures r.None? <==> forall v :: v in vars && InScope(v.scope, chain) && InGroup(v, group) ==>
                           GetVariableName(v) != name
    ensures r.Some? ==> exists i :: 0 <= i < |vars| && vars[i] == r.value &&
                          forall j :: 0 <= j < i ==> !Named(vars[j], chain, group, name)
    decreases |vars|
  {
    if |vars| == 0 then None
    else if Named(vars[0], chain, group, name) then
      assert vars[0] == vars[0];
      Some(vars[0])
    else
      var rest := VariableByName(vars[1..], chain, group, name);
      assert rest.Some? ==> exists i :: 0 <= i < |vars| && vars[i] == rest.value &&
                              forall j :: 0 <= j < i ==> !Named(vars[j], chain, group, name) by {
        if rest.Some? {
          var k :| 0 <= k < |vars[1..]| && vars[1..][k] == rest.value &&
                   forall j :: 0 <= j < k ==> !Named(vars[1..][j], chain, group, name);
          assert vars[k + 1] == rest.value;
          assert forall j :: 0 <= j < k + 1 ==> !Named(vars[j], chain, group, name) by {
            forall j | 0 <= j < k + 1
              ensures !Named(vars[j], chain, group, name)
            {
              if j > 0 {
                assert vars[j] == vars[1..][j - 1];
              }
            }
          }
        }
      }
      rest
  }

  /** Visibility filtering keeps workspace order and multiplicity: the
      visible variables of two consecutive parts are those of the first
      followed by those of the second, and one variable is kept exactly when
      it is in scope and passes the group filter. */
  lemma {:induction false} VariablesInScopeAppend(a: seq<Variable>, b: seq<Variable>, chain: seq<Block>, group: Option<string>)
    ensures VariablesInScope(a + b, chain, group) == VariablesInScope(a, chain, group) + VariablesInScope(b, chain, group)
    ensures |a| == 1 ==> VariablesInScope(a, chain, group) == (if InScope(a[0].scope, chain) && InGroup(a[0], group) then a else [])
    decreases |a|
  {
    if |a| == 0 {
      assert a + b == b;
    } else {
      assert (a + b)[0] == a[0] && (a + b)[1..] == a[1..] + b;
      var head := if InScope(a[0].scope, chain) && InGroup(a[0], group) then [a[0]] else [];
      assert VariablesInScope(a + b, chain, group) == head + VariablesInScope(a[1..] + b, chain, group);
      assert VariablesInScope(a[1..] + b, chain, group) == VariablesInScope(a[1..], chain, group) + VariablesInScope(b, chain, group) by {
        VariablesInScopeAppend(a[1..], b, chain, group);
      }
      assert VariablesInScope(a, chain, group) == head + VariablesInScope(a[1..], chain, group);
      Strings.ConsAssoc(head, VariablesInScope(a[1..], chain, group), VariablesInScope(b, chain, group));
      if |a| == 1 {
        assert a[1..] == [];
        assert a == [a[0]];
      }
    }
  }
}
