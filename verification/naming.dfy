/**
 * The naming rule of `declareOrUpdateVariable` in
 * blockly-solidity/blocks/contract.js: a declaring block keeps the name it
 * asks for when no visible variable of its group already has it, and
 * otherwise gets the name followed by the smallest number from 2 on that is
 * still free.
 */
module Naming {
  import opened Wrappers
  import opened Strings
  import opened Scope

  /** `getVariableByNameAndScope(n, scope, group)` finds a variable. */
  predicate Taken(vars: seq<Variable>, chain: seq<Block>, group: Option<string>, n: string)
  {
    VariableByName(vars, chain, group, n).Some?
  }

  /** The names `name2`, …, `name<count - 1>`. */
  ghost function Suffixed(name: string, count: nat): set<string>
  {
    set j | 2 <= j < count :: name + NatToString(j)
  }

  /** The suffixed names are pairwise distinct, so there are as many as
      suffixes. */
  lemma {:induction false} SuffixedCard(name: string, count: nat)
    requires count >= 2
    ensures |Suffixed(name, count)| == count - 2
    decreases count
  {
    if count > 2 {
      var x := name + NatToString(count - 1);
      var smaller := Suffixed(name, count - 1);
      assert x !in smaller by {
        if x in smaller {
          var j :| 2 <= j < count - 1 && x == name + NatToString(j);
          SuffixedNamesDistinct(name, j, count - 1);
        }
      }
      forall y | y in Suffixed(name, count)
        ensures y in smaller + {x}
      {
        var j :| 2 <= j < count && y == name + NatToString(j);
        if j < count - 1 {
          assert y in smaller;
        }
      }
      forall y | y in smaller + {x}
        ensures y in Suffixed(name, count)
      {
        if y != x {
          var j :| 2 <= j < count - 1 && y == name + NatToString(j);
        }
      }
      assert Suffixed(name, count) == smaller + {x};
      SuffixedCard(name, count - 1);
    } else {
      assert Suffixed(name, count) == {};
    }
  }

  /** A subset is no larger than its superset. */
  lemma SubsetCard<T>(a: set<T>, b: set<T>)
    requires a <= b
    ensures |a| <= |b|
  {
    assert b == a + (b - a);
  }

  /** The plain names of the workspace variables. */
  ghost function PlainNames(vars: seq<Variable>): set<string>
  {
    set v | v in vars :: GetVariableName(v)
  }

  /** Only as many suffixed names can be taken as there are plain names. */
  lemma TakenBound(vars: seq<Variable>, chain: seq<Block>, group: Option<string>, name: string, count: nat)
    requires count >= 2
    requires forall j :: 2 <= j < count ==> Taken(vars, chain, group, name + NatToString(j))
    ensures count - 2 <= |PlainNames(vars)|
  {
    forall x | x in Suffixed(name, count)
      ensures x in PlainNames(vars)
    {
      var j :| 2 <= j < count && x == name + NatToString(j);
      assert Taken(vars, chain, group, x);
      assert VariableByName(vars, chain, group, x).value in vars;
    }
    SuffixedCard(name, count);
    SubsetCard(Suffixed(name, count), PlainNames(vars));
  }

  /** The counting loop: the smallest `count` from 2 on with `name + count`
      free. It ends because only as many suffixed names can be taken as
      there are variables. */
  method FirstFreeSuffix(vars: seq<Variable>, chain: seq<Block>, group: Option<string>, name: string)
    returns (count: nat)
    ensures count >= 2
    ensures !Taken(vars, chain, group, name + NatToString(count))
    ensures forall j :: 2 <= j < count ==> Taken(vars, chain, group, name + NatToString(j))
  {
    count := 2;
    while Taken(vars, chain, group, name + NatToString(count))
      invariant count >= 2
      invariant forall j :: 2 <= j < count ==> Taken(vars, chain, group, name + NatToString(j))
      decreases |PlainNames(vars)| - (count - 2)
    {
      TakenNext(vars, chain, group, name, count);
      count := count + 1;
    }
  }

  /** One more taken suffix extends the run of taken ones, which stays
      within the number of plain names. */
  lemma TakenNext(vars: seq<Variable>, chain: seq<Block>, group: Option<string>, name: string, count: nat)
    requires count >= 2
    requires forall j :: 2 <= j < count ==> Taken(vars, chain, group, name + NatToString(j))
    requires Taken(vars, chain, group, name + NatToString(count))
    ensures forall j :: 2 <= j < count + 1 ==> Taken(vars, chain, group, name + NatToString(j))
    ensures count - 1 <= |PlainNames(vars)|
  {
    forall j | 2 <= j < count + 1
      ensures Taken(vars, chain, group, name + NatToString(j))
    {
      if j == count {
        assert Taken(vars, chain, group, name + NatToString(count));
      }
    }
    TakenBound(vars, chain, group, name, count + 1);
  }

  /** The name a declaring block ends up with: `name` when free, else
      `name + count` for the smallest free `count` from 2 on. The result is
      never taken. */
  method FreshName(vars: seq<Variable>, chain: seq<Block>, group: Option<string>, name: string)
    returns (r: string, suffix: nat)
    ensures !Taken(vars, chain, group, r)
    ensures !Taken(vars, chain, group, name) ==> r == name && suffix == 0
    ensures Taken(vars, chain, group, name) ==>
              && suffix >= 2
              && r == name + NatToString(suffix)
              && forall j :: 2 <= j < suffix ==> Taken(vars, chain, group, name + NatToString(j))
  {
    if !Taken(vars, chain, group, name) {
      return name, 0;
    }
    var count := FirstFreeSuffix(vars, chain, group, name);
    return name + NatToString(count), count;
  }

  /** What `declareOrUpdateVariable` needs to know about the declaring
      block: its id, the name its field shows, whether it has a parent, and
      the group, scope block and type of the variable it declares. */
  datatype Declarer = Declarer(
    id: string, oldName: string, hasParent: bool,
    group: Option<string>, scope: string, valueType: string)

  /** Position of the variable whose id is `id` (`getVariableById`). */
  function FindById(vars: seq<Variable>, id: string): (r: Option<nat>)
    ensures r.Some? ==> r.value < |vars| && vars[r.value].id == id
    ensures r.None? <==> forall i :: 0 <= i < |vars| ==> vars[i].id != id
    decreases |vars|
  {
    if |vars| == 0 then None
    else if vars[0].id == id then Some(0)
    else match FindById(vars[1..], id)
      case Some(i) => Some(i + 1)
      case None => None
  }

  /** `declareOrUpdateVariable(name, force)`: the name the block keeps and
      the workspace variables afterwards. A block without a parent, or one
      asking again for the name it has (unless forced), keeps its old name
      and changes nothing. Otherwise the fresh name is chosen and either a
      new variable is created under it, with its scope prefix, or the
      block's existing variable takes the plain fresh name, without the
      prefix. `chain` is the ancestor chain of the scope block. */
  method DeclareOrUpdateVariable(b: Declarer, vars: seq<Variable>, chain: seq<Block>, name: string, force: bool)
    returns (newName: string, vars': seq<Variable>)
    ensures !b.hasParent ==> newName == b.oldName && vars' == vars
    ensures b.hasParent && !force && b.oldName == name ==> newName == b.oldName && vars' == vars
    ensures b.hasParent && (force || b.oldName != name) ==>
              && !Taken(vars, chain, b.group, newName)
              && (!Taken(vars, chain, b.group, name) ==> newName == name)
    ensures b.hasParent && (force || b.oldName != name) && FindById(vars, b.id).None? ==>
              && vars' == vars + [Variable(b.id, ScopePrefix(b.scope) + newName, b.valueType, GroupName(b.group), b.scope)]
              && GetVariableName(vars'[|vars|]) == newName
    ensures b.hasParent && (force || b.oldName != name) && FindById(vars, b.id).Some? ==>
              var i := FindById(vars, b.id).value;
              && |vars'| == |vars|
              && vars'[i] == vars[i].(name := newName)
              && forall k :: 0 <= k < |vars| && k != i ==> vars'[k] == vars[k]
  {
    if !b.hasParent {
      return b.oldName, vars;
    }
    if !force && b.oldName == name {
      return b.oldName, vars;
    }
    var suffix;
    newName, suffix := FreshName(vars, chain, b.group, name);
    match FindById(vars, b.id)
    case None =>
      var created := SetVariableName(Variable(b.id, "", b.valueType, GroupName(b.group), b.scope), newName);
      NameRoundTrip(Variable(b.id, "", b.valueType, GroupName(b.group), b.scope), newName);
      vars' := vars + [created];
    case Some(i) =>
      vars' := vars[i := vars[i].(name := newName)];
  }

  /** The group recorded on a created variable. */
  function GroupName(group: Option<string>): string
  {
    group.GetOr("")
  }
}
