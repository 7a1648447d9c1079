/**
 * Parsed JSON documents as the Python scripts see them after `json.loads`,
 * and the Python operations the scripts apply to them: `d[k]`, `k in d`,
 * `for x in d`, `list(d.values())[0]`, and building a dict key by key.
 */
module Json {
  import opened Wrappers
  import opened Strings

  /** A JSON value. An object keeps its members in document order, as a
      Python dict keeps insertion order and `json.dump` writes it back in
      that order. */
  datatype Json =
    | Null
    | Bool(b: bool)
    | Num(n: int)
    | Str(s: string)
    | Arr(items: seq<Json>)
    | Obj(fields: seq<(string, Json)>)

  /** The Python exception that aborts a script when a document does not
      have the shape the script expects. */
  datatype Fault =
    | KeyError(key: string)      // `d[k]` on a dict without `k`
    | WrongType                  // indexing, iterating or `.values()` on the wrong kind of value
    | IndexError                 // `list(...)[0]` of an empty list
    | FileNotFound(path: string) // `open(path)` of a missing file

  /** The keys bound in an association list. */
  function Keys<V>(d: seq<(string, V)>): set<string>
  {
    set i | 0 <= i < |d| :: d[i].0
  }

  /** The value bound to `k`; when `k` is bound more than once the last
      binding wins, which is what `json.loads` keeps for a repeated key. */
  function Find<V>(d: seq<(string, V)>, k: string): (r: Option<V>)
    ensures r.Some? <==> k in Keys(d)
    decreases |d|
  {
    if |d| == 0 then None
    else if d[|d| - 1].0 == k then Some(d[|d| - 1].1)
    else
      assert Keys(d) == Keys(d[..|d| - 1]) + {d[|d| - 1].0};
      Find(d[..|d| - 1], k)
  }

  /** In an association list whose keys are distinct, a key finds the one
      value bound to it. */
  lemma {:induction false} FindUnique<V>(d: seq<(string, V)>, i: int)
    requires 0 <= i < |d|
    requires forall j :: 0 <= j < |d| && j != i ==> d[j].0 != d[i].0
    ensures Find(d, d[i].0) == Some(d[i].1)
    decreases |d|
  {
    if i < |d| - 1 {
      FindUnique(d[..|d| - 1], i);
    }
  }

  /** The keys of an association list, in order. */
  function Names<V>(d: seq<(string, V)>): (r: seq<string>)
    ensures |r| == |d| && forall i :: 0 <= i < |d| ==> r[i] == d[i].0
  {
    seq(|d|, i requires 0 <= i < |d| => d[i].0)
  }

  /** The keys of a dict built from an association list, in the order
      Python iterates them: each key once, at the position of its first
      binding (a later binding replaces the value but not the position). */
  function KeyOrder<V>(d: seq<(string, V)>): (r: seq<string>)
    ensures forall i, j :: 0 <= i < j < |r| ==> r[i] != r[j]
    ensures forall k :: k in r <==> k in Keys(d)
    decreases |d|
  {
    if |d| == 0 then []
    else
      var prev := KeyOrder(d[..|d| - 1]);
      assert Keys(d) == Keys(d[..|d| - 1]) + {d[|d| - 1].0};
      if d[|d| - 1].0 in prev then prev else prev + [d[|d| - 1].0]
  }

  /** `k` is bound somewhere in `d` before any binding of `k'`. */
  predicate BoundBefore<V>(d: seq<(string, V)>, k: string, k': string)
  {
    exists a :: 0 <= a < |d| && d[a].0 == k && forall b :: 0 <= b <= a ==> d[b].0 != k'
  }

  /** Keys come in order of first binding. */
  lemma {:induction false} KeyOrderFirstBound<V>(d: seq<(string, V)>)
    ensures forall i, j :: 0 <= i < j < |KeyOrder(d)| ==> BoundBefore(d, KeyOrder(d)[i], KeyOrder(d)[j])
    decreases |d|
  {
    if |d| > 0 {
      var init := d[..|d| - 1];
      var k := d[|d| - 1].0;
      var prev := KeyOrder(init);
      KeyOrderFirstBound(init);
      var r := KeyOrder(d);
      forall i, j | 0 <= i < j < |r|
        ensures BoundBefore(d, r[i], r[j])
      {
        assert BoundBefore(init, r[i], r[j]) by {
          if j < |prev| {
            assert r[i] == prev[i] && r[j] == prev[j];
            assert BoundBefore(init, prev[i], prev[j]);
          } else {
            assert r[i] == prev[i] && prev[i] in prev;
            assert r[j] == k && k !in Keys(init) && r[i] in Keys(init);
            var a :| 0 <= a < |init| && init[a].0 == r[i];
            assert forall b :: 0 <= b <= a ==> init[b].0 != k by {
              forall b | 0 <= b <= a ensures init[b].0 != k {
                assert init[b].0 in Keys(init);
              }
            }
            assert 0 <= a < |init| && init[a].0 == r[i] && forall b :: 0 <= b <= a ==> init[b].0 != r[j];
          }
        }
        var a :| 0 <= a < |init| && init[a].0 == r[i] && forall b :: 0 <= b <= a ==> init[b].0 != r[j];
        assert d[a] == init[a];
        assert forall b :: 0 <= b <= a ==> d[b] == init[b];
      }
    }
  }

  /** Without repeated keys the iteration order is the document order. */
  lemma {:induction false} KeyOrderDistinct<V>(d: seq<(string, V)>)
    requires forall a, b :: 0 <= a < b < |d| ==> d[a].0 != d[b].0
    ensures KeyOrder(d) == Names(d)
    decreases |d|
  {
    if |d| > 0 {
      var init := d[..|d| - 1];
      KeyOrderDistinct(init);
      assert d[|d| - 1].0 !in Keys(init) by {
        forall a | 0 <= a < |init| ensures init[a].0 != d[|d| - 1].0 {
          assert init[a] == d[a];
        }
      }
      assert Names(d) == Names(init) + [d[|d| - 1].0];
    }
  }

  /** Python `j[k]` on a parsed document. */
  function Get(j: Json, k: string): (r: Result<Json, Fault>)
    ensures r.Success? <==> j.Obj? && k in Keys(j.fields)
    ensures r.Success? ==> Find(j.fields, k) == Some(r.value)
    ensures j.Obj? && k !in Keys(j.fields) ==> r == Failure(KeyError(k))
    ensures !j.Obj? ==> r == Failure(WrongType)
  {
    match j
    case Obj(fields) =>
      (match Find(fields, k)
       case Some(v) => Success(v)
       case None => Failure(KeyError(k)))
    case _ => Failure(WrongType)
  }

  /** Follows a path of keys; `None` when a step is missing. Used to state
      where a value sits inside a document. */
  function At(j: Json, path: seq<string>): Option<Json>
    decreases |path|
  {
    if |path| == 0 then Some(j)
    else
      match Get(j, path[0])
      case Success(v) => At(v, path[1..])
      case Failure(_) => None
  }

  /** The fields of an object literal whose keys are distinct can be read
      back by key. */
  lemma GetField(fields: seq<(string, Json)>, i: int)
    requires 0 <= i < |fields|
    requires forall a, b :: 0 <= a < b < |fields| ==> fields[a].0 != fields[b].0
    ensures Get(Obj(fields), fields[i].0) == Success(fields[i].1)
  {
    FindUnique(fields, i);
  }

  /** Reading a path through an object literal with distinct keys. */
  lemma AtField(fields: seq<(string, Json)>, i: int, rest: seq<string>)
    requires 0 <= i < |fields|
    requires forall a, b :: 0 <= a < b < |fields| ==> fields[a].0 != fields[b].0
    ensures At(Obj(fields), [fields[i].0] + rest) == At(fields[i].1, rest)
  {
    GetField(fields, i);
    assert ([fields[i].0] + rest)[1..] == rest;
  }

  /** Reading the `i`th key of an object literal with distinct keys. */
  lemma AtOwnField(fields: seq<(string, Json)>, i: int)
    requires 0 <= i < |fields|
    requires forall a, b :: 0 <= a < b < |fields| ==> fields[a].0 != fields[b].0
    ensures At(Obj(fields), [fields[i].0]) == Some(fields[i].1)
  {
    AtField(fields, i, []);
    assert [fields[i].0] + [] == [fields[i].0];
  }

  /** Python `k in j`: key membership for a dict, element membership for a
      list, substring search for a string; any other value raises. */
  function HasKey(j: Json, k: string): (r: Result<bool, Fault>)
    ensures j.Obj? ==> r == Success(k in Keys(j.fields))
    ensures j.Arr? ==> r == Success(Str(k) in j.items)
    ensures j.Str? ==> r == Success(Contains(j.s, k))
    ensures r.Failure? <==> !(j.Obj? || j.Arr? || j.Str?)
  {
    match j
    case Obj(fields) => Success(Find(fields, k).Some?)
    case Arr(items) => Success(Str(k) in items)
    case Str(s) => Success(Contains(s, k))
    case _ => Failure(WrongType)
  }

  /** What Python `for x in j` visits: the elements of a list, the keys of a
      dict in the order `KeyOrder` gives, the one-character strings of a
      string; any other value raises. */
  function Iterate(j: Json): (r: Result<seq<Json>, Fault>)
    ensures j.Arr? ==> r == Success(j.items)
    ensures j.Obj? ==> r.Success? && |r.value| == |KeyOrder(j.fields)|
                       && forall i :: 0 <= i < |r.value| ==> r.value[i] == Str(KeyOrder(j.fields)[i])
    ensures j.Str? ==> r.Success? && |r.value| == |j.s|
                       && forall i :: 0 <= i < |r.value| ==> r.value[i] == Str([j.s[i]])
    ensures r.Failure? <==> !(j.Obj? || j.Arr? || j.Str?)
  {
    match j
    case Arr(items) => Success(items)
    case Obj(fields) =>
      var keys := KeyOrder(fields);
      Success(seq(|keys|, i requires 0 <= i < |keys| => Str(keys[i])))
    case Str(s) => Success(seq(|s|, i requires 0 <= i < |s| => Str([s[i]])))
    case _ => Failure(WrongType)
  }

  /** Python `list(j.values())[0]`: the value of the dict's first key;
      an empty dict raises `IndexError` and a non-dict has no `values`. */
  function FirstValue(j: Json): (r: Result<Json, Fault>)
    ensures j.Obj? && |j.fields| > 0 ==> r == Success(Find(j.fields, j.fields[0].0).value)
    ensures j.Obj? && |j.fields| == 0 ==> r == Failure(IndexError)
    ensures !j.Obj? ==> r == Failure(WrongType)
  {
    match j
    case Obj(fields) =>
      if |fields| == 0 then Failure(IndexError)
      else
        assert fields[0].0 in Keys(fields);
        Success(Find(fields, fields[0].0).value)
    case _ => Failure(WrongType)
  }

  /** A dict built by a script, key by key: its keys in insertion order
      and the value each is bound to. */
  datatype Dict<V> = Dict(order: seq<string>, entries: map<string, V>)
  {
    /** Every key is listed once, and exactly the bound keys are listed. */
    ghost predicate Valid()
    {
      && (forall i, j :: 0 <= i < j < |order| ==> order[i] != order[j])
      && (forall k :: k in entries <==> k in order)
    }

    /** Python `d[k] = v`: an existing key keeps its position and takes the
        new value; a new key goes at the end. */
    function Set(k: string, v: V): (r: Dict<V>)
      requires Valid()
      ensures r.Valid()
      ensures r.entries == entries[k := v]
      ensures k in entries ==> r.order == order
      ensures k !in entries ==> r.order == order + [k]
    {
      if k in entries then Dict(order, entries[k := v])
      else Dict(order + [k], entries[k := v])
    }
  }

  /** The empty dict `{}`. */
  function EmptyDict<V>(): (r: Dict<V>)
    ensures r.Valid() && r.order == [] && r.entries == map[]
  {
    Dict([], map[])
  }

  /** What `json.dump` writes for a dict of name lists: an object whose
      members follow the dict's insertion order. */
  function ListsToJson(d: Dict<seq<Json>>): (r: Json)
    requires d.Valid()
    ensures r.Obj? && |r.fields| == |d.order|
    ensures forall i :: 0 <= i < |d.order| ==>
              r.fields[i] == (d.order[i], Arr(d.entries[d.order[i]]))
  {
    Obj(seq(|d.order|, i requires 0 <= i < |d.order| => (d.order[i], Arr(d.entries[d.order[i]]))))
  }
}
