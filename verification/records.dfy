/**
 * Data shared by the search workflows, the search log and the paginator:
 * a movie row as the catalog returns it, and the parameter dictionaries written to the search log.
 */
module Records {
  import opened Wrappers
  import opened Text

  /** A value stored in a dictionary: a Python `str`, `int` or `None`. */
  datatype Value = Str(s: string) | Int(i: int) | Null

  /**
   * A row of the catalog search, one field per key: None when the key is missing from the
   * dictionary, and otherwise the value stored under it (which may itself be `None`).
   */
  datatype Movie = Movie(title: Option<Value>, releaseYear: Option<Value>, rating: Option<Value>)

  /** A parameter dictionary in insertion order (keys are distinct in practice). */
  type Params = seq<(string, Value)>

  /**
   * A Python dictionary, kept as its entries in insertion order. `d.get(key)`: the value stored
   * under the first occurrence of `key`, or nothing when no entry has that key.
   */
  function Get<K(==), V>(dict: seq<(K, V)>, key: K): (r: Option<V>)
    ensures r.None? <==> forall i :: 0 <= i < |dict| ==> dict[i].0 != key
    ensures r.Some? ==> (key, r.value) in dict
  {
    if dict == [] then None
    else if dict[0].0 == key then Some(dict[0].1)
    else Get(dict[1..], key)
  }

  /** `list(d.keys())`: the keys in insertion order. */
  function Keys<K, V>(dict: seq<(K, V)>): (keys: seq<K>)
    ensures |keys| == |dict|
    ensures forall i :: 0 <= i < |dict| ==> keys[i] == dict[i].0
  {
    seq(|dict|, i requires 0 <= i < |dict| => dict[i].0)
  }

  /** No key occurs twice, as in a real dictionary. */
  predicate DistinctKeys<K(==), V>(dict: seq<(K, V)>) {
    forall i, j :: 0 <= i < j < |dict| ==> dict[i].0 != dict[j].0
  }

  /** In a dictionary without repeated keys, reading a listed key finds its own value. */
  lemma {:induction false} GetListed<K, V>(dict: seq<(K, V)>, k: nat)
    requires DistinctKeys(dict) && k < |dict|
    ensures Get(dict, dict[k].0) == Some(dict[k].1)
  {
    if k > 0 {
      assert dict[0].0 != dict[k].0;
      assert dict[1..][k - 1] == dict[k];
      GetListed(dict[1..], k - 1);
    }
  }

  /** `str(v)`, as an f-string shows the value. */
  function Show(v: Value): string {
    match v
    case Str(s) => s
    case Int(i) => IntToString(i)
    case Null => "None"
  }

  /** `str(o)` for an optional integer (`None` when absent). */
  function ShowOptional(o: Option<int>): string {
    match o
    case Some(i) => IntToString(i)
    case None => "None"
  }

  /** `repr(v)`, as a dictionary shows its values (quote escaping is not modelled). */
  function Repr(v: Value): string {
    match v
    case Str(s) => "'" + s + "'"
    case _ => Show(v)
  }

  /** One dictionary item as `str(dict)` shows it: `'key': repr(value)`. */
  function ReprItem(item: (string, Value)): string {
    "'" + item.0 + "': " + Repr(item.1)
  }

  /** The items of a dictionary, separated by ", ". */
  function ReprItems(params: Params): string {
    if params == [] then ""
    else if |params| == 1 then ReprItem(params[0])
    else ReprItem(params[0]) + ", " + ReprItems(params[1..])
  }

  /** `str(params)` for a dictionary: `{'k': v, ...}` in insertion order. */
  function ReprParams(params: Params): (r: string)
    ensures |r| >= 2 && r[0] == '{' && r[|r| - 1] == '}'
  {
    "{" + ReprItems(params) + "}"
  }

  /**
   * Inserting one more key adds its item at the end of the braces, after ", " unless the
   * dictionary was empty: `{}`, then `{'a': 1}`, then `{'a': 1, 'b': 'x'}`.
   */
  lemma {:induction false} ReprParamsAppend(params: Params, item: (string, Value))
    ensures ReprParams([item]) == "{" + ReprItem(item) + "}"
    ensures ReprParams(params + [item]) ==
      "{" + ReprItems(params) + (if params == [] then "" else ", ") + ReprItem(item) + "}"
  {
    ReprItemsAppend(params, item);
  }

  lemma {:induction false} ReprItemsAppend(params: Params, item: (string, Value))
    ensures ReprItems(params + [item]) == ReprItems(params) + (if params == [] then "" else ", ") + ReprItem(item)
  {
    if params == [] {
      assert params + [item] == [item];
    } else if |params| == 1 {
      assert (params + [item])[1..] == [item];
    } else {
      assert (params + [item])[1..] == params[1..] + [item];
      ReprItemsAppend(params[1..], item);
    }
  }
}
