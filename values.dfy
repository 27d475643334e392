/**
 * Decoded JSON values, Python truthiness, and Python dicts as ordered
 * sequences of (key, value) pairs.
 */
module Values {
  import opened Wrappers

  /** A decoded JSON value, as `json.loads` gives it. */
  datatype Json =
    | JNull
    | JBool(b: bool)
    | JNum(n: real)
    | JStr(s: string)
    | JArr(items: seq<Json>)
    | JObj(entries: seq<(string, Json)>)

  /** Python's truth value of a decoded JSON value (`if value:`). */
  predicate Truthy(j: Json) {
    match j
    case JNull => false
    case JBool(b) => b
    case JNum(n) => n != 0.0
    case JStr(s) => s != ""
    case JArr(xs) => xs != []
    case JObj(es) => es != []
  }

  /**
   * Python's `str(value)`: `None`, `True`/`False` and strings are spelled
   * out; numbers, lists and dicts are rendered by `showOther`, which stands
   * for Python's own formatting of them.
   */
  function PyStr(j: Json, showOther: Json -> string): string {
    match j
    case JNull => "None"
    case JBool(b) => if b then "True" else "False"
    case JStr(s) => s
    case _ => showOther(j)
  }

  /** The keys of a Python dict are distinct. */
  ghost predicate UniqueKeys<T>(entries: seq<(string, T)>) {
    forall i, j :: 0 <= i < j < |entries| ==> entries[i].0 != entries[j].0
  }

  function Keys<T>(entries: seq<(string, T)>): (ks: seq<string>)
    ensures |ks| == |entries|
    ensures forall i :: 0 <= i < |entries| ==> ks[i] == entries[i].0
  {
    seq(|entries|, i requires 0 <= i < |entries| => entries[i].0)
  }

  /** `d.get(key)`: the value stored under `key`, if any. */
  function Get<T>(entries: seq<(string, T)>, key: string): (r: Option<T>)
    ensures r.None? <==> forall i :: 0 <= i < |entries| ==> entries[i].0 != key
    ensures r.Some? ==> exists i :: 0 <= i < |entries| && entries[i] == (key, r.value)
  {
    if entries == [] then None
    else if entries[0].0 == key then Some(entries[0].1)
    else
      var r := Get(entries[1..], key);
      assert r.Some? ==> exists i :: 1 <= i < |entries| && entries[i] == (key, r.value);
      r
  }

  /** With distinct keys, `d.get(key)` finds the pair stored under `key`. */
  lemma GetUnique<T>(entries: seq<(string, T)>, i: nat)
    requires UniqueKeys(entries) && i < |entries|
    ensures Get(entries, entries[i].0) == Some(entries[i].1)
  {
    var r := Get(entries, entries[i].0);
    var j :| 0 <= j < |entries| && entries[j] == (entries[i].0, r.value);
    assert i == j;
  }

  /**
   * `d[key] = v`: an existing key keeps its position and gets the new
   * value; a new key is added at the end.
   */
  function SetKey<T>(entries: seq<(string, T)>, key: string, v: T): (r: seq<(string, T)>)
    ensures Get(entries, key).Some? ==> |r| == |entries|
    ensures Get(entries, key).None? ==> r == entries + [(key, v)]
    ensures forall i :: 0 <= i < |entries| ==> r[i] == if entries[i].0 == key then (key, v) else entries[i]
  {
    if Get(entries, key).None? then entries + [(key, v)]
    else seq(|entries|, i requires 0 <= i < |entries| => if entries[i].0 == key then (key, v) else entries[i])
  }

  /** After `d[key] = v`, looking `key` up gives `v`. */
  lemma SetKeyGet<T>(entries: seq<(string, T)>, key: string, v: T)
    ensures Get(SetKey(entries, key, v), key) == Some(v)
    ensures exists i :: 0 <= i < |SetKey(entries, key, v)| && SetKey(entries, key, v)[i] == (key, v)
  {
    var r := SetKey(entries, key, v);
    if Get(entries, key).None? {
      assert r[|entries|] == (key, v);
      assert forall i :: 0 <= i < |entries| ==> r[i].0 != key;
    } else {
      var i :| 0 <= i < |entries| && entries[i].0 == key;
      assert r[i] == (key, v);
      GetFirst(r, key);
    }
  }

  /** `d.get(key)` finds the first pair stored under `key`. */
  lemma {:induction false} GetFirst<T>(entries: seq<(string, T)>, key: string)
    ensures Get(entries, key).Some? ==>
      exists i :: 0 <= i < |entries| && entries[i] == (key, Get(entries, key).value) &&
        forall j :: 0 <= j < i ==> entries[j].0 != key
    decreases |entries|
  {
    if entries != [] && entries[0].0 != key {
      GetFirst(entries[1..], key);
      if Get(entries, key).Some? {
        var i :| 0 <= i < |entries| - 1 && entries[1..][i] == (key, Get(entries, key).value) &&
          forall j :: 0 <= j < i ==> entries[1..][j].0 != key;
        assert entries[i + 1] == (key, Get(entries, key).value);
        forall j | 0 <= j < i + 1 ensures entries[j].0 != key {
          if j > 0 {
            assert entries[j] == entries[1..][j - 1];
          }
        }
      }
    }
  }
}
