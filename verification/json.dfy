/** JSON values as Python's `json` module hands them over: objects are dicts,
    `null` is `None`. Object fields are kept in insertion order, as a Python
    dict keeps them. */
module Json {
  import opened Wrappers

  datatype Json =
    | JNull
    | JBool(b: bool)
    | JNum(n: real)
    | JStr(s: string)
    | JArr(items: seq<Json>)
    | JObj(fields: seq<(string, Json)>)

  /** The binding of `key` in an object's fields; a later binding shadows an
      earlier one, as `json.load` keeps the last duplicate key. */
  function Lookup(fields: seq<(string, Json)>, key: string): (r: Option<Json>)
    ensures r.Some? <==> exists k :: 0 <= k < |fields| && fields[k].0 == key
    ensures r.Some? ==> exists k :: 0 <= k < |fields| && fields[k] == (key, r.value)
    ensures |fields| > 0 && fields[|fields| - 1].0 == key ==> r == Some(fields[|fields| - 1].1)
  {
    if |fields| == 0 then None
    else if fields[|fields| - 1].0 == key then Some(fields[|fields| - 1].1)
    else Lookup(fields[..|fields| - 1], key)
  }

  /** A key bound at position `k` and nowhere after it looks up to that binding. */
  lemma {:induction false} LookupLastBinding(fields: seq<(string, Json)>, k: nat, key: string)
    requires k < |fields| && fields[k].0 == key
    requires forall m :: k < m < |fields| ==> fields[m].0 != key
    ensures Lookup(fields, key) == Some(fields[k].1)
    decreases |fields|
  {
    if k < |fields| - 1 {
      LookupLastBinding(fields[..|fields| - 1], k, key);
    }
  }

  /** Python's `key in data` for a value that is a dict. */
  predicate HasKey(j: Json, key: string) {
    j.JObj? && Lookup(j.fields, key).Some?
  }

  /** Python's `data[key]`: a KeyError for a dict without the key, a TypeError
      for anything that is not a dict. */
  function Get(j: Json, key: string): (r: Result<Json>)
    ensures r.Ok? <==> HasKey(j, key)
    ensures r.Ok? ==> Lookup(j.fields, key) == Some(r.value)
    ensures j.JObj? && !HasKey(j, key) ==> r == Err(KeyError(key))
  {
    match j
    case JObj(fields) =>
      (match Lookup(fields, key)
       case Some(v) => Ok(v)
       case None => Err(KeyError(key)))
    case _ => Err(TypeError("object is not subscriptable by a string key"))
  }

  /** Python's `value == True`, which also holds for the number 1. */
  predicate EqualsTrue(j: Json) {
    j == JBool(true) || j == JNum(1.0)
  }
}
