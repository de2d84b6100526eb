/** Decoded JSON response bodies, the way the analysts see them after
    `response.json()`, and the Python exceptions reading them can raise. */
module JsonValues {
  import opened Wrappers

  /** A decoded JSON value. Numbers are integers; an object keeps its members
      in document order. */
  datatype Json =
    | JNull
    | JBool(b: bool)
    | JNum(n: int)
    | JStr(s: string)
    | JArray(items: seq<Json>)
    | JObject(fields: seq<(string, Json)>)

  /** An exception raised while a handler reads a body: a missing key
      (`KeyError`), subscripting or iterating the wrong kind of value
      (`TypeError`), or calling `.get` on something that is not a dict
      (`AttributeError`). */
  datatype Fault = KeyError(key: string) | TypeError | AttributeError

  /** Python truthiness of a decoded value: `None`, `False`, `0`, `""`, `[]`
      and `{}` are false. */
  predicate Truthy(j: Json) {
    match j
    case JNull => false
    case JBool(b) => b
    case JNum(n) => n != 0
    case JStr(s) => s != ""
    case JArray(items) => items != []
    case JObject(fields) => fields != []
  }

  /** `d.get(key)` on a decoded object: when a key occurs twice, the later
      member wins, as when the body is decoded into a dict. */
  function Get(fields: seq<(string, Json)>, key: string): (r: Option<Json>)
    ensures r.None? <==> forall i :: 0 <= i < |fields| ==> fields[i].0 != key
    ensures r.Some? ==> exists i :: 0 <= i < |fields| && fields[i] == (key, r.value)
                                    && forall j :: i < j < |fields| ==> fields[j].0 != key
  {
    if |fields| == 0 then None
    else if fields[|fields| - 1].0 == key then Some(fields[|fields| - 1].1)
    else
      var r := Get(fields[..|fields| - 1], key);
      assert forall i :: 0 <= i < |fields| - 1 ==> fields[..|fields| - 1][i] == fields[i];
      r
  }

  /** `d[key]`: the member's value, or `KeyError` when it is missing. */
  function Field(fields: seq<(string, Json)>, key: string): (r: Result<Json, Fault>)
    ensures r.Success? <==> Get(fields, key).Some?
    ensures r.Failure? ==> r.error == KeyError(key)
  {
    match Get(fields, key)
    case Some(v) => Success(v)
    case None => Failure(KeyError(key))
  }

  /** A value used as a number; anything else fails the comparison or sum with `TypeError`. */
  function Number(j: Json): (r: Result<int, Fault>)
    ensures r.Success? <==> j.JNum?
    ensures r.Success? ==> j == JNum(r.value)
  {
    if j.JNum? then Success(j.n) else Failure(TypeError)
  }
}
