/**
 * The JSON body of a create or update request, as the server sees it after
 * decoding: a dictionary of values, and Python's truthiness of each value.
 */
module Payload {
  import opened Wrappers

  datatype Value =
    | Null
    | Bool(b: bool)
    | Int(i: int)
    | Str(s: string)
    | List(items: seq<Value>)
    | Object(fields: map<string, Value>)

  type Data = map<string, Value>

  /** Python's `bool(v)`. */
  predicate Truthy(v: Value) {
    match v
    case Null => false
    case Bool(b) => b
    case Int(i) => i != 0
    case Str(s) => s != ""
    case List(items) => |items| > 0
    case Object(fields) => |fields| > 0
  }

  /** `data.get(k)` is truthy. */
  predicate FieldTruthy(data: Data, k: string) {
    k in data && Truthy(data[k])
  }

  /** `isinstance(data.get(k), list) and len(data.get(k)) > 0`. */
  predicate NonEmptyList(data: Data, k: string) {
    k in data && data[k].List? && |data[k].items| > 0
  }

  /** `data.get(k, default)`. */
  function GetOr(data: Data, k: string, default: Value): Value {
    if k in data then data[k] else default
  }

  /** Reading back what was stored gets it, whatever the default; storing under one key leaves every other key's reading as it was. */
  lemma GetOrUpdate(data: Data, k: string, v: Value, k': string, default: Value)
    ensures GetOr(data[k := v], k, default) == v
    ensures k' != k ==> GetOr(data[k := v], k', default) == GetOr(data, k', default)
  {
  }
}
