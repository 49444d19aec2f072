/**
 * The JSON values a request body carries once Flask has decoded it, and the
 * Python truth value of each (empty or zero values are false).
 */
module Json {

  datatype Json =
    | Null
    | Bool(b: bool)
    | Number(n: real)
    | Str(s: string)
    | Array(items: seq<Json>)
    | Object(fields: map<string, Json>)

  /** Python's `bool(v)` for the value `json.loads` produced. */
  predicate Truthy(v: Json) {
    match v
    case Null => false
    case Bool(b) => b
    case Number(n) => n != 0.0
    case Str(s) => s != ""
    case Array(items) => items != []
    case Object(fields) => fields != map[]
  }

  /** `data.get(key)`: the value under `key`, or `None` (JSON null) when the key is missing. */
  function Get(data: map<string, Json>, key: string): Json {
    if key in data then data[key] else Null
  }
}
