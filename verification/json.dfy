/** The JSON values the collector handles after `json.loads`, with the two
    Python behaviours the model depends on: truthiness (`if not x`) and
    `dict.get(key, default)`. Decoding itself is abstract: it is supplied to
    the collector as a function (see `CollectorWin.Codec`). */
module Json {
  import opened Wrappers

  datatype Json =
    | Null
    | Bool(b: bool)
    | Num(n: real)
    | Str(s: string)
    | Arr(items: seq<Json>)
    | Obj(fields: map<string, Json>)

  /** Python truthiness: `None`, `False`, zero, "", [] and {} are false. */
  predicate Truthy(j: Json) {
    match j
    case Null => false
    case Bool(b) => b
    case Num(n) => n != 0.0
    case Str(s) => s != []
    case Arr(items) => items != []
    case Obj(fields) => fields != map[]
  }

  /** `d.get(key, default)` on a decoded JSON object. */
  function Get(fields: map<string, Json>, key: string, default: Json): Json {
    (if key in fields then Some(fields[key]) else None).GetOr(default)
  }
}
