/** Values shared by every part of the model: optional values, results, the
    JSON-like values the Python handlers pass around (request bodies, YAML
    configuration, result dictionaries) and Python's truthiness rule on them. */
module Common {

  datatype Option<+T> = None | Some(value: T)

  datatype Result<+T, +E> = Ok(value: T) | Err(error: E)

  /** A JSON-like value as a handler receives or returns it. */
  datatype Value =
    | Null
    | Bool(b: bool)
    | Int(i: int)
    | Real(r: real)
    | Str(s: string)
    | List(items: seq<Value>)
    | Dict(entries: map<string, Value>)

  /** A Python dictionary with string keys. */
  type Record = map<string, Value>

  /** Python's truth value: None, False, 0, 0.0 and empty strings, lists and
      dictionaries are false, everything else is true. */
  predicate Truthy(v: Value) {
    match v
    case Null => false
    case Bool(b) => b
    case Int(i) => i != 0
    case Real(r) => r != 0.0
    case Str(s) => s != ""
    case List(items) => items != []
    case Dict(entries) => entries != map[]
  }

  /** Python's `d.get(key, default)`: the default is used only when the key is
      absent, never when it is present with a false value. */
  function Get(d: Record, key: string, default: Value): Value {
    if key in d then d[key] else default
  }

  /** An optional string is true in Python when it is present and non-empty. */
  predicate Given(s: Option<string>) {
    s.Some? && s.value != ""
  }
}
