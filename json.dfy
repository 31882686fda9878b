/**
 * Decoded JSON values, as Python's json module hands them to the integration.
 * `Null` is Python's None; numbers (int or float) are kept as reals, since
 * nothing in the core looks at a number beyond whether it is zero.
 */
module Json {

  datatype Value =
    | Null
    | Bool(b: bool)
    | Number(n: real)
    | Str(s: string)
    | Array(items: seq<Value>)
    | Object(fields: map<string, Value>)

  /** A JSON object once decoded: a Python dict from key to value. */
  type Dict = map<string, Value>

  /** Python truthiness: None, False, zero, "", [] and {} are false. */
  predicate Truthy(v: Value) {
    match v
    case Null => false
    case Bool(b) => b
    case Number(n) => n != 0.0
    case Str(s) => s != ""
    case Array(items) => items != []
    case Object(fields) => fields != map[]
  }

  /** Lists and dicts cannot be used as a dict key in Python (TypeError). */
  predicate Hashable(v: Value) {
    !v.Array? && !v.Object?
  }

  /** Python's `d.get(key, default)`: the stored value when the key is present. */
  function Get(d: Dict, key: string, default: Value): (r: Value)
    ensures key in d ==> r == d[key]
    ensures key !in d ==> r == default
  {
    if key in d then d[key] else default
  }
}
