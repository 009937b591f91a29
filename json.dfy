/** The JSON-like values that Python's `json.loads` produces, with Python truthiness. */
module Json {

  /** A decoded JSON value; `JNull` is Python's `None`. */
  datatype Json =
    | JNull
    | JBool(b: bool)
    | JNum(n: real)
    | JStr(s: string)
    | JArr(items: seq<Json>)
    | JObj(fields: map<string, Json>)

  /**
    The outcome of one call to `json.loads`, which the model takes as a parameter of type
    `string -> Decoding`: a value, a `json.JSONDecodeError`, or any other exception (a
    `UnicodeDecodeError` on a byte blob that is not UTF-8, a `RecursionError` on very deep
    nesting), which only a handler for `Exception` catches.
  */
  datatype Decoding = Decoded(value: Json) | DecodeError | OtherError

  /** Python truthiness (`if value:`). */
  predicate Truthy(v: Json)
  {
    match v
    case JNull => false
    case JBool(b) => b
    case JNum(n) => n != 0.0
    case JStr(s) => s != []
    case JArr(items) => items != []
    case JObj(fields) => fields != map[]
  }

  /** `d.get(key, default)` on a dictionary. */
  function Get(fields: map<string, Json>, key: string, default: Json): Json
  {
    if key in fields then fields[key] else default
  }

  /** `isinstance(v, (int, float))`: a Python `bool` is an `int`. */
  predicate IsNumber(v: Json)
  {
    v.JNum? || v.JBool?
  }

  /** The numeric value of a number (`True` is 1, `False` is 0). */
  function NumValue(v: Json): real
    requires IsNumber(v)
  {
    if v.JNum? then v.n else if v.b then 1.0 else 0.0
  }
}
