/** The JSON values exchanged by the bridge and written by the indexing scripts,
    with Python's truthiness and `dict.get`. */
module JsonValue {

  /** A decoded JSON value. Objects are maps from keys to values, as Python dicts
      decoded by `json.loads` are. */
  datatype Json =
    | JNull
    | JBool(b: bool)
    | JInt(i: int)
    | JFloat(r: real)
    | JStr(s: string)
    | JArr(items: seq<Json>)
    | JObj(fields: map<string, Json>)

  /** Python's `bool(v)` on the decoded value: None, False, 0, 0.0, "", [] and {} are false. */
  predicate Truthy(v: Json) {
    match v
    case JNull => false
    case JBool(b) => b
    case JInt(i) => i != 0
    case JFloat(r) => r != 0.0
    case JStr(s) => s != ""
    case JArr(items) => items != []
    case JObj(fields) => fields != map[]
  }

  /** Python's `d.get(key, default)`: the default only when the key is missing. */
  function Get(fields: map<string, Json>, key: string, default: Json): (r: Json)
    ensures key in fields ==> r == fields[key]
    ensures key !in fields ==> r == default
  {
    if key in fields then fields[key] else default
  }

  /** `isinstance(v, dict) and key in v`. */
  predicate HasKey(v: Json, key: string) {
    v.JObj? && key in v.fields
  }

  /** What `json.loads` does with a text: it decodes to a value, raises
      `json.JSONDecodeError`, or raises some other exception (a `ValueError`
      for an integer literal beyond the digit limit, a `RecursionError` for
      nesting that is too deep); `detail` is `str()` of that exception. */
  datatype JsonLoad = Loaded(value: Json) | DecodeError | OtherError(detail: string)
}
