/** The JavaScript values that reach the guards and validators. */
module JsonValue {

  datatype Json =
    | JNull
    | JUndef
    | JBool(b: bool)
    | JNum(n: real)
    | JStr(s: string)
    | JArr(items: seq<Json>)
    | JObj(fields: map<string, Json>)

  /** JavaScript truthiness (NaN is not representable, so every nonzero number is truthy). */
  predicate Truthy(v: Json)
  {
    match v
    case JNull => false
    case JUndef => false
    case JBool(b) => b
    case JNum(n) => n != 0.0
    case JStr(s) => s != ""
    case JArr(_) => true
    case JObj(_) => true
  }

  /** `typeof v === "object"`: null, arrays and plain objects. */
  predicate TypeofObject(v: Json)
  {
    v.JNull? || v.JArr? || v.JObj?
  }

  /** `key in v` for a value already known to be a non-null object. */
  predicate HasKey(v: Json, key: string)
  {
    v.JObj? && key in v.fields
  }

  /** `typeof v[key] === "string"`. */
  predicate StringField(v: Json, key: string)
  {
    HasKey(v, key) && v.fields[key].JStr?
  }
}
