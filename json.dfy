/**
 * A value as `JSON.parse` hands it to the message handlers, together
 * with the two JavaScript operations the handlers apply to such values:
 * property access (`data.roomId`) and truthiness (`if (x)`, `x || y`).
 * JSON numbers are modelled as integers.
 */
module Json {

  datatype Value =
    | JUndefined                       // what a missing property reads as
    | JNull
    | JBool(b: bool)
    | JNum(n: int)
    | JStr(s: string)
    | JArr(items: seq<Value>)
    | JObj(fields: map<string, Value>)

  /** `v.key`: an object's own field, `undefined` for anything else. */
  function Prop(v: Value, key: string): (r: Value)
    ensures r != JUndefined ==> v.JObj? && key in v.fields && r == v.fields[key]
    ensures !(v.JObj? && key in v.fields) ==> r == JUndefined
  {
    if v.JObj? && key in v.fields then v.fields[key] else JUndefined
  }

  /** JavaScript truthiness: `undefined`, `null`, `false`, `0` and `""` are falsy. */
  predicate Truthy(v: Value) {
    match v
    case JUndefined => false
    case JNull => false
    case JBool(b) => b
    case JNum(n) => n != 0
    case JStr(s) => s != ""
    case JArr(_) => true
    case JObj(_) => true
  }

  /** `typeof v.type === 'string'` for the value `v`. */
  predicate HasStringType(v: Value) {
    Prop(v, "type").JStr?
  }
}
