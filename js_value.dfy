/**
 * An untyped JavaScript value, as far as the core inspects one: its `typeof`,
 * its truthiness, its own properties, and the text a template literal makes
 * of it. Arrays and Sets are objects whose properties the core never names.
 */
module JsValue {
  import opened JsText

  datatype Value =
    | Undefined
    | Null
    | Bool(b: bool)
    | Number(n: int)
    | Str(s: string)
    | Object(fields: map<string, Value>)

  /** JavaScript truthiness: `undefined`, `null`, `false`, `0` and `""` are falsy. */
  predicate Truthy(v: Value) {
    match v
    case Undefined => false
    case Null => false
    case Bool(b) => b
    case Number(n) => n != 0
    case Str(s) => s != ""
    case Object(_) => true
  }

  /** `v[key]`: a missing property, or a property of a non-object, reads as `undefined`. */
  function Get(v: Value, key: string): (r: Value)
    ensures r != Undefined ==> v.Object? && key in v.fields
  {
    if v.Object? && key in v.fields then v.fields[key] else Undefined
  }

  /** The text `${v}` gives. */
  function Text(v: Value): string {
    match v
    case Undefined => "undefined"
    case Null => "null"
    case Bool(b) => if b then "true" else "false"
    case Number(n) => IntToString(n)
    case Str(s) => s
    case Object(_) => "[object Object]"
  }
}
