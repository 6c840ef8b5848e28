/**
 * The values a field of a parsed JSON request body can hold, and JavaScript's
 * notion of truthiness, which the handlers use to decide that a field is missing.
 */
module JsValues {
  /** A field of `req.body`: absent (`undefined`), or one of JSON's value kinds. */
  datatype JsValue =
    | Undefined
    | Null
    | Bool(b: bool)
    | Number(n: real)
    | Str(s: string)
    | Compound   // an array or an object: always truthy in JavaScript

  /** `!!v` in JavaScript: `undefined`, `null`, `false`, `0` and `""` are falsy. */
  predicate Truthy(v: JsValue)
    ensures !Truthy(v) <==> v == Undefined || v == Null || v == Bool(false) || v == Number(0.0) || v == Str("")
  {
    match v
    case Undefined => false
    case Null => false
    case Bool(b) => b
    case Number(n) => n != 0.0
    case Str(s) => s != ""
    case Compound => true
  }
}
