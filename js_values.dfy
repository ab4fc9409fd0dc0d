/** The untyped values a request body can carry, and JavaScript's notion of
    a "falsy" value (the values an `if (x)` test rejects). */
module JsValues {

  /** A JavaScript value as it sits in a request body. Objects and arrays are
      shared by reference, so they are represented by their identity only. */
  datatype JsValue =
    | Undefined
    | Null
    | Bool(b: bool)
    | Number(x: real)
    | Str(s: string)
    | Ref(id: nat)

  /** The own properties of a plain object: property name to value. A
      property whose value is `undefined` is still an own property. */
  type JsObject = map<string, JsValue>

  /** The values JavaScript converts to `false` (NaN and -0 aside). */
  predicate Falsy(v: JsValue) {
    match v
    case Undefined => true
    case Null => true
    case Bool(b) => !b
    case Number(x) => x == 0.0
    case Str(s) => s == ""
    case Ref(_) => false
  }
}
