/** The JavaScript values a request body can carry, and the truthiness rules
    the use cases apply to them (`!x`, `a || b`). */
module JsValues {

  /** A parsed JSON value, plus `undefined` for a key the body does not have.
      Arrays and objects are always truthy, so they are not told apart. */
  datatype JsValue =
    | Undefined
    | Null
    | Bool(b: bool)
    | Num(n: real)
    | Str(s: string)
    | Composite

  /** JavaScript truthiness: `undefined`, `null`, `false`, `0` and `""` are falsy. */
  predicate Truthy(v: JsValue)
  {
    match v
    case Undefined => false
    case Null => false
    case Bool(b) => b
    case Num(n) => n != 0.0
    case Str(s) => s != ""
    case Composite => true
  }

  /** JavaScript's `a || b`. */
  function Or(a: JsValue, b: JsValue): (r: JsValue)
    ensures r == a || r == b
    ensures Truthy(r) <==> Truthy(a) || Truthy(b)
    ensures Truthy(a) ==> r == a
  {
    if Truthy(a) then a else b
  }

  /** `x || false` is never `undefined`, and it is `false` exactly when `x` is falsy. */
  lemma OrFalseDefault(x: JsValue)
    ensures Or(x, Bool(false)) != Undefined
    ensures !Truthy(x) <==> Or(x, Bool(false)) == Bool(false)
  {
  }
}
