/**
 * How the model represents the JavaScript values that the game code reads out
 * of plain objects.
 *
 * - `Option` stands for a slot that may be `null` or `undefined`.
 * - `Number` is what sits in a slot whose `typeof` is "number": the game only
 *   ever stores integers there, or NaN when it subtracts from a missing field.
 *
 * A numeric slot of an object is therefore an `Option<Number>`: `None` is a
 * missing field (or one of another kind), `Some(NaN)` is NaN.
 */
module JsValues {

  datatype Option<+T> = None | Some(value: T)

  /** A JavaScript number as the game uses them: an integer or NaN. */
  datatype Number = Int(value: int) | NaN

  /** `x - k` for a field `x` that may be missing: `undefined - k` and `NaN - k` are NaN. */
  function Minus(x: Option<Number>, k: int): Number
  {
    match x
    case Some(Int(v)) => Int(v - k)
    case _ => NaN
  }

  /** `n < k`: every comparison with NaN is false. */
  predicate LessThan(n: Number, k: int)
  {
    n.Int? && n.value < k
  }

  /** `x <= k` for a field `x` that may be missing (`undefined <= k` is false). */
  predicate AtMost(x: Option<Number>, k: int)
  {
    x.Some? && x.value.Int? && x.value.value <= k
  }

  /** JavaScript truthiness of an optional string: `null`, `undefined` and `""` are falsy. */
  predicate Truthy(s: Option<string>)
  {
    s.Some? && s.value != ""
  }

  /** `x ?? fallback` */
  function Coalesce<T>(x: Option<T>, fallback: T): T
  {
    if x.Some? then x.value else fallback
  }
}
