/** The values the visualiser handles: parsed JSON, CSV cells and JavaScript numbers. */
module JsValues {

  /** A value that may be absent (`undefined`, or NaN for numeric conversions). */
  datatype Option<+T> = None | Some(value: T)

  /** The outcome of an operation that may throw: its value, or the error's message. */
  datatype Result<+T> = Ok(value: T) | Failure(message: string)

  /** A JavaScript number. Finite numbers are exact rationals (IEEE-754 rounding is not
      modelled); the two infinities appear as open range bounds, as the result of an empty
      minimum/maximum search and as the value of an "Infinity" CSV cell. NaN is never stored:
      conversions that can produce it return `Option<Number>` with `None` for NaN. */
  datatype Number = Fin(r: real) | PosInf | NegInf

  /** A parsed value: a number, a string or an array of values. */
  datatype JValue = Num(n: Number) | Str(s: string) | Arr(items: seq<JValue>)

  /** JavaScript `<` on numbers. */
  predicate Lt(a: Number, b: Number)
  {
    match (a, b)
    case (Fin(x), Fin(y)) => x < y
    case (NegInf, _) => !b.NegInf?
    case (_, PosInf) => !a.PosInf?
    case _ => false
  }

  /** JavaScript `<=` on numbers. */
  predicate Le(a: Number, b: Number)
  {
    a == b || Lt(a, b)
  }

  /** The order is strict and total: exactly one of `a < b`, `a == b`, `b < a` holds. */
  lemma LtTrichotomy(a: Number, b: Number)
    ensures Lt(a, b) || a == b || Lt(b, a)
    ensures !(Lt(a, b) && Lt(b, a))
    ensures !Lt(a, a)
  {
  }

  lemma LtTransitive(a: Number, b: Number, c: Number)
    requires Lt(a, b) && Lt(b, c)
    ensures Lt(a, c)
  {
  }

  /** JavaScript truthiness of a value (`if (x)`): zero and the empty string are falsy,
      every array is truthy. */
  predicate Truthy(v: JValue)
  {
    match v
    case Num(n) => n != Fin(0.0)
    case Str(s) => |s| > 0
    case Arr(_) => true
  }

  /** A JavaScript number from an integer. */
  function IntNum(i: int): Number
  {
    Fin(i as real)
  }
}
