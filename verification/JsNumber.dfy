/**
 The JavaScript numbers the balance computation produces. Every amount the
 code handles is a whole number of cents, except that reading a key the
 balance object does not hold gives `undefined`, `undefined + n` is `NaN`,
 and `NaN` absorbs every later addition. So a balance is either a whole
 number of cents or `NaN`.
 */
module JsNumber {

  datatype Num = Cents(value: int) | NaN

  /** `a + d` (and `a - d` as `Plus(a, -d)`) for a whole number of cents `d`. */
  function Plus(a: Num, d: int): Num
  {
    match a
    case Cents(v) => Cents(v + d)
    case NaN => NaN
  }

  /** `a + b` on two balances; `NaN` if either is. */
  function Add(a: Num, b: Num): Num
  {
    match a
    case Cents(v) => Plus(b, v)
    case NaN => NaN
  }

  /** `a < t`: a comparison with `NaN` is always false. */
  predicate Below(a: Num, t: int)
  {
    a.Cents? && a.value < t
  }

}
