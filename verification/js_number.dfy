/**
 * The part of JavaScript's number semantics the CPF checksum touches:
 * integers and NaN. NaN absorbs every arithmetic operation and is never
 * strictly equal to anything, itself included. The values involved are
 * small integers, so floating-point rounding never comes into play.
 */
module JsNumber {

  datatype JsNum = Num(n: int) | NaN

  function Abs(x: int): (a: int)
    ensures a >= 0
  {
    if x < 0 then -x else x
  }

  /** `a + b`. */
  function Add(a: JsNum, b: JsNum): (r: JsNum)
    ensures r.Num? <==> a.Num? && b.Num?
    ensures r.Num? ==> r.n == a.n + b.n
  {
    if a.Num? && b.Num? then Num(a.n + b.n) else NaN
  }

  /** `a * k` for an integer constant `k`. */
  function Mul(a: JsNum, k: int): (r: JsNum)
    ensures r.Num? <==> a.Num?
    ensures r.Num? ==> r.n == a.n * k
  {
    match a
    case Num(n) => Num(n * k)
    case NaN => NaN
  }

  /**
   * `a % d`. JavaScript truncates the quotient toward zero, so the remainder
   * takes the sign of the dividend, unlike Dafny's Euclidean `%`.
   */
  function Rem(a: JsNum, d: int): (r: JsNum)
    requires d != 0
    ensures r.Num? <==> a.Num?
    ensures r.Num? ==> -Abs(d) < r.n < Abs(d)
    ensures r.Num? && a.n >= 0 ==> r.n == a.n % Abs(d)
    ensures r.Num? && a.n < 0 ==> r.n <= 0
  {
    match a
    case Num(n) => Num(if n >= 0 then n % Abs(d) else -((-n) % Abs(d)))
    case NaN => NaN
  }

  /** `a === b` on numbers: NaN is equal to nothing. */
  predicate StrictEq(a: JsNum, b: JsNum)
  {
    a.Num? && b.Num? && a.n == b.n
  }
}
