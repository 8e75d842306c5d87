/** JavaScript numbers, as far as the tracker inspects them. */
module JsNumbers {

  /** A JavaScript number: a finite value (a real, without IEEE rounding),
      NaN, or one of the two infinities. Signed zero is not distinguished. */
  datatype JsNumber = Finite(value: real) | NaN | PosInf | NegInf

  /** `Number.isFinite(n)`. */
  predicate IsFinite(n: JsNumber)
  {
    n.Finite?
  }

  /** `n > 0`: false for NaN and -Infinity, true for +Infinity. */
  predicate GreaterThanZero(n: JsNumber)
  {
    match n
    case Finite(v) => v > 0.0
    case PosInf => true
    case _ => false
  }

  /** `ns.every(num => Number.isFinite(num))`, scanning left to right; true
      exactly when every element is finite. */
  predicate AllFinite(ns: seq<JsNumber>)
    ensures AllFinite(ns) <==> forall i :: 0 <= i < |ns| ==> IsFinite(ns[i])
  {
    |ns| == 0 ||
    (assert forall i :: 1 <= i < |ns| ==> ns[i] == ns[1..][i - 1];
     IsFinite(ns[0]) && AllFinite(ns[1..]))
  }

  /** `ns.every(num => num > 0)`, scanning left to right; true exactly when
      every element is greater than zero. */
  predicate AllPositive(ns: seq<JsNumber>)
    ensures AllPositive(ns) <==> forall i :: 0 <= i < |ns| ==> GreaterThanZero(ns[i])
  {
    |ns| == 0 ||
    (assert forall i :: 1 <= i < |ns| ==> ns[i] == ns[1..][i - 1];
     GreaterThanZero(ns[0]) && AllPositive(ns[1..]))
  }

  /** JavaScript's `x / y` for two finite operands: a finite quotient unless the
      divisor is zero, in which case the sign of the dividend picks +Infinity,
      -Infinity or (for 0 / 0) NaN. */
  function Divide(x: real, y: real): (r: JsNumber)
    ensures r.Finite? <==> y != 0.0
    ensures r.Finite? ==> r.value * y == x
    ensures r.NaN? <==> y == 0.0 && x == 0.0
    ensures GreaterThanZero(r) <==> (x > 0.0 && y >= 0.0) || (x < 0.0 && y < 0.0)
  {
    if y != 0.0 then Finite(x / y)
    else if x > 0.0 then PosInf
    else if x < 0.0 then NegInf
    else NaN
  }
}
