/**
 The JavaScript numbers that the form produces (`+input.value`), reduced to what the
 validation in `App._newWorkout` can observe: a finite value, taken as an exact real,
 or one of the three non-finite IEEE-754 values.
 */
module Numbers {

  datatype Num = Finite(value: real) | NaN | PosInfinity | NegInfinity

  /** `Number.isFinite(n)` */
  predicate IsFinite(n: Num) {
    n.Finite?
  }

  /** `n > 0`: false for NaN and for negative infinity, true for positive infinity. */
  predicate IsPositive(n: Num) {
    match n
    case Finite(v) => v > 0.0
    case PosInfinity => true
    case _ => false
  }

  /** `inputs.every(val => Number.isFinite(val))`, walking the inputs left to right. */
  function AllFinite(inputs: seq<Num>): (b: bool)
    ensures b <==> forall i :: 0 <= i < |inputs| ==> inputs[i].Finite?
  {
    if |inputs| == 0 then true
    else IsFinite(inputs[0]) && AllFinite(inputs[1..])
  }

  /** `inputs.every(val => val > 0)`, walking the inputs left to right. */
  function AllPositive(inputs: seq<Num>): (b: bool)
    ensures b <==> forall i :: 0 <= i < |inputs| ==> IsPositive(inputs[i])
  {
    if |inputs| == 0 then true
    else IsPositive(inputs[0]) && AllPositive(inputs[1..])
  }
}
