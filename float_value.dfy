// The one corner of IEEE-754 the core reaches: a 0/0 division yields NaN,
// which then poisons sums and products and makes every comparison false.
module FloatValues {

  datatype F64 = Num(v: real) | NaN

  /** `a / b` where the only zero divisor that can occur has a zero dividend. */
  function Div(a: real, b: real): (r: F64)
    requires b != 0.0 || a == 0.0
    ensures b == 0.0 <==> r == NaN
    ensures b != 0.0 ==> r == Num(a / b)
  {
    if b == 0.0 then NaN else Num(a / b)
  }

  /** `a + k * x` in floating point: NaN if `x` is NaN. */
  function AddScaled(a: real, k: real, x: F64): (r: F64)
    ensures r == NaN <==> x == NaN
    ensures x.Num? ==> r == Num(a + k * x.v)
  {
    if x.NaN? then NaN else Num(a + k * x.v)
  }

  /** `t > x`: false whenever `x` is NaN. */
  predicate Greater(t: real, x: F64)
  {
    x.Num? && t > x.v
  }
}
