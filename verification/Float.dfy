/** The floating-point operations the feature library is written in.

    Nothing in the feature runtime depends on what IEEE-754 rounding returns, only on which
    operations are applied to which operands in which order. An `Fpu` is therefore an arbitrary
    choice of those operations, and every theorem that takes one holds for every arithmetic:
    "the same bits" is equality of values of the carrier type `F`. Instances with extra laws
    (exact or rounded reals) are introduced where a theorem needs them.
 */
module Float {

  datatype Fpu<!F> = Fpu(
    nan: F,
    ofNat: nat -> F,
    add: (F, F) -> F,
    sub: (F, F) -> F,
    mul: (F, F) -> F,
    div: (F, F) -> F,
    sqrt: F -> F,
    ln: F -> F,
    abs: F -> F,
    neg: F -> F,
    gt: (F, F) -> bool,
    ge: (F, F) -> bool,
    isNan: F -> bool,
    isFinite: F -> bool)
  {
    function Zero(): F { ofNat(0) }

    /** `np.where(cond, value, nan)`. */
    function OrNan(cond: bool, value: F): F {
      if cond then value else nan
    }

    predicate Positive(v: F) {
      gt(v, Zero())
    }

    /** At or above 2^53 a float no longer holds consecutive integers, and both paths refuse it. */
    predicate TooLarge(v: F) {
      isFinite(v) && ge(abs(v), ofNat(0x20_0000_0000_0000))
    }
  }
}
