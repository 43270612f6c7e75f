/** Arithmetic without rounding: numbers are reals, beside them there is a NaN, and every operation that
    meets it, or divides by zero, gives it back. `ln` and `sqrt` are left open.
 */
module ExactReals {
  import opened Float
  import opened Reals

  datatype Exact = NotANumber | Num(v: real)

  function OfNat(n: nat): Exact { Num(n as real) }

  function AddOf(x: Exact, y: Exact): Exact { if x.Num? && y.Num? then Num(x.v + y.v) else NotANumber }

  function SubOf(x: Exact, y: Exact): Exact { if x.Num? && y.Num? then Num(x.v - y.v) else NotANumber }

  function MulOf(x: Exact, y: Exact): Exact { if x.Num? && y.Num? then Num(Times(x.v, y.v)) else NotANumber }

  function DivOf(x: Exact, y: Exact): Exact {
    if x.Num? && y.Num? && y.v != 0.0 then Num(Over(x.v, y.v)) else NotANumber
  }

  function AbsOf(x: Exact): Exact { if x.Num? && x.v < 0.0 then Num(-x.v) else x }

  function NegOf(x: Exact): Exact { if x.Num? then Num(-x.v) else x }

  predicate Above(x: Exact, y: Exact) { x.Num? && y.Num? && x.v > y.v }

  predicate AtLeast(x: Exact, y: Exact) { x.Num? && y.Num? && x.v >= y.v }

  predicate Missing(x: Exact) { x.NotANumber? }

  predicate Present(x: Exact) { x.Num? }

  // ---------------------------------------------------------------- the assumption

  /** Every operation but `ln` and `sqrt` is the exact one. */
  ghost predicate ExactOps(fpu: Fpu<Exact>) {
    fpu.nan == NotANumber && ExactValues(fpu) && ExactSums(fpu) && ExactProducts(fpu) && ExactTests(fpu)
  }

  ghost predicate ExactValues(fpu: Fpu<Exact>) {
    && (forall n :: fpu.ofNat(n) == OfNat(n))
    && (forall x :: fpu.abs(x) == AbsOf(x))
    && (forall x :: fpu.neg(x) == NegOf(x))
  }

  ghost predicate ExactSums(fpu: Fpu<Exact>) {
    && (forall x, y :: fpu.add(x, y) == AddOf(x, y))
    && (forall x, y :: fpu.sub(x, y) == SubOf(x, y))
  }

  ghost predicate ExactProducts(fpu: Fpu<Exact>) {
    && (forall x, y :: fpu.mul(x, y) == MulOf(x, y))
    && (forall x, y :: fpu.div(x, y) == DivOf(x, y))
  }

  ghost predicate ExactTests(fpu: Fpu<Exact>) {
    && (forall x, y :: fpu.gt(x, y) <==> Above(x, y))
    && (forall x, y :: fpu.ge(x, y) <==> AtLeast(x, y))
    && (forall x :: fpu.isNan(x) <==> Missing(x))
    && (forall x :: fpu.isFinite(x) <==> Present(x))
  }

  /** What that says of any two values. */
  lemma OpsOn(fpu: Fpu<Exact>, x: Exact, y: Exact)
    requires ExactOps(fpu)
    ensures fpu.nan == NotANumber && fpu.Zero() == Num(0.0)
    ensures fpu.add(x, y) == AddOf(x, y) && fpu.sub(x, y) == SubOf(x, y)
    ensures fpu.mul(x, y) == MulOf(x, y) && fpu.div(x, y) == DivOf(x, y)
    ensures fpu.abs(x) == AbsOf(x) && fpu.neg(x) == NegOf(x)
    ensures fpu.gt(x, y) == Above(x, y) && fpu.ge(x, y) == AtLeast(x, y)
    ensures fpu.isNan(x) == Missing(x) && fpu.isFinite(x) == Present(x)
    ensures fpu.Positive(x) <==> x.Num? && x.v > 0.0
  {
  }

  lemma SumsOn(fpu: Fpu<Exact>, x: Exact, y: Exact)
    requires ExactOps(fpu)
    ensures fpu.add(x, y) == AddOf(x, y) && fpu.sub(x, y) == SubOf(x, y)
  {
  }

  lemma ProductsOn(fpu: Fpu<Exact>, x: Exact, y: Exact)
    requires ExactOps(fpu)
    ensures fpu.mul(x, y) == MulOf(x, y) && fpu.div(x, y) == DivOf(x, y)
  {
    hide Times, Over;
  }

  lemma TestsOn(fpu: Fpu<Exact>, x: Exact, y: Exact)
    requires ExactOps(fpu)
    ensures fpu.gt(x, y) == Above(x, y) && fpu.ge(x, y) == AtLeast(x, y)
    ensures fpu.isNan(x) == Missing(x) && fpu.isFinite(x) == Present(x)
    ensures fpu.abs(x) == AbsOf(x) && fpu.neg(x) == NegOf(x)
    ensures fpu.Positive(x) <==> x.Num? && x.v > 0.0
  {
  }

  lemma NatIs(fpu: Fpu<Exact>, n: nat)
    requires ExactOps(fpu)
    ensures fpu.ofNat(n) == Num(n as real)
  {
  }

  /** What both paths refuse of an observation: a number of magnitude 2^53 or more; a NaN is let through. */
  lemma TooLargeExactly(fpu: Fpu<Exact>, x: Exact)
    requires ExactOps(fpu)
    ensures fpu.TooLarge(x) <==> x.Num? && Abs(x.v) >= 9_007_199_254_740_992.0
  {
    hide ExactOps;
    NatIs(fpu, 0x20_0000_0000_0000);
    TestsOn(fpu, x, x);
    TestsOn(fpu, AbsOf(x), Num(9_007_199_254_740_992.0));
  }

  // ---------------------------------------------------------------- such an arithmetic exists

  /** With any `ln` and `sqrt`. */
  function ExactFpu(ln: Exact -> Exact, sqrt: Exact -> Exact): Fpu<Exact> {
    Fpu(NotANumber, OfNat, AddOf, SubOf, MulOf, DivOf, sqrt, ln, AbsOf, NegOf, Above, AtLeast, Missing, Present)
  }

  lemma ExactOpsExist(ln: Exact -> Exact, sqrt: Exact -> Exact)
    ensures ExactOps(ExactFpu(ln, sqrt))
  {
    hide OfNat, AddOf, SubOf, MulOf, DivOf, AbsOf, NegOf, Above, AtLeast, Missing, Present;
  }
}
