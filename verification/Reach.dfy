/** The declared reach of an operation is needed: there is an arithmetic in which its oldest observation
    decides the value, so no shorter buffer would do for all of them.
 */
module Reach {
  import opened Wrappers
  import opened Float
  import opened Reals
  import opened Numeric
  import opened Registry
  import opened Cells
  import opened ExactReals
  import opened Statistics
  import opened Formulas

  /** Exact, with a root and a logarithm that tell a number from a NaN and no more. */
  function Plainest(): Fpu<Exact> {
    ExactFpu(One, One)
  }

  function One(x: Exact): Exact {
    if x.Num? then Num(1.0) else NotANumber
  }

  lemma PlainestIs()
    ensures ExactOps(Plainest())
    ensures forall x :: Plainest().sqrt(x) == One(x) && Plainest().ln(x) == One(x)
  {
    ExactOpsExist(One, One);
  }

  /** The series with its oldest observation missing. */
  function WithoutOldest(x: seq<Exact>): (r: seq<Exact>)
    requires x != []
    ensures |r| == |x| && r[0] == NotANumber && forall i :: 1 <= i < |x| ==> r[i] == x[i]
  {
    x[0 := NotANumber]
  }

  /** Inputs no longer than the reach, on which taking the oldest observation of the first away changes the
      last cell. */
  ghost predicate OldestDecides(fpu: Fpu<Exact>, op: Op, xs: seq<seq<Exact>>, n: nat) {
    && op.Reach() == Some(n) && n >= 1 && Shaped(op, xs, n)
    && Cell(fpu, op, xs, n, n - 1) != Cell(fpu, op, xs[0 := WithoutOldest(xs[0])], n, n - 1)
  }

  function Ones(n: nat): (r: seq<real>)
    ensures |r| == n && forall i :: 0 <= i < n ==> r[i] == 1.0
  {
    seq(n, _ => 1.0)
  }

  /** The windowed cells of ones are numbers, and without the oldest are not. */
  lemma WindowOfOnes(w: nat, ddof: nat)
    requires ddof < w
    ensures var fpu, x := Plainest(), Nums(Ones(w));
      SumAt(fpu, x, w, w - 1).Num? && MeanAt(fpu, x, w, w - 1).Num? && StdAt(fpu, x, w, ddof, w - 1) == Num(1.0)
  {
    hide Plainest, ExactOps, MeanAt, StdAt, SumAt, Variance, AverageOf, Total, WindowAt, Nums, Ones;
    PlainestIs();
    OnesAreNums(w);
    WindowCells(Plainest(), Ones(w), w, ddof, w - 1);
  }

  lemma WindowWithoutOldest(x: seq<Exact>, w: nat, ddof: nat)
    requires ddof < w == |x|
    ensures var fpu, y := Plainest(), WithoutOldest(x);
      SumAt(fpu, y, w, w - 1) == MeanAt(fpu, y, w, w - 1) == StdAt(fpu, y, w, ddof, w - 1) == NotANumber
  {
    hide Plainest, ExactOps, MeanAt, StdAt, SumAt;
    PlainestIs();
    MissingCells(Plainest(), WithoutOldest(x), w, ddof, w - 1, 0);
  }

  lemma WindowDecides(op: Op)
    requires op.Legal() && (op.MeanOp? || op.SumOp? || op.StdOp?)
    ensures OldestDecides(Plainest(), op, [Nums(Ones(op.window))], op.window)
  {
    hide Plainest, MeanAt, StdAt, SumAt, Nums, Ones;
    var w, ddof := op.window, if op.StdOp? then op.ddof else 0;
    OnesAreNums(w);
    WindowOfOnes(w, ddof);
    WindowWithoutOldest(Nums(Ones(w)), w, ddof);
  }

  lemma ZscoreDecides(w: nat, ddof: nat)
    requires ddof < w
    ensures OldestDecides(Plainest(), ZscoreOp(w, ddof), [Nums(Ones(w))], w)
  {
    hide Plainest, ExactOps, MeanAt, StdAt, Over, Nums, Ones;
    PlainestIs();
    OnesAreNums(w);
    WindowOfOnes(w, ddof);
    WindowWithoutOldest(Nums(Ones(w)), w, ddof);
    var fpu, x := Plainest(), Nums(Ones(w));
    var m := MeanAt(fpu, x, w, w - 1);
    TestsOn(fpu, Num(1.0), Num(1.0));
    TestsOn(fpu, NotANumber, NotANumber);
    NanIs(fpu);
    SumsOn(fpu, Num(1.0), m);
    ProductsOn(fpu, fpu.sub(Num(1.0), m), Num(1.0));
  }

  lemma OnesAreNums(n: nat)
    ensures |Nums(Ones(n))| == n && forall i :: 0 <= i < n ==> Nums(Ones(n))[i] == Num(1.0)
  {
  }

  lemma ReturnOfOnes(x: seq<Exact>, p: nat, i: nat)
    requires 1 <= p <= i < |x| && x[i] == x[i - p] == Num(1.0)
    ensures ReturnAt(Plainest(), x, p, i) == Num(1.0)
  {
    hide Plainest, ExactOps;
    PlainestIs();
    var fpu := Plainest();
    TestsOn(fpu, Num(1.0), Num(1.0));
    ProductsOn(fpu, Num(1.0), Num(1.0));
  }

  lemma ReturnDecides(p: nat)
    requires p >= 1
    ensures OldestDecides(Plainest(), ReturnOp(p), [Nums(Ones(p + 1))], p + 1)
  {
    hide Plainest, ExactOps, ReturnAt, Nums, Ones;
    PlainestIs();
    OnesAreNums(p + 1);
    ReturnOfOnes(Nums(Ones(p + 1)), p, p);
    ReturnExists(Plainest(), WithoutOldest(Nums(Ones(p + 1))), p, p);
  }

  lemma VolatilityDecides(w: nat)
    requires w >= 1
    ensures OldestDecides(Plainest(), VolatilityOp(w), [Nums(Ones(w + 1))], w + 1)
  {
    hide Plainest, ExactOps, ReturnAt, StdOf, Variance;
    PlainestIs();
    var fpu, x := Plainest(), Nums(Ones(w + 1));
    var y := WithoutOldest(x);
    forall k | 1 <= k <= w
      ensures ReturnAt(fpu, x, 1, k) == Num(1.0)
    {
      ReturnOfOnes(x, 1, k);
    }
    assert Trailing(Returns(fpu, x, 1), w, w) == Nums(Ones(w));
    StdIs(fpu, Ones(w), 0);
    ReturnExists(fpu, y, 1, 1);
    assert Trailing(Returns(fpu, y, 1), w, w)[0] == NotANumber;
    StdOfMissing(fpu, Trailing(Returns(fpu, y, 1), w, w), 0, 0);
  }

  lemma CrossDecides(fast: nat, slow: nat)
    requires 1 <= fast < slow
    ensures OldestDecides(Plainest(), SmaCrossOp(fast, slow), [Nums(Ones(slow))], slow)
  {
    hide Plainest, ExactOps, MeanAt, CrossOf, Nums, Ones;
    PlainestIs();
    OnesAreNums(slow);
    var fpu, x := Plainest(), Nums(Ones(slow));
    var y := WithoutOldest(x);
    MeansOfOnes(fast, slow);
    WindowWithoutOldest(x, slow, 0);
    CrossIs(fpu, MeanAt(fpu, x, fast, slow - 1), MeanAt(fpu, x, slow, slow - 1));
    CrossIs(fpu, MeanAt(fpu, y, fast, slow - 1), MeanAt(fpu, y, slow, slow - 1));
  }

  /** A shorter window does not see the oldest. */
  lemma MeansOfOnes(fast: nat, slow: nat)
    requires 1 <= fast < slow
    ensures var fpu, x := Plainest(), Nums(Ones(slow));
      && MeanAt(fpu, x, fast, slow - 1).Num? && MeanAt(fpu, x, slow, slow - 1) == Num(1.0)
      && MeanAt(fpu, WithoutOldest(x), fast, slow - 1) == MeanAt(fpu, x, fast, slow - 1)
  {
    hide Plainest, ExactOps, MeanOf, AverageOf, StdAt, SumAt;
    PlainestIs();
    var fpu, x := Plainest(), Nums(Ones(slow));
    WindowCells(fpu, Ones(slow), fast, 0, slow - 1);
    WindowCells(fpu, Ones(slow), slow, 0, slow - 1);
    MeanOfOnes(slow);
    assert Trailing(WithoutOldest(x), fast, slow - 1) == Trailing(x, fast, slow - 1);
  }

  lemma {:induction false} TotalOfOnes(n: nat)
    ensures Total(Ones(n)) == n as real
  {
    if n > 0 {
      assert Ones(n)[..n - 1] == Ones(n - 1);
      TotalOfOnes(n - 1);
    }
  }

  lemma MeanOfOnes(n: nat)
    requires n >= 1
    ensures WindowAt(Ones(n), n, n - 1) == Ones(n) && AverageOf(Ones(n)) == 1.0
  {
    TotalOfOnes(n);
    OverUnique(n as real, n as real, 1.0) by { TimesOne(n as real); }
  }

  lemma FlowDecides(w: nat)
    requires w >= 1
    ensures OldestDecides(Plainest(), FlowOp(w), [Nums(Ones(w)), Nums(Ones(w))], w)
  {
    hide Plainest, ExactOps, FlowAt, Nums, Ones;
    OnesAreNums(w);
    FlowOfOnes(w);
    FlowWithoutOldest(Nums(Ones(w)), Nums(Ones(w)), w);
  }

  lemma FlowOfOnes(w: nat)
    requires w >= 1
    ensures |Nums(Ones(w))| == w && FlowAt(Plainest(), Nums(Ones(w)), Nums(Ones(w)), w, w - 1).Num?
  {
    hide Plainest, ExactOps, FlowAt, Total, Nums, Ones, WindowAt, Magnitudes, SidedAll, Times;
    PlainestIs();
    OnesAreNums(w);
    OnesFlow(w);
    FlowIs(Plainest(), Ones(w), Ones(w), w, w - 1);
  }

  lemma FlowWithoutOldest(x: seq<Exact>, g: seq<Exact>, w: nat)
    requires 1 <= w == |x| == |g|
    ensures FlowAt(Plainest(), WithoutOldest(x), g, w, w - 1) == NotANumber
  {
    hide Plainest, ExactOps, SumAt, Signed;
    PlainestIs();
    var fpu, y := Plainest(), WithoutOldest(x);
    TestsOn(fpu, NotANumber, NotANumber);
    NanIs(fpu);
    assert Volumes(fpu, y)[0] == NotANumber;
    SignedLength(fpu, y, g);
    MissingInWindow(fpu, Volumes(fpu, y), w, w - 1, 0);
  }

  lemma SignedLength(fpu: Fpu<Exact>, x: seq<Exact>, g: seq<Exact>)
    requires |x| == |g|
    ensures |Signed(fpu, x, g)| == |x|
  {
  }

  lemma OnesFlow(w: nat)
    requires w >= 1
    ensures Total(Magnitudes(WindowAt(Ones(w), w, w - 1))) > 0.0
  {
    assert Magnitudes(WindowAt(Ones(w), w, w - 1)) == Ones(w);
    TotalOfOnes(w);
  }

  /** Operations on the current row alone: a missing input is a missing value. */
  lemma PointDecides(op: Op)
    requires op.MidOp? || op.SpreadOp? || op.RelativeSpreadOp? || op.ImbalanceOp? || op.RangeOp? || op.LocationOp?
    ensures exists xs :: OldestDecides(Plainest(), op, xs, 1)
  {
    hide Plainest, ExactOps, MidOf, SpreadOf, RelativeSpreadOf, ImbalanceOf, RangeOf, LocationOf, Over, Times;
    PlainestIs();
    var fpu := Plainest();
    var two, one := [Num(2.0)], [Num(1.0)];
    var xs := if op.Arity() == 2 then [two, one] else [two, one, one];
    assert WithoutOldest(two) == [NotANumber];
    match op {
      case ImbalanceOp =>
        ImbalanceIs(fpu, Num(2.0), Num(1.0));
        ImbalanceIs(fpu, NotANumber, Num(1.0));
      case RangeOp =>
        RangeIs(fpu, Num(2.0), Num(1.0), Num(1.0));
        RangeIs(fpu, NotANumber, Num(1.0), Num(1.0));
      case LocationOp =>
        LocationIs(fpu, Num(2.0), Num(1.0), Num(1.0));
        LocationIs(fpu, NotANumber, Num(1.0), Num(1.0));
      case RelativeSpreadOp =>
        RelativeSpreadIs(fpu, Num(2.0), Num(1.0));
        RelativeSpreadIs(fpu, NotANumber, Num(1.0));
      case _ =>
        MidAndSpread(fpu, Num(2.0), Num(1.0));
        MidAndSpread(fpu, NotANumber, Num(1.0));
    }
    assert OldestDecides(fpu, op, xs, 1);
  }

  /** For every legal operation with a finite reach there are inputs of just that length whose oldest
      observation decides the last cell. */
  lemma ReachIsNeeded(op: Op)
    requires op.Legal() && op.Reach().Some?
    ensures exists xs :: OldestDecides(Plainest(), op, xs, op.Reach().value)
  {
    hide OldestDecides, Plainest;
    match op
    case MeanOp(_) => WindowDecides(op);
    case SumOp(_) => WindowDecides(op);
    case StdOp(_, _) => WindowDecides(op);
    case ZscoreOp(w, ddof) => ZscoreDecides(w, ddof);
    case ReturnOp(p) => ReturnDecides(p);
    case VolatilityOp(w) => VolatilityDecides(w);
    case SmaCrossOp(f, s) => CrossDecides(f, s);
    case FlowOp(w) => FlowDecides(w);
    case _ => PointDecides(op);
  }
}
