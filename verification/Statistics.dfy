/** What the windowed transforms are, over exact arithmetic: sums, means, deviations and averages of the
    numbers in their windows, by formulas that owe nothing to how they are computed.
 */
module Statistics {
  import opened Float
  import opened Reals
  import opened Numeric
  import opened Cells
  import opened ExactReals

  /** A series of numbers. */
  function Nums(v: seq<real>): (r: seq<Exact>)
    ensures |r| == |v| && forall i :: 0 <= i < |v| ==> r[i] == Num(v[i])
  {
    seq(|v|, i requires 0 <= i < |v| => Num(v[i]))
  }

  function Total(v: seq<real>): real {
    if v == [] then 0.0 else Total(v[..|v| - 1]) + v[|v| - 1]
  }

  function AverageOf(v: seq<real>): real
    requires v != []
  {
    Over(Total(v), |v| as real)
  }

  /** The squared distances from `m`. */
  function Spreads(v: seq<real>, m: real): (r: seq<real>)
    ensures |r| == |v| && forall i :: 0 <= i < |v| ==> r[i] == Times(v[i] - m, v[i] - m)
  {
    seq(|v|, i requires 0 <= i < |v| => Times(v[i] - m, v[i] - m))
  }

  /** The sum of squared distances from the mean, over the degrees of freedom left. */
  function Variance(v: seq<real>, ddof: nat): real
    requires ddof < |v|
  {
    Over(Total(Spreads(v, AverageOf(v))), (|v| - ddof) as real)
  }

  /** `sqrt` squares back at `a`. */
  ghost predicate Rooted(fpu: Fpu<Exact>, a: real) {
    var r := fpu.sqrt(Num(a));
    r.Num? && r.v >= 0.0 && Times(r.v, r.v) == a
  }

  // ---------------------------------------------------------------- sums

  function ValueOf(x: Exact): real {
    if x.Num? then x.v else 0.0
  }

  ghost predicate AllNumbers(t: SumTree<Exact>) {
    match t
    case Zero => true
    case Leaf(x) => x.Num?
    case Add(l, r) => AllNumbers(l) && AllNumbers(r)
  }

  lemma EvalExact(fpu: Fpu<Exact>, t: SumTree<Exact>)
    requires ExactOps(fpu)
    ensures Eval(fpu, t) == if AllNumbers(t) then Num(TreeTotal(t, ValueOf)) else NotANumber
  {
    hide ExactOps;
    match t
    case Zero => NatIs(fpu, 0);
    case Leaf(_) =>
    case Add(l, r) =>
      EvalExact(fpu, l);
      EvalExact(fpu, r);
      SumsOn(fpu, Eval(fpu, l), Eval(fpu, r));
  }

  lemma NumbersAreLeaves(t: SumTree<Exact>)
    ensures AllNumbers(t) <==> forall x :: x in Leaves(t) ==> x.Num?
  {
    match t
    case Zero =>
    case Leaf(x) => assert x in Leaves(t);
    case Add(l, r) =>
      NumbersAreLeaves(l);
      NumbersAreLeaves(r);
      assert forall x :: x in Leaves(t) <==> x in Leaves(l) || x in Leaves(r);
  }

  lemma {:induction false} SeqTotalOf(v: seq<real>)
    ensures SeqTotal(Nums(v), ValueOf) == Total(v)
  {
    if v != [] {
      assert Nums(v)[..|v| - 1] == Nums(v[..|v| - 1]);
      SeqTotalOf(v[..|v| - 1]);
    }
  }

  /** A sum of numbers is their sum, and a NaN anywhere makes it one. */
  lemma SumIsTotal(fpu: Fpu<Exact>, xs: seq<Exact>)
    requires ExactOps(fpu)
    ensures (exists i :: 0 <= i < |xs| && xs[i].NotANumber?) ==> PairwiseOf(fpu, xs) == NotANumber
    ensures (forall i :: 0 <= i < |xs| ==> xs[i].Num?) ==> PairwiseOf(fpu, xs) == Num(SeqTotal(xs, ValueOf))
  {
    hide ExactOps, Eval, InnerTree, AllNumbers, TreeTotal;
    var t := PairwiseTree(xs);
    EvalExact(fpu, t);
    NumbersAreLeaves(t);
    EveryElementWeighedOnce(xs, ValueOf);
    LeavesAreTheWindow(xs);
    assert forall i :: 0 <= i < |xs| ==> xs[i] in multiset(xs);
    assert forall x :: x in multiset(xs) ==> x in xs;
  }

  lemma SumOfNums(fpu: Fpu<Exact>, v: seq<real>)
    requires ExactOps(fpu)
    ensures PairwiseOf(fpu, Nums(v)) == Num(Total(v))
  {
    hide ExactOps, PairwiseOf;
    SumIsTotal(fpu, Nums(v));
    SeqTotalOf(v);
  }

  // ---------------------------------------------------------------- mean and deviation

  /** `n` times the mean of a window is its sum. */
  lemma MeanIs(fpu: Fpu<Exact>, v: seq<real>)
    requires ExactOps(fpu) && v != []
    ensures MeanOf(fpu, Nums(v)) == Num(AverageOf(v)) && Times(|v| as real, AverageOf(v)) == Total(v)
  {
    hide ExactOps, PairwiseOf, Over, Times, Nums;
    NumsSize(v);
    MeanQuotient(fpu, v);
    TimesOver(Total(v), |v| as real);
  }

  lemma TimesOver(x: real, n: real)
    requires n > 0.0
    ensures Times(n, Over(x, n)) == x
  {
  }

  lemma SquaresAre(fpu: Fpu<Exact>, v: seq<real>, m: real)
    requires ExactOps(fpu)
    ensures Squares(fpu, Nums(v), Num(m)) == Nums(Spreads(v, m))
  {
    hide ExactOps, Times;
    forall i | 0 <= i < |v|
      ensures Squares(fpu, Nums(v), Num(m))[i] == Num(Times(v[i] - m, v[i] - m))
    {
      SquareIs(fpu, v[i], m);
    }
  }

  lemma SquareIs(fpu: Fpu<Exact>, x: real, m: real)
    requires ExactOps(fpu)
    ensures var d := fpu.sub(Num(x), Num(m)); fpu.mul(d, d) == Num(Times(x - m, x - m))
  {
    hide ExactOps, Times;
    SumsOn(fpu, Num(x), Num(m));
    ProductsOn(fpu, Num(x - m), Num(x - m));
  }

  /** The deviation is the root of the variance: the sum of squared distances from the mean, over the
      window's size less the degrees of freedom given up. */
  lemma StdIs(fpu: Fpu<Exact>, v: seq<real>, ddof: nat)
    requires ExactOps(fpu) && ddof < |v|
    ensures StdOf(fpu, Nums(v), ddof) == fpu.sqrt(Num(Variance(v, ddof)))
  {
    hide ExactOps, PairwiseOf, Squares, Over, Spreads, AverageOf, Nums, Total;
    NumsSize(v);
    MeanQuotient(fpu, v);
    SpreadQuotient(fpu, v, AverageOf(v), ddof);
  }

  lemma NumsSize(v: seq<real>)
    ensures |Nums(v)| == |v|
  {
  }

  lemma MeanQuotient(fpu: Fpu<Exact>, v: seq<real>)
    requires ExactOps(fpu) && v != []
    ensures fpu.div(PairwiseOf(fpu, Nums(v)), fpu.ofNat(|v|)) == Num(AverageOf(v))
  {
    hide ExactOps, PairwiseOf, Over, Nums, Total;
    NatIs(fpu, |v|);
    SumOfNums(fpu, v);
    ProductsOn(fpu, Num(Total(v)), Num(|v| as real));
  }

  lemma SpreadQuotient(fpu: Fpu<Exact>, v: seq<real>, m: real, ddof: nat)
    requires ExactOps(fpu) && ddof < |v|
    ensures fpu.div(PairwiseOf(fpu, Squares(fpu, Nums(v), Num(m))), fpu.ofNat(|v| - ddof))
         == Num(Over(Total(Spreads(v, m)), (|v| - ddof) as real))
  {
    hide ExactOps, PairwiseOf, Over, Nums, Total, Squares, Spreads;
    NatIs(fpu, |v| - ddof);
    SquaresAre(fpu, v, m);
    SumOfNums(fpu, Spreads(v, m));
    ProductsOn(fpu, Num(Total(Spreads(v, m))), Num((|v| - ddof) as real));
  }

  /** `(n - ddof)` times the square of the deviation is the sum of squared distances from the mean. */
  lemma StdSquared(fpu: Fpu<Exact>, v: seq<real>, ddof: nat)
    requires ExactOps(fpu) && ddof < |v| && Rooted(fpu, Variance(v, ddof))
    ensures var s := StdOf(fpu, Nums(v), ddof);
      s.Num? && s.v >= 0.0 && Times((|v| - ddof) as real, Times(s.v, s.v)) == Total(Spreads(v, AverageOf(v)))
  {
    hide ExactOps, StdOf, Over, Times, Spreads;
    StdIs(fpu, v, ddof);
    TimesOver(Total(Spreads(v, AverageOf(v))), (|v| - ddof) as real);
  }

  // ---------------------------------------------------------------- shifts and scales

  function Shifted(v: seq<real>, c: real): (r: seq<real>)
    ensures |r| == |v| && forall i :: 0 <= i < |v| ==> r[i] == v[i] + c
  {
    seq(|v|, i requires 0 <= i < |v| => v[i] + c)
  }

  function Scaled(v: seq<real>, c: real): (r: seq<real>)
    ensures |r| == |v| && forall i :: 0 <= i < |v| ==> r[i] == Times(c, v[i])
  {
    seq(|v|, i requires 0 <= i < |v| => Times(c, v[i]))
  }

  lemma {:induction false} TotalShifted(v: seq<real>, c: real)
    ensures Total(Shifted(v, c)) == Total(v) + Times(|v| as real, c)
  {
    hide Times;
    TimesSteps(|v|, c);
    if v != [] {
      assert Shifted(v, c)[..|v| - 1] == Shifted(v[..|v| - 1], c);
      TotalShifted(v[..|v| - 1], c);
    }
  }

  lemma TimesSteps(n: nat, c: real)
    ensures Times(0.0, c) == 0.0
    ensures n > 0 ==> Times(n as real, c) == Times((n - 1) as real, c) + c
  {
  }

  lemma {:induction false} TotalScaled(v: seq<real>, c: real)
    ensures Total(Scaled(v, c)) == Times(c, Total(v))
  {
    hide Times;
    TimesZeroRight(c);
    if v != [] {
      var front := v[..|v| - 1];
      assert Scaled(v, c)[..|v| - 1] == Scaled(front, c);
      TotalScaled(front, c);
      Distributes(c, Total(front), v[|v| - 1]);
    }
  }

  lemma TimesZeroRight(c: real)
    ensures Times(c, 0.0) == 0.0
  {
  }

  lemma Distributes(c: real, x: real, y: real)
    ensures Times(c, x) + Times(c, y) == Times(c, x + y) && Times(c, x) - Times(c, y) == Times(c, x - y)
  {
  }

  lemma MeanShifted(v: seq<real>, c: real)
    requires v != []
    ensures AverageOf(Shifted(v, c)) == AverageOf(v) + c
  {
    hide Over, Times;
    TotalShifted(v, c);
    OverAdds(Total(v), c, |v| as real);
  }

  lemma OverAdds(x: real, c: real, n: real)
    requires n > 0.0
    ensures Over(x + Times(n, c), n) == Over(x, n) + c
  {
    hide Over;
    var q := Over(x, n);
    TimesOver(x, n);
    assert Times(n, q + c) == x + Times(n, c);
    OverUnique(x + Times(n, c), n, q + c);
  }

  /** A quotient is known by what it multiplies back to. */
  lemma OverUnique(x: real, n: real, q: real)
    requires n > 0.0 && Times(n, q) == x
    ensures Over(x, n) == q
  {
  }

  /** Moving a window leaves its deviation alone. */
  lemma StdOfShifted(fpu: Fpu<Exact>, v: seq<real>, c: real, ddof: nat)
    requires ExactOps(fpu) && ddof < |v|
    ensures StdOf(fpu, Nums(Shifted(v, c)), ddof) == StdOf(fpu, Nums(v), ddof)
  {
    hide ExactOps, StdOf, Over, AverageOf, Total;
    MeanShifted(v, c);
    assert Spreads(Shifted(v, c), AverageOf(v) + c) == Spreads(v, AverageOf(v));
    StdIs(fpu, v, ddof);
    StdIs(fpu, Shifted(v, c), ddof);
  }

  lemma MeanScaled(v: seq<real>, c: real)
    requires v != []
    ensures AverageOf(Scaled(v, c)) == Times(c, AverageOf(v))
  {
    hide Over, Times;
    TotalScaled(v, c);
    OverScales(Total(v), c, |v| as real);
  }

  lemma OverScales(x: real, c: real, n: real)
    requires n > 0.0
    ensures Over(Times(c, x), n) == Times(c, Over(x, n))
  {
    hide Over;
    var q := Over(x, n);
    TimesOver(x, n);
    Swaps(n, c, q);
    OverUnique(Times(c, x), n, Times(c, q));
  }

  lemma Swaps(a: real, b: real, c: real)
    ensures Times(a, Times(b, c)) == Times(b, Times(a, c))
  {
  }

  lemma VarianceScaled(v: seq<real>, c: real, ddof: nat)
    requires ddof < |v|
    ensures Variance(Scaled(v, c), ddof) == Times(Times(c, c), Variance(v, ddof))
  {
    hide Over, Times, AverageOf, Total;
    MeanScaled(v, c);
    var m := AverageOf(v);
    forall i | 0 <= i < |v|
      ensures Spreads(Scaled(v, c), Times(c, m))[i] == Scaled(Spreads(v, m), Times(c, c))[i]
    {
      Distributes(c, v[i], m);
      Squared(c, v[i] - m);
    }
    assert Spreads(Scaled(v, c), Times(c, m)) == Scaled(Spreads(v, m), Times(c, c));
    TotalScaled(Spreads(v, m), Times(c, c));
    OverScales(Total(Spreads(v, m)), Times(c, c), (|v| - ddof) as real);
  }

  lemma Squared(c: real, d: real)
    ensures Times(Times(c, d), Times(c, d)) == Times(Times(c, c), Times(d, d))
  {
  }

  /** Scaling a window by `c` scales its deviation by the magnitude of `c`. */
  lemma StdOfScaled(fpu: Fpu<Exact>, v: seq<real>, c: real, ddof: nat)
    requires ExactOps(fpu) && ddof < |v|
    requires Rooted(fpu, Variance(v, ddof)) && Rooted(fpu, Variance(Scaled(v, c), ddof))
    ensures StdOf(fpu, Nums(v), ddof).Num?
    ensures StdOf(fpu, Nums(Scaled(v, c)), ddof) == Num(Times(Abs(c), StdOf(fpu, Nums(v), ddof).v))
  {
    hide ExactOps, StdOf, Variance, Times;
    StdIs(fpu, v, ddof);
    StdIs(fpu, Scaled(v, c), ddof);
    VarianceScaled(v, c, ddof);
    RootsScale(c, fpu.sqrt(Num(Variance(v, ddof))).v, fpu.sqrt(Num(Variance(Scaled(v, c), ddof))).v);
  }

  lemma RootsScale(c: real, r: real, s: real)
    requires r >= 0.0 && s >= 0.0 && Times(s, s) == Times(Times(c, c), Times(r, r))
    ensures s == Times(Abs(c), r)
  {
    hide Times;
    Squared(Abs(c), r);
    assert Times(Abs(c), Abs(c)) == Times(c, c) by { SquareOfAbs(c); }
    NotNegative(Abs(c), r);
    RootsEqual(s, Times(Abs(c), r));
  }

  lemma SquareOfAbs(c: real)
    ensures Times(Abs(c), Abs(c)) == Times(c, c)
  {
  }

  lemma NotNegative(a: real, b: real)
    requires a >= 0.0 && b >= 0.0
    ensures Times(a, b) >= 0.0
  {
  }

  lemma RootsEqual(a: real, b: real)
    requires a >= 0.0 && b >= 0.0 && Times(a, a) == Times(b, b)
    ensures a == b
  {
    hide Times;
    if a < b { SquaresOrdered(a, b); }
    if b < a { SquaresOrdered(b, a); }
  }

  lemma SquaresOrdered(a: real, b: real)
    requires 0.0 <= a < b
    ensures Times(a, a) < Times(b, b)
  {
    hide Times;
    ProductGrows(a, b, a);
    ProductGrows(a, b, b);
    assert Times(b, a) == Times(a, b) by { Commutes(b, a); }
  }

  lemma ProductGrows(a: real, b: real, c: real)
    requires a < b && c >= 0.0
    ensures Times(a, c) <= Times(b, c) && (c > 0.0 ==> Times(a, c) < Times(b, c))
  {
    assert Times(b, c) - Times(a, c) == Times(b - a, c);
  }

  lemma Commutes(x: real, y: real)
    ensures Times(x, y) == Times(y, x)
  {
  }

  // ---------------------------------------------------------------- cells

  /** The numbers of the window that ends at `i`. */
  function WindowAt(v: seq<real>, w: nat, i: nat): (r: seq<real>)
    requires w <= i + 1 <= |v|
    ensures |r| == w
  {
    v[i + 1 - w..i + 1]
  }

  lemma TrailingNums(v: seq<real>, w: nat, i: nat)
    requires w <= i + 1 <= |v|
    ensures Trailing(Nums(v), w, i) == Nums(WindowAt(v, w, i))
  {
  }

  /** A full window's cell is its sum, its mean, and the root of its variance; before that there is none. */
  lemma WindowCells(fpu: Fpu<Exact>, v: seq<real>, w: nat, ddof: nat, i: nat)
    requires ExactOps(fpu) && ddof < w && i < |v|
    ensures i + 1 < w ==>
      SumAt(fpu, Nums(v), w, i) == MeanAt(fpu, Nums(v), w, i) == StdAt(fpu, Nums(v), w, ddof, i) == NotANumber
    ensures w <= i + 1 ==>
      && SumAt(fpu, Nums(v), w, i) == Num(Total(WindowAt(v, w, i)))
      && MeanAt(fpu, Nums(v), w, i) == Num(AverageOf(WindowAt(v, w, i)))
      && StdAt(fpu, Nums(v), w, ddof, i) == fpu.sqrt(Num(Variance(WindowAt(v, w, i), ddof)))
  {
    hide ExactOps, PairwiseOf, MeanOf, StdOf, Nums, WindowAt;
    OpsOn(fpu, NotANumber, NotANumber);
    if w <= i + 1 {
      TrailingNums(v, w, i);
      SumOfNums(fpu, WindowAt(v, w, i));
      MeanIs(fpu, WindowAt(v, w, i));
      StdIs(fpu, WindowAt(v, w, i), ddof);
    }
  }

  /** A NaN in the window makes its sum one. */
  lemma MissingInWindow(fpu: Fpu<Exact>, x: seq<Exact>, w: nat, i: nat, j: nat)
    requires ExactOps(fpu) && 0 < w <= i + 1 <= |x| && i + 1 - w <= j <= i && x[j] == NotANumber
    ensures SumAt(fpu, x, w, i) == NotANumber
  {
    hide ExactOps, PairwiseOf;
    var t := Trailing(x, w, i);
    assert t[j - (i + 1 - w)] == NotANumber;
    SumIsTotal(fpu, t);
  }

  /** A NaN in a window makes its mean and its deviation one, when it has none to give back. */
  lemma StdOfMissing(fpu: Fpu<Exact>, xs: seq<Exact>, ddof: nat, j: nat)
    requires ExactOps(fpu) && j < |xs| && ddof < |xs| && xs[j] == NotANumber && fpu.sqrt(NotANumber) == NotANumber
    ensures MeanOf(fpu, xs) == NotANumber && StdOf(fpu, xs, ddof) == NotANumber
  {
    hide ExactOps, PairwiseOf;
    SumIsTotal(fpu, xs);
    ProductsOn(fpu, NotANumber, fpu.ofNat(|xs|));
    ProductsOn(fpu, NotANumber, fpu.ofNat(|xs| - ddof));
    var squares := Squares(fpu, xs, NotANumber);
    SumsOn(fpu, xs[j], NotANumber);
    ProductsOn(fpu, NotANumber, NotANumber);
    assert squares[j] == NotANumber;
    SumIsTotal(fpu, squares);
  }

  lemma MissingCells(fpu: Fpu<Exact>, x: seq<Exact>, w: nat, ddof: nat, i: nat, j: nat)
    requires ExactOps(fpu) && ddof < w <= i + 1 <= |x| && i + 1 - w <= j <= i && x[j] == NotANumber
    requires fpu.sqrt(NotANumber) == NotANumber
    ensures SumAt(fpu, x, w, i) == MeanAt(fpu, x, w, i) == StdAt(fpu, x, w, ddof, i) == NotANumber
  {
    hide ExactOps, PairwiseOf, MeanOf, StdOf;
    var t := Trailing(x, w, i);
    assert t[j - (i + 1 - w)] == NotANumber;
    MissingInWindow(fpu, x, w, i, j);
    StdOfMissing(fpu, t, ddof, j - (i + 1 - w));
  }

  /** What a rolling deviation writes, squared and multiplied by the degrees of freedom left, is the sum of
      squared distances of its window from its mean. */
  lemma StdCell(fpu: Fpu<Exact>, v: seq<real>, w: nat, ddof: nat, i: nat)
    requires ExactOps(fpu) && ddof < w <= i + 1 <= |v| && Rooted(fpu, Variance(WindowAt(v, w, i), ddof))
    ensures var s, window := StdAt(fpu, Nums(v), w, ddof, i), WindowAt(v, w, i);
      s.Num? && s.v >= 0.0 && Times((w - ddof) as real, Times(s.v, s.v)) == Total(Spreads(window, AverageOf(window)))
  {
    hide ExactOps, StdOf, Nums, WindowAt, Times, Spreads, AverageOf, Variance;
    TrailingNums(v, w, i);
    StdSquared(fpu, WindowAt(v, w, i), ddof);
  }

  /** What a rolling z-score writes: how many of its window's deviations the observation lies from its
      window's mean; nothing when they are zero. */
  lemma ZscoreCell(fpu: Fpu<Exact>, v: seq<real>, w: nat, ddof: nat, i: nat)
    requires ExactOps(fpu) && ddof < w <= i + 1 <= |v| && Rooted(fpu, Variance(WindowAt(v, w, i), ddof))
    ensures var z, s := ZscoreAt(fpu, Nums(v), w, ddof, i), StdAt(fpu, Nums(v), w, ddof, i);
      && s.Num? && (z.Num? <==> s.v > 0.0)
      && (z.Num? ==> v[i] == AverageOf(WindowAt(v, w, i)) + Times(s.v, z.v))
  {
    hide ExactOps, WindowAt, AverageOf, Variance, MeanAt, StdAt, Times, Over;
    WindowCells(fpu, v, w, ddof, i);
    var s := StdAt(fpu, Nums(v), w, ddof, i).v;
    var m := AverageOf(WindowAt(v, w, i));
    TestsOn(fpu, Num(s), Num(s));
    NanIs(fpu);
    SumsOn(fpu, Num(v[i]), Num(m));
    ProductsOn(fpu, Num(v[i] - m), Num(s));
    if s > 0.0 { TimesOver(v[i] - m, s); }
  }

  lemma NanIs(fpu: Fpu<Exact>)
    requires ExactOps(fpu)
    ensures fpu.nan == NotANumber
  {
  }
}
