/** What the remaining transforms are, over exact arithmetic: each by the relation its value has to the
    numbers it is of, and by exactly when it has one.
 */
module Formulas {
  import opened Float
  import opened Reals
  import opened Numeric
  import opened Registry
  import opened Cells
  import opened ExactReals
  import opened EmaHistory
  import opened Statistics

  // ---------------------------------------------------------------- quotes

  predicate Positive(x: Exact) { x.Num? && x.v > 0.0 }

  lemma HalfIs(x: real)
    ensures Over(x, 2.0) + Over(x, 2.0) == x
  {
  }

  /** Midpoint and spread of a quote are there exactly when both sides are positive; half the spread either
      side of the midpoint are the quotes. */
  lemma MidAndSpread(fpu: Fpu<Exact>, b: Exact, a: Exact)
    requires ExactOps(fpu)
    ensures var mid, spread := MidOf(fpu, b, a), SpreadOf(fpu, b, a);
      && (mid.Num? <==> Positive(b) && Positive(a)) && (spread.Num? <==> mid.Num?)
      && (mid.Num? ==> mid.v - Over(spread.v, 2.0) == b.v && mid.v + Over(spread.v, 2.0) == a.v)
  {
    hide ExactOps;
    MidIs(fpu, b, a);
    NanIs(fpu);
    TestsOn(fpu, b, a);
    TestsOn(fpu, a, b);
    SumsOn(fpu, a, b);
    if Positive(b) && Positive(a) {
      HalfIs(b.v + a.v);
      HalfIs(a.v - b.v);
    }
  }

  lemma MidIs(fpu: Fpu<Exact>, b: Exact, a: Exact)
    requires ExactOps(fpu)
    ensures MidOf(fpu, b, a) == if Positive(b) && Positive(a) then Num(Over(b.v + a.v, 2.0)) else NotANumber
  {
    hide ExactOps, Over;
    NanIs(fpu);
    TestsOn(fpu, b, a);
    TestsOn(fpu, a, b);
    SumsOn(fpu, b, a);
    NatIs(fpu, 2);
    ProductsOn(fpu, fpu.add(b, a), Num(2.0));
  }

  /** The relative spread, in basis points of the midpoint. */
  lemma RelativeSpreadIs(fpu: Fpu<Exact>, b: Exact, a: Exact)
    requires ExactOps(fpu)
    ensures var r, mid := RelativeSpreadOf(fpu, b, a), MidOf(fpu, b, a);
      && (r.Num? <==> Positive(b) && Positive(a))
      && (r.Num? ==> mid.Num? && Times(mid.v, r.v) == Times(a.v - b.v, 10_000.0))
  {
    hide ExactOps, Over, Times, MidOf;
    MidIs(fpu, b, a);
    NanIs(fpu);
    var mid := MidOf(fpu, b, a);
    TestsOn(fpu, mid, a);
    if Positive(b) && Positive(a) {
      MidPositive(b.v, a.v);
      BasisPoints(fpu, a, b, mid);
    }
  }

  lemma MidPositive(b: real, a: real)
    requires b > 0.0 && a > 0.0
    ensures Over(b + a, 2.0) > 0.0
  {
  }

  /** A difference over a level, in basis points. */
  lemma BasisPoints(fpu: Fpu<Exact>, x: Exact, y: Exact, level: Exact)
    requires ExactOps(fpu) && x.Num? && y.Num? && Positive(level)
    ensures var r := fpu.mul(fpu.div(fpu.sub(x, y), level), fpu.ofNat(10_000));
      r.Num? && Times(level.v, r.v) == Times(x.v - y.v, 10_000.0)
  {
    hide ExactOps, Over, Times;
    SumsOn(fpu, x, y);
    NatIs(fpu, 10_000);
    ProductsOn(fpu, Num(x.v - y.v), level);
    var q := Over(x.v - y.v, level.v);
    ProductsOn(fpu, Num(q), Num(10_000.0));
    TimesOver(x.v - y.v, level.v);
    Associates(level.v, q, 10_000.0);
  }

  lemma Associates(a: real, b: real, c: real)
    ensures Times(a, Times(b, c)) == Times(Times(a, b), c)
  {
  }

  /** The imbalance of a book is the difference of its two sides as a share of both: from -1, all asks, to 1,
      all bids. */
  lemma ImbalanceIs(fpu: Fpu<Exact>, b: Exact, a: Exact)
    requires ExactOps(fpu)
    ensures var q := ImbalanceOf(fpu, b, a);
      && (q.Num? <==> b.Num? && a.Num? && b.v >= 0.0 && a.v >= 0.0 && b.v + a.v > 0.0)
      && (q.Num? ==>
        && Times(b.v + a.v, q.v) == b.v - a.v && -1.0 <= q.v <= 1.0
        && (q.v == 1.0 <==> a.v == 0.0) && (q.v == -1.0 <==> b.v == 0.0))
  {
    hide ExactOps, Over, Times, ImbalanceOf;
    ImbalanceValue(fpu, b, a);
    if b.Num? && a.Num? && b.v >= 0.0 && a.v >= 0.0 && b.v + a.v > 0.0 {
      Share(b.v - a.v, b.v + a.v);
    }
  }

  lemma ImbalanceValue(fpu: Fpu<Exact>, b: Exact, a: Exact)
    requires ExactOps(fpu)
    ensures ImbalanceOf(fpu, b, a) ==
      if b.Num? && a.Num? && b.v >= 0.0 && a.v >= 0.0 && b.v + a.v > 0.0 then Num(Over(b.v - a.v, b.v + a.v))
      else NotANumber
  {
    hide ExactOps, Over;
    NanIs(fpu);
    NatIs(fpu, 0);
    SumsOn(fpu, b, a);
    TestsOn(fpu, a, Num(0.0));
    TestsOn(fpu, b, Num(0.0));
    TestsOn(fpu, fpu.add(b, a), Num(0.0));
    ProductsOn(fpu, fpu.sub(b, a), fpu.add(b, a));
  }

  /** A part over a whole no smaller than its magnitude. */
  lemma Share(part: real, whole: real)
    requires whole > 0.0 && -whole <= part <= whole
    ensures Times(whole, Over(part, whole)) == part && -1.0 <= Over(part, whole) <= 1.0
    ensures Over(part, whole) == 1.0 <==> part == whole
    ensures Over(part, whole) == -1.0 <==> part == -whole
  {
  }

  // ---------------------------------------------------------------- bars

  /** A bar's range, in basis points of its close. */
  lemma RangeIs(fpu: Fpu<Exact>, h: Exact, l: Exact, c: Exact)
    requires ExactOps(fpu)
    ensures var r := RangeOf(fpu, h, l, c);
      && (r.Num? <==> Positive(c) && h.Num? && l.Num? && h.v >= l.v)
      && (r.Num? ==> Times(c.v, r.v) == Times(h.v - l.v, 10_000.0))
  {
    hide ExactOps, Over, Times;
    NanIs(fpu);
    TestsOn(fpu, c, c);
    TestsOn(fpu, h, l);
    if Positive(c) && h.Num? && l.Num? { BasisPoints(fpu, h, l, c); }
  }

  /** Where in its bar the close lies: half the range times this, from the middle of the bar, is the close;
      1 at the high and -1 at the low. */
  lemma LocationIs(fpu: Fpu<Exact>, h: Exact, l: Exact, c: Exact)
    requires ExactOps(fpu)
    ensures var q := LocationOf(fpu, h, l, c);
      && (q.Num? <==> h.Num? && l.Num? && c.Num? && h.v > l.v)
      && (q.Num? ==>
        && Times(h.v - l.v, q.v) == (c.v - l.v) - (h.v - c.v)
        && (q.v == 1.0 <==> c.v == h.v) && (q.v == -1.0 <==> c.v == l.v)
        && (-1.0 <= q.v <= 1.0 <==> l.v <= c.v <= h.v))
  {
    hide ExactOps, Over, Times, LocationOf;
    LocationValue(fpu, h, l, c);
    if h.Num? && l.Num? && c.Num? && h.v > l.v { Placed(h.v, l.v, c.v); }
  }

  lemma LocationValue(fpu: Fpu<Exact>, h: Exact, l: Exact, c: Exact)
    requires ExactOps(fpu)
    ensures LocationOf(fpu, h, l, c) ==
      if h.Num? && l.Num? && c.Num? && h.v > l.v then Num(Over(Times(2.0, c.v) - h.v - l.v, h.v - l.v)) else NotANumber
  {
    hide ExactOps, Over, Times;
    NanIs(fpu);
    NatIs(fpu, 2);
    SumsOn(fpu, h, l);
    var width := fpu.sub(h, l);
    TestsOn(fpu, width, width);
    ProductsOn(fpu, Num(2.0), c);
    var twice := fpu.mul(Num(2.0), c);
    SumsOn(fpu, twice, h);
    SumsOn(fpu, fpu.sub(twice, h), l);
    ProductsOn(fpu, fpu.sub(fpu.sub(twice, h), l), width);
  }

  lemma Placed(h: real, l: real, c: real)
    requires h > l
    ensures var q := Over(Times(2.0, c) - h - l, h - l);
      && Times(h - l, q) == (c - l) - (h - c)
      && (q == 1.0 <==> c == h) && (q == -1.0 <==> c == l) && (-1.0 <= q <= 1.0 <==> l <= c <= h)
  {
    var q := Over(Times(2.0, c) - h - l, h - l);
    TimesOver(Times(2.0, c) - h - l, h - l);
    hide Over;
    ProductsOrdered(h - l, q, 1.0);
    ProductsOrdered(h - l, q, -1.0);
  }

  lemma ProductsOrdered(n: real, q: real, r: real)
    requires n > 0.0
    ensures Times(n, q) <= Times(n, r) <==> q <= r
    ensures Times(n, q) >= Times(n, r) <==> q >= r
  {
    if q < r { Stretched(n, q, r); }
    if r < q { Stretched(n, r, q); }
  }

  lemma Stretched(n: real, q: real, r: real)
    requires n > 0.0 && q < r
    ensures Times(n, q) < Times(n, r)
  {
  }

  /** The relation of a value to its inputs: bid and ask of a quote, or high, low and close of a bar. */
  predicate Relates(op: Op, q: real, x: real, y: real, z: real) {
    match op
    case MidOp => q - x == y - q
    case SpreadOp => q == y - x
    case RelativeSpreadOp => Times(Over(x + y, 2.0), q) == Times(y - x, 10_000.0)
    case ImbalanceOp => Times(x + y, q) == x - y
    case RangeOp => Times(z, q) == Times(x - y, 10_000.0)
    case LocationOp => Times(x - y, q) == (z - y) - (x - z)
    case _ => false
  }

  /** Which input is which, cell by cell. */
  lemma PointwiseCells(fpu: Fpu<Exact>, op: Op, xs: seq<seq<Exact>>, n: nat, i: nat)
    requires ExactOps(fpu) && Shaped(op, xs, n) && i < n
    requires op.MidOp? || op.SpreadOp? || op.RelativeSpreadOp? || op.ImbalanceOp? || op.RangeOp? || op.LocationOp?
    requires Cell(fpu, op, xs, n, i).Num?
    ensures forall k :: 0 <= k < |xs| ==> xs[k][i].Num?
    ensures Relates(op, Cell(fpu, op, xs, n, i).v, xs[0][i].v, xs[1][i].v, if |xs| > 2 then xs[2][i].v else 0.0)
  {
    hide ExactOps, MidOf, SpreadOf, RelativeSpreadOf, ImbalanceOf, RangeOf, LocationOf, Times, Over;
    var x, y := xs[0][i], xs[1][i];
    match op
    case ImbalanceOp => ImbalanceIs(fpu, x, y);
    case RangeOp => RangeIs(fpu, x, y, xs[2][i]);
    case LocationOp => LocationIs(fpu, x, y, xs[2][i]);
    case RelativeSpreadOp =>
      RelativeSpreadIs(fpu, x, y);
      MidIs(fpu, x, y);
    case MidOp => MidAndSpread(fpu, x, y);
    case SpreadOp =>
      MidAndSpread(fpu, x, y);
      HalfIs(SpreadOf(fpu, x, y).v);
    case _ =>
  }

  // ---------------------------------------------------------------- crossovers

  /** A crossover is how far the fast average lies from the slow one, relative to it. */
  lemma CrossIs(fpu: Fpu<Exact>, f: Exact, s: Exact)
    requires ExactOps(fpu) && f.Num?
    ensures var x := CrossOf(fpu, f, s);
      && (x.Num? <==> s.Num? && s.v != 0.0)
      && (x.Num? ==> f.v == s.v + Times(s.v, x.v))
  {
    hide ExactOps, Over, Times;
    NanIs(fpu);
    TestsOn(fpu, s, f);
    TestsOn(fpu, fpu.abs(s), f);
    SumsOn(fpu, f, s);
    ProductsOn(fpu, fpu.sub(f, s), s);
    if s.Num? && s.v != 0.0 { TimesBack(f.v - s.v, s.v); }
  }

  lemma TimesBack(x: real, n: real)
    requires n != 0.0
    ensures Times(n, Over(x, n)) == x
  {
  }

  /** A crossover of averages is of the fast one against the slow one. */
  lemma CrossCells(fpu: Fpu<Exact>, fast: nat, slow: nat, x: seq<Exact>, i: nat)
    requires ExactOps(fpu) && i < |x|
    ensures var f, s := MeanAt(fpu, x, fast, i), MeanAt(fpu, x, slow, i);
      var q := Cell(fpu, SmaCrossOp(fast, slow), [x], |x|, i);
      f.Num? ==> (q.Num? <==> s.Num? && s.v != 0.0) && (q.Num? ==> f.v == s.v + Times(s.v, q.v))
    ensures var f, s := EmaAt(fpu, x, fast, i), EmaAt(fpu, x, slow, i);
      var q := Cell(fpu, EmaCrossOp(fast, slow), [x], |x|, i);
      f.Num? ==> (q.Num? <==> s.Num? && s.v != 0.0) && (q.Num? ==> f.v == s.v + Times(s.v, q.v))
  {
    hide ExactOps, MeanAt, EmaAt, CrossOf, Times;
    if MeanAt(fpu, x, fast, i).Num? { CrossIs(fpu, MeanAt(fpu, x, fast, i), MeanAt(fpu, x, slow, i)); }
    if EmaAt(fpu, x, fast, i).Num? { CrossIs(fpu, EmaAt(fpu, x, fast, i), EmaAt(fpu, x, slow, i)); }
  }

  // ---------------------------------------------------------------- returns

  /** The logarithm of a ratio is the difference of some function of its two sides, as a logarithm's is. */
  ghost predicate LogOf(fpu: Fpu<Exact>, log: real -> real) {
    forall a, b :: a > 0.0 && b > 0.0 ==> LogAt(fpu, log, a, b)
  }

  predicate LogAt(fpu: Fpu<Exact>, log: real -> real, a: real, b: real)
    requires b > 0.0
  {
    fpu.ln(Num(Over(a, b))) == Num(log(a) - log(b))
  }

  predicate AllPositive(v: seq<real>) {
    forall i :: 0 <= i < |v| ==> v[i] > 0.0
  }

  /** A return is there only from the period on, and only between positive prices. */
  lemma ReturnExists(fpu: Fpu<Exact>, x: seq<Exact>, p: nat, i: nat)
    requires ExactOps(fpu) && i < |x|
    requires p == 0 || i < p || !Positive(x[i]) || !Positive(x[i - p])
    ensures ReturnAt(fpu, x, p, i) == NotANumber
  {
    hide ExactOps;
    NanIs(fpu);
    if 0 < p <= i { TestsOn(fpu, x[i], x[i - p]); TestsOn(fpu, x[i - p], x[i]); }
  }

  lemma ReturnIs(fpu: Fpu<Exact>, log: real -> real, v: seq<real>, p: nat, i: nat)
    requires ExactOps(fpu) && LogOf(fpu, log) && AllPositive(v) && 1 <= p <= i < |v|
    ensures ReturnAt(fpu, Nums(v), p, i) == Num(log(v[i]) - log(v[i - p]))
  {
    hide ExactOps, Over;
    var a, b := v[i], v[i - p];
    TestsOn(fpu, Num(a), Num(b));
    TestsOn(fpu, Num(b), Num(a));
    ProductsOn(fpu, Num(a), Num(b));
    assert LogAt(fpu, log, a, b);
  }

  /** The `w` one-step returns that end at `i`. */
  function Steps(log: real -> real, v: seq<real>, w: nat, i: nat): (r: seq<real>)
    requires w <= i < |v|
    ensures |r| == w
  {
    seq(w, k requires 0 <= k < w => log(v[i - w + 1 + k]) - log(v[i - w + k]))
  }

  lemma TrailingReturns(fpu: Fpu<Exact>, log: real -> real, v: seq<real>, w: nat, i: nat)
    requires ExactOps(fpu) && LogOf(fpu, log) && AllPositive(v) && w <= i < |v|
    ensures Trailing(Returns(fpu, Nums(v), 1), w, i) == Nums(Steps(log, v, w, i))
  {
    hide ExactOps, LogOf, AllPositive, ReturnAt;
    var t := Trailing(Returns(fpu, Nums(v), 1), w, i);
    forall k | 0 <= k < w
      ensures t[k] == Num(Steps(log, v, w, i)[k])
    {
      ReturnIs(fpu, log, v, 1, i - w + 1 + k);
    }
  }

  lemma {:induction false} StepsTelescope(log: real -> real, v: seq<real>, w: nat, i: nat)
    requires w <= i < |v|
    ensures Total(Steps(log, v, w, i)) == log(v[i]) - log(v[i - w])
  {
    if w > 0 {
      assert Steps(log, v, w, i)[..w - 1] == Steps(log, v, w - 1, i - 1);
      StepsTelescope(log, v, w - 1, i - 1);
    }
  }

  /** Returns add up: the rolling sum of one-step returns over a period is the return over it. */
  lemma ReturnsAddUp(fpu: Fpu<Exact>, log: real -> real, v: seq<real>, p: nat, i: nat)
    requires ExactOps(fpu) && LogOf(fpu, log) && AllPositive(v) && 1 <= p <= i < |v|
    ensures SumAt(fpu, Returns(fpu, Nums(v), 1), p, i) == ReturnAt(fpu, Nums(v), p, i)
         == Num(log(v[i]) - log(v[i - p]))
  {
    hide ExactOps, LogOf, PairwiseOf, ReturnAt, Returns, Nums;
    ReturnIs(fpu, log, v, p, i);
    TrailingReturns(fpu, log, v, p, i);
    SumOfNums(fpu, Steps(log, v, p, i));
    StepsTelescope(log, v, p, i);
    ReturnsLength(fpu, v);
  }

  lemma ReturnsLength(fpu: Fpu<Exact>, v: seq<real>)
    ensures |Returns(fpu, Nums(v), 1)| == |v|
  {
  }

  /** Realized volatility is the deviation, with nothing given up, of the window's one-step returns. */
  lemma VolatilityIs(fpu: Fpu<Exact>, log: real -> real, v: seq<real>, w: nat, i: nat)
    requires ExactOps(fpu) && LogOf(fpu, log) && AllPositive(v) && 1 <= w <= i < |v|
    ensures VolatilityAt(fpu, Nums(v), w, i) == fpu.sqrt(Num(Variance(Steps(log, v, w, i), 0)))
  {
    hide ExactOps, LogOf, StdOf, Returns, Nums, Variance, Steps;
    TrailingReturns(fpu, log, v, w, i);
    StdIs(fpu, Steps(log, v, w, i), 0);
    ReturnsLength(fpu, v);
  }

  // ---------------------------------------------------------------- exponential averages

  function LevelOf(a: real, v: seq<real>): real
    requires v != []
  {
    if |v| == 1 then v[0] else Towards(a, LevelOf(a, v[..|v| - 1]), v[|v| - 1])
  }

  lemma {:induction false} EmaStateOf(fpu: Fpu<Exact>, v: seq<real>, span: nat)
    requires ExactOps(fpu) && v != []
    ensures EmaState(fpu, Nums(v), span) == (Num(LevelOf(AlphaOf(span), v)), |v|)
  {
    hide ExactOps, AlphaOf, Towards, EmaState;
    var n := |v| - 1;
    assert Nums(v)[..n] == Nums(v[..n]);
    if n == 0 {
      NoState(fpu, span);
      assert Nums(v)[..n] == [];
      EmaSeed(fpu, Nums(v), span);
    } else {
      EmaStateOf(fpu, v[..n], span);
      EmaStep(fpu, Nums(v), span);
    }
  }

  lemma NoState(fpu: Fpu<Exact>, span: nat)
    ensures EmaState(fpu, [], span).1 == 0
  {
  }

  function Decay(b: real, n: nat): real {
    if n == 0 then 1.0 else Times(b, Decay(b, n - 1))
  }

  /** What each of `n` observations counts for: `a` times the decay since it, and the first, which seeds the
      level, the decay alone. */
  function Weights(a: real, n: nat): (r: seq<real>)
    ensures |r| == n
  {
    seq(n, k requires 0 <= k < n =>
      if k == 0 then Decay(1.0 - a, n - 1) else Times(a, Decay(1.0 - a, n - 1 - k)))
  }

  function Dot(w: seq<real>, v: seq<real>): real
    requires |w| == |v|
  {
    if v == [] then 0.0 else Dot(w[..|v| - 1], v[..|v| - 1]) + Times(w[|v| - 1], v[|v| - 1])
  }

  lemma WeightsGrow(a: real, n: nat)
    requires n >= 2
    ensures Weights(a, n) == Scaled(Weights(a, n - 1), 1.0 - a) + [a]
  {
    hide Times, Decay;
    var w, u := Weights(a, n), Scaled(Weights(a, n - 1), 1.0 - a) + [a];
    forall k | 0 <= k < n
      ensures w[k] == u[k]
    {
      DecayStep(1.0 - a, n - 1 - k);
      if k == n - 1 {
        TimesOne(a);
      } else if k > 0 {
        Swaps(a, 1.0 - a, Decay(1.0 - a, n - 2 - k));
      }
    }
  }

  lemma DecayStep(b: real, n: nat)
    ensures Decay(b, n) == if n == 0 then 1.0 else Times(b, Decay(b, n - 1))
  {
  }

  lemma TimesOne(x: real)
    ensures Times(x, 1.0) == x
  {
  }

  lemma {:induction false} DotScaled(w: seq<real>, v: seq<real>, c: real)
    requires |w| == |v|
    ensures Dot(Scaled(w, c), v) == Times(c, Dot(w, v))
  {
    hide Times;
    TimesZeroRight(c);
    if v != [] {
      var n := |v| - 1;
      assert Scaled(w, c)[..n] == Scaled(w[..n], c);
      DotScaled(w[..n], v[..n], c);
      Distributes(c, Dot(w[..n], v[..n]), Times(w[n], v[n]));
      Associates(c, w[n], v[n]);
    }
  }

  lemma {:induction false} LevelIsDot(a: real, v: seq<real>)
    requires v != []
    ensures LevelOf(a, v) == Dot(Weights(a, |v|), v)
  {
    hide Times, Weights;
    var n := |v| - 1;
    if n == 0 {
      FirstWeight(a);
      assert v[..0] == [] && Weights(a, 1)[..0] == [];
      TimesOne(v[0]);
      Commutes(v[0], 1.0);
    } else {
      LevelIsDot(a, v[..n]);
      WeightsGrow(a, |v|);
      assert Weights(a, |v|)[..n] == Scaled(Weights(a, n), 1.0 - a);
      DotScaled(Weights(a, n), v[..n], 1.0 - a);
      Mixes(a, LevelOf(a, v[..n]), v[n]);
    }
  }

  lemma FirstWeight(a: real)
    ensures Weights(a, 1) == [1.0]
  {
    DecayStep(1.0 - a, 0);
    assert Weights(a, 1)[0] == 1.0;
  }

  lemma Mixes(a: real, level: real, v: real)
    ensures Towards(a, level, v) == Times(1.0 - a, level) + Times(a, v)
  {
  }

  lemma {:induction false} WeightsAddUp(a: real, n: nat)
    requires n >= 1
    ensures Total(Weights(a, n)) == 1.0
  {
    hide Times, Weights;
    if n == 1 {
      FirstWeight(a);
      assert [1.0][..0] == [];
    } else {
      WeightsGrow(a, n);
      WeightsAddUp(a, n - 1);
      assert Weights(a, n)[..n - 1] == Scaled(Weights(a, n - 1), 1.0 - a);
      TotalScaled(Weights(a, n - 1), 1.0 - a);
      TimesOne(1.0 - a);
    }
  }

  /** Once `span` numbers have been seen, the exponential average is their sum weighted by `a(1 - a)^k`, `k`
      observations back, with `a = 2 / (span + 1)`; the weights add up to one. */
  lemma EmaIsWeighted(fpu: Fpu<Exact>, v: seq<real>, span: nat)
    requires ExactOps(fpu) && 1 <= span <= |v|
    ensures EmaAt(fpu, Nums(v), span, |v| - 1) == Num(Dot(Weights(AlphaOf(span), |v|), v))
    ensures Total(Weights(AlphaOf(span), |v|)) == 1.0
  {
    hide ExactOps, EmaState, AlphaOf, Nums, Weights;
    assert Nums(v)[..|v|] == Nums(v);
    EmaStateOf(fpu, v, span);
    LevelIsDot(AlphaOf(span), v);
    WeightsAddUp(AlphaOf(span), |v|);
    NumIsFinite(fpu, v[|v| - 1]);
  }

  /** The finite observations of a series, in order. */
  function Finite<F>(fpu: Fpu<F>, x: seq<F>): seq<F> {
    if x == [] then []
    else Finite(fpu, x[..|x| - 1]) + if fpu.isFinite(x[|x| - 1]) then [x[|x| - 1]] else []
  }

  /** In every arithmetic, observations that are not finite leave the average where it was. */
  lemma {:induction false} EmaSkipsMissing<F>(fpu: Fpu<F>, x: seq<F>, span: nat)
    ensures EmaState(fpu, x, span) == EmaState(fpu, Finite(fpu, x), span)
    ensures EmaState(fpu, x, span).1 == |Finite(fpu, x)|
  {
    if x != [] {
      var front, last := x[..|x| - 1], x[|x| - 1];
      EmaSkipsMissing(fpu, front, span);
      if fpu.isFinite(last) {
        var kept := Finite(fpu, x);
        assert kept[..|kept| - 1] == Finite(fpu, front) && kept[|kept| - 1] == last;
      } else {
        assert Finite(fpu, x) == Finite(fpu, front);
      }
    }
  }

  /** In every arithmetic an average is there exactly once `span` finite observations have been seen, at a
      finite one, and is then the level over those alone. */
  lemma EmaPresentExactly<F>(fpu: Fpu<F>, x: seq<F>, span: nat, i: nat)
    requires i < |x| && span >= 1
    ensures var seen := Finite(fpu, x[..i + 1]);
      EmaAt(fpu, x, span, i) ==
        if fpu.isFinite(x[i]) && |seen| >= span then EmaState(fpu, seen, span).0 else fpu.nan
  {
    hide EmaState, Finite;
    EmaSkipsMissing(fpu, x[..i + 1], span);
  }

  // ---------------------------------------------------------------- trade flow

  function Magnitudes(q: seq<real>): (r: seq<real>)
    ensures |r| == |q| && forall i :: 0 <= i < |q| ==> r[i] == Abs(q[i])
  {
    seq(|q|, i requires 0 <= i < |q| => Abs(q[i]))
  }

  /** The magnitude on the side of the sign; a zero sign is on neither. */
  function Sided(q: real, g: real): real {
    if g > 0.0 then Abs(q) else if g < 0.0 then -Abs(q) else 0.0
  }

  function SidedAll(q: seq<real>, g: seq<real>): (r: seq<real>)
    requires |q| == |g|
    ensures |r| == |q| && forall i :: 0 <= i < |q| ==> r[i] == Sided(q[i], g[i])
  {
    seq(|q|, i requires 0 <= i < |q| => Sided(q[i], g[i]))
  }

  lemma VolumesAre(fpu: Fpu<Exact>, q: seq<real>, g: seq<real>)
    requires ExactOps(fpu) && |q| == |g|
    ensures Volumes(fpu, Nums(q)) == Nums(Magnitudes(q))
    ensures Signed(fpu, Nums(q), Nums(g)) == Nums(SidedAll(q, g))
  {
    hide ExactOps;
    forall i | 0 <= i < |q|
      ensures fpu.abs(Num(q[i])) == Num(Abs(q[i]))
      ensures fpu.mul(NpSign(fpu, Num(g[i])), fpu.abs(Num(q[i]))) == Num(Sided(q[i], g[i]))
    {
      SideIs(fpu, q[i], g[i]);
    }
  }

  lemma SideIs(fpu: Fpu<Exact>, q: real, g: real)
    requires ExactOps(fpu)
    ensures fpu.abs(Num(q)) == Num(Abs(q))
    ensures fpu.mul(NpSign(fpu, Num(g)), fpu.abs(Num(q))) == Num(Sided(q, g))
  {
    hide ExactOps, NpSign, Times;
    TestsOn(fpu, Num(q), Num(g));
    SignIs(fpu, g);
    var s := if g > 0.0 then 1.0 else if g < 0.0 then -1.0 else 0.0;
    ProductsOn(fpu, Num(s), Num(Abs(q)));
    UnitTimes(Abs(q));
  }

  lemma SignIs(fpu: Fpu<Exact>, g: real)
    requires ExactOps(fpu)
    ensures NpSign(fpu, Num(g)) == Num(if g > 0.0 then 1.0 else if g < 0.0 then -1.0 else 0.0)
  {
    hide ExactOps;
    NatIs(fpu, 0);
    NatIs(fpu, 1);
    TestsOn(fpu, Num(g), Num(0.0));
    TestsOn(fpu, Num(0.0), Num(g));
    TestsOn(fpu, Num(1.0), Num(g));
  }

  lemma UnitTimes(x: real)
    ensures Times(1.0, x) == x && Times(-1.0, x) == -x && Times(0.0, x) == 0.0
  {
  }

  lemma {:induction false} SidedWithin(q: seq<real>, g: seq<real>)
    requires |q| == |g|
    ensures -Total(Magnitudes(q)) <= Total(SidedAll(q, g)) <= Total(Magnitudes(q))
  {
    if q != [] {
      var n := |q| - 1;
      assert Magnitudes(q)[..n] == Magnitudes(q[..n]) && SidedAll(q, g)[..n] == SidedAll(q[..n], g[..n]);
      SidedWithin(q[..n], g[..n]);
    }
  }

  /** Trade flow is the signed share of its window's volume, from -1 to 1; without volume there is none. */
  lemma FlowIs(fpu: Fpu<Exact>, q: seq<real>, g: seq<real>, w: nat, i: nat)
    requires ExactOps(fpu) && 1 <= w <= i + 1 <= |q| && |q| == |g|
    ensures var sizes, signs := WindowAt(q, w, i), WindowAt(g, w, i);
      var flow, volume := FlowAt(fpu, Nums(q), Nums(g), w, i), Total(Magnitudes(sizes));
      && (flow.Num? <==> volume > 0.0)
      && (flow.Num? ==> -1.0 <= flow.v <= 1.0 && Times(volume, flow.v) == Total(SidedAll(sizes, signs)))
  {
    hide ExactOps, SumAt, Volumes, Signed, Nums, Over, Times, Total;
    var sizes, signs := WindowAt(q, w, i), WindowAt(g, w, i);
    VolumesAre(fpu, q, g);
    WindowCells(fpu, Magnitudes(q), w, 0, i);
    WindowCells(fpu, SidedAll(q, g), w, 0, i);
    assert WindowAt(Magnitudes(q), w, i) == Magnitudes(sizes);
    assert WindowAt(SidedAll(q, g), w, i) == SidedAll(sizes, signs);
    SidedWithin(sizes, signs);
    NumsLength(q);
    NumsLength(g);
    FlowOfTotals(fpu, Total(SidedAll(sizes, signs)), Total(Magnitudes(sizes)));
  }

  lemma NumsLength(v: seq<real>)
    ensures |Nums(v)| == |v|
  {
  }

  lemma FlowOfTotals(fpu: Fpu<Exact>, signed: real, volume: real)
    requires ExactOps(fpu) && -volume <= signed <= volume
    ensures var flow := FlowOf(fpu, Num(signed), Num(volume));
      && (flow.Num? <==> volume > 0.0)
      && (flow.Num? ==> -1.0 <= flow.v <= 1.0 && Times(volume, flow.v) == signed)
  {
    hide ExactOps, Over, Times;
    NanIs(fpu);
    TestsOn(fpu, Num(volume), Num(signed));
    ProductsOn(fpu, Num(signed), Num(volume));
    if volume > 0.0 { Share(signed, volume); }
  }
}
