/** Why a bounded buffer refuses exponential averages: over exact arithmetic, no finite stretch of the
    past determines their value.
 */
module EmaHistory {
  import opened Float
  import opened Registry
  import opened Cells
  import opened ExactReals
  import opened Reals

  function AlphaOf(span: nat): real {
    2.0 / (span as real + 1.0)
  }

  /** One step of the recursion: from `level` towards the observation `v`. */
  function Towards(a: real, level: real, v: real): real {
    level + Times(a, v - level)
  }

  lemma AlphaBounds(span: nat)
    requires span >= 1
    ensures 0.0 < AlphaOf(span) <= 1.0
    ensures span == 1 <==> AlphaOf(span) == 1.0
  {
  }

  lemma AlphaShrinks(fast: nat, slow: nat)
    requires 1 <= fast < slow
    ensures AlphaOf(slow) < AlphaOf(fast)
  {
    var f, s := fast as real + 1.0, slow as real + 1.0;
    assert 2.0 / s < 2.0 / f;
  }

  lemma AlphaIs(fpu: Fpu<Exact>, span: nat)
    requires ExactOps(fpu)
    ensures Alpha(fpu, span) == Num(AlphaOf(span))
  {
    hide ExactOps;
    NatIs(fpu, span);
    NatIs(fpu, 1);
    NatIs(fpu, 2);
    OpsOn(fpu, Num(span as real), Num(1.0));
    OpsOn(fpu, Num(2.0), Num(span as real + 1.0));
  }

  lemma StepIs(fpu: Fpu<Exact>, span: nat, level: real, v: real)
    requires ExactOps(fpu)
    ensures fpu.add(Num(level), fpu.mul(Alpha(fpu, span), fpu.sub(Num(v), Num(level))))
         == Num(Towards(AlphaOf(span), level, v))
  {
    hide ExactOps, AlphaOf, Times;
    AlphaIs(fpu, span);
    OpsOn(fpu, Num(v), Num(level));
    OpsOn(fpu, Num(AlphaOf(span)), Num(v - level));
    OpsOn(fpu, Num(level), Num(Times(AlphaOf(span), v - level)));
  }

  /** Levels that differ stay different under the same observation, unless the step forgets everything. */
  lemma TowardsInjective(a: real, p: real, q: real, v: real)
    requires a != 1.0 && p != q
    ensures Towards(a, p, v) != Towards(a, q, v)
  {
    hide Times;
    NonZero(1.0 - a, p - q);
    Gaps(a, p, q, v);
  }

  lemma Gaps(a: real, p: real, q: real, v: real)
    ensures Times(1.0 - a, p - q) == (p - q) + Times(a, v - p) - Times(a, v - q)
  {
  }

  lemma NonZero(x: real, y: real)
    requires x != 0.0 && y != 0.0
    ensures Times(x, y) != 0.0
  {
  }

  /** One observation of `b`, then ones. */
  function StepSeries(b: real, n: nat): seq<Exact> {
    seq(n, i => if i == 0 then Num(b) else Num(1.0))
  }

  /** The exponential level at the end of such a series. */
  function Level(a: real, b: real, n: nat): real {
    if n <= 1 then b else Towards(a, Level(a, b, n - 1), 1.0)
  }

  /** The recursion on numbers, from a level that has been seeded. */
  lemma EmaStep(fpu: Fpu<Exact>, x: seq<Exact>, span: nat)
    requires ExactOps(fpu) && x != [] && x[|x| - 1].Num?
    requires EmaState(fpu, x[..|x| - 1], span).0.Num? && EmaState(fpu, x[..|x| - 1], span).1 > 0
    ensures var (level, seen) := EmaState(fpu, x[..|x| - 1], span);
      EmaState(fpu, x, span) == (Num(Towards(AlphaOf(span), level.v, x[|x| - 1].v)), seen + 1)
  {
    hide ExactOps, Alpha, AlphaOf, Towards;
    StepIs(fpu, span, EmaState(fpu, x[..|x| - 1], span).0.v, x[|x| - 1].v);
    NumIsFinite(fpu, x[|x| - 1].v);
  }

  lemma EmaSeed(fpu: Fpu<Exact>, x: seq<Exact>, span: nat)
    requires ExactOps(fpu) && x != [] && EmaState(fpu, x[..|x| - 1], span).1 == 0
    ensures EmaState(fpu, x, span)
         == if x[|x| - 1].Num? then (x[|x| - 1], 1) else (EmaState(fpu, x[..|x| - 1], span).0, 0)
  {
    hide ExactOps;
    OpsOn(fpu, x[|x| - 1], NotANumber);
  }

  lemma {:induction false} EmaOfStep(fpu: Fpu<Exact>, span: nat, b: real, n: nat)
    requires ExactOps(fpu) && n >= 1
    ensures EmaState(fpu, StepSeries(b, n), span) == (Num(Level(AlphaOf(span), b, n)), n)
  {
    hide ExactOps, AlphaOf, Towards, EmaState, StepSeries;
    StepSeriesGrows(b, n);
    if n == 1 {
      EmaOfFirst(fpu, span, b);
    } else {
      EmaOfStep(fpu, span, b, n - 1);
      EmaStep(fpu, StepSeries(b, n), span);
    }
  }

  lemma StepSeriesGrows(b: real, n: nat)
    requires n >= 1
    ensures |StepSeries(b, n)| == n && StepSeries(b, n)[..n - 1] == StepSeries(b, n - 1)
    ensures StepSeries(b, n)[n - 1] == Num(if n == 1 then b else 1.0)
  {
  }

  lemma EmaOfFirst(fpu: Fpu<Exact>, span: nat, b: real)
    requires ExactOps(fpu)
    ensures EmaState(fpu, StepSeries(b, 1), span) == (Num(b), 1)
  {
    hide ExactOps;
    var x := StepSeries(b, 1);
    assert x[..0] == [];
    EmaSeed(fpu, x, span);
  }

  lemma EmaAtEnd(fpu: Fpu<Exact>, span: nat, b: real, n: nat)
    requires ExactOps(fpu) && 1 <= span <= n
    ensures EmaAt(fpu, StepSeries(b, n), span, n - 1) == Num(Level(AlphaOf(span), b, n))
  {
    hide ExactOps, Level, AlphaOf, EmaState, StepSeries;
    var x := StepSeries(b, n);
    StepSeriesGrows(b, n);
    assert x[..n] == x;
    NumIsFinite(fpu, if n == 1 then b else 1.0);
    EmaOfStep(fpu, span, b, n);
  }

  lemma NumIsFinite(fpu: Fpu<Exact>, v: real)
    requires ExactOps(fpu)
    ensures fpu.isFinite(Num(v))
  {
    hide ExactOps;
    OpsOn(fpu, Num(v), NotANumber);
  }

  lemma {:induction false} LevelOfOnes(a: real, n: nat)
    ensures Level(a, 1.0, n) == 1.0
  {
    if n > 0 { LevelOfOnes(a, n - 1); }
  }

  lemma LevelRemembers(a: real, n: nat)
    requires a != 1.0
    ensures Level(a, 2.0, n) != 1.0
  {
    if n > 1 {
      LevelRemembers(a, n - 1);
      TowardsInjective(a, Level(a, 2.0, n - 1), 1.0, 1.0);
    }
  }

  lemma TowardsOrdered(a: real, b: real, p: real, q: real)
    requires 0.0 < a < b <= 1.0 && 1.0 <= p <= q && 1.0 < q
    ensures 1.0 <= Towards(b, p, 1.0) < Towards(a, q, 1.0)
  {
    hide Towards;
    FromOne(b, p);
    FromOne(a, q);
    ProductsOrdered(1.0 - b, 1.0 - a, p - 1.0, q - 1.0);
  }

  lemma FromOne(a: real, p: real)
    ensures Towards(a, p, 1.0) == 1.0 + (1.0 - a) * (p - 1.0)
  {
  }

  lemma ProductsOrdered(k: real, l: real, u: real, w: real)
    requires 0.0 <= k < l && 0.0 <= u <= w && 0.0 < w
    ensures 0.0 <= k * u < l * w
  {
    assert k * u <= k * w;
    assert k * w < l * w;
  }

  /** The slower average keeps more of the first observation. */
  lemma LevelOrdered(a: real, b: real, n: nat)
    requires 0.0 < a < b <= 1.0 && n >= 1
    ensures 1.0 <= Level(b, 2.0, n) <= Level(a, 2.0, n) && 1.0 < Level(a, 2.0, n)
    ensures n >= 2 ==> Level(b, 2.0, n) < Level(a, 2.0, n)
  {
    if n > 1 {
      LevelOrdered(a, b, n - 1);
      TowardsOrdered(a, b, Level(b, 2.0, n - 1), Level(a, 2.0, n - 1));
    }
  }

  /** Two series that end in the same `depth` observations. */
  ghost predicate SameRecent(x: seq<Exact>, y: seq<Exact>, depth: nat) {
    |x| == |y| >= depth && x[|x| - depth..] == y[|y| - depth..]
  }

  /** Two such series on which a transform of one input ends differently. */
  ghost predicate Separates(fpu: Fpu<Exact>, op: Op, depth: nat, x: seq<Exact>, y: seq<Exact>) {
    && SameRecent(x, y, depth) && x != [] && op.Arity() == 1
    && Cell(fpu, op, [x], |x|, |x| - 1) != Cell(fpu, op, [y], |y|, |y| - 1)
  }

  /** The last `depth` observations do not determine the last value of the transform. */
  ghost predicate Undetermined(fpu: Fpu<Exact>, op: Op, depth: nat) {
    exists x, y :: Separates(fpu, op, depth, x, y)
  }

  lemma StepSeriesRecent(depth: nat, n: nat)
    requires depth < n
    ensures SameRecent(StepSeries(1.0, n), StepSeries(2.0, n), depth)
    ensures |StepSeries(1.0, n)| == |StepSeries(2.0, n)| == n
  {
  }

  lemma LongerSpanForgetsNothing(fpu: Fpu<Exact>, span: nat, depth: nat)
    requires ExactOps(fpu) && span >= 2 && depth >= 1
    ensures Undetermined(fpu, EmaOp(span), depth)
  {
    hide ExactOps, Cell, StepSeries, SameRecent;
    var n := depth + span;
    EmasDiffer(fpu, span, n);
    StepSeriesRecent(depth, n);
    assert Separates(fpu, EmaOp(span), depth, StepSeries(1.0, n), StepSeries(2.0, n));
  }

  lemma EmasDiffer(fpu: Fpu<Exact>, span: nat, n: nat)
    requires ExactOps(fpu) && 2 <= span <= n
    ensures Cell(fpu, EmaOp(span), [StepSeries(1.0, n)], n, n - 1)
         != Cell(fpu, EmaOp(span), [StepSeries(2.0, n)], n, n - 1)
  {
    hide ExactOps, AlphaOf, Level, EmaAt;
    EmaAtEnd(fpu, span, 1.0, n);
    EmaAtEnd(fpu, span, 2.0, n);
    AlphaBounds(span);
    LevelOfOnes(AlphaOf(span), n);
    LevelRemembers(AlphaOf(span), n);
  }

  lemma LevelIsNumber(fpu: Fpu<Exact>, x: seq<Exact>)
    requires ExactOps(fpu)
    ensures EmaState(fpu, x, 1).1 > 0 ==> EmaState(fpu, x, 1).0.Num?
    decreases |x|
  {
    hide ExactOps;
    if x != [] {
      LevelIsNumber(fpu, x[..|x| - 1]);
      OpsOn(fpu, x[|x| - 1], NotANumber);
      if EmaState(fpu, x[..|x| - 1], 1).1 == 0 {
        EmaSeed(fpu, x, 1);
      } else if x[|x| - 1].Num? {
        EmaStep(fpu, x, 1);
      }
    }
  }

  lemma SpanOneLevel(fpu: Fpu<Exact>, x: seq<Exact>)
    requires ExactOps(fpu) && x != [] && x[|x| - 1].Num?
    ensures EmaState(fpu, x, 1).0 == x[|x| - 1] && EmaState(fpu, x, 1).1 >= 1
  {
    AlphaBounds(1);
    LevelIsNumber(fpu, x[..|x| - 1]);
    if EmaState(fpu, x[..|x| - 1], 1).1 == 0 {
      EmaSeed(fpu, x, 1);
    } else {
      EmaStep(fpu, x, 1);
    }
  }

  lemma SpanOne(fpu: Fpu<Exact>, x: seq<Exact>)
    requires ExactOps(fpu) && x != []
    ensures EmaAt(fpu, x, 1, |x| - 1) == x[|x| - 1]
  {
    hide ExactOps;
    assert x[..|x|] == x;
    OpsOn(fpu, x[|x| - 1], NotANumber);
    if x[|x| - 1].Num? { SpanOneLevel(fpu, x); }
  }

  lemma SpanOneDetermined(fpu: Fpu<Exact>, x: seq<Exact>, y: seq<Exact>, depth: nat)
    requires ExactOps(fpu) && depth >= 1
    ensures !Separates(fpu, EmaOp(1), depth, x, y)
  {
    if SameRecent(x, y, depth) && x != [] { SameEnd(fpu, x, y, depth); }
  }

  lemma SameEnd(fpu: Fpu<Exact>, x: seq<Exact>, y: seq<Exact>, depth: nat)
    requires ExactOps(fpu) && depth >= 1 && SameRecent(x, y, depth) && x != []
    ensures Cell(fpu, EmaOp(1), [x], |x|, |x| - 1) == Cell(fpu, EmaOp(1), [y], |y|, |y| - 1)
  {
    hide ExactOps, EmaAt;
    assert x[|x| - 1] == x[|x| - depth..][depth - 1];
    assert y[|y| - 1] == y[|y| - depth..][depth - 1];
    SpanOne(fpu, x);
    SpanOne(fpu, y);
  }

  /** With a span of one an exponential average is its last observation; with any longer span, and for
      every finite depth, there are two series equal on the last `depth` observations whose averages
      differ. */
  lemma EmaNeedsHistory(fpu: Fpu<Exact>, span: nat, depth: nat)
    requires ExactOps(fpu) && span >= 1 && depth >= 1
    ensures Undetermined(fpu, EmaOp(span), depth) <==> span >= 2
  {
    hide ExactOps, Separates;
    if span >= 2 {
      LongerSpanForgetsNothing(fpu, span, depth);
    } else {
      forall x, y
        ensures !Separates(fpu, EmaOp(1), depth, x, y)
      {
        SpanOneDetermined(fpu, x, y, depth);
      }
    }
  }

  lemma QuotientZero(x: real, y: real)
    requires y > 0.0 && x != 0.0
    ensures Over(x, y) != 0.0
  {
  }

  lemma CrossOfNumbers(fpu: Fpu<Exact>, f: real, s: real)
    requires ExactOps(fpu) && s > 0.0
    ensures CrossOf(fpu, Num(f), Num(s)) == Num(Over(f - s, s))
    ensures f != s ==> Over(f - s, s) != 0.0
  {
    hide ExactOps, Over;
    if f != s { QuotientZero(f - s, s); }
    OpsOn(fpu, Num(s), Num(f));
    OpsOn(fpu, Num(f), Num(s));
    OpsOn(fpu, Num(f - s), Num(s));
  }

  /** The crossover of two exponential averages is undetermined at every finite depth. */
  lemma EmaCrossoverNeedsHistory(fpu: Fpu<Exact>, fast: nat, slow: nat, depth: nat)
    requires ExactOps(fpu) && 1 <= fast < slow && depth >= 1
    ensures Undetermined(fpu, EmaCrossOp(fast, slow), depth)
  {
    hide ExactOps, Cell, StepSeries, SameRecent;
    var n := depth + slow;
    CrossesDiffer(fpu, fast, slow, n);
    StepSeriesRecent(depth, n);
    assert Separates(fpu, EmaCrossOp(fast, slow), depth, StepSeries(1.0, n), StepSeries(2.0, n));
  }

  lemma CrossesDiffer(fpu: Fpu<Exact>, fast: nat, slow: nat, n: nat)
    requires ExactOps(fpu) && 1 <= fast < slow <= n
    ensures Cell(fpu, EmaCrossOp(fast, slow), [StepSeries(1.0, n)], n, n - 1)
         != Cell(fpu, EmaCrossOp(fast, slow), [StepSeries(2.0, n)], n, n - 1)
  {
    hide ExactOps, AlphaOf, Level, EmaAt, CrossOf, Cell;
    CrossAtEnd(fpu, fast, slow, 1.0, n);
    CrossAtEnd(fpu, fast, slow, 2.0, n);
    AlphaBounds(fast);
    AlphaBounds(slow);
    AlphaShrinks(fast, slow);
    LevelOfOnes(AlphaOf(fast), n);
    LevelOfOnes(AlphaOf(slow), n);
    LevelOrdered(AlphaOf(slow), AlphaOf(fast), n);
    var f, s := Level(AlphaOf(fast), 2.0, n), Level(AlphaOf(slow), 2.0, n);
    CrossOfNumbers(fpu, 1.0, 1.0);
    CrossOfNumbers(fpu, f, s);
  }

  lemma CrossAtEnd(fpu: Fpu<Exact>, fast: nat, slow: nat, b: real, n: nat)
    requires ExactOps(fpu) && 1 <= fast < slow <= n
    ensures Cell(fpu, EmaCrossOp(fast, slow), [StepSeries(b, n)], n, n - 1)
         == CrossOf(fpu, Num(Level(AlphaOf(fast), b, n)), Num(Level(AlphaOf(slow), b, n)))
  {
    hide ExactOps, AlphaOf, Level, EmaAt, CrossOf;
    EmaAtEnd(fpu, fast, b, n);
    EmaAtEnd(fpu, slow, b, n);
  }
}
