/** What the pairwise order of `Numeric` is worth, over real arithmetic: exact when every addition is
    exact, and within a logarithmic number of roundings of the true sum when every addition is off
    by a bounded relative error.
 */
module Accuracy {
  import opened Float
  import opened Modular
  import opened Numeric
  import opened Reals

  /** Windows of at most 16 + 112 * 2^k elements: up to 128, then doubling with each level of splits. */
  ghost predicate Fits(n: nat, k: nat) {
    n <= 16 + 112 * Pow2(k)
  }

  function Pow(b: real, n: nat): real {
    if n == 0 then 1.0 else b * Pow(b, n - 1)
  }

  // ---------------------------------------------------------------- depth

  /** The plain loop puts its first element through one addition for every element of the window. */
  lemma ChainDepth<F>(t: SumTree<F>, xs: seq<F>)
    ensures Depth(Chain(t, xs)) == Depth(t) + |xs|
    decreases |xs|
  {
    if xs != [] { ChainDepth(t, xs[..|xs| - 1]); }
  }

  lemma {:induction false} LaneDepth<F>(xs: seq<F>, k: nat, blocks: nat)
    requires k < 8 && 1 <= blocks && 8 * blocks <= |xs|
    ensures Depth(Lane(xs, k, blocks)) == blocks - 1
  {
    if blocks > 1 { LaneDepth(xs, k, blocks - 1); }
  }

  lemma CombineDepth<F>(r: seq<SumTree<F>>, d: nat)
    requires |r| == 8 && forall k :: 0 <= k < 8 ==> Depth(r[k]) == d
    ensures Depth(Combine(r)) == d + 3
  {
    var a, b, c, e := Add(r[0], r[1]), Add(r[2], r[3]), Add(r[4], r[5]), Add(r[6], r[7]);
    assert Depth(Add(a, b)) == d + 2;
    assert Depth(Add(c, e)) == d + 2;
  }

  lemma BlockDepth<F>(xs: seq<F>)
    requires |xs| <= BLOCK_SIZE
    ensures Depth(InnerTree(xs)) <= 24
  {
    if |xs| < 8 {
      ChainDepth(Zero, xs);
    } else {
      var b := |xs| / 8;
      forall k | 0 <= k < 8
        ensures Depth(Lanes(xs, b)[k]) == b - 1
      {
        LaneDepth(xs, k, b);
      }
      CombineDepth(Lanes(xs, b), b - 1);
      ChainDepth(Combine(Lanes(xs, b)), xs[8 * b..]);
    }
  }

  lemma {:induction false} InnerDepth<F>(xs: seq<F>, k: nat)
    requires Fits(|xs|, k)
    ensures Depth(InnerTree(xs)) <= 24 + k
    decreases |xs|
  {
    if |xs| <= BLOCK_SIZE {
      BlockDepth(xs);
    } else {
      var m := Split(|xs|);
      assert k > 0 && |xs| - m <= 16 + 112 * Pow2(k - 1);
      InnerDepth(xs[..m], k - 1);
      InnerDepth(xs[m..], k - 1);
    }
  }

  /** No element of a window of at most 16 + 112 * 2^k passes through more than 25 + k additions. */
  lemma PairwiseDepth<F>(xs: seq<F>, k: nat)
    requires Fits(|xs|, k)
    ensures Depth(PairwiseTree(xs)) <= 25 + k
  {
    InnerDepth(xs, k);
  }

  // ---------------------------------------------------------------- exact and rounded additions

  ghost predicate ExactAdd(fpu: Fpu<real>) {
    fpu.Zero() == 0.0 && forall a, b :: fpu.add(a, b) == a + b
  }

  /** Every addition returns the true sum up to a relative error of at most `u`. */
  ghost predicate RoundedAdd(fpu: Fpu<real>, u: real) {
    0.0 <= u && fpu.Zero() == 0.0 && forall a, b :: RoundedAt(fpu, u, a, b)
  }

  predicate RoundedAt(fpu: Fpu<real>, u: real, a: real, b: real) {
    Abs(fpu.add(a, b) - (a + b)) <= u * Abs(a + b)
  }

  function Sum(xs: seq<real>): real {
    if xs == [] then 0.0 else Sum(xs[..|xs| - 1]) + xs[|xs| - 1]
  }

  function SumOfMagnitudes(xs: seq<real>): real {
    if xs == [] then 0.0 else SumOfMagnitudes(xs[..|xs| - 1]) + Abs(xs[|xs| - 1])
  }

  function TreeSum(t: SumTree<real>): real {
    match t
    case Zero => 0.0
    case Leaf(v) => v
    case Add(l, r) => TreeSum(l) + TreeSum(r)
  }

  function TreeMagnitude(t: SumTree<real>): real {
    match t
    case Zero => 0.0
    case Leaf(v) => Abs(v)
    case Add(l, r) => TreeMagnitude(l) + TreeMagnitude(r)
  }

  lemma {:induction false} ValueTree(t: SumTree<real>, w: real -> real)
    requires forall x :: w(x) == x
    ensures TreeTotal(t, w) == TreeSum(t)
  {
    if t.Add? {
      ValueTree(t.l, w);
      ValueTree(t.r, w);
    }
  }

  lemma {:induction false} ValueSeq(xs: seq<real>, w: real -> real)
    requires forall x :: w(x) == x
    ensures SeqTotal(xs, w) == Sum(xs)
    decreases |xs|
  {
    if xs != [] { ValueSeq(xs[..|xs| - 1], w); }
  }

  lemma {:induction false} MagnitudeTree(t: SumTree<real>, w: real -> real)
    requires forall x :: w(x) == Abs(x)
    ensures TreeTotal(t, w) == TreeMagnitude(t)
  {
    if t.Add? {
      MagnitudeTree(t.l, w);
      MagnitudeTree(t.r, w);
    }
  }

  lemma {:induction false} MagnitudeSeq(xs: seq<real>, w: real -> real)
    requires forall x :: w(x) == Abs(x)
    ensures SeqTotal(xs, w) == SumOfMagnitudes(xs)
    decreases |xs|
  {
    if xs != [] { MagnitudeSeq(xs[..|xs| - 1], w); }
  }

  lemma WeighedByValue(xs: seq<real>, w: real -> real)
    requires forall x :: w(x) == x
    ensures TreeSum(PairwiseTree(xs)) == Sum(xs)
  {
    EveryElementWeighedOnce(xs, w);
    ValueTree(PairwiseTree(xs), w);
    ValueSeq(xs, w);
  }

  lemma WeighedByMagnitude(xs: seq<real>, w: real -> real)
    requires forall x :: w(x) == Abs(x)
    ensures TreeMagnitude(PairwiseTree(xs)) == SumOfMagnitudes(xs)
  {
    EveryElementWeighedOnce(xs, w);
    MagnitudeTree(PairwiseTree(xs), w);
    MagnitudeSeq(xs, w);
  }

  /** Re-associating the window moves neither its sum nor its sum of magnitudes. */
  lemma PairwiseTotals(xs: seq<real>)
    ensures TreeSum(PairwiseTree(xs)) == Sum(xs)
    ensures TreeMagnitude(PairwiseTree(xs)) == SumOfMagnitudes(xs)
  {
    WeighedByValue(xs, x => x);
    WeighedByMagnitude(xs, x => Abs(x));
  }

  lemma {:induction false} ExactEval(fpu: Fpu<real>, t: SumTree<real>)
    requires ExactAdd(fpu)
    ensures Eval(fpu, t) == TreeSum(t)
  {
    match t
    case Zero =>
    case Leaf(_) =>
    case Add(l, r) =>
      ExactEval(fpu, l);
      ExactEval(fpu, r);
  }

  /** Over exact arithmetic the pairwise order is the plain sum. */
  lemma PairwiseIsExact(fpu: Fpu<real>, xs: seq<real>)
    requires ExactAdd(fpu)
    ensures PairwiseOf(fpu, xs) == Sum(xs)
  {
    ExactEval(fpu, PairwiseTree(xs));
    PairwiseTotals(xs);
  }

  lemma {:induction false} MagnitudeBoundsTotal(t: SumTree<real>)
    ensures Abs(TreeSum(t)) <= TreeMagnitude(t)
  {
    match t
    case Zero =>
    case Leaf(_) =>
    case Add(l, r) =>
      MagnitudeBoundsTotal(l);
      MagnitudeBoundsTotal(r);
  }

  // The relative error is carried as a function `scale` with three laws, not as a product: the
  // induction over the tree is then linear.

  predicate AddsAt(scale: real -> real, x: real, y: real) {
    scale(x + y) == scale(x) + scale(y)
  }

  predicate MonotoneAt(scale: real -> real, x: real, y: real) {
    x <= y ==> scale(x) <= scale(y)
  }

  ghost predicate IsScale(scale: real -> real) {
    && scale(0.0) == 0.0
    && (forall x, y :: MonotoneAt(scale, x, y))
    && (forall x, y :: AddsAt(scale, x, y))
  }

  ghost predicate Rounds(fpu: Fpu<real>, scale: real -> real) {
    fpu.Zero() == 0.0 && forall a, b :: RoundsAt(fpu, scale, a, b)
  }

  predicate RoundsAt(fpu: Fpu<real>, scale: real -> real, a: real, b: real) {
    Abs(fpu.add(a, b) - (a + b)) <= scale(Abs(a + b))
  }

  /** The error of `d` rounded additions over partial sums of magnitude `m`: each addition keeps the
      error it is handed and adds the relative error of everything it can be looking at. */
  function Err(scale: real -> real, d: nat, m: real): real {
    if d == 0 then 0.0 else var e := Err(scale, d - 1, m); e + scale(m + e)
  }

  lemma ErrNonNegative(scale: real -> real, d: nat, m: real)
    requires IsScale(scale) && 0.0 <= m
    ensures 0.0 <= Err(scale, d, m)
  {
    if d > 0 {
      ErrNonNegative(scale, d - 1, m);
      assert MonotoneAt(scale, 0.0, m + Err(scale, d - 1, m));
    }
  }

  lemma ErrAdds(scale: real -> real, d: nat, m: real, n: real)
    requires IsScale(scale)
    ensures Err(scale, d, m + n) == Err(scale, d, m) + Err(scale, d, n)
  {
    if d > 0 {
      ErrAdds(scale, d - 1, m, n);
      var x, y := m + Err(scale, d - 1, m), n + Err(scale, d - 1, n);
      assert AddsAt(scale, x, y);
      assert m + n + Err(scale, d - 1, m + n) == x + y;
    }
  }

  ghost predicate Within(fpu: Fpu<real>, t: SumTree<real>, scale: real -> real, d: nat) {
    Abs(Eval(fpu, t) - TreeSum(t)) <= Err(scale, d, TreeMagnitude(t))
  }

  /** One rounded addition `s` of `a` and `b`, which stand for the exact partial sums `sa` and `sb`. */
  lemma RoundingStep(scale: real -> real, a: real, b: real, s: real, sa: real, sb: real, e: real, m: real)
    requires IsScale(scale)
    requires Abs(s - (a + b)) <= scale(Abs(a + b))
    requires Abs(a - sa) + Abs(b - sb) <= e && Abs(sa) + Abs(sb) <= m
    ensures Abs(s - (sa + sb)) <= e + scale(m + e)
  {
    assert Abs(a + b) <= m + e;
    assert MonotoneAt(scale, Abs(a + b), m + e);
  }

  lemma ErrStep(scale: real -> real, d: nat, a: real, b: real, s: real, sa: real, sb: real, ma: real, mb: real)
    requires IsScale(scale)
    requires Abs(s - (a + b)) <= scale(Abs(a + b))
    requires Abs(a - sa) <= Err(scale, d, ma) && Abs(b - sb) <= Err(scale, d, mb)
    requires Abs(sa) <= ma && Abs(sb) <= mb
    ensures Abs(s - (sa + sb)) <= Err(scale, d + 1, ma + mb)
  {
    ErrAdds(scale, d, ma, mb);
    var e := Err(scale, d, ma + mb);
    assert Abs(a - sa) + Abs(b - sb) <= e;
    RoundingStep(scale, a, b, s, sa, sb, e, ma + mb);
  }

  lemma RoundsHere(fpu: Fpu<real>, scale: real -> real, a: real, b: real)
    requires Rounds(fpu, scale)
    ensures RoundsAt(fpu, scale, a, b)
  {
  }

  lemma AddError(fpu: Fpu<real>, l: SumTree<real>, r: SumTree<real>, scale: real -> real, d: nat)
    requires Rounds(fpu, scale) && IsScale(scale)
    requires Within(fpu, l, scale, d) && Within(fpu, r, scale, d)
    ensures Within(fpu, Add(l, r), scale, d + 1)
  {
    hide Err, IsScale, Rounds;
    MagnitudeBoundsTotal(l);
    MagnitudeBoundsTotal(r);
    RoundsHere(fpu, scale, Eval(fpu, l), Eval(fpu, r));
    ErrStep(scale, d, Eval(fpu, l), Eval(fpu, r), fpu.add(Eval(fpu, l), Eval(fpu, r)),
      TreeSum(l), TreeSum(r), TreeMagnitude(l), TreeMagnitude(r));
  }

  lemma {:induction false} EvalError(fpu: Fpu<real>, t: SumTree<real>, scale: real -> real, d: nat)
    requires Rounds(fpu, scale) && IsScale(scale)
    requires Depth(t) <= d
    ensures Within(fpu, t, scale, d)
    decreases t
  {
    if t.Add? {
      EvalError(fpu, t.l, scale, d - 1);
      EvalError(fpu, t.r, scale, d - 1);
      AddError(fpu, t.l, t.r, scale, d - 1);
    } else {
      MagnitudeBoundsTotal(t);
      ErrNonNegative(scale, d, TreeMagnitude(t));
    }
  }

  lemma ErrClosedForm(scale: real -> real, u: real, d: nat, m: real)
    requires forall x :: scale(x) == u * x
    ensures Err(scale, d, m) == (Pow(1.0 + u, d) - 1.0) * m
  {
    if d > 0 {
      ErrClosedForm(scale, u, d - 1, m);
      var p := Pow(1.0 + u, d - 1);
      assert m + (p - 1.0) * m == p * m;
      assert ((1.0 + u) * p - 1.0) * m == (p - 1.0) * m + u * (p * m);
    }
  }

  lemma TimesIsScale(scale: real -> real, u: real)
    requires 0.0 <= u && forall x :: scale(x) == u * x
    ensures IsScale(scale)
  {
    forall x, y
      ensures AddsAt(scale, x, y)
    {
      assert u * (x + y) == u * x + u * y;
    }
    forall x, y
      ensures MonotoneAt(scale, x, y)
    {
      if x <= y { assert u * y - u * x == u * (y - x) >= 0.0; }
    }
  }

  lemma RoundedIsScaled(fpu: Fpu<real>, u: real, scale: real -> real)
    requires RoundedAdd(fpu, u) && forall x :: scale(x) == u * x
    ensures Rounds(fpu, scale) && IsScale(scale)
  {
    TimesIsScale(scale, u);
    forall a, b
      ensures RoundsAt(fpu, scale, a, b)
    {
      assert RoundedAt(fpu, u, a, b);
    }
  }

  lemma ScaledError(fpu: Fpu<real>, xs: seq<real>, u: real, scale: real -> real, d: nat)
    requires RoundedAdd(fpu, u) && forall x :: scale(x) == u * x
    requires Depth(PairwiseTree(xs)) <= d
    ensures Abs(PairwiseOf(fpu, xs) - Sum(xs)) <= Err(scale, d, SumOfMagnitudes(xs))
  {
    RoundedIsScaled(fpu, u, scale);
    EvalError(fpu, PairwiseTree(xs), scale, d);
    PairwiseTotals(xs);
  }

  lemma ProductError(fpu: Fpu<real>, xs: seq<real>, u: real, scale: real -> real, d: nat)
    requires RoundedAdd(fpu, u) && forall x :: scale(x) == u * x
    requires Depth(PairwiseTree(xs)) <= d
    ensures Abs(PairwiseOf(fpu, xs) - Sum(xs)) <= (Pow(1.0 + u, d) - 1.0) * SumOfMagnitudes(xs)
  {
    hide Err, Pow, PairwiseOf, PairwiseTree, Depth, RoundedAdd, Sum, SumOfMagnitudes;
    ScaledError(fpu, xs, u, scale, d);
    ErrClosedForm(scale, u, d, SumOfMagnitudes(xs));
  }

  lemma Times(u: real) returns (scale: real -> real)
    ensures forall x :: scale(x) == u * x
  {
    scale := x => u * x;
  }

  lemma DepthError(fpu: Fpu<real>, xs: seq<real>, u: real, d: nat)
    requires RoundedAdd(fpu, u) && Depth(PairwiseTree(xs)) <= d
    ensures Abs(PairwiseOf(fpu, xs) - Sum(xs)) <= (Pow(1.0 + u, d) - 1.0) * SumOfMagnitudes(xs)
  {
    var scale := Times(u);
    ProductError(fpu, xs, u, scale, d);
  }

  /** The error of a pairwise sum: 25 + k roundings of the sum of magnitudes. */
  lemma PairwiseError(fpu: Fpu<real>, xs: seq<real>, u: real, k: nat)
    requires RoundedAdd(fpu, u)
    requires Fits(|xs|, k)
    ensures Abs(PairwiseOf(fpu, xs) - Sum(xs)) <= (Pow(1.0 + u, 25 + k) - 1.0) * SumOfMagnitudes(xs)
  {
    PairwiseDepth(xs, k);
    DepthError(fpu, xs, u, 25 + k);
  }
}
