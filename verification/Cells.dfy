/** The value each transform has at one observation, and the two rules that make a bounded buffer
    possible: causality and finite, shift-invariant lookback.
 */
module Cells {
  import opened Wrappers
  import opened Float
  import opened Numeric
  import opened Registry

  /** The `w` observations that end at `i`. */
  function Trailing<F>(x: seq<F>, w: nat, i: nat): seq<F>
    requires w <= i + 1 <= |x|
  {
    x[i + 1 - w..i + 1]
  }

  function MeanAt<F>(fpu: Fpu<F>, x: seq<F>, w: nat, i: nat): F
    requires i < |x|
  {
    if w == 0 || i + 1 < w then fpu.nan else MeanOf(fpu, Trailing(x, w, i))
  }

  function StdAt<F>(fpu: Fpu<F>, x: seq<F>, w: nat, ddof: nat, i: nat): F
    requires i < |x|
  {
    if w == 0 || i + 1 < w then fpu.nan else StdOf(fpu, Trailing(x, w, i), ddof)
  }

  function SumAt<F>(fpu: Fpu<F>, x: seq<F>, w: nat, i: nat): F
    requires i < |x|
  {
    if w == 0 || i + 1 < w then fpu.nan else PairwiseOf(fpu, Trailing(x, w, i))
  }

  function ZscoreAt<F>(fpu: Fpu<F>, x: seq<F>, w: nat, ddof: nat, i: nat): F
    requires i < |x|
  {
    ZscoreOf(fpu, x[i], MeanAt(fpu, x, w, i), StdAt(fpu, x, w, ddof, i))
  }

  function ZscoreOf<F>(fpu: Fpu<F>, v: F, mu: F, sd: F): F {
    fpu.OrNan(fpu.Positive(sd), fpu.div(fpu.sub(v, mu), sd))
  }

  function ReturnAt<F>(fpu: Fpu<F>, price: seq<F>, period: nat, i: nat): F
    requires i < |price|
  {
    if period == 0 || i < period then fpu.nan
    else
      var num, den := price[i], price[i - period];
      fpu.OrNan(fpu.Positive(num) && fpu.Positive(den), fpu.ln(fpu.div(num, den)))
  }

  function Returns<F>(fpu: Fpu<F>, price: seq<F>, period: nat): seq<F> {
    seq(|price|, i requires 0 <= i < |price| => ReturnAt(fpu, price, period, i))
  }

  function VolatilityAt<F>(fpu: Fpu<F>, price: seq<F>, w: nat, i: nat): F
    requires i < |price|
  {
    StdAt(fpu, Returns(fpu, price, 1), w, 0, i)
  }

  /** The exponential level after a prefix of the series, and how many finite values it has seen. */
  function EmaState<F>(fpu: Fpu<F>, x: seq<F>, span: nat): (F, nat) {
    if x == [] then (fpu.nan, 0)
    else
      var (level, seen) := EmaState(fpu, x[..|x| - 1], span);
      var v := x[|x| - 1];
      if !fpu.isFinite(v) then (level, seen)
      else if seen == 0 then (v, 1)
      else (fpu.add(level, fpu.mul(Alpha(fpu, span), fpu.sub(v, level))), seen + 1)
  }

  function Alpha<F>(fpu: Fpu<F>, span: nat): F {
    fpu.div(fpu.ofNat(2), fpu.add(fpu.ofNat(span), fpu.ofNat(1)))
  }

  function EmaAt<F>(fpu: Fpu<F>, x: seq<F>, span: nat, i: nat): F
    requires i < |x|
  {
    var (level, seen) := EmaState(fpu, x[..i + 1], span);
    if span == 0 || !fpu.isFinite(x[i]) || seen < span then fpu.nan else level
  }

  function CrossOf<F>(fpu: Fpu<F>, f: F, s: F): F {
    fpu.OrNan(fpu.Positive(fpu.abs(s)), fpu.div(fpu.sub(f, s), s))
  }

  function MidOf<F>(fpu: Fpu<F>, b: F, a: F): F {
    fpu.OrNan(fpu.Positive(b) && fpu.Positive(a), fpu.div(fpu.add(b, a), fpu.ofNat(2)))
  }

  function SpreadOf<F>(fpu: Fpu<F>, b: F, a: F): F {
    fpu.OrNan(fpu.Positive(b) && fpu.Positive(a), fpu.sub(a, b))
  }

  function RelativeSpreadOf<F>(fpu: Fpu<F>, b: F, a: F): F {
    var m := MidOf(fpu, b, a);
    fpu.OrNan(fpu.Positive(m), fpu.mul(fpu.div(fpu.sub(a, b), m), fpu.ofNat(10_000)))
  }

  function ImbalanceOf<F>(fpu: Fpu<F>, b: F, a: F): F {
    var total := fpu.add(b, a);
    fpu.OrNan(fpu.ge(b, fpu.Zero()) && fpu.ge(a, fpu.Zero()) && fpu.Positive(total),
      fpu.div(fpu.sub(b, a), total))
  }

  /** `np.sign`: keeps NaN and zero, unlike a hardware sign bit. */
  function NpSign<F>(fpu: Fpu<F>, v: F): F {
    if fpu.isNan(v) then fpu.nan
    else if fpu.Positive(v) then fpu.ofNat(1)
    else if fpu.gt(fpu.Zero(), v) then fpu.neg(fpu.ofNat(1))
    else fpu.Zero()
  }

  function Volumes<F>(fpu: Fpu<F>, sizes: seq<F>): seq<F> {
    seq(|sizes|, i requires 0 <= i < |sizes| => fpu.abs(sizes[i]))
  }

  function Signed<F>(fpu: Fpu<F>, sizes: seq<F>, signs: seq<F>): seq<F>
    requires |sizes| == |signs|
  {
    seq(|sizes|, i requires 0 <= i < |sizes| => fpu.mul(NpSign(fpu, signs[i]), fpu.abs(sizes[i])))
  }

  function FlowAt<F>(fpu: Fpu<F>, sizes: seq<F>, signs: seq<F>, w: nat, i: nat): F
    requires i < |sizes| == |signs|
  {
    FlowOf(fpu, SumAt(fpu, Signed(fpu, sizes, signs), w, i), SumAt(fpu, Volumes(fpu, sizes), w, i))
  }

  function FlowOf<F>(fpu: Fpu<F>, signed: F, volume: F): F {
    fpu.OrNan(fpu.Positive(volume), fpu.div(signed, volume))
  }

  function RangeOf<F>(fpu: Fpu<F>, h: F, l: F, c: F): F {
    fpu.OrNan(fpu.Positive(c) && fpu.ge(h, l), fpu.mul(fpu.div(fpu.sub(h, l), c), fpu.ofNat(10_000)))
  }

  function LocationOf<F>(fpu: Fpu<F>, h: F, l: F, c: F): F {
    var width := fpu.sub(h, l);
    fpu.OrNan(fpu.Positive(width),
      fpu.div(fpu.sub(fpu.sub(fpu.mul(fpu.ofNat(2), c), h), l), width))
  }

  ghost predicate Shaped<F>(op: Op, xs: seq<seq<F>>, n: nat) {
    |xs| == op.Arity() && forall k :: 0 <= k < |xs| ==> |xs[k]| == n
  }

  /** The value of one transform at observation `i` of its input series. */
  function Cell<F>(fpu: Fpu<F>, op: Op, xs: seq<seq<F>>, n: nat, i: nat): F
    requires Shaped(op, xs, n) && i < n
  {
    match op
    case MeanOp(w) => MeanAt(fpu, xs[0], w, i)
    case StdOp(w, ddof) => StdAt(fpu, xs[0], w, ddof, i)
    case SumOp(w) => SumAt(fpu, xs[0], w, i)
    case ZscoreOp(w, ddof) => ZscoreAt(fpu, xs[0], w, ddof, i)
    case ReturnOp(p) => ReturnAt(fpu, xs[0], p, i)
    case VolatilityOp(w) => VolatilityAt(fpu, xs[0], w, i)
    case EmaOp(span) => EmaAt(fpu, xs[0], span, i)
    case SmaCrossOp(f, s) => CrossOf(fpu, MeanAt(fpu, xs[0], f, i), MeanAt(fpu, xs[0], s, i))
    case EmaCrossOp(f, s) => CrossOf(fpu, EmaAt(fpu, xs[0], f, i), EmaAt(fpu, xs[0], s, i))
    case MidOp => MidOf(fpu, xs[0][i], xs[1][i])
    case SpreadOp => SpreadOf(fpu, xs[0][i], xs[1][i])
    case RelativeSpreadOp => RelativeSpreadOf(fpu, xs[0][i], xs[1][i])
    case ImbalanceOp => ImbalanceOf(fpu, xs[0][i], xs[1][i])
    case FlowOp(w) => FlowAt(fpu, xs[0], xs[1], w, i)
    case RangeOp => RangeOf(fpu, xs[0][i], xs[1][i], xs[2][i])
    case LocationOp => LocationOf(fpu, xs[0][i], xs[1][i], xs[2][i])
  }

  // ---------------------------------------------------------------- what a cell depends on

  /** `y` is `x` shifted by `a` on the observations `lo..i` of `x`. */
  ghost predicate Agree<F>(x: seq<F>, y: seq<F>, a: nat, lo: nat, i: nat) {
    && a <= lo <= i < |x| && i - a < |y|
    && forall j :: lo <= j <= i ==> x[j] == y[j - a]
  }

  /** `lo..i` holds everything a reach of `reach` needs: either all there is, or enough of it. */
  ghost predicate Covers(reach: Option<nat>, a: nat, lo: nat, i: nat) {
    || (a == 0 && lo == 0)
    || (reach.Some? && lo + reach.value <= i + 1)
  }

  lemma TrailingAgree<F>(x: seq<F>, y: seq<F>, w: nat, a: nat, lo: nat, i: nat)
    requires Agree(x, y, a, lo, i) && lo + w <= i + 1
    ensures Trailing(x, w, i) == Trailing(y, w, i - a)
  {
    var p, q := Trailing(x, w, i), Trailing(y, w, i - a);
    forall k | 0 <= k < w
      ensures p[k] == q[k]
    {
      assert p[k] == x[i + 1 - w + k];
      assert q[k] == y[i + 1 - w + k - a];
    }
  }

  /** The windowed reductions at once: full windows agree, and warmup only occurs in a whole history. */
  lemma WindowAgree<F>(fpu: Fpu<F>, x: seq<F>, y: seq<F>, w: nat, a: nat, lo: nat, i: nat)
    requires Agree(x, y, a, lo, i) && Covers(Some(w), a, lo, i)
    ensures MeanAt(fpu, x, w, i) == MeanAt(fpu, y, w, i - a)
    ensures SumAt(fpu, x, w, i) == SumAt(fpu, y, w, i - a)
    ensures forall ddof :: StdAt(fpu, x, w, ddof, i) == StdAt(fpu, y, w, ddof, i - a)
  {
    if w <= i + 1 - lo {
      TrailingAgree(x, y, w, a, lo, i);
    }
  }

  lemma ReturnsAgree<F>(fpu: Fpu<F>, x: seq<F>, y: seq<F>, w: nat, a: nat, lo: nat, i: nat)
    requires Agree(x, y, a, lo, i) && Covers(Some(w + 1), a, lo, i)
    ensures VolatilityAt(fpu, x, w, i) == VolatilityAt(fpu, y, w, i - a)
  {
    var rx, ry := Returns(fpu, x, 1), Returns(fpu, y, 1);
    if w > 0 {
      var lo' := if a == 0 && lo == 0 then 0 else lo + 1;
      forall j | lo' <= j <= i
        ensures rx[j] == ry[j - a]
      {
        assert j > 0 && j > lo ==> x[j - 1] == y[j - 1 - a];
      }
      WindowAgree(fpu, rx, ry, w, a, lo', i);
    }
  }

  lemma FlowAgree<F>(fpu: Fpu<F>, xs: seq<F>, xg: seq<F>, ys: seq<F>, yg: seq<F>, w: nat, a: nat, lo: nat, i: nat)
    requires |xs| == |xg| && |ys| == |yg|
    requires Agree(xs, ys, a, lo, i) && Agree(xg, yg, a, lo, i) && Covers(Some(w), a, lo, i)
    ensures FlowAt(fpu, xs, xg, w, i) == FlowAt(fpu, ys, yg, w, i - a)
  {
    hide SumAt, MeanAt, StdAt, Volumes, Signed, FlowOf;
    VolumesAgree(fpu, xs, xg, ys, yg, a, lo, i);
    WindowAgree(fpu, Volumes(fpu, xs), Volumes(fpu, ys), w, a, lo, i);
    WindowAgree(fpu, Signed(fpu, xs, xg), Signed(fpu, ys, yg), w, a, lo, i);
  }

  lemma VolumesAgree<F>(
    fpu: Fpu<F>, xs: seq<F>, xg: seq<F>, ys: seq<F>, yg: seq<F>, a: nat, lo: nat, i: nat)
    requires |xs| == |xg| && |ys| == |yg|
    requires Agree(xs, ys, a, lo, i) && Agree(xg, yg, a, lo, i)
    ensures |Volumes(fpu, xs)| == |Signed(fpu, xs, xg)| == |xs|
    ensures |Volumes(fpu, ys)| == |Signed(fpu, ys, yg)| == |ys|
    ensures Agree(Volumes(fpu, xs), Volumes(fpu, ys), a, lo, i)
    ensures Agree(Signed(fpu, xs, xg), Signed(fpu, ys, yg), a, lo, i)
  {
    hide NpSign;
  }

  lemma EmaAgree<F>(fpu: Fpu<F>, x: seq<F>, y: seq<F>, span: nat, i: nat)
    requires Agree(x, y, 0, 0, i)
    ensures EmaAt(fpu, x, span, i) == EmaAt(fpu, y, span, i)
  {
    assert x[..i + 1] == y[..i + 1];
  }

  /** Every transform is causal, and reads only its declared reach, wherever the series starts: if two
      sets of inputs agree, after a shift, on the observations the reach covers, the cells are equal.
      With `a == lo == 0` this is causality, since nothing is asked of the inputs after `i`. */
  lemma {:induction false} CellsAgree<F>(
    fpu: Fpu<F>, op: Op, xs: seq<seq<F>>, n: nat, ys: seq<seq<F>>, m: nat, a: nat, lo: nat, i: nat)
    requires op.Legal() && Shaped(op, xs, n) && Shaped(op, ys, m)
    requires a <= lo <= i < n && i - a < m
    requires forall k :: 0 <= k < op.Arity() ==> Agree(xs[k], ys[k], a, lo, i)
    requires Covers(op.Reach(), a, lo, i)
    ensures Cell(fpu, op, xs, n, i) == Cell(fpu, op, ys, m, i - a)
  {
    assert Agree(xs[0], ys[0], a, lo, i);
    match op
    case MeanOp(w) => WindowAgree(fpu, xs[0], ys[0], w, a, lo, i);
    case StdOp(w, _) => WindowAgree(fpu, xs[0], ys[0], w, a, lo, i);
    case SumOp(w) => WindowAgree(fpu, xs[0], ys[0], w, a, lo, i);
    case ZscoreOp(w, _) => WindowAgree(fpu, xs[0], ys[0], w, a, lo, i);
    case ReturnOp(_) =>
    case VolatilityOp(w) => ReturnsAgree(fpu, xs[0], ys[0], w, a, lo, i);
    case EmaOp(span) => EmaAgree(fpu, xs[0], ys[0], span, i);
    case SmaCrossOp(f, s) =>
      WindowAgree(fpu, xs[0], ys[0], f, a, lo, i);
      WindowAgree(fpu, xs[0], ys[0], s, a, lo, i);
    case EmaCrossOp(f, s) =>
      EmaAgree(fpu, xs[0], ys[0], f, i);
      EmaAgree(fpu, xs[0], ys[0], s, i);
    case FlowOp(w) => FlowAgree(fpu, xs[0], xs[1], ys[0], ys[1], w, a, lo, i);
    case MidOp => assert xs[1][i] == ys[1][i - a];
    case SpreadOp => assert xs[1][i] == ys[1][i - a];
    case RelativeSpreadOp => assert xs[1][i] == ys[1][i - a];
    case ImbalanceOp => assert xs[1][i] == ys[1][i - a];
    case RangeOp => assert xs[1][i] == ys[1][i - a] && xs[2][i] == ys[2][i - a];
    case LocationOp => assert xs[1][i] == ys[1][i - a] && xs[2][i] == ys[2][i - a];
  }
}
