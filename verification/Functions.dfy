/** The transforms as `axon-features/src/functions.rs` runs them: loops that write a column.

    `out` is the buffer the column goes into; a streaming caller lends one that is longer than the
    series, so every method writes the first `|x|` cells and leaves the rest alone.
 */
module Functions {
  import opened Wrappers
  import opened Float
  import opened Numeric
  import opened Registry
  import opened Cells

  /** The column of one transform: `Cell` at every observation. */
  function Column<F>(fpu: Fpu<F>, op: Op, xs: seq<seq<F>>, n: nat): (r: seq<F>)
    requires Shaped(op, xs, n)
    ensures |r| == n
    ensures forall i :: 0 <= i < n ==> r[i] == Cell(fpu, op, xs, n, i)
  {
    seq(n, i requires 0 <= i < n => Cell(fpu, op, xs, n, i))
  }

  twostate predicate TailKept<F>(out: array<F>, n: nat)
    reads out
  {
    n <= out.Length && forall j :: n <= j < out.Length ==> out[j] == old(out[j])
  }

  method FillNan<F>(fpu: Fpu<F>, out: array<F>, n: nat)
    requires n <= out.Length
    modifies out
    ensures TailKept(out, n)
    ensures forall i :: 0 <= i < n ==> out[i] == fpu.nan
  {
    for i := 0 to n
      invariant TailKept(out, n)
      invariant forall j :: 0 <= j < i ==> out[j] == fpu.nan
    {
      out[i] := fpu.nan;
    }
  }

  method RollingMean<F>(fpu: Fpu<F>, x: seq<F>, window: nat, out: array<F>)
    requires |x| <= out.Length
    modifies out
    ensures TailKept(out, |x|)
    ensures forall i :: 0 <= i < |x| ==> out[i] == MeanAt(fpu, x, window, i)
  {
    FillNan(fpu, out, |x|);
    if |x| < window || window == 0 { return; }
    FullMeans(fpu, x, window, out);
  }

  method FullMeans<F>(fpu: Fpu<F>, x: seq<F>, window: nat, out: array<F>)
    requires 1 <= window <= |x| <= out.Length
    modifies out
    ensures TailKept(out, |x|)
    ensures forall i :: 0 <= i < window - 1 ==> out[i] == old(out[i])
    ensures forall i :: window - 1 <= i < |x| ==> out[i] == MeanAt(fpu, x, window, i)
  {
    hide MeanAt;
    for i := window - 1 to |x|
      invariant TailKept(out, |x|)
      invariant forall j :: 0 <= j < window - 1 ==> out[j] == old(out[j])
      invariant forall j :: window - 1 <= j < i ==> out[j] == MeanAt(fpu, x, window, j)
    {
      out[i] := WindowMean(fpu, x, window, i);
    }
  }

  method WindowMean<F>(fpu: Fpu<F>, x: seq<F>, window: nat, i: nat) returns (m: F)
    requires 0 < window <= i + 1 <= |x|
    ensures m == MeanAt(fpu, x, window, i)
  {
    m := Mean(fpu, x[i + 1 - window..i + 1]);
  }

  method RollingStd<F>(fpu: Fpu<F>, x: seq<F>, window: nat, ddof: nat, out: array<F>)
    requires |x| <= out.Length
    modifies out
    ensures TailKept(out, |x|)
    ensures forall i :: 0 <= i < |x| ==> out[i] == StdAt(fpu, x, window, ddof, i)
  {
    FillNan(fpu, out, |x|);
    if |x| < window || window == 0 { return; }
    var scratch := new F[window](_ => fpu.Zero());
    FullWindows(fpu, x, window, ddof, scratch, out);
  }

  method FullWindows<F>(fpu: Fpu<F>, x: seq<F>, window: nat, ddof: nat, scratch: array<F>, out: array<F>)
    requires 1 <= window <= |x| <= out.Length && scratch.Length == window && scratch != out
    modifies scratch, out
    ensures TailKept(out, |x|)
    ensures forall i :: 0 <= i < window - 1 ==> out[i] == old(out[i])
    ensures forall i :: window - 1 <= i < |x| ==> out[i] == StdAt(fpu, x, window, ddof, i)
  {
    hide StdAt;
    for i := window - 1 to |x|
      invariant TailKept(out, |x|)
      invariant forall j :: 0 <= j < window - 1 ==> out[j] == old(out[j])
      invariant forall j :: window - 1 <= j < i ==> out[j] == StdAt(fpu, x, window, ddof, j)
    {
      var sd := WindowStd(fpu, x, window, ddof, i, scratch);
      out[i] := sd;
    }
  }

  method WindowStd<F>(fpu: Fpu<F>, x: seq<F>, window: nat, ddof: nat, i: nat, scratch: array<F>) returns (sd: F)
    requires 0 < window <= i + 1 <= |x| && window <= scratch.Length
    modifies scratch
    ensures sd == StdAt(fpu, x, window, ddof, i)
  {
    hide PairwiseOf, StdOf;
    var w := x[i + 1 - window..i + 1];
    var total := PairwiseSum(fpu, w);
    var mu := fpu.div(total, fpu.ofNat(window));
    sd := StdIn(fpu, w, ddof, mu, scratch);
  }

  method RollingSum<F>(fpu: Fpu<F>, x: seq<F>, window: nat, out: array<F>)
    requires |x| <= out.Length
    modifies out
    ensures TailKept(out, |x|)
    ensures forall i :: 0 <= i < |x| ==> out[i] == SumAt(fpu, x, window, i)
  {
    FillNan(fpu, out, |x|);
    if |x| < window || window == 0 { return; }
    FullSums(fpu, x, window, out);
  }

  method FullSums<F>(fpu: Fpu<F>, x: seq<F>, window: nat, out: array<F>)
    requires 1 <= window <= |x| <= out.Length
    modifies out
    ensures TailKept(out, |x|)
    ensures forall i :: 0 <= i < window - 1 ==> out[i] == old(out[i])
    ensures forall i :: window - 1 <= i < |x| ==> out[i] == SumAt(fpu, x, window, i)
  {
    hide SumAt;
    for i := window - 1 to |x|
      invariant TailKept(out, |x|)
      invariant forall j :: 0 <= j < window - 1 ==> out[j] == old(out[j])
      invariant forall j :: window - 1 <= j < i ==> out[j] == SumAt(fpu, x, window, j)
    {
      out[i] := WindowSum(fpu, x, window, i);
    }
  }

  method WindowSum<F>(fpu: Fpu<F>, x: seq<F>, window: nat, i: nat) returns (total: F)
    requires 0 < window <= i + 1 <= |x|
    ensures total == SumAt(fpu, x, window, i)
  {
    total := PairwiseSum(fpu, x[i + 1 - window..i + 1]);
  }

  method RollingZscore<F>(fpu: Fpu<F>, x: seq<F>, window: nat, ddof: nat, out: array<F>)
    requires |x| <= out.Length
    modifies out
    ensures TailKept(out, |x|)
    ensures forall i :: 0 <= i < |x| ==> out[i] == ZscoreAt(fpu, x, window, ddof, i)
  {
    var mu := new F[|x|](_ => fpu.Zero());
    var sd := new F[|x|](_ => fpu.Zero());
    hide MeanAt, StdAt;
    RollingMean(fpu, x, window, mu);
    RollingStd(fpu, x, window, ddof, sd);
    WriteZscore(fpu, x, mu, sd, out);
  }

  method WriteZscore<F>(fpu: Fpu<F>, x: seq<F>, mu: array<F>, sd: array<F>, out: array<F>)
    requires mu.Length == sd.Length == |x| <= out.Length && out != mu && out != sd
    modifies out
    ensures TailKept(out, |x|)
    ensures forall i :: 0 <= i < |x| ==> out[i] == ZscoreOf(fpu, x[i], mu[i], sd[i])
  {
    for i := 0 to |x|
      invariant TailKept(out, |x|)
      invariant forall j :: 0 <= j < i ==> out[j] == ZscoreOf(fpu, x[j], mu[j], sd[j])
    {
      out[i] := fpu.OrNan(fpu.Positive(sd[i]), fpu.div(fpu.sub(x[i], mu[i]), sd[i]));
    }
  }

  method LogReturn<F>(fpu: Fpu<F>, price: seq<F>, period: nat, out: array<F>)
    requires |price| <= out.Length
    modifies out
    ensures TailKept(out, |price|)
    ensures forall i :: 0 <= i < |price| ==> out[i] == ReturnAt(fpu, price, period, i)
  {
    FillNan(fpu, out, |price|);
    if |price| <= period || period == 0 { return; }
    for i := period to |price|
      invariant TailKept(out, |price|)
      invariant forall j :: 0 <= j < i ==> out[j] == ReturnAt(fpu, price, period, j)
    {
      var num, den := price[i], price[i - period];
      out[i] := fpu.OrNan(fpu.Positive(num) && fpu.Positive(den), fpu.ln(fpu.div(num, den)));
    }
  }

  method RealizedVolatility<F>(fpu: Fpu<F>, price: seq<F>, window: nat, out: array<F>)
    requires |price| <= out.Length
    modifies out
    ensures TailKept(out, |price|)
    ensures forall i :: 0 <= i < |price| ==> out[i] == VolatilityAt(fpu, price, window, i)
  {
    var steps := new F[|price|](_ => fpu.Zero());
    LogReturn(fpu, price, 1, steps);
    assert steps[..] == Returns(fpu, price, 1);
    RollingStd(fpu, steps[..], window, 0, out);
  }

  lemma EmaExtends<F>(fpu: Fpu<F>, x: seq<F>, span: nat, i: nat)
    requires i < |x|
    ensures EmaState(fpu, x[..i + 1], span) ==
      var (level, seen) := EmaState(fpu, x[..i], span);
      if !fpu.isFinite(x[i]) then (level, seen)
      else if seen == 0 then (x[i], 1)
      else (fpu.add(level, fpu.mul(Alpha(fpu, span), fpu.sub(x[i], level))), seen + 1)
  {
    assert x[..i + 1][..i] == x[..i];
  }

  /** The recursion itself, one observation at a time; a non-finite one leaves the level alone. */
  method Ema<F>(fpu: Fpu<F>, x: seq<F>, span: nat, out: array<F>)
    requires |x| <= out.Length
    modifies out
    ensures TailKept(out, |x|)
    ensures forall i :: 0 <= i < |x| ==> out[i] == EmaAt(fpu, x, span, i)
  {
    FillNan(fpu, out, |x|);
    if span == 0 { return; }
    Recur(fpu, x, span, out);
  }

  method Recur<F>(fpu: Fpu<F>, x: seq<F>, span: nat, out: array<F>)
    requires |x| <= out.Length && span >= 1
    requires forall i :: 0 <= i < |x| ==> out[i] == fpu.nan
    modifies out
    ensures TailKept(out, |x|)
    ensures forall i :: 0 <= i < |x| ==> out[i] == EmaAt(fpu, x, span, i)
  {
    hide EmaState, EmaAt;
    var alpha := fpu.div(fpu.ofNat(2), fpu.add(fpu.ofNat(span), fpu.ofNat(1)));
    var level, seen := fpu.nan, 0;
    EmaStarts(fpu, x, span);
    for i := 0 to |x|
      invariant TailKept(out, |x|)
      invariant level == EmaState(fpu, x[..i], span).0 && seen == EmaState(fpu, x[..i], span).1
      invariant forall j :: 0 <= j < i ==> out[j] == EmaAt(fpu, x, span, j)
      invariant forall j :: i <= j < |x| ==> out[j] == fpu.nan
    {
      EmaExtends(fpu, x, span, i);
      var v := x[i];
      if fpu.isFinite(v) {
        level := if seen == 0 then v else fpu.add(level, fpu.mul(alpha, fpu.sub(v, level)));
        seen := seen + 1;
        if seen >= span { out[i] := level; }
      }
      EmaCell(fpu, x, span, i);
    }
  }

  lemma EmaStarts<F>(fpu: Fpu<F>, x: seq<F>, span: nat)
    ensures EmaState(fpu, x[..0], span) == (fpu.nan, 0)
  {
  }

  lemma EmaCell<F>(fpu: Fpu<F>, x: seq<F>, span: nat, i: nat)
    requires i < |x| && span >= 1
    ensures var (level, seen) := EmaState(fpu, x[..i + 1], span);
      EmaAt(fpu, x, span, i) == if !fpu.isFinite(x[i]) || seen < span then fpu.nan else level
  {
  }

  method WriteCrossover<F>(fpu: Fpu<F>, f: array<F>, s: array<F>, out: array<F>)
    requires f.Length == s.Length <= out.Length && f != out && s != out
    modifies out
    ensures TailKept(out, f.Length)
    ensures forall i :: 0 <= i < f.Length ==> out[i] == CrossOf(fpu, f[i], s[i])
  {
    for i := 0 to f.Length
      invariant TailKept(out, f.Length)
      invariant forall j :: 0 <= j < i ==> out[j] == CrossOf(fpu, f[j], s[j])
    {
      out[i] := fpu.OrNan(fpu.Positive(fpu.abs(s[i])), fpu.div(fpu.sub(f[i], s[i]), s[i]));
    }
  }

  method SmaCrossover<F>(fpu: Fpu<F>, price: seq<F>, fast: nat, slow: nat, out: array<F>)
    requires |price| <= out.Length
    modifies out
    ensures TailKept(out, |price|)
    ensures forall i :: 0 <= i < |price| ==>
      out[i] == CrossOf(fpu, MeanAt(fpu, price, fast, i), MeanAt(fpu, price, slow, i))
  {
    var f := new F[|price|](_ => fpu.Zero());
    var s := new F[|price|](_ => fpu.Zero());
    RollingMean(fpu, price, fast, f);
    RollingMean(fpu, price, slow, s);
    WriteCrossover(fpu, f, s, out);
  }

  method EmaCrossover<F>(fpu: Fpu<F>, price: seq<F>, fast: nat, slow: nat, out: array<F>)
    requires |price| <= out.Length
    modifies out
    ensures TailKept(out, |price|)
    ensures forall i :: 0 <= i < |price| ==>
      out[i] == CrossOf(fpu, EmaAt(fpu, price, fast, i), EmaAt(fpu, price, slow, i))
  {
    var f := new F[|price|](_ => fpu.Zero());
    var s := new F[|price|](_ => fpu.Zero());
    Ema(fpu, price, fast, f);
    Ema(fpu, price, slow, s);
    WriteCrossover(fpu, f, s, out);
  }

  method TradeFlowImbalance<F>(fpu: Fpu<F>, sizes: seq<F>, signs: seq<F>, window: nat, out: array<F>)
    requires |sizes| == |signs| <= out.Length
    modifies out
    ensures TailKept(out, |sizes|)
    ensures forall i :: 0 <= i < |sizes| ==> out[i] == FlowAt(fpu, sizes, signs, window, i)
  {
    hide SumAt, Volumes, Signed;
    VolumesAndSigned(fpu, sizes, signs);
    var n := |sizes|;
    var volume, signed := Volumes(fpu, sizes), Signed(fpu, sizes, signs);
    var signedTotal := new F[n](_ => fpu.Zero());
    var volumeTotal := new F[n](_ => fpu.Zero());
    RollingSum(fpu, signed, window, signedTotal);
    RollingSum(fpu, volume, window, volumeTotal);
    WriteFlow(fpu, signedTotal, volumeTotal, out);
  }

  lemma VolumesAndSigned<F>(fpu: Fpu<F>, sizes: seq<F>, signs: seq<F>)
    requires |sizes| == |signs|
    ensures |Volumes(fpu, sizes)| == |Signed(fpu, sizes, signs)| == |sizes|
  {
  }

  method WriteFlow<F>(fpu: Fpu<F>, signed: array<F>, volume: array<F>, out: array<F>)
    requires signed.Length == volume.Length <= out.Length && signed != out && volume != out
    modifies out
    ensures TailKept(out, signed.Length)
    ensures forall i :: 0 <= i < signed.Length ==> out[i] == FlowOf(fpu, signed[i], volume[i])
  {
    for i := 0 to signed.Length
      invariant TailKept(out, signed.Length)
      invariant forall j :: 0 <= j < i ==> out[j] == FlowOf(fpu, signed[j], volume[j])
    {
      out[i] := fpu.OrNan(fpu.Positive(volume[i]), fpu.div(signed[i], volume[i]));
    }
  }

  /** The six transforms that read only the current row. */
  method Pointwise<F>(fpu: Fpu<F>, op: Op, xs: seq<seq<F>>, n: nat, out: array<F>)
    requires Shaped(op, xs, n) && n <= out.Length
    requires op.MidOp? || op.SpreadOp? || op.RelativeSpreadOp? || op.ImbalanceOp? || op.RangeOp? || op.LocationOp?
    modifies out
    ensures TailKept(out, n)
    ensures forall i :: 0 <= i < n ==> out[i] == Cell(fpu, op, xs, n, i)
  {
    for i := 0 to n
      invariant TailKept(out, n)
      invariant forall j :: 0 <= j < i ==> out[j] == Cell(fpu, op, xs, n, j)
    {
      var p, q := xs[0][i], xs[1][i];
      match op
      case MidOp =>
        out[i] := fpu.OrNan(fpu.Positive(p) && fpu.Positive(q), fpu.div(fpu.add(p, q), fpu.ofNat(2)));
      case SpreadOp =>
        out[i] := fpu.OrNan(fpu.Positive(p) && fpu.Positive(q), fpu.sub(q, p));
      case RelativeSpreadOp =>
        var m := fpu.OrNan(fpu.Positive(p) && fpu.Positive(q), fpu.div(fpu.add(p, q), fpu.ofNat(2)));
        out[i] := fpu.OrNan(fpu.Positive(m), fpu.mul(fpu.div(fpu.sub(q, p), m), fpu.ofNat(10_000)));
      case ImbalanceOp =>
        var total := fpu.add(p, q);
        out[i] := fpu.OrNan(fpu.ge(p, fpu.Zero()) && fpu.ge(q, fpu.Zero()) && fpu.Positive(total),
          fpu.div(fpu.sub(p, q), total));
      case RangeOp =>
        var c := xs[2][i];
        out[i] := fpu.OrNan(fpu.Positive(c) && fpu.ge(p, q),
          fpu.mul(fpu.div(fpu.sub(p, q), c), fpu.ofNat(10_000)));
      case LocationOp =>
        var c := xs[2][i];
        var width := fpu.sub(p, q);
        out[i] := fpu.OrNan(fpu.Positive(width),
          fpu.div(fpu.sub(fpu.sub(fpu.mul(fpu.ofNat(2), c), p), q), width));
    }
  }

  method Run<F>(fpu: Fpu<F>, op: Op, xs: seq<seq<F>>, n: nat, out: array<F>)
    requires Shaped(op, xs, n) && n <= out.Length
    modifies out
    ensures TailKept(out, n)
    ensures forall i :: 0 <= i < n ==> out[i] == Cell(fpu, op, xs, n, i)
  {
    match op
    case MeanOp(w) => RollingMean(fpu, xs[0], w, out);
    case StdOp(w, ddof) => RollingStd(fpu, xs[0], w, ddof, out);
    case SumOp(w) => RollingSum(fpu, xs[0], w, out);
    case ZscoreOp(w, ddof) => RollingZscore(fpu, xs[0], w, ddof, out);
    case ReturnOp(p) => LogReturn(fpu, xs[0], p, out);
    case VolatilityOp(w) => RealizedVolatility(fpu, xs[0], w, out);
    case EmaOp(span) => Ema(fpu, xs[0], span, out);
    case SmaCrossOp(f, s) => SmaCrossover(fpu, xs[0], f, s, out);
    case EmaCrossOp(f, s) => EmaCrossover(fpu, xs[0], f, s, out);
    case FlowOp(w) => TradeFlowImbalance(fpu, xs[0], xs[1], w, out);
    case _ => Pointwise(fpu, op, xs, n, out);
  }

  /** One registered `EvalFn`: shape check, parameter check, then the transform. `n` is the length of
      the borrowed column. */
  method Evaluate<F>(fpu: Fpu<F>, t: Transform, params: Params, xs: seq<seq<F>>, n: nat, out: array<F>)
    returns (r: Result<(), FeatureError>)
    requires n <= out.Length
    modifies out
    ensures TailKept(out, n)
    ensures r.Ok? <==>
      && (forall k :: 0 <= k < |xs| ==> |xs[k]| == n)
      && |xs| == |t.Inputs()|
      && ReadParams(t, params).Ok?
    ensures r.Ok? ==> out[..n] == Column(fpu, ReadParams(t, params).value, xs, n)
    ensures r.Err? ==> out[..] == old(out[..])
    ensures r.Err? && |xs| == |t.Inputs()| && (forall k :: 0 <= k < |xs| ==> |xs[k]| == n) ==> r.error == ParamError
  {
    for k := 0 to |xs|
      invariant forall j :: 0 <= j < k ==> |xs[j]| == n
    {
      if |xs[k]| != n { return Err(InputError); }
    }
    if |xs| != |t.Inputs()| { return Err(InputError); }
    var parsed := ReadParams(t, params);
    if parsed.Err? { return Err(parsed.error); }
    Run(fpu, parsed.value, xs, n, out);
    assert out[..n] == Column(fpu, parsed.value, xs, n);
    return Ok(());
  }
}
