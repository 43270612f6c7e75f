/** What the logarithm list of a spec is worth: a column outside it has the same value whatever the
    platform's `log` returns, and every transform that puts a column on it does not.
 */
module Logarithms {
  import opened Wrappers
  import opened Float
  import opened Numeric
  import opened Registry
  import opened Cells
  import opened Spec
  import opened Lookback
  import opened Causality
  import opened ExactReals
  import opened Statistics

  /** Two arithmetics that differ in their logarithm at most. */
  ghost predicate SameButLog<F>(f: Fpu<F>, g: Fpu<F>) {
    && f.nan == g.nan && f.ofNat == g.ofNat
    && f.add == g.add && f.sub == g.sub && f.mul == g.mul && f.div == g.div && f.sqrt == g.sqrt
    && f.abs == g.abs && f.neg == g.neg && f.gt == g.gt && f.ge == g.ge
    && f.isNan == g.isNan && f.isFinite == g.isFinite
  }

  // ---------------------------------------------------------------- off the list

  lemma {:induction false} EvalIgnoresLog<F>(f: Fpu<F>, g: Fpu<F>, t: SumTree<F>)
    requires SameButLog(f, g)
    ensures Eval(f, t) == Eval(g, t)
  {
    match t
    case Zero =>
    case Leaf(_) =>
    case Add(l, r) =>
      EvalIgnoresLog(f, g, l);
      EvalIgnoresLog(f, g, r);
  }

  lemma SumsIgnoreLog<F>(f: Fpu<F>, g: Fpu<F>, xs: seq<F>)
    requires SameButLog(f, g)
    ensures PairwiseOf(f, xs) == PairwiseOf(g, xs) && MeanOf(f, xs) == MeanOf(g, xs)
  {
    hide Eval;
    EvalIgnoresLog(f, g, PairwiseTree(xs));
  }

  lemma StdIgnoresLog<F>(f: Fpu<F>, g: Fpu<F>, xs: seq<F>, ddof: nat)
    requires SameButLog(f, g)
    ensures StdOf(f, xs, ddof) == StdOf(g, xs, ddof)
  {
    hide PairwiseOf;
    if |xs| > ddof {
      SumsIgnoreLog(f, g, xs);
      var mu := f.div(PairwiseOf(f, xs), f.ofNat(|xs|));
      assert Squares(f, xs, mu) == Squares(g, xs, mu);
      SumsIgnoreLog(f, g, Squares(f, xs, mu));
    }
  }

  lemma EmaIgnoresLog<F>(f: Fpu<F>, g: Fpu<F>, x: seq<F>, span: nat)
    requires SameButLog(f, g)
    ensures EmaState(f, x, span) == EmaState(g, x, span)
    decreases |x|
  {
    if x != [] { EmaIgnoresLog(f, g, x[..|x| - 1], span); }
  }

  lemma WindowsIgnoreLog<F>(f: Fpu<F>, g: Fpu<F>, x: seq<F>, w: nat, ddof: nat, i: nat)
    requires SameButLog(f, g) && i < |x|
    ensures MeanAt(f, x, w, i) == MeanAt(g, x, w, i) && SumAt(f, x, w, i) == SumAt(g, x, w, i)
    ensures StdAt(f, x, w, ddof, i) == StdAt(g, x, w, ddof, i)
  {
    hide MeanOf, PairwiseOf, StdOf;
    if 0 < w <= i + 1 {
      SumsIgnoreLog(f, g, Trailing(x, w, i));
      StdIgnoresLog(f, g, Trailing(x, w, i), ddof);
    }
  }

  lemma EmasIgnoreLog<F>(f: Fpu<F>, g: Fpu<F>, x: seq<F>, span: nat, i: nat)
    requires SameButLog(f, g) && i < |x|
    ensures EmaAt(f, x, span, i) == EmaAt(g, x, span, i)
  {
    hide EmaState;
    EmaIgnoresLog(f, g, x[..i + 1], span);
  }

  lemma FlowIgnoresLog<F>(f: Fpu<F>, g: Fpu<F>, sizes: seq<F>, signs: seq<F>, w: nat, i: nat)
    requires SameButLog(f, g) && i < |sizes| == |signs|
    ensures FlowAt(f, sizes, signs, w, i) == FlowAt(g, sizes, signs, w, i)
  {
    hide SumAt, StdAt, MeanAt;
    assert Volumes(f, sizes) == Volumes(g, sizes);
    assert Signed(f, sizes, signs) == Signed(g, sizes, signs);
    WindowsIgnoreLog(f, g, Volumes(f, sizes), w, 0, i);
    WindowsIgnoreLog(f, g, Signed(f, sizes, signs), w, 0, i);
  }

  predicate OpUsesLog(op: Op) { op.ReturnOp? || op.VolatilityOp? }

  lemma {:induction false} CellIgnoresLog<F>(f: Fpu<F>, g: Fpu<F>, op: Op, xs: seq<seq<F>>, n: nat, i: nat)
    requires SameButLog(f, g) && Shaped(op, xs, n) && i < n && !OpUsesLog(op)
    ensures Cell(f, op, xs, n, i) == Cell(g, op, xs, n, i)
  {
    hide MeanAt, SumAt, StdAt, EmaAt, FlowAt;
    match op
    case MeanOp(w) => WindowsIgnoreLog(f, g, xs[0], w, 0, i);
    case SumOp(w) => WindowsIgnoreLog(f, g, xs[0], w, 0, i);
    case StdOp(w, ddof) => WindowsIgnoreLog(f, g, xs[0], w, ddof, i);
    case ZscoreOp(w, ddof) => WindowsIgnoreLog(f, g, xs[0], w, ddof, i);
    case EmaOp(span) => EmasIgnoreLog(f, g, xs[0], span, i);
    case SmaCrossOp(fast, slow) =>
      WindowsIgnoreLog(f, g, xs[0], fast, 0, i);
      WindowsIgnoreLog(f, g, xs[0], slow, 0, i);
    case EmaCrossOp(fast, slow) =>
      EmasIgnoreLog(f, g, xs[0], fast, i);
      EmasIgnoreLog(f, g, xs[0], slow, i);
    case FlowOp(w) => FlowIgnoresLog(f, g, xs[0], xs[1], w, i);
    case _ =>
  }

  lemma OpOfTransform(t: Transform, params: Params)
    requires ReadParams(t, params).Ok?
    ensures OpUsesLog(ReadParams(t, params).value) <==> t.ReachesLibm()
  {
    ReadsExactly(t, params);
  }

  lemma NextIgnoresLog<F>(f: Fpu<F>, g: Fpu<F>, defs: seq<FeatureDef>, prevF: seq<seq<F>>, prevG: seq<seq<F>>,
                          inputs: map<string, seq<F>>, n: nat, c: nat)
    requires SameButLog(f, g) && SameLength(inputs, n) && c < |defs| && |prevF| == |prevG| == c
    requires forall j :: 0 <= j < c ==> |prevF[j]| == |prevG[j]| == n
    requires forall j :: 0 <= j < c && Feeds(defs, j, c) ==> prevF[j] == prevG[j]
    requires !defs[c].feature.ReachesLibm()
    ensures NextColumn(f, defs, prevF, inputs, n, c) == NextColumn(g, defs, prevG, inputs, n, c)
  {
    hide ReadParams, IndexOf, FeatureDef.Sources, Cell;
    var sources := defs[c].Sources();
    assert Arguments(f, defs, prevF, inputs, n, c) == Arguments(g, defs, prevG, inputs, n, c) by {
      forall k | 0 <= k < |sources|
        ensures Source(f, defs, prevF, inputs, n, c, sources[k]) == Source(g, defs, prevG, inputs, n, c, sources[k])
      {
        if IndexOf(defs, c, sources[k]).Some? { assert Feeds(defs, IndexOf(defs, c, sources[k]).value, c); }
      }
    }
    var op := ReadParams(defs[c].feature, defs[c].params);
    if op.Ok? {
      OpOfTransform(defs[c].feature, defs[c].params);
      var args := Arguments(f, defs, prevF, inputs, n, c);
      forall i | 0 <= i < n
        ensures Cell(f, op.value, args, n, i) == Cell(g, op.value, args, n, i)
      {
        CellIgnoresLog(f, g, op.value, args, n, i);
      }
    }
  }

  /** A column off the list is the same on all inputs, through any depth of bindings, whatever the
      logarithm. */
  lemma {:induction false} OffTheListIgnoresLog<F>(
    f: Fpu<F>, g: Fpu<F>, defs: seq<FeatureDef>, inputs: map<string, seq<F>>, n: nat, c: nat)
    requires SameButLog(f, g) && SameLength(inputs, n) && c < |defs| && c !in LogColumns(defs)
    ensures Columns(f, defs, inputs, n, |defs|)[c] == Columns(g, defs, inputs, n, |defs|)[c]
    decreases c
  {
    hide Columns, NextColumn, Reaches, SameButLog;
    ReachesStep(defs, c, UsesLog);
    var prevF, prevG := Columns(f, defs, inputs, n, c), Columns(g, defs, inputs, n, c);
    forall j | 0 <= j < c && Feeds(defs, j, c)
      ensures prevF[j] == prevG[j]
    {
      OffTheListIgnoresLog(f, g, defs, inputs, n, j);
      ColumnBefore(f, defs, inputs, n, j, c);
      ColumnBefore(g, defs, inputs, n, j, c);
    }
    NextIgnoresLog(f, g, defs, prevF, prevG, inputs, n, c);
    ColumnsAt(f, defs, inputs, n, c, |defs|);
    ColumnsAt(g, defs, inputs, n, c, |defs|);
  }

  // ---------------------------------------------------------------- on the list

  /** Two arithmetics that differ in their logarithm alone, and inputs on which the operation tells them
      apart. */
  ghost predicate TellsApart(op: Op, f: Fpu<Exact>, g: Fpu<Exact>, xs: seq<seq<Exact>>, n: nat, i: nat) {
    && SameButLog(f, g) && Shaped(op, xs, n) && i < n
    && Cell(f, op, xs, n, i) != Cell(g, op, xs, n, i)
  }

  ghost predicate DependsOnLog(op: Op) {
    exists f, g, xs, n, i :: TellsApart(op, f, g, xs, n, i)
  }

  function Same(x: Exact): Exact { x }

  function Never(x: Exact): Exact { NotANumber }

  function Ones(n: nat): (r: seq<Exact>)
    ensures |r| == n && forall i :: 0 <= i < n ==> r[i] == Num(1.0)
  {
    seq(n, _ => Num(1.0))
  }

  lemma ReturnOfOnes(ln: Exact -> Exact, p: nat, n: nat, i: nat)
    requires 1 <= p <= i < n
    ensures ReturnAt(ExactFpu(ln, Same), Ones(n), p, i) == ln(Num(1.0))
  {
    var fpu := ExactFpu(ln, Same);
    ExactOpsExist(ln, Same);
    hide ExactOps, ExactFpu;
    OpsOn(fpu, Num(1.0), Num(1.0));
    LnIs(ln, Num(1.0));
  }

  lemma LnIs(ln: Exact -> Exact, x: Exact)
    ensures ExactFpu(ln, Same).ln(x) == ln(x)
  {
  }

  lemma WindowOfOnes(ln: Exact -> Exact, w: nat)
    requires w >= 1
    ensures |Returns(ExactFpu(ln, Same), Ones(w + 1), 1)| == w + 1
    ensures var steps := Trailing(Returns(ExactFpu(ln, Same), Ones(w + 1), 1), w, w);
      |steps| == w && forall k :: 0 <= k < w ==> steps[k] == ln(Num(1.0))
  {
    hide ExactFpu, ReturnAt;
    var fpu := ExactFpu(ln, Same);
    var steps := Trailing(Returns(fpu, Ones(w + 1), 1), w, w);
    forall k | 0 <= k < w
      ensures steps[k] == ln(Num(1.0))
    {
      ReturnOfOnes(ln, 1, w + 1, k + 1);
    }
  }

  lemma VolatilityOfOnes(w: nat)
    requires w >= 1
    ensures VolatilityAt(ExactFpu(Same, Same), Ones(w + 1), w, w).Num?
    ensures VolatilityAt(ExactFpu(Never, Same), Ones(w + 1), w, w) == NotANumber
  {
    hide ExactOps, StdOf, Returns;
    WindowOfOnes(Same, w);
    WindowOfOnes(Never, w);
    ExactOpsExist(Same, Same);
    ExactOpsExist(Never, Same);
    var ones := seq(w, _ => 1.0);
    assert Trailing(Returns(ExactFpu(Same, Same), Ones(w + 1), 1), w, w) == Nums(ones);
    StdIs(ExactFpu(Same, Same), ones, 0);
    StdOfMissing(ExactFpu(Never, Same), Trailing(Returns(ExactFpu(Never, Same), Ones(w + 1), 1), w, w), 0, 0);
  }

  lemma FpusDiffer()
    ensures SameButLog(ExactFpu(Same, Same), ExactFpu(Never, Same))
  {
  }

  /** An operation depends on the logarithm exactly when it is a return or a volatility: the others never
      do, and each of these does, whatever its window. */
  lemma DependsExactly(op: Op)
    requires op.Legal()
    ensures DependsOnLog(op) <==> OpUsesLog(op)
  {
    hide SameButLog, Cell;
    if OpUsesLog(op) {
      FpusDiffer();
      LogOpsDiffer(op);
    } else {
      forall f, g, xs, n, i
        ensures !TellsApart(op, f, g, xs, n, i)
      {
        if SameButLog(f, g) && Shaped(op, xs, n) && i < n { CellIgnoresLog(f, g, op, xs, n, i); }
      }
    }
  }

  lemma LogOpsDiffer(op: Op)
    requires op.Legal() && OpUsesLog(op) && SameButLog(ExactFpu(Same, Same), ExactFpu(Never, Same))
    ensures DependsOnLog(op)
  {
    hide SameButLog, ReturnAt, VolatilityAt, ExactFpu;
    var n := if op.ReturnOp? then op.period + 1 else op.window + 1;
    match op {
      case ReturnOp(p) =>
        ReturnOfOnes(Same, p, n, p);
        ReturnOfOnes(Never, p, n, p);
      case VolatilityOp(w) => VolatilityOfOnes(w);
    }
    assert TellsApart(op, ExactFpu(Same, Same), ExactFpu(Never, Same), [Ones(n)], n, n - 1);
  }

  /** So the transforms that put a column on the list are exactly those some accepted parameters of which
      tell two logarithms apart, and then all of them do. */
  lemma ReachesLibmExactly(t: Transform, params: Params)
    requires ReadParams(t, params).Ok?
    ensures t.ReachesLibm() <==> DependsOnLog(ReadParams(t, params).value)
  {
    hide DependsOnLog, ReadParams;
    OpOfTransform(t, params);
    DependsExactly(ReadParams(t, params).value);
  }

  // ---------------------------------------------------------------- the order of the list

  /** The list names exactly the marked columns. */
  lemma {:induction false} SelectedExactly(defs: seq<FeatureDef>, marked: set<nat>, c: nat, name: string)
    requires c <= |defs|
    ensures name in Select(defs, marked, c) <==> exists j :: 0 <= j < c && j in marked && defs[j].column == name
  {
    if c > 0 { SelectedExactly(defs, marked, c - 1, name); }
  }

  /** Each once, in matrix order. */
  lemma {:induction false} SelectedInOrder(defs: seq<FeatureDef>, marked: set<nat>, c: nat, a: nat, b: nat)
    requires DistinctColumns(defs) && c <= |defs| && a < b < |Select(defs, marked, c)|
    ensures var names := Select(defs, marked, c);
      && IndexOf(defs, c, names[a]).Some? && IndexOf(defs, c, names[b]).Some?
      && IndexOf(defs, c, names[a]).value < IndexOf(defs, c, names[b]).value
  {
    var front := Select(defs, marked, c - 1);
    if b < |front| {
      SelectedInOrder(defs, marked, c - 1, a, b);
      KeepsIndex(defs, c, front[a]);
      KeepsIndex(defs, c, front[b]);
    } else {
      SelectedExactly(defs, marked, c - 1, front[a]);
      var j :| 0 <= j < c - 1 && j in marked && defs[j].column == front[a];
      IndexOfColumn(defs, c, j);
      IndexOfColumn(defs, c, c - 1);
    }
  }

  lemma KeepsIndex(defs: seq<FeatureDef>, c: nat, name: string)
    requires DistinctColumns(defs) && 0 < c <= |defs| && IndexOf(defs, c - 1, name).Some?
    ensures IndexOf(defs, c, name) == IndexOf(defs, c - 1, name)
  {
    IndexOfColumn(defs, c, IndexOf(defs, c - 1, name).value);
  }
}
