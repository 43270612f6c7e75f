/** The derived lookback is not just enough but needed: a chain of rolling sums, of any length and windows,
    still reads the oldest observation its composed lookback reaches.
 */
module Tightness {
  import opened Wrappers
  import opened Float
  import opened Numeric
  import opened Registry
  import opened Cells
  import opened Functions
  import opened Spec
  import opened Lookback
  import opened Causality
  import opened ExactReals
  import opened Statistics

  type Size = n: nat | n >= 1 witness 1

  /** Column `c` is the rolling sum, over a window of `w`, of the column before it. */
  ghost predicate Link(defs: seq<FeatureDef>, c: nat, w: Size)
    requires c < |defs|
  {
    && defs[c].feature == Transform.RollingSum
    && "window" in defs[c].params && defs[c].params["window"] == IntParam(w)
    && IndexOf(defs, c, defs[c].Sources()[0]) == if c == 0 then None else Some(c - 1)
  }

  /** A chain of them, the first of an outside series. */
  ghost predicate SumChain(defs: seq<FeatureDef>, ws: seq<Size>) {
    |defs| == |ws| && forall c :: 0 <= c < |defs| ==> Link(defs, c, ws[c])
  }

  /** How many observations column `c` loses before its own window begins. */
  function Before(ws: seq<Size>, c: nat): nat
    requires c < |ws|
  {
    if c == 0 then 0 else Before(ws, c - 1) + ws[c - 1] - 1
  }

  /** One observation is shared by every two neighbours. */
  function ChainDepth(ws: seq<Size>, c: nat): Size
    requires c < |ws|
  {
    Before(ws, c) + ws[c]
  }

  lemma LinkSteps(defs: seq<FeatureDef>, c: nat, w: Size)
    requires c < |defs| && Link(defs, c, w)
    ensures LookbackOk(defs, c) && Own(defs, c) == Some(w) && |defs[c].Sources()| == 1
    ensures ReadParams(defs[c].feature, defs[c].params) == Ok(SumOp(w))
    ensures IndexOf(defs, c, defs[c].Sources()[0]) == if c == 0 then None else Some(c - 1)
  {
    hide IndexOf;
  }

  lemma DeepestOfOne(defs: seq<FeatureDef>, prev: seq<Option<nat>>, c: nat)
    requires c < |defs| && |prev| == c && |defs[c].Sources()| == 1
    ensures Deepest(defs, prev, c, 1) == Deeper(Some(1), SourceDepth(defs, prev, c, defs[c].Sources()[0]))
  {
    assert Deepest(defs, prev, c, 0) == Some(1);
  }

  lemma {:induction false} ChainDepths(defs: seq<FeatureDef>, ws: seq<Size>, c: nat)
    requires SumChain(defs, ws) && c < |defs|
    ensures LookbacksOk(defs, |defs|)
    ensures Depths(defs, |defs|)[c] == Some(ChainDepth(ws, c))
  {
    hide LookbackOk, Depths, IndexOf, FeatureDef.Sources, Link, Own, Deepest;
    forall b | 0 <= b < |defs| ensures LookbackOk(defs, b) { LinkSteps(defs, b, ws[b]); }
    LinkSteps(defs, c, ws[c]);
    DepthsAt(defs, c, |defs|);
    if c > 0 { ChainDepths(defs, ws, c - 1); }
    DeepestOfOne(defs, Depths(defs, |defs|)[..c], c);
  }

  // ---------------------------------------------------------------- the values

  /** What the chain holds at `i`, once warm. */
  function ValueAt(ws: seq<Size>, v: seq<real>, c: nat, i: nat): real
    requires c < |ws| && ChainDepth(ws, c) <= i + 1 <= |v|
    decreases c, ws[c] + 1
  {
    SumUp(ws, v, c, i, ws[c])
  }

  /** The sum of `m` values of the column before `c`, ending at `i`. */
  function SumUp(ws: seq<Size>, v: seq<real>, c: nat, i: int, m: nat): real
    requires c < |ws| && i < |v| && m <= ws[c]
    requires Before(ws, c) + m <= i + 1
    decreases c, m
  {
    if m == 0 then 0.0
    else SumUp(ws, v, c, i - 1, m - 1) + if c == 0 then v[i] else ValueAt(ws, v, c - 1, i)
  }

  lemma {:induction false} WindowSums(ws: seq<Size>, v: seq<real>, c: nat, x: seq<Exact>, i: nat, m: nat)
    requires c < |ws| && |x| == |v| && i < |v| && m <= ws[c]
    requires Before(ws, c) + m <= i + 1
    requires forall j :: Before(ws, c) <= j <= i ==>
      x[j] == Num(if c == 0 then v[j] else ValueAt(ws, v, c - 1, j))
    ensures SeqTotal(x[i + 1 - m..i + 1], ValueOf) == SumUp(ws, v, c, i, m)
  {
    if m > 0 {
      var t := x[i + 1 - m..i + 1];
      assert t[m - 1] == x[i];
      if i > 0 {
        assert t[..m - 1] == x[i - 1 + 1 - (m - 1)..i - 1 + 1];
        WindowSums(ws, v, c, x, i - 1, m - 1);
      } else {
        assert t[..m - 1] == [];
      }
    }
  }

  lemma SumUpIs(ws: seq<Size>, v: seq<real>, c: nat, i: nat)
    requires c < |ws| && ChainDepth(ws, c) <= i + 1 <= |v|
    ensures ValueAt(ws, v, c, i) == SumUp(ws, v, c, i, ws[c])
  {
  }

  lemma SumCell(fpu: Fpu<Exact>, ws: seq<Size>, v: seq<real>, c: nat, x: seq<Exact>, i: nat)
    requires ExactOps(fpu) && c < |ws| && |x| == |v|
    requires ChainDepth(ws, c) <= i + 1 <= |v|
    requires forall j :: Before(ws, c) <= j <= i ==>
      x[j] == Num(if c == 0 then v[j] else ValueAt(ws, v, c - 1, j))
    ensures SumAt(fpu, x, ws[c], i) == Num(ValueAt(ws, v, c, i))
  {
    hide ExactOps, PairwiseOf, ValueAt;
    SumUpIs(ws, v, c, i);
    var t := Trailing(x, ws[c], i);
    forall k | 0 <= k < |t|
      ensures t[k].Num?
    {
      assert t[k] == x[i + 1 - ws[c] + k];
    }
    SumIsTotal(fpu, t);
    WindowSums(ws, v, c, x, i, ws[c]);
  }

  /** What a column sums, from where its window can reach. */
  ghost predicate Feed(ws: seq<Size>, v: seq<real>, c: nat, x: seq<Exact>, i: nat)
    requires c < |ws| && i < |v|
  {
    && |x| == |v|
    && forall j :: Before(ws, c) <= j <= i ==> x[j] == Num(if c == 0 then v[j] else ValueAt(ws, v, c - 1, j))
  }

  lemma LinkCell(fpu: Fpu<Exact>, defs: seq<FeatureDef>, ws: seq<Size>, prev: seq<seq<Exact>>,
                 inputs: map<string, seq<Exact>>, v: seq<real>, c: nat, i: nat)
    requires ExactOps(fpu) && c < |defs| == |ws| && Link(defs, c, ws[c]) && SameLength(inputs, |v|)
    requires |prev| == c && forall j :: 0 <= j < c ==> |prev[j]| == |v|
    requires ChainDepth(ws, c) <= i + 1 <= |v|
    requires Feed(ws, v, c, Source(fpu, defs, prev, inputs, |v|, c, defs[c].Sources()[0]), i)
    ensures NextColumn(fpu, defs, prev, inputs, |v|, c)[i] == Num(ValueAt(ws, v, c, i))
  {
    hide ExactOps, IndexOf, FeatureDef.Sources, SumAt, ReadParams, Link, ValueAt, Before, Source;
    LinkSteps(defs, c, ws[c]);
    var x := Source(fpu, defs, prev, inputs, |v|, c, defs[c].Sources()[0]);
    assert Arguments(fpu, defs, prev, inputs, |v|, c) == [x];
    SumCell(fpu, ws, v, c, x, i);
  }

  /** The columns of the chain hold those values. */
  lemma {:induction false} ChainValues(fpu: Fpu<Exact>, defs: seq<FeatureDef>, ws: seq<Size>,
                                       inputs: map<string, seq<Exact>>, v: seq<real>, c: nat, i: nat)
    requires ExactOps(fpu) && SumChain(defs, ws) && c < |defs| && ChainDepth(ws, c) <= i + 1 <= |v|
    requires inputs == map[defs[0].Sources()[0] := Nums(v)]
    ensures Columns(fpu, defs, inputs, |v|, |defs|)[c][i] == Num(ValueAt(ws, v, c, i))
    decreases c
  {
    hide ExactOps, Columns, IndexOf, FeatureDef.Sources, NextColumn, Link, ValueAt, Nums;
    NumsSized(v);
    LinkSteps(defs, c, ws[c]);
    ColumnsAt(fpu, defs, inputs, |v|, c, |defs|);
    var prev := Columns(fpu, defs, inputs, |v|, c);
    var x := Source(fpu, defs, prev, inputs, |v|, c, defs[c].Sources()[0]);
    forall j | Before(ws, c) <= j <= i
      ensures x[j] == Num(if c == 0 then v[j] else ValueAt(ws, v, c - 1, j))
    {
      if c > 0 {
        ChainValues(fpu, defs, ws, inputs, v, c - 1, j);
        ColumnBefore(fpu, defs, inputs, |v|, c - 1, c);
      }
    }
    LinkCell(fpu, defs, ws, prev, inputs, v, c, i);
  }

  lemma NumsSized(v: seq<real>)
    ensures |Nums(v)| == |v| && forall i :: 0 <= i < |v| ==> Nums(v)[i] == Num(v[i])
  {
  }

  // ---------------------------------------------------------------- the oldest observation

  /** Nothing below zero, and at the oldest observation at least `b`. */
  ghost predicate FromOldest(v: seq<real>, b: real) {
    v != [] && v[0] >= b && forall i :: 0 <= i < |v| ==> v[i] >= 0.0
  }

  lemma {:induction false} SumKeepsOldest(ws: seq<Size>, v: seq<real>, b: real, c: nat, i: int, m: nat)
    requires c < |ws| && i < |v| && m <= ws[c]
    requires Before(ws, c) + m <= i + 1 && FromOldest(v, b)
    ensures SumUp(ws, v, c, i, m) >= 0.0
    ensures m > 0 && i + 1 == Before(ws, c) + m ==> SumUp(ws, v, c, i, m) >= b
    decreases c, m
  {
    if m > 0 {
      SumKeepsOldest(ws, v, b, c, i - 1, m - 1);
      if c > 0 { SumKeepsOldest(ws, v, b, c - 1, i, ws[c - 1]); }
    }
  }

  lemma {:induction false} SumOfZeros(ws: seq<Size>, v: seq<real>, c: nat, i: int, m: nat)
    requires c < |ws| && i < |v| && m <= ws[c]
    requires Before(ws, c) + m <= i + 1 && forall j :: 0 <= j < |v| ==> v[j] == 0.0
    ensures SumUp(ws, v, c, i, m) == 0.0
    decreases c, m
  {
    if m > 0 {
      SumOfZeros(ws, v, c, i - 1, m - 1);
      if c > 0 { SumOfZeros(ws, v, c - 1, i, ws[c - 1]); }
    }
  }

  /** For every chain and column: the derived lookback is the windows less one observation shared at each
      link, and there are two series of that length, equal but for their oldest observation, whose last
      cells differ. A buffer shorter by one could not tell them apart. */
  lemma LookbackIsTight(fpu: Fpu<Exact>, defs: seq<FeatureDef>, ws: seq<Size>, c: nat)
    requires ExactOps(fpu) && SumChain(defs, ws) && c < |defs|
    ensures LookbacksOk(defs, |defs|) && Depths(defs, |defs|)[c] == Some(ChainDepth(ws, c))
    ensures exists v, u: seq<real> :: AlikeButOldest(v, u, ChainDepth(ws, c)) && EndsApart(fpu, defs, v, u, c)
  {
    hide ExactOps, Link, EndsApart, Depths, LookbacksOk, ChainDepth;
    ChainDepths(defs, ws, c);
    var n := ChainDepth(ws, c);
    var v := seq(n, i => 0.0);
    var u := seq(n, i => if i == 0 then 1.0 else 0.0);
    assert AlikeButOldest(v, u, n);
    ImpulseEndsApart(fpu, defs, ws, c, v, u);
  }

  /** Two series of `n` observations, equal but for the oldest. */
  ghost predicate AlikeButOldest(v: seq<real>, u: seq<real>, n: nat) {
    |v| == |u| == n >= 1 && v[1..] == u[1..]
  }

  ghost predicate EndsApart(fpu: Fpu<Exact>, defs: seq<FeatureDef>, v: seq<real>, u: seq<real>, c: nat)
    requires |v| == |u| >= 1
  {
    && c < |defs|
    && var name := defs[0].Sources()[0];
    Columns(fpu, defs, map[name := Nums(v)], |v|, |defs|)[c][|v| - 1]
      != Columns(fpu, defs, map[name := Nums(u)], |u|, |defs|)[c][|u| - 1]
  }

  lemma ImpulseEndsApart(fpu: Fpu<Exact>, defs: seq<FeatureDef>, ws: seq<Size>, c: nat, v: seq<real>, u: seq<real>)
    requires ExactOps(fpu) && SumChain(defs, ws) && c < |defs| && |v| == |u| == ChainDepth(ws, c) >= 1
    requires (forall i :: 0 <= i < |v| ==> v[i] == 0.0) && FromOldest(u, 1.0)
    ensures EndsApart(fpu, defs, v, u, c)
  {
    hide ExactOps, Columns, FeatureDef.Sources, Link, ValueAt, Nums;
    var n := |v|;
    var name := defs[0].Sources()[0];
    ChainValues(fpu, defs, ws, map[name := Nums(v)], v, c, n - 1);
    ChainValues(fpu, defs, ws, map[name := Nums(u)], u, c, n - 1);
    SumUpIs(ws, v, c, n - 1);
    SumUpIs(ws, u, c, n - 1);
    SumOfZeros(ws, v, c, n - 1, ws[c]);
    SumKeepsOldest(ws, u, 1.0, c, n - 1, ws[c]);
  }
}
