/** Why a bounded buffer reproduces the batch path: a column over a stretch of the history agrees with
    the column over the whole history, wherever the stretch holds the column's lookback.
 */
module Causality {
  import opened Wrappers
  import opened Float
  import opened Registry
  import opened Cells
  import opened Spec
  import opened Lookback

  /** `win` is the stretch of `m` observations of `all` that starts at `a`. */
  ghost predicate Stretch<F>(all: map<string, seq<F>>, n: nat, win: map<string, seq<F>>, m: nat, a: nat) {
    && SameLength(all, n) && SameLength(win, m) && a + m <= n && win.Keys == all.Keys
    && forall key :: key in all ==> win[key] == all[key][a..a + m]
  }

  /** The stretch reaches back far enough for column `c` at observation `i`. */
  ghost predicate Deep(defs: seq<FeatureDef>, a: nat, c: nat, i: nat)
    requires c < |defs|
  {
    || a == 0
    || (LookbacksOk(defs, |defs|) && Depths(defs, |defs|)[c].Some?
        && a + Depths(defs, |defs|)[c].value <= i + 1)
  }

  lemma ColumnsAt<F>(fpu: Fpu<F>, defs: seq<FeatureDef>, inputs: map<string, seq<F>>, n: nat, c: nat, b: nat)
    requires c < b <= |defs| && SameLength(inputs, n)
    ensures Columns(fpu, defs, inputs, n, b)[c]
         == NextColumn(fpu, defs, Columns(fpu, defs, inputs, n, c), inputs, n, c)
  {
    hide NextColumn, SameLength;
    var all := Columns(fpu, defs, inputs, n, b);
    ColumnsPrefix(fpu, defs, inputs, n, c + 1, b);
    assert all[c] == all[..c + 1][c];
  }

  /** The first observation the evaluation of column `c` at `i` can look at. */
  ghost function Start(reach: Option<nat>, a: nat, i: nat): nat
    requires a == 0 || (reach.Some? && reach.value <= i + 1)
  {
    if a == 0 then 0 else i + 1 - reach.value
  }

  /** A source of column `c` is deep enough for every observation that column `c` reads of it. */
  lemma SourceDeep(defs: seq<FeatureDef>, a: nat, c: nat, e: nat, k: nat, i: nat, j: nat)
    requires c < |defs| && Deep(defs, a, c, i) && RunnableAt(defs, c)
    requires k < |defs[c].Sources()| && IndexOf(defs, c, defs[c].Sources()[k]) == Some(e)
    requires var reach := ReadParams(defs[c].feature, defs[c].params).value.Reach();
      a == 0 || (reach.Some? && reach.value <= i + 1 && i + 1 - reach.value <= j)
    ensures Deep(defs, a, e, j)
  {
    if a != 0 {
      hide ReadParams, Deepest;
      var n := |defs|;
      DepthsAt(defs, c, n);
      var prev := Depths(defs, n)[..c];
      OwnIsReach(defs, c);
      DeepestCovers(defs, prev, c, |defs[c].Sources()|, k);
    }
  }

  lemma ReachFits(defs: seq<FeatureDef>, a: nat, c: nat, i: nat)
    requires c < |defs| && a <= i && Deep(defs, a, c, i) && RunnableAt(defs, c)
    ensures var reach := ReadParams(defs[c].feature, defs[c].params).value.Reach();
      a == 0 || (reach.Some? && a + reach.value <= i + 1)
  {
    if a != 0 {
      hide ReadParams, Deepest;
      DepthsAt(defs, c, |defs|);
      OwnIsReach(defs, c);
    }
  }

  lemma SourcesAgree<F>(fpu: Fpu<F>, defs: seq<FeatureDef>, all: map<string, seq<F>>, n: nat,
                        win: map<string, seq<F>>, m: nat, a: nat, c: nat, i: nat, lo: nat, k: nat)
    requires c < |defs| && Stretch(all, n, win, m, a) && a <= lo <= i < a + m
    requires k < |defs[c].Sources()|
    requires forall e, j :: 0 <= e < c && lo <= j <= i && IndexOf(defs, c, defs[c].Sources()[k]) == Some(e) ==>
      Columns(fpu, defs, all, n, c)[e][j] == Columns(fpu, defs, win, m, c)[e][j - a]
    ensures Agree(Arguments(fpu, defs, Columns(fpu, defs, all, n, c), all, n, c)[k],
                  Arguments(fpu, defs, Columns(fpu, defs, win, m, c), win, m, c)[k], a, lo, i)
  {
    var name := defs[c].Sources()[k];
    var xs := Source(fpu, defs, Columns(fpu, defs, all, n, c), all, n, c, name);
    var ys := Source(fpu, defs, Columns(fpu, defs, win, m, c), win, m, c, name);
    forall j | lo <= j <= i
      ensures xs[j] == ys[j - a]
    {
      if IndexOf(defs, c, name).None? && name in all {
        assert win[name][j - a] == all[name][a..a + m][j - a];
      }
    }
  }

  /** The columns before `c` agree wherever column `c` will look. */
  ghost predicate EarlierAgree<F>(fpu: Fpu<F>, defs: seq<FeatureDef>, all: map<string, seq<F>>, n: nat,
                                  win: map<string, seq<F>>, m: nat, a: nat, c: nat, lo: nat, i: nat)
    requires c < |defs| && SameLength(all, n) && SameLength(win, m) && a <= lo && i < a + m <= n
  {
    forall k, e, j | 0 <= k < |defs[c].Sources()| && 0 <= e < c && lo <= j <= i
                  && IndexOf(defs, c, defs[c].Sources()[k]) == Some(e) ::
      Columns(fpu, defs, all, n, c)[e][j] == Columns(fpu, defs, win, m, c)[e][j - a]
  }

  /** One column's step: its arguments agree where it reads, so it does too. */
  lemma ColumnAgrees<F>(fpu: Fpu<F>, defs: seq<FeatureDef>, all: map<string, seq<F>>, n: nat,
                        win: map<string, seq<F>>, m: nat, a: nat, c: nat, lo: nat, i: nat)
    requires Stretch(all, n, win, m, a) && c < |defs| && a <= lo <= i < a + m && RunnableAt(defs, c)
    requires var reach := ReadParams(defs[c].feature, defs[c].params).value.Reach();
      (a == 0 || (reach.Some? && reach.value <= i + 1)) && lo == Start(reach, a, i)
    requires EarlierAgree(fpu, defs, all, n, win, m, a, c, lo, i)
    ensures Columns(fpu, defs, all, n, |defs|)[c][i] == Columns(fpu, defs, win, m, |defs|)[c][i - a]
  {
    hide Columns, Stretch, Agree, ReadParams;
    StretchLengths(all, n, win, m, a);
    var op := ReadParams(defs[c].feature, defs[c].params).value;
    var prevAll, prevWin := Columns(fpu, defs, all, n, c), Columns(fpu, defs, win, m, c);
    var xs, ys := Arguments(fpu, defs, prevAll, all, n, c), Arguments(fpu, defs, prevWin, win, m, c);
    forall k | 0 <= k < |xs|
      ensures Agree(xs[k], ys[k], a, lo, i)
    {
      SourcesAgree(fpu, defs, all, n, win, m, a, c, i, lo, k);
    }
    CellsAgree(fpu, op, xs, n, ys, m, a, lo, i);
    ColumnsAt(fpu, defs, all, n, c, |defs|);
    ColumnsAt(fpu, defs, win, m, c, |defs|);
  }

  lemma StretchLengths<F>(all: map<string, seq<F>>, n: nat, win: map<string, seq<F>>, m: nat, a: nat)
    requires Stretch(all, n, win, m, a)
    ensures SameLength(all, n) && SameLength(win, m) && a + m <= n
  {
  }

  lemma ColumnBefore<F>(fpu: Fpu<F>, defs: seq<FeatureDef>, inputs: map<string, seq<F>>, n: nat, e: nat, c: nat)
    requires e < c <= |defs| && SameLength(inputs, n)
    ensures Columns(fpu, defs, inputs, n, c)[e] == Columns(fpu, defs, inputs, n, |defs|)[e]
  {
    hide Columns;
    ColumnsPrefix(fpu, defs, inputs, n, c, |defs|);
  }

  /** Column `c` at observation `i` of the whole history is column `c` at the same observation of any
      stretch that is deep enough, through any depth of bindings. */
  lemma {:induction false} StretchMatchesHistory<F>(
    fpu: Fpu<F>, defs: seq<FeatureDef>, all: map<string, seq<F>>, n: nat,
    win: map<string, seq<F>>, m: nat, a: nat, c: nat, i: nat)
    requires Stretch(all, n, win, m, a) && c < |defs| && a <= i < a + m
    requires Runnable(defs) && Deep(defs, a, c, i)
    ensures Columns(fpu, defs, all, n, |defs|)[c][i] == Columns(fpu, defs, win, m, |defs|)[c][i - a]
    decreases c
  {
    hide Columns, Stretch, Deep, ReadParams;
    StretchLengths(all, n, win, m, a);
    assert RunnableAt(defs, c);
    ReachFits(defs, a, c, i);
    var lo := Start(ReadParams(defs[c].feature, defs[c].params).value.Reach(), a, i);
    forall k, e, j | 0 <= k < |defs[c].Sources()| && 0 <= e < c && lo <= j <= i
      && IndexOf(defs, c, defs[c].Sources()[k]) == Some(e)
      ensures Columns(fpu, defs, all, n, c)[e][j] == Columns(fpu, defs, win, m, c)[e][j - a]
    {
      SourceDeep(defs, a, c, e, k, i, j);
      StretchMatchesHistory(fpu, defs, all, n, win, m, a, e, j);
      ColumnBefore(fpu, defs, all, n, e, c);
      ColumnBefore(fpu, defs, win, m, e, c);
    }
    ColumnAgrees(fpu, defs, all, n, win, m, a, c, lo, i);
  }
}
