/** The cell-by-cell gate between a recorded feature matrix and this build's own. */
module Parity {
  import opened Wrappers
  import opened Float
  import opened Spec
  import opened ExactReals

  const DIVERGENCE_LIMIT: nat := 20

  datatype Criterion<F> = BitExact | MaxAbsDiff(eps: F)

  datatype Verdict = Match | Mismatch | NanDisagreement

  /** Whether two values that are not NaN agree. Equal values of `F` are equal bits. */
  predicate Holds<F(==)>(fpu: Fpu<F>, criterion: Criterion<F>, reference: F, candidate: F) {
    match criterion
    case BitExact => reference == candidate
    case MaxAbsDiff(eps) => fpu.ge(eps, fpu.abs(fpu.sub(reference, candidate)))
  }

  function Judge<F(==)>(fpu: Fpu<F>, criterion: Criterion<F>, reference: F, candidate: F): Verdict {
    match (fpu.isNan(reference), fpu.isNan(candidate))
    case (true, true) => Match
    case (true, false) => NanDisagreement
    case (false, true) => NanDisagreement
    case (false, false) => if Holds(fpu, criterion, reference, candidate) then Match else Mismatch
  }

  function Difference<F>(fpu: Fpu<F>, reference: F, candidate: F): F {
    if fpu.isNan(reference) || fpu.isNan(candidate) then fpu.nan else fpu.abs(fpu.sub(reference, candidate))
  }

  // ---------------------------------------------------------------- what a comparison should say

  /** The two matrices row by row, and the bar. */
  datatype Pair<!F> = Pair(fpu: Fpu<F>, criterion: Criterion<F>, cols: nat, reference: seq<seq<F>>,
                           candidate: seq<seq<F>>) {
    predicate Valid() {
      && |reference| == |candidate|
      && (forall r :: 0 <= r < |reference| ==> |reference[r]| == cols)
      && (forall r :: 0 <= r < |candidate| ==> |candidate[r]| == cols)
    }
  }

  function At<F(==)>(p: Pair<F>, r: nat, c: nat): Verdict
    requires p.Valid() && r < |p.reference| && c < p.cols
  {
    Judge(p.fpu, p.criterion, p.reference[r][c], p.candidate[r][c])
  }

  function DifferenceAt<F>(p: Pair<F>, r: nat, c: nat): F
    requires p.Valid() && r < |p.reference| && c < p.cols
  {
    Difference(p.fpu, p.reference[r][c], p.candidate[r][c])
  }

  /** A place in the row-major walk: rows before `r` are done, and `c` cells of row `r`. */
  predicate Place<F>(p: Pair<F>, r: nat, c: nat) {
    p.Valid() && r <= |p.reference| && c <= p.cols && (c > 0 ==> r < |p.reference|)
  }

  /** How many cells before a place have verdict `v`, in column `only` if one is named. */
  function Tally<F(==)>(p: Pair<F>, v: Verdict, only: Option<nat>, r: nat, c: nat): nat
    requires Place(p, r, c)
    decreases r, c
  {
    if c > 0 then
      Tally(p, v, only, r, c - 1) + (if At(p, r, c - 1) == v && (only == None || only == Some(c - 1)) then 1 else 0)
    else if r > 0 then Tally(p, v, only, r - 1, p.cols)
    else 0
  }

  /** The divergent cells before a place, in row-major order. */
  function Divergent<F(==)>(p: Pair<F>, r: nat, c: nat): seq<(nat, nat)>
    requires Place(p, r, c)
    decreases r, c
  {
    if c > 0 then Divergent(p, r, c - 1) + (if At(p, r, c - 1) == Match then [] else [(r, c - 1)])
    else if r > 0 then Divergent(p, r - 1, p.cols)
    else []
  }

  /** How many cells come before a place. */
  function Passed<F>(p: Pair<F>, r: nat, c: nat): nat
    requires Place(p, r, c)
    decreases r, c
  {
    if c > 0 then Passed(p, r, c - 1) + 1 else if r > 0 then Passed(p, r - 1, p.cols) else 0
  }

  lemma {:induction false} PassedIsArea<F>(p: Pair<F>, r: nat, c: nat)
    requires Place(p, r, c)
    ensures Passed(p, r, c) == r * p.cols + c
    decreases r, c
  {
    if c > 0 {
      PassedIsArea(p, r, c - 1);
    } else if r > 0 {
      PassedIsArea(p, r - 1, p.cols);
      assert (r - 1) * p.cols + p.cols == r * p.cols;
    }
  }

  /** Every divergent cell is a mismatch or a NaN on one side. */
  lemma {:induction false} DivergentCounted<F>(p: Pair<F>, r: nat, c: nat)
    requires Place(p, r, c)
    ensures |Divergent(p, r, c)| == Tally(p, Mismatch, None, r, c) + Tally(p, NanDisagreement, None, r, c)
    decreases r, c
  {
    if c > 0 {
      DivergentCounted(p, r, c - 1);
    } else if r > 0 {
      DivergentCounted(p, r - 1, p.cols);
    }
  }

  /** The list holds exactly the divergent cells before the place. */
  lemma {:induction false} DivergentAre<F>(p: Pair<F>, r: nat, c: nat, i: nat, j: nat)
    requires Place(p, r, c) && i < |p.reference| && j < p.cols
    ensures (i, j) in Divergent(p, r, c) <==> (i < r || (i == r && j < c)) && At(p, i, j) != Match
    decreases r, c
  {
    if c > 0 {
      DivergentAre(p, r, c - 1, i, j);
    } else if r > 0 {
      DivergentAre(p, r - 1, p.cols, i, j);
    }
  }

  /** Divergent cells in one column. */
  function InColumn<F(==)>(p: Pair<F>, k: nat, r: nat, c: nat): nat
    requires Place(p, r, c)
  {
    Tally(p, Mismatch, Some(k), r, c) + Tally(p, NanDisagreement, Some(k), r, c)
  }

  /** The first `n` columns' tallies, summed. */
  function SumOfColumns<F(==)>(p: Pair<F>, n: nat, r: nat, c: nat): nat
    requires Place(p, r, c)
  {
    if n == 0 then 0 else SumOfColumns(p, n - 1, r, c) + InColumn(p, n - 1, r, c)
  }

  lemma {:induction false} ColumnsAdvance<F>(p: Pair<F>, n: nat, r: nat, c: nat)
    requires Place(p, r, c) && c > 0
    ensures SumOfColumns(p, n, r, c) == SumOfColumns(p, n, r, c - 1) +
      (if At(p, r, c - 1) != Match && c - 1 < n then 1 else 0)
    decreases n
  {
    if n > 0 { ColumnsAdvance(p, n - 1, r, c); }
  }

  lemma {:induction false} ColumnsNextRow<F>(p: Pair<F>, n: nat, r: nat)
    requires Place(p, r, 0) && r > 0
    ensures SumOfColumns(p, n, r, 0) == SumOfColumns(p, n, r - 1, p.cols)
    decreases n
  {
    if n > 0 { ColumnsNextRow(p, n - 1, r); }
  }

  lemma {:induction false} NothingYet<F>(p: Pair<F>, n: nat)
    requires Place(p, 0, 0)
    ensures SumOfColumns(p, n, 0, 0) == 0
  {
    if n > 0 { NothingYet(p, n - 1); }
  }

  /** Column tallies sum to mismatches plus NaN disagreements. */
  lemma {:induction false} ColumnsSum<F>(p: Pair<F>, r: nat, c: nat)
    requires Place(p, r, c)
    ensures SumOfColumns(p, p.cols, r, c) == Tally(p, Mismatch, None, r, c) + Tally(p, NanDisagreement, None, r, c)
    decreases r, c
  {
    if c > 0 {
      ColumnsSum(p, r, c - 1);
      ColumnsAdvance(p, p.cols, r, c);
    } else if r > 0 {
      ColumnsSum(p, r - 1, p.cols);
      ColumnsNextRow(p, p.cols, r);
    } else {
      NothingYet(p, p.cols);
    }
  }

  // ---------------------------------------------------------------- the report

  datatype Divergence<F> = Divergence(row: nat, column: string, reference: F, candidate: F, absDiff: F,
                                      nanDisagreement: bool)

  datatype ColumnTally<F> = ColumnTally(name: string, cells: nat, nanDisagreements: nat, maxAbsDiff: F)

  datatype Report<F> = Report(
    rows: nat, cols: nat, cellsCompared: nat, bitMismatches: nat, nanDisagreements: nat,
    maxAbsDiff: F, maxAbsDiffAt: Option<(nat, nat)>, columns: seq<ColumnTally<F>>, divergences: seq<Divergence<F>>)
  {
    predicate Passed() {
      cellsCompared > 0 && bitMismatches == 0 && nanDisagreements == 0
    }
  }

  function Described<F>(p: Pair<F>, names: seq<string>, cell: (nat, nat)): Divergence<F>
    requires p.Valid() && cell.0 < |p.reference| && cell.1 < p.cols == |names|
  {
    var a, b := p.reference[cell.0][cell.1], p.candidate[cell.0][cell.1];
    Divergence(cell.0, names[cell.1], a, b, Difference(p.fpu, a, b), p.fpu.isNan(a) != p.fpu.isNan(b))
  }

  /** The kept divergences are the first of the divergent cells, in their order. */
  ghost predicate KeepsFirst<F>(p: Pair<F>, names: seq<string>, kept: seq<Divergence<F>>, cells: seq<(nat, nat)>)
    requires p.Valid() && |names| == p.cols
  {
    && |kept| == (if |cells| < DIVERGENCE_LIMIT then |cells| else DIVERGENCE_LIMIT)
    && forall k :: 0 <= k < |kept| ==>
      cells[k].0 < |p.reference| && cells[k].1 < p.cols && kept[k] == Described(p, names, cells[k])
  }

  ghost predicate TalliesAt<F>(p: Pair<F>, names: seq<string>, columns: seq<ColumnTally<F>>, r: nat, c: nat)
    requires Place(p, r, c) && |names| == p.cols
  {
    && |columns| == p.cols
    && forall k :: 0 <= k < p.cols ==>
      && columns[k].name == names[k]
      && columns[k].cells == InColumn(p, k, r, c)
      && columns[k].nanDisagreements == Tally(p, NanDisagreement, Some(k), r, c)
  }

  /** What the counters say at a place of the walk. */
  ghost predicate CountsAt<F>(p: Pair<F>, names: seq<string>, report: Report<F>, r: nat, c: nat)
    requires Place(p, r, c) && |names| == p.cols
  {
    && report.cellsCompared == Passed(p, r, c)
    && report.bitMismatches == Tally(p, Mismatch, None, r, c)
    && report.nanDisagreements == Tally(p, NanDisagreement, None, r, c)
    && TalliesAt(p, names, report.columns, r, c)
    && KeepsFirst(p, names, report.divergences, Divergent(p, r, c))
  }

  /** `>` orders: never of itself, and transitive. NaN is below and above nothing. */
  ghost predicate Ordered<F(!new)>(fpu: Fpu<F>) {
    && (forall x :: !fpu.gt(x, x))
    && (forall x, y, z :: fpu.gt(x, y) && fpu.gt(y, z) ==> fpu.gt(x, z))
  }

  /** The largest difference so far: nothing measured exceeds it, and it was measured where it says. */
  ghost predicate MaxAt<F(!new)>(p: Pair<F>, report: Report<F>, r: nat, c: nat)
    requires Place(p, r, c)
  {
    && (forall i, j :: 0 <= i < |p.reference| && 0 <= j < p.cols && (i < r || (i == r && j < c)) ==>
         !p.fpu.gt(DifferenceAt(p, i, j), report.maxAbsDiff))
    && match report.maxAbsDiffAt
       case None => report.maxAbsDiff == p.fpu.Zero()
       case Some(at) =>
         && at.0 < |p.reference| && at.1 < p.cols && (at.0 < r || (at.0 == r && at.1 < c))
         && report.maxAbsDiff == DifferenceAt(p, at.0, at.1) && p.fpu.Positive(report.maxAbsDiff)
  }

  /** A column's largest difference is zero, or above it and measured in some row of it already walked. */
  ghost predicate Measured<F>(p: Pair<F>, columns: seq<ColumnTally<F>>, r: nat, c: nat, k: nat)
    requires Place(p, r, c) && |columns| == p.cols && k < p.cols
  {
    || columns[k].maxAbsDiff == p.fpu.Zero()
    || (p.fpu.Positive(columns[k].maxAbsDiff) && exists i ::
      && 0 <= i < |p.reference| && (i < r || (i == r && k < c))
      && columns[k].maxAbsDiff == DifferenceAt(p, i, k))
  }

  /** The same in each column. */
  ghost predicate ColumnMaxAt<F(!new)>(p: Pair<F>, columns: seq<ColumnTally<F>>, r: nat, c: nat)
    requires Place(p, r, c)
  {
    && |columns| == p.cols
    && (forall i, j :: 0 <= i < |p.reference| && 0 <= j < p.cols && (i < r || (i == r && j < c)) ==>
         !p.fpu.gt(DifferenceAt(p, i, j), columns[j].maxAbsDiff))
    && forall k :: 0 <= k < p.cols ==> Measured(p, columns, r, c, k)
  }

  /** The rows of a matrix, as values. */
  ghost function Rows<F>(data: array2<F>): (r: seq<seq<F>>)
    reads data
    ensures |r| == data.Length0
    ensures forall i :: 0 <= i < data.Length0 ==> |r[i]| == data.Length1
    ensures forall i, j :: 0 <= i < data.Length0 && 0 <= j < data.Length1 ==> r[i][j] == data[i, j]
  {
    seq(data.Length0, i requires 0 <= i < data.Length0 reads data =>
      seq(data.Length1, j requires 0 <= j < data.Length1 reads data => data[i, j]))
  }

  lemma KeepsNext<F>(p: Pair<F>, names: seq<string>, kept: seq<Divergence<F>>, cells: seq<(nat, nat)>, cell: (nat, nat))
    requires p.Valid() && |names| == p.cols && cell.0 < |p.reference| && cell.1 < p.cols
    requires KeepsFirst(p, names, kept, cells)
    ensures KeepsFirst(p, names,
      if |kept| < DIVERGENCE_LIMIT then kept + [Described(p, names, cell)] else kept, cells + [cell])
  {
    hide Described;
  }

  lemma TalliesNext<F>(p: Pair<F>, names: seq<string>, columns: seq<ColumnTally<F>>, r: nat, c: nat, v: Verdict)
    requires Place(p, r, c + 1) && |names| == p.cols && TalliesAt(p, names, columns, r, c) && v == At(p, r, c)
    ensures var tally := columns[c];
      var more := tally.(cells := tally.cells + 1,
                         nanDisagreements := tally.nanDisagreements + if v == NanDisagreement then 1 else 0);
      TalliesAt(p, names, if v == Match then columns else columns[c := more], r, c + 1)
  {
    hide At;
  }

  /** The counters one cell further on. */
  lemma CountsNext<F>(p: Pair<F>, names: seq<string>, before: Report<F>, after: Report<F>, r: nat, c: nat, v: Verdict)
    requires Place(p, r, c + 1) && |names| == p.cols && CountsAt(p, names, before, r, c) && v == At(p, r, c)
    requires after.cellsCompared == before.cellsCompared + 1
    requires after.bitMismatches == before.bitMismatches + (if v == Mismatch then 1 else 0)
    requires after.nanDisagreements == before.nanDisagreements + (if v == NanDisagreement then 1 else 0)
    requires TalliesAt(p, names, after.columns, r, c + 1)
    requires after.divergences ==
      if v == Match || |before.divergences| >= DIVERGENCE_LIMIT then before.divergences
      else before.divergences + [Described(p, names, (r, c))]
    ensures CountsAt(p, names, after, r, c + 1)
  {
    hide At, KeepsFirst, TalliesAt, Described;
    if v == Match {
      assert Divergent(p, r, c + 1) == Divergent(p, r, c);
    } else {
      KeepsNext(p, names, before.divergences, Divergent(p, r, c), (r, c));
    }
  }

  lemma MaxNext<F(!new)>(p: Pair<F>, before: Report<F>, after: Report<F>, r: nat, c: nat)
    requires Place(p, r, c + 1) && Ordered(p.fpu) && MaxAt(p, before, r, c)
    requires if p.fpu.gt(DifferenceAt(p, r, c), before.maxAbsDiff)
             then after.maxAbsDiff == DifferenceAt(p, r, c) && after.maxAbsDiffAt == Some((r, c))
             else after.maxAbsDiff == before.maxAbsDiff && after.maxAbsDiffAt == before.maxAbsDiffAt
    ensures MaxAt(p, after, r, c + 1)
  {
    hide DifferenceAt;
  }

  lemma ColumnMaxNext<F(!new)>(p: Pair<F>, before: seq<ColumnTally<F>>, after: seq<ColumnTally<F>>, r: nat, c: nat)
    requires Place(p, r, c + 1) && Ordered(p.fpu) && ColumnMaxAt(p, before, r, c) && |after| == p.cols
    requires forall k :: 0 <= k < p.cols && k != c ==> after[k].maxAbsDiff == before[k].maxAbsDiff
    requires after[c].maxAbsDiff ==
      if p.fpu.gt(DifferenceAt(p, r, c), before[c].maxAbsDiff) then DifferenceAt(p, r, c) else before[c].maxAbsDiff
    ensures ColumnMaxAt(p, after, r, c + 1)
  {
    hide DifferenceAt;
    var next := c + 1;
    forall k | 0 <= k < p.cols
      ensures Measured(p, after, r, next, k)
    {
      assert Measured(p, before, r, c, k);
    }
  }

  /** What one cell adds to the maxima. */
  method Measure<F(!new)>(fpu: Fpu<F>, before: Report<F>, r: nat, c: nat, absDiff: F) returns (report: Report<F>)
    requires c < |before.columns|
    ensures var larger := fpu.gt(absDiff, before.maxAbsDiff);
      && report.maxAbsDiff == (if larger then absDiff else before.maxAbsDiff)
      && report.maxAbsDiffAt == (if larger then Some((r, c)) else before.maxAbsDiffAt)
    ensures |report.columns| == |before.columns|
    ensures forall k :: 0 <= k < |before.columns| ==>
      report.columns[k] == if k == c && fpu.gt(absDiff, before.columns[c].maxAbsDiff)
        then before.columns[c].(maxAbsDiff := absDiff) else before.columns[k]
    ensures report.(maxAbsDiff := before.maxAbsDiff, maxAbsDiffAt := before.maxAbsDiffAt, columns := before.columns)
      == before
  {
    report := before;
    if fpu.gt(absDiff, report.maxAbsDiff) {
      report := report.(maxAbsDiff := absDiff, maxAbsDiffAt := Some((r, c)));
    }
    if fpu.gt(absDiff, report.columns[c].maxAbsDiff) {
      report := report.(columns := report.columns[c := report.columns[c].(maxAbsDiff := absDiff)]);
    }
  }

  /** What one cell adds to the counters and the list. */
  method Count<F(==, !new)>(ghost p: Pair<F>, names: seq<string>, before: Report<F>, r: nat, c: nat, v: Verdict,
                            shown: Divergence<F>)
    returns (report: Report<F>)
    requires Place(p, r, c + 1) && |names| == p.cols && CountsAt(p, names, before, r, c)
    requires v == At(p, r, c) && shown == Described(p, names, (r, c))
    ensures CountsAt(p, names, report, r, c + 1)
    ensures report.maxAbsDiff == before.maxAbsDiff && report.maxAbsDiffAt == before.maxAbsDiffAt
    ensures report.rows == before.rows && report.cols == before.cols && |report.columns| == |before.columns|
    ensures forall k :: 0 <= k < |before.columns| ==> report.columns[k].maxAbsDiff == before.columns[k].maxAbsDiff
  {
    hide At, Described, KeepsFirst, InColumn, Tally, Divergent, Passed;
    TalliesNext(p, names, before.columns, r, c, v);
    report := before.(cellsCompared := before.cellsCompared + 1);
    if v != Match {
      var tally := report.columns[c];
      if v == Mismatch {
        report := report.(bitMismatches := report.bitMismatches + 1);
      } else {
        report := report.(nanDisagreements := report.nanDisagreements + 1);
        tally := tally.(nanDisagreements := tally.nanDisagreements + 1);
      }
      tally := tally.(cells := tally.cells + 1);
      report := report.(columns := report.columns[c := tally]);
      if |report.divergences| < DIVERGENCE_LIMIT {
        report := report.(divergences := report.divergences + [shown]);
      }
    }
    CountsNext(p, names, before, report, r, c, v);
  }

  /** A report at a place of the walk. */
  ghost predicate ReportAt<F(!new)>(p: Pair<F>, names: seq<string>, report: Report<F>, r: nat, c: nat)
    requires Place(p, r, c) && |names| == p.cols
  {
    && report.rows == |p.reference| && report.cols == p.cols && |report.columns| == p.cols
    && CountsAt(p, names, report, r, c)
    && (Ordered(p.fpu) ==> MaxAt(p, report, r, c) && ColumnMaxAt(p, report.columns, r, c))
  }

  lemma CountsIgnoreMaxima<F>(p: Pair<F>, names: seq<string>, before: Report<F>, after: Report<F>, r: nat, c: nat)
    requires Place(p, r, c) && |names| == p.cols && CountsAt(p, names, before, r, c)
    requires |after.columns| == |before.columns|
    requires forall k :: 0 <= k < |before.columns| ==>
      after.columns[k].(maxAbsDiff := before.columns[k].maxAbsDiff) == before.columns[k]
    requires after.cellsCompared == before.cellsCompared && after.bitMismatches == before.bitMismatches
    requires after.nanDisagreements == before.nanDisagreements && after.divergences == before.divergences
    ensures CountsAt(p, names, after, r, c)
  {
    hide KeepsFirst, InColumn, Tally, Divergent, Passed;
    forall k | 0 <= k < p.cols
      ensures after.columns[k].name == before.columns[k].name && after.columns[k].cells == before.columns[k].cells
      ensures after.columns[k].nanDisagreements == before.columns[k].nanDisagreements
    {
      assert after.columns[k].(maxAbsDiff := before.columns[k].maxAbsDiff) == before.columns[k];
    }
  }

  method CompareCell<F(==, !new)>(ghost p: Pair<F>, fpu: Fpu<F>, criterion: Criterion<F>, names: seq<string>,
                                  before: Report<F>, r: nat, c: nat, reference: F, candidate: F)
    returns (report: Report<F>)
    requires Place(p, r, c + 1) && |names| == p.cols && ReportAt(p, names, before, r, c)
    requires p.fpu == fpu && p.criterion == criterion
      && p.reference[r][c] == reference && p.candidate[r][c] == candidate
    ensures ReportAt(p, names, report, r, c + 1)
  {
    hide CountsAt, MaxAt, ColumnMaxAt, Ordered, Judge;
    var absDiff := if fpu.isNan(reference) || fpu.isNan(candidate)
      then fpu.nan else fpu.abs(fpu.sub(reference, candidate));
    assert absDiff == DifferenceAt(p, r, c);
    var measured := Measure(fpu, before, r, c, absDiff);
    CountsIgnoreMaxima(p, names, before, measured, r, c);
    var shown := Divergence(r, names[c], reference, candidate, absDiff, fpu.isNan(reference) != fpu.isNan(candidate));
    report := Count(p, names, measured, r, c, Judge(fpu, criterion, reference, candidate), shown);
    if Ordered(fpu) {
      MaxNext(p, before, report, r, c);
      ColumnMaxNext(p, before.columns, report.columns, r, c);
    }
  }

  lemma NextRow<F(!new)>(p: Pair<F>, names: seq<string>, report: Report<F>, r: nat)
    requires Place(p, r, p.cols) && r < |p.reference| && |names| == p.cols && ReportAt(p, names, report, r, p.cols)
    ensures ReportAt(p, names, report, r + 1, 0)
  {
    hide At, KeepsFirst, DifferenceAt, Ordered;
    var next := r + 1;
    forall k | 0 <= k < p.cols && Measured(p, report.columns, r, p.cols, k)
      ensures Measured(p, report.columns, next, 0, k)
    {
    }
  }

  /** The gate: a report over every cell, or a refusal of matrices that do not line up. */
  method Compare<F(==, !new)>(fpu: Fpu<F>, criterion: Criterion<F>, reference: FeatureMatrix<F>,
                              candidate: FeatureMatrix<F>)
    returns (result: Option<Report<F>>)
    requires |reference.columns| == reference.data.Length1 && |candidate.columns| == candidate.data.Length1
    ensures result.Some? <==>
      reference.data.Length0 == candidate.data.Length0 && reference.columns == candidate.columns
    ensures result.Some? ==>
      var p := Pair(fpu, criterion, |reference.columns|, Rows(reference.data), Rows(candidate.data));
      p.Valid() && ReportAt(p, reference.columns, result.value, |p.reference|, 0)
  {
    if candidate.data.Length0 != reference.data.Length0 || candidate.columns != reference.columns { return None; }
    var rows, cols, names := reference.data.Length0, |reference.columns|, reference.columns;
    ghost var p := Pair(fpu, criterion, cols, Rows(reference.data), Rows(candidate.data));
    var report := Empty(p, fpu, names, rows);
    hide ReportAt;
    for r := 0 to rows
      invariant ReportAt(p, names, report, r, 0)
    {
      for c := 0 to cols
        invariant ReportAt(p, names, report, r, c)
      {
        report := CompareCell(p, fpu, criterion, names, report, r, c, reference.data[r, c], candidate.data[r, c]);
      }
      NextRow(p, names, report, r);
    }
    result := Some(report);
  }

  method Empty<F(==, !new)>(ghost p: Pair<F>, fpu: Fpu<F>, names: seq<string>, rows: nat) returns (report: Report<F>)
    requires Place(p, 0, 0) && p.fpu == fpu && |names| == p.cols && rows == |p.reference|
    ensures ReportAt(p, names, report, 0, 0)
  {
    var columns := seq(|names|, k requires 0 <= k < |names| => ColumnTally(names[k], 0, 0, fpu.Zero()));
    report := Report(rows, |names|, 0, 0, 0, fpu.Zero(), None, columns, []);
  }

  // ---------------------------------------------------------------- the verdict

  /** Under the bar a feature bundle is held to, a cell matches when both sides are NaN or the bits are
      equal. */
  lemma MatchesExactly<F>(fpu: Fpu<F>, reference: F, candidate: F)
    ensures Judge(fpu, BitExact, reference, candidate) == Match <==>
      (fpu.isNan(reference) && fpu.isNan(candidate)) || reference == candidate
    ensures Judge(fpu, BitExact, reference, candidate) == NanDisagreement
      <==> fpu.isNan(reference) != fpu.isNan(candidate)
  {
  }

  /** A report passes exactly when there was something to compare and every cell matched. */
  lemma PassesExactly<F(!new)>(p: Pair<F>, names: seq<string>, report: Report<F>)
    requires p.Valid() && p.criterion == BitExact && |names| == p.cols && ReportAt(p, names, report, |p.reference|, 0)
    ensures report.Passed() <==>
      && 0 < |p.reference| * p.cols
      && forall i, j :: 0 <= i < |p.reference| && 0 <= j < p.cols ==>
        (p.fpu.isNan(p.reference[i][j]) && p.fpu.isNan(p.candidate[i][j])) || p.reference[i][j] == p.candidate[i][j]
  {
    var n := |p.reference|;
    PassedIsArea(p, n, 0);
    DivergentCounted(p, n, 0);
    hide CountsAt, KeepsFirst, TalliesAt, Judge, Tally, Divergent, Passed, MaxAt, ColumnMaxAt;
    ReportCounts(p, names, report, n);
    forall i, j | 0 <= i < n && 0 <= j < p.cols
      ensures At(p, i, j) == Match <==>
        (p.fpu.isNan(p.reference[i][j]) && p.fpu.isNan(p.candidate[i][j])) || p.reference[i][j] == p.candidate[i][j]
      ensures (i, j) in Divergent(p, n, 0) <==> At(p, i, j) != Match
    {
      MatchesExactly(p.fpu, p.reference[i][j], p.candidate[i][j]);
      DivergentAre(p, n, 0, i, j);
    }
    if Divergent(p, n, 0) != [] {
      var cell := Divergent(p, n, 0)[0];
      DivergentInside(p, n, 0, 0);
      assert cell in Divergent(p, n, 0) && At(p, cell.0, cell.1) != Match;
    }
  }

  lemma ReportCounts<F(!new)>(p: Pair<F>, names: seq<string>, report: Report<F>, r: nat)
    requires Place(p, r, 0) && |names| == p.cols && ReportAt(p, names, report, r, 0)
    ensures report.cellsCompared == Passed(p, r, 0)
    ensures report.bitMismatches == Tally(p, Mismatch, None, r, 0)
      && report.nanDisagreements == Tally(p, NanDisagreement, None, r, 0)
  {
  }

  lemma {:induction false} DivergentInside<F>(p: Pair<F>, r: nat, c: nat, k: nat)
    requires Place(p, r, c) && k < |Divergent(p, r, c)|
    ensures Divergent(p, r, c)[k].0 < |p.reference| && Divergent(p, r, c)[k].1 < p.cols
    decreases r, c
  {
    if c > 0 {
      if k < |Divergent(p, r, c - 1)| { DivergentInside(p, r, c - 1, k); }
    } else if r > 0 {
      DivergentInside(p, r - 1, p.cols, k);
    }
  }

  /** Each kept divergence is a cell of the two matrices as it stands there: where it is, what either side
      says, and whether only one of them is NaN. */
  lemma KeptAreCells<F(!new)>(p: Pair<F>, names: seq<string>, report: Report<F>, k: nat)
    requires p.Valid() && |names| == p.cols && ReportAt(p, names, report, |p.reference|, 0)
    requires k < |report.divergences|
    ensures exists c ::
      var d := report.divergences[k];
      && d.row < |p.reference| && 0 <= c < p.cols && d.column == names[c]
      && d.reference == p.reference[d.row][c] && d.candidate == p.candidate[d.row][c]
      && At(p, d.row, c) != Match
      && (d.nanDisagreement <==> At(p, d.row, c) == NanDisagreement)
      && (!d.nanDisagreement ==> d.absDiff == p.fpu.abs(p.fpu.sub(d.reference, d.candidate)))
  {
    var n := |p.reference|;
    var cells := Divergent(p, n, 0);
    hide Divergent, Tally, Passed, TalliesAt, MaxAt, ColumnMaxAt;
    var cell := cells[k];
    assert cell in cells && report.divergences[k] == Described(p, names, cell);
    DivergentAre(p, n, 0, cell.0, cell.1);
  }

  /** Over exact arithmetic a tolerance accepts two numbers exactly when they differ by no more than it,
      whichever is the reference. */
  lemma ToleranceExactly(fpu: Fpu<Exact>, eps: real, a: real, b: real)
    requires ExactOps(fpu)
    ensures Judge(fpu, MaxAbsDiff(Num(eps)), Num(a), Num(b)) == Match <==> -eps <= a - b <= eps
    ensures Judge(fpu, MaxAbsDiff(Num(eps)), Num(a), Num(b)) == Judge(fpu, MaxAbsDiff(Num(eps)), Num(b), Num(a))
  {
    hide ExactOps;
    ApartExactly(fpu, eps, a, b);
    ApartExactly(fpu, eps, b, a);
  }

  lemma ApartExactly(fpu: Fpu<Exact>, eps: real, a: real, b: real)
    requires ExactOps(fpu)
    ensures !fpu.isNan(Num(a)) && !fpu.isNan(Num(b))
    ensures fpu.ge(Num(eps), fpu.abs(fpu.sub(Num(a), Num(b)))) <==> -eps <= a - b <= eps
  {
    hide ExactOps;
    hide Fpu.Positive;
    SumsOn(fpu, Num(a), Num(b));
    TestsOn(fpu, Num(a), Num(b));
    TestsOn(fpu, Num(b), Num(a));
    TestsOn(fpu, Num(a - b), Num(eps));
    TestsOn(fpu, Num(eps), AbsOf(Num(a - b)));
  }

  /** Nothing is lost between the counters: the columns' tallies are the mismatches and the NaN
      disagreements, and as many cells diverge. */
  lemma CountersAgree<F(!new)>(p: Pair<F>, names: seq<string>, report: Report<F>)
    requires p.Valid() && |names| == p.cols && ReportAt(p, names, report, |p.reference|, 0)
    ensures SumOfCells(report.columns, p.cols) == report.bitMismatches + report.nanDisagreements
    ensures report.bitMismatches + report.nanDisagreements == |Divergent(p, |p.reference|, 0)|
    ensures report.cellsCompared == |p.reference| * p.cols
    ensures KeepsFirst(p, names, report.divergences, Divergent(p, |p.reference|, 0))
  {
    var n := |p.reference|;
    PassedIsArea(p, n, 0);
    DivergentCounted(p, n, 0);
    ColumnsSum(p, n, 0);
    hide KeepsFirst, Tally, Divergent, Passed, InColumn, MaxAt, ColumnMaxAt;
    CellsAreTallies(p, names, report.columns, p.cols, n);
  }

  function SumOfCells<F>(columns: seq<ColumnTally<F>>, n: nat): nat
    requires n <= |columns|
  {
    if n == 0 then 0 else SumOfCells(columns, n - 1) + columns[n - 1].cells
  }

  lemma {:induction false} CellsAreTallies<F>(p: Pair<F>, names: seq<string>, columns: seq<ColumnTally<F>>, n: nat,
                                              r: nat)
    requires Place(p, r, 0) && |names| == p.cols && TalliesAt(p, names, columns, r, 0) && n <= p.cols
    ensures SumOfCells(columns, n) == SumOfColumns(p, n, r, 0)
    decreases n
  {
    hide InColumn, Tally;
    if n > 0 { CellsAreTallies(p, names, columns, n - 1, r); }
  }

  /** The columns' maxima in a line: no two are above each other, and where one is above another any third
      is below the one or above the other. */
  ghost predicate Comparable<F>(fpu: Fpu<F>, columns: seq<ColumnTally<F>>) {
    forall i, j, k :: 0 <= i < |columns| && 0 <= j < |columns| && 0 <= k < |columns| ==>
      Lined(fpu, columns[i].maxAbsDiff, columns[j].maxAbsDiff, columns[k].maxAbsDiff)
  }

  predicate Lined<F>(fpu: Fpu<F>, a: F, b: F, c: F) {
    && !(fpu.gt(a, c) && fpu.gt(c, a))
    && (fpu.gt(a, c) ==> fpu.gt(a, b) || fpu.gt(b, c))
  }

  /** `>` as floats have it: an order, of everything but NaN, in which what is not told apart from one
      value is not told apart by any other. */
  ghost predicate FloatOrder<F(!new)>(fpu: Fpu<F>) {
    && Ordered(fpu) && !fpu.isNan(fpu.Zero())
    && (forall x, y :: fpu.gt(x, y) ==> !fpu.isNan(x) && !fpu.isNan(y))
    && forall x, y, z :: fpu.gt(x, z) && !fpu.isNan(y) ==> fpu.gt(x, y) || fpu.gt(y, z)
  }

  /** The maxima of a report are numbers, so they lie in a line. */
  lemma MaximaComparable<F(!new)>(p: Pair<F>, names: seq<string>, report: Report<F>)
    requires p.Valid() && |names| == p.cols && ReportAt(p, names, report, |p.reference|, 0)
    requires FloatOrder(p.fpu)
    ensures Comparable(p.fpu, report.columns)
  {
    hide CountsAt, MaxAt;
    forall k | 0 <= k < p.cols
      ensures !p.fpu.isNan(report.columns[k].maxAbsDiff)
    {
      assert Measured(p, report.columns, |p.reference|, 0, k);
    }
  }

  /** Exact arithmetic with a NaN is so ordered. */
  lemma ExactIsOrdered(fpu: Fpu<Exact>)
    requires ExactOps(fpu)
    ensures FloatOrder(fpu)
  {
    hide ExactValues, ExactSums, ExactProducts;
    OpsOn(fpu, NotANumber, NotANumber);
  }

  /** No column of the first `n` has more divergent cells than `w`. */
  ghost predicate Most<F>(columns: seq<ColumnTally<F>>, n: nat, w: nat)
    requires n <= |columns| && w < |columns|
  {
    forall k :: 0 <= k < n ==> columns[k].cells <= columns[w].cells
  }

  /** None of those with as many has a larger difference. */
  ghost predicate Largest<F>(fpu: Fpu<F>, columns: seq<ColumnTally<F>>, n: nat, w: nat)
    requires n <= |columns| && w < |columns|
  {
    forall k :: 0 <= k < n && columns[k].cells == columns[w].cells ==>
      !fpu.gt(columns[k].maxAbsDiff, columns[w].maxAbsDiff)
  }

  lemma LargestMoves<F>(fpu: Fpu<F>, columns: seq<ColumnTally<F>>, n: nat, w: nat)
    requires n < |columns| && w < n && Comparable(fpu, columns) && Most(columns, n, w) && Largest(fpu, columns, n, w)
    ensures columns[n].cells > columns[w].cells ==> Largest(fpu, columns, n + 1, n)
    ensures columns[n].cells < columns[w].cells ==> Largest(fpu, columns, n + 1, w)
    ensures columns[n].cells == columns[w].cells ==>
      if fpu.gt(columns[w].maxAbsDiff, columns[n].maxAbsDiff) then Largest(fpu, columns, n + 1, w)
        else Largest(fpu, columns, n + 1, n)
  {
    assert Lined(fpu, columns[n].maxAbsDiff, columns[n].maxAbsDiff, columns[n].maxAbsDiff);
    assert Lined(fpu, columns[w].maxAbsDiff, columns[w].maxAbsDiff, columns[n].maxAbsDiff);
    forall k | 0 <= k < n
      ensures Lined(fpu, columns[k].maxAbsDiff, columns[w].maxAbsDiff, columns[n].maxAbsDiff)
    {
    }
  }

  lemma LargestAlone<F>(fpu: Fpu<F>, columns: seq<ColumnTally<F>>, n: nat)
    requires n < |columns| && Comparable(fpu, columns) && columns[n].cells > 0
    requires forall k :: 0 <= k < n ==> columns[k].cells == 0
    ensures Largest(fpu, columns, n + 1, n)
  {
    assert Lined(fpu, columns[n].maxAbsDiff, columns[n].maxAbsDiff, columns[n].maxAbsDiff);
  }

  /** The column with the most divergent cells, ties by magnitude, and then the last. */
  method WorstColumn<F>(fpu: Fpu<F>, columns: seq<ColumnTally<F>>) returns (worst: Option<nat>)
    ensures worst == None <==> forall k :: 0 <= k < |columns| ==> columns[k].cells == 0
    ensures worst.Some? ==> worst.value < |columns| && columns[worst.value].cells > 0
    ensures worst.Some? ==> Most(columns, |columns|, worst.value)
    ensures worst.Some? && Comparable(fpu, columns) ==> Largest(fpu, columns, |columns|, worst.value)
  {
    hide Largest, Comparable;
    worst := None;
    for n := 0 to |columns|
      invariant worst == None <==> forall k :: 0 <= k < n ==> columns[k].cells == 0
      invariant worst.Some? ==> worst.value < n && columns[worst.value].cells > 0
      invariant worst.Some? ==> Most(columns, n, worst.value)
      invariant worst.Some? && Comparable(fpu, columns) ==> Largest(fpu, columns, n, worst.value)
    {
      var next := columns[n];
      if worst == None {
        if next.cells > 0 {
          if Comparable(fpu, columns) { LargestAlone(fpu, columns, n); }
          worst := Some(n);
        }
      } else {
        if Comparable(fpu, columns) { LargestMoves(fpu, columns, n, worst.value); }
        var best := columns[worst.value];
        if next.cells > best.cells || (next.cells == best.cells && !fpu.gt(best.maxAbsDiff, next.maxAbsDiff)) {
          worst := Some(n);
        }
      }
    }
  }
}
