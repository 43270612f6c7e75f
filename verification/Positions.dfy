/** Signed-position accounting: net quantity, average entry price and realized profit, through opens,
    additions, reductions, exact closes and flips. Decimals are exact reals here.
 */
module Positions {
  import opened Reals

  datatype Side = Buy | Sell

  function Signed(side: Side, qty: real): real {
    if side == Buy then qty else -qty
  }

  /** The value of a position: signed quantity, average entry price of what is open, realized profit. */
  datatype Holding = Holding(qty: real, avgPx: real, realized: real) {
    function Unrealized(mark: real): real {
      (mark - avgPx) * qty
    }

    function Profit(mark: real): real {
      realized + Unrealized(mark)
    }
  }

  function Flat(): Holding {
    Holding(0.0, 0.0, 0.0)
  }

  /** The mean of two prices by size. */
  function Average(a: real, wa: real, b: real, wb: real): real
    requires wa >= 0.0 && wb > 0.0
  {
    (a * wa + b * wb) / (wa + wb)
  }

  predicate SameDirection(a: real, b: real) {
    a == 0.0 || (a > 0.0) == (b > 0.0)
  }

  /** Average-cost accounting: what a trade of signed size `s` at `px` leaves. One of no size leaves an open
      position as it is, and a flat one without a price. */
  function Traded(h: Holding, s: real, px: real): Holding {
    if s == 0.0 then (if h.qty == 0.0 then h.(avgPx := 0.0) else h)
    else if SameDirection(h.qty, s) then
      Holding(h.qty + s, Average(h.avgPx, Abs(h.qty), px, Abs(s)), h.realized)
    else if Abs(s) < Abs(h.qty) then
      Holding(h.qty + s, h.avgPx, h.realized + Times(h.avgPx - px, s))
    else
      var closed := h.realized + Times(px - h.avgPx, h.qty);
      if Abs(s) == Abs(h.qty) then Holding(0.0, 0.0, closed) else Holding(h.qty + s, px, closed)
  }

  class Position {
    const symbol: int
    var qty: real
    var avgPx: real
    var realizedPnl: real

    ghost function Value(): Holding
      reads this
    {
      Holding(qty, avgPx, realizedPnl)
    }

    constructor (symbol: int, h: Holding)
      ensures this.symbol == symbol && Value() == h
    {
      this.symbol := symbol;
      qty, avgPx, realizedPnl := h.qty, h.avgPx, h.realized;
    }

    method ApplyFill(side: Side, qty: real, px: real)
      requires qty >= 0.0
      modifies this
      ensures Value() == Traded(old(Value()), Signed(side, qty), px)
    {
      hide Traded;
      var signed := if side == Buy then qty else -qty;
      if this.qty == 0.0 || (this.qty > 0.0) == (signed > 0.0) {
        Open(qty, signed, px);
      } else {
        Close(qty, signed, px);
      }
    }

    /** Opening or adding: re-average over the combined magnitude. */
    method Open(qty: real, signed: real, px: real)
      requires qty == Abs(signed) && SameDirection(this.qty, signed)
      modifies this
      ensures Value() == Traded(old(Value()), signed, px)
    {
      if signed != 0.0 {
        Magnitudes(this.qty, signed);
      } else if this.qty != 0.0 {
        AveragedWithNothing(avgPx, Abs(this.qty), px);
      }
      var newQty := this.qty + signed;
      var notional := avgPx * Abs(this.qty) + px * qty;
      avgPx := if newQty == 0.0 then 0.0 else notional / Abs(newQty);
      this.qty := newQty;
    }

    /** The opposite direction: realize what is closed, and keep, clear or re-open the rest. */
    method Close(qty: real, signed: real, px: real)
      requires qty == Abs(signed) && !SameDirection(this.qty, signed)
      modifies this
      ensures Value() == Traded(old(Value()), signed, px)
    {
      Realize(qty, signed, px);
      var newQty := this.qty + signed;
      if newQty == 0.0 {
        this.qty := 0.0;
        avgPx := 0.0;
      } else if (newQty > 0.0) == (this.qty > 0.0) {
        this.qty := newQty;
      } else {
        this.qty := newQty;
        avgPx := px;
      }
    }

    method Realize(qty: real, signed: real, px: real)
      requires qty == Abs(signed) && !SameDirection(this.qty, signed)
      modifies this`realizedPnl
      ensures realizedPnl == Traded(old(Value()), signed, px).realized
    {
      hide Traded;
      var closing := if qty < Abs(this.qty) then qty else Abs(this.qty);
      var dir := if this.qty > 0.0 then 1.0 else -1.0;
      RealizedIs(Value(), signed, px, closing);
      realizedPnl := realizedPnl + dir * (px - avgPx) * closing;
    }
  }

  lemma AveragedWithNothing(avg: real, w: real, px: real)
    requires w > 0.0
    ensures (avg * w + px * 0.0) / w == avg
  {
  }

  lemma Magnitudes(q: real, s: real)
    requires s != 0.0 && SameDirection(q, s)
    ensures q + s != 0.0 && Abs(q + s) == Abs(q) + Abs(s)
  {
  }

  /** The gain on closing `size` of a position, the way the code multiplies it out. */
  function Gain(long: bool, avg: real, px: real, size: real): real {
    (if long then 1.0 else -1.0) * (px - avg) * size
  }

  lemma RealizedIs(h: Holding, signed: real, px: real, closing: real)
    requires !SameDirection(h.qty, signed)
    requires closing == if Abs(signed) < Abs(h.qty) then Abs(signed) else Abs(h.qty)
    ensures Traded(h, signed, px).realized ==
      h.realized + Gain(h.qty > 0.0, h.avgPx, px, closing)
  {
    hide Times, Average, Gain;
    Earned(h.qty > 0.0, h.avgPx, px, closing);
    if Abs(signed) < Abs(h.qty) {
      TimesNothing(h.avgPx - px);
      assert (if h.qty > 0.0 then -closing else closing) == signed;
    } else {
      assert (if h.qty > 0.0 then closing else -closing) == h.qty;
    }
  }

  lemma TimesNothing(x: real)
    ensures Times(x, 0.0) == 0.0
  {
  }

  lemma Earned(long: bool, avg: real, px: real, size: real)
    ensures Gain(long, avg, px, size) == Times(px - avg, if long then size else -size)
    ensures Gain(long, avg, px, size) == Times(avg - px, if long then -size else size)
  {
  }

  // ---------------------------------------------------------------- whole histories

  /** A trade: signed size and price. */
  datatype Trade = Trade(size: real, px: real) {
    function Worth(mark: real): real { Times(mark - px, size) }
  }

  function After(trades: seq<Trade>): Holding
  {
    if trades == [] then Flat()
    else
      var last := trades[|trades| - 1];
      Traded(After(trades[..|trades| - 1]), last.size, last.px)
  }

  function NetSize(trades: seq<Trade>): real {
    if trades == [] then 0.0 else NetSize(trades[..|trades| - 1]) + trades[|trades| - 1].size
  }

  /** What each trade is worth at `mark` on its own, summed. */
  function Worth(trades: seq<Trade>, mark: real): real {
    if trades == [] then 0.0
    else
      var last := trades[|trades| - 1];
      Worth(trades[..|trades| - 1], mark) + last.Worth(mark)
  }

  lemma ProfitOf(h: Holding, mark: real)
    ensures h.Profit(mark) == h.realized + Times(mark, h.qty) - Times(h.avgPx, h.qty)
  {
  }

  lemma TimesSubtracts(x: real, y: real, w: real)
    ensures Times(x - y, w) == Times(x, w) - Times(y, w)
  {
  }

  lemma TimesNegates(x: real, w: real)
    ensures Times(x, -w) == -Times(x, w)
  {
  }

  lemma AverageIsCost(a: real, wa: real, b: real, wb: real)
    requires wa >= 0.0 && wb > 0.0
    ensures Times(Average(a, wa, b, wb), wa + wb) == Times(a, wa) + Times(b, wb)
  {
  }

  /** Averaging in keeps the cost of what is held. */
  lemma CostsAdd(h: Holding, s: real, px: real)
    requires s != 0.0 && SameDirection(h.qty, s)
    ensures Times(Average(h.avgPx, Abs(h.qty), px, Abs(s)), h.qty + s) == Times(h.avgPx, h.qty) + Times(px, s)
  {
    hide Times, Average;
    AverageIsCost(h.avgPx, Abs(h.qty), px, Abs(s));
    Magnitudes(h.qty, s);
    if s < 0.0 {
      TimesNegates(Average(h.avgPx, Abs(h.qty), px, Abs(s)), h.qty + s);
      TimesNegates(h.avgPx, h.qty);
      TimesNegates(px, s);
    }
  }

  lemma OpeningConserves(h: Holding, s: real, px: real, mark: real)
    requires s != 0.0 && SameDirection(h.qty, s)
    ensures Traded(h, s, px).Profit(mark) == h.Profit(mark) + Times(mark - px, s)
  {
    hide Times, Average, Holding.Profit;
    CostsAdd(h, s, px);
    ProfitOf(Traded(h, s, px), mark);
    ProfitOf(h, mark);
    TimesAdds(mark, h.qty, s);
    TimesSubtracts(mark, px, s);
  }

  lemma ClosingConserves(h: Holding, s: real, px: real, mark: real)
    requires s != 0.0 && !SameDirection(h.qty, s)
    ensures Traded(h, s, px).Profit(mark) == h.Profit(mark) + Times(mark - px, s)
  {
    hide Times, Average, Holding.Profit;
    var t := Traded(h, s, px);
    ProfitOf(t, mark);
    ProfitOf(h, mark);
    TimesAdds(mark, h.qty, s);
    TimesAdds(h.avgPx, h.qty, s);
    TimesAdds(px, h.qty, s);
    TimesSubtracts(mark, px, s);
    TimesSubtracts(h.avgPx, px, s);
    TimesSubtracts(px, h.avgPx, h.qty);
    if Abs(s) == Abs(h.qty) {
      assert h.qty + s == 0.0;
      TimesZero(px, mark);
      TimesZero(px, 0.0);
    }
  }

  lemma NothingTraded(h: Holding, px: real, mark: real)
    ensures Traded(h, 0.0, px).Profit(mark) == h.Profit(mark) + Times(mark - px, 0.0)
  {
    hide Times, Holding.Profit;
    TimesByZero(mark - px);
    ProfitOf(h, mark);
    ProfitOf(Traded(h, 0.0, px), mark);
    if h.qty == 0.0 { TimesZero(h.avgPx, 0.0); }
  }

  /** One trade changes profit by its own worth, at every mark, and quantity by its size. */
  lemma TradeConserves(h: Holding, s: real, px: real, mark: real)
    ensures Traded(h, s, px).Profit(mark) == h.Profit(mark) + Times(mark - px, s)
    ensures Traded(h, s, px).qty == h.qty + s
  {
    hide Times, Average, Holding.Profit;
    if s == 0.0 {
      NothingTraded(h, px, mark);
    } else if SameDirection(h.qty, s) {
      OpeningConserves(h, s, px, mark);
    } else {
      ClosingConserves(h, s, px, mark);
    }
  }

  /** Realized plus unrealized profit is the worth of the trades, at every mark price. */
  lemma {:induction false} ProfitIsWorth(trades: seq<Trade>, mark: real)
    ensures After(trades).Profit(mark) == Worth(trades, mark)
    ensures After(trades).qty == NetSize(trades)
  {
    hide Traded, Holding.Profit, Times;
    if trades == [] {
      ProfitOf(Flat(), mark);
      TimesByZero(mark);
      TimesByZero(0.0);
    } else {
      var last := trades[|trades| - 1];
      ProfitIsWorth(trades[..|trades| - 1], mark);
      TradeConserves(After(trades[..|trades| - 1]), last.size, last.px, mark);
    }
  }

  /** A flat account has realized exactly the cash its trades moved. */
  lemma FlatRealizesAll(trades: seq<Trade>, mark: real)
    requires NetSize(trades) == 0.0
    ensures After(trades).realized == Worth(trades, mark) && After(trades).avgPx == 0.0
  {
    ProfitIsWorth(trades, mark);
    FlatHasNoPrice(trades);
  }

  lemma FlatHasNoPrice(trades: seq<Trade>)
    ensures After(trades).qty == 0.0 ==> After(trades).avgPx == 0.0
  {
    hide Times, Average;
    if trades != [] {
      var h, last := After(trades[..|trades| - 1]), trades[|trades| - 1];
      if last.size != 0.0 && SameDirection(h.qty, last.size) { Magnitudes(h.qty, last.size); }
    }
  }

  // ---------------------------------------------------------------- the split between the two

  /** The trades since the position was last opened: from flat, or through zero. */
  function Since(trades: seq<Trade>): seq<Trade>
  {
    if trades == [] then []
    else
      var before, last := After(trades[..|trades| - 1]), trades[|trades| - 1];
      if before.qty == 0.0 || (!SameDirection(before.qty, last.size) && Abs(last.size) >= Abs(before.qty)) then [last]
      else Since(trades[..|trades| - 1]) + [last]
  }

  ghost predicate Between(trades: seq<Trade>, lo: real, hi: real) {
    forall i :: 0 <= i < |trades| ==> lo <= trades[i].px <= hi
  }

  lemma TimesAdds(x: real, wa: real, wb: real)
    ensures Times(x, wa + wb) == Times(x, wa) + Times(x, wb)
  {
  }

  lemma TimesMonotone(x: real, y: real, w: real)
    requires x <= y && w >= 0.0
    ensures Times(x, w) <= Times(y, w)
  {
  }

  lemma TimesZero(x: real, y: real)
    ensures Times(x, 0.0) == Times(y, 0.0)
  {
  }

  lemma WeightedSum(a: real, wa: real, b: real, wb: real, lo: real, hi: real)
    requires wa >= 0.0 && wb > 0.0 && lo <= b <= hi && (wa > 0.0 ==> lo <= a <= hi)
    ensures Times(lo, wa + wb) <= Times(a, wa) + Times(b, wb) <= Times(hi, wa + wb)
  {
    hide Times;
    TimesAdds(lo, wa, wb);
    TimesAdds(hi, wa, wb);
    TimesMonotone(lo, b, wb);
    TimesMonotone(b, hi, wb);
    if wa > 0.0 {
      TimesMonotone(lo, a, wa);
      TimesMonotone(a, hi, wa);
    } else {
      TimesZero(lo, a);
      TimesZero(a, hi);
    }
  }

  lemma Quotient(x: real, n: real, w: real)
    requires w > 0.0
    ensures Times(x, w) <= n ==> x <= n / w
    ensures n <= Times(x, w) ==> n / w <= x
  {
    var v := n / w;
    assert v * w == n;
    if x > v { assert (x - v) * w > 0.0; }
    if v > x { assert (v - x) * w > 0.0; }
  }

  lemma AverageOfTwo(a: real, wa: real, b: real, wb: real, lo: real, hi: real)
    requires wa >= 0.0 && wb > 0.0 && lo <= b <= hi && (wa > 0.0 ==> lo <= a <= hi)
    ensures lo <= Average(a, wa, b, wb) <= hi
  {
    WeightedSum(a, wa, b, wb, lo, hi);
    Quotient(lo, Times(a, wa) + Times(b, wb), wa + wb);
    Quotient(hi, Times(a, wa) + Times(b, wb), wa + wb);
  }

  /** The average price of an open position lies among the prices paid since it was opened. */
  lemma {:induction false} AverageAmongPrices(trades: seq<Trade>, lo: real, hi: real)
    requires Between(Since(trades), lo, hi)
    ensures After(trades).qty != 0.0 ==> lo <= After(trades).avgPx <= hi
  {
    hide Traded;
    if trades != [] {
      var front, last := trades[..|trades| - 1], trades[|trades| - 1];
      var h := After(front);
      assert Since(trades)[|Since(trades)| - 1] == last;
      if Since(trades) != [last] {
        assert forall i :: 0 <= i < |Since(front)| ==> Since(trades)[i] == Since(front)[i];
        AverageAmongPrices(front, lo, hi);
      }
      AverageStep(h, last.size, last.px, lo, hi);
    }
  }

  lemma AverageStep(h: Holding, s: real, px: real, lo: real, hi: real)
    requires lo <= px <= hi
    requires h.qty != 0.0 && (SameDirection(h.qty, s) || Abs(s) < Abs(h.qty)) ==> lo <= h.avgPx <= hi
    ensures Traded(h, s, px).qty != 0.0 ==> lo <= Traded(h, s, px).avgPx <= hi
  {
    hide Times, Average;
    if s != 0.0 && SameDirection(h.qty, s) {
      AverageOfTwo(h.avgPx, Abs(h.qty), px, Abs(s), lo, hi);
    }
  }

  /** Profit is realized only by closing: a trade in the position's direction books nothing, and one
      against it books, on the part it closes, the distance from the average price. */
  lemma RealizedByClosing(h: Holding, s: real, px: real)
    ensures var closed := if SameDirection(h.qty, s) then 0.0 else if Abs(s) < Abs(h.qty) then Abs(s) else Abs(h.qty);
      Traded(h, s, px).realized - h.realized == Times(if h.qty > 0.0 then px - h.avgPx else h.avgPx - px, closed)
  {
    hide Times, Average;
    if SameDirection(h.qty, s) {
      TimesByZero(if h.qty > 0.0 then px - h.avgPx else h.avgPx - px);
    } else if s == 0.0 {
      TimesByZero(px - h.avgPx);
      TimesByZero(h.avgPx - px);
    } else {
      assert -(px - h.avgPx) == h.avgPx - px;
      TimesSigns(px - h.avgPx, s);
      TimesSigns(px - h.avgPx, h.qty);
    }
  }

  lemma TimesByZero(x: real)
    ensures Times(x, 0.0) == 0.0
  {
  }

  lemma TimesSigns(x: real, w: real)
    ensures Times(-x, w) == -Times(x, w) == Times(x, -w)
    ensures Times(-x, -w) == Times(x, w)
  {
  }
}
