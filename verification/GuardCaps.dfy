/** What the size caps and the portfolio bound buy over a batch: where an accepted one leaves every
    position, and the book, after any of its orders has filled.
 */
module GuardCaps {
  import opened Wrappers
  import opened Positions
  import opened Reals
  import opened Tracker
  import opened Risk
  import opened Portfolio
  import opened Guard

  // ---------------------------------------------------------------- one order

  /** The portfolio bound's part: an unreadable book admits only what reduces. */
  predicate BookAdmits(g: Gate, w: World, req: Request) {
    g.portfolio.Declared() ==>
      match w.book
      case None => ReducesExposure(req.side, req.qty, w.Held(req.symbol))
      case Some(legs) => PortfolioCheck(g.portfolio, req, legs, w.Held(req.symbol), w.Mark(req.symbol)) == None
  }

  /** The price the size caps are measured in. */
  function PriceOf(w: World, symbol: nat): real {
    if w.Mark(symbol).Some? then w.Mark(symbol).value else 0.0
  }

  predicate LossAdmits(g: Gate, w: World, req: Request) {
    g.tripped ==> ReducesExposure(req.side, req.qty, w.Held(req.symbol))
  }

  predicate IsPriced(w: World, req: Request) {
    w.Mark(req.symbol).Some? || req.reduceOnly
  }

  /** An order passes exactly when all four gates let it: the loss limit, the book, the price it must have
      unless it is reduce-only, and the size caps at that price. Refused, it is for the first that does
      not. */
  lemma PassesExactly(g: Gate, w: World, req: Request)
    ensures var verdict := Verdict(g, w, req);
      var caps := RiskCheck(g.risk, req, w.Position(req.symbol), PriceOf(w, req.symbol));
      && (verdict == None <==> LossAdmits(g, w, req) && BookAdmits(g, w, req) && IsPriced(w, req) && caps == None)
      && (verdict == Some(LossLimit) <==> !LossAdmits(g, w, req))
      && (verdict.Some? && verdict.value.ByPortfolio? <==> LossAdmits(g, w, req) && !BookAdmits(g, w, req))
      && (verdict == Some(NoMark) <==> LossAdmits(g, w, req) && BookAdmits(g, w, req) && !IsPriced(w, req))
  {
    hide RiskCheck, PortfolioCheck, ReducesExposure;
  }

  /** A full fill is assumed at the order's own limit, without one at the mark, and without that at the
      average: the profit at that price is what it was. */
  lemma FillsAtItsPrice(w: World, req: Request)
    requires req.qty >= 0.0
    ensures var before, after := w.Position(req.symbol), FilledWorld(w, req).Position(req.symbol);
      var mark := w.Mark(req.symbol);
      && (req.price.Some? ==> after.Profit(req.price.value) == before.Profit(req.price.value))
      && (req.price.None? && mark.Some? ==> after.Profit(mark.value) == before.Profit(mark.value))
      && (req.price.None? && mark.None? ==> after.Profit(before.avgPx) == before.Profit(before.avgPx))
  {
    hide Traded, Carried, Holding.Profit;
    var position, mark := w.Position(req.symbol), w.Mark(req.symbol);
    var px := FillPrice(req, mark, position);
    TradeConserves(position, Signed(req.side, req.qty), px, px);
  }

  /** A leg keeps the mark it has; an order's own mark only fills a gap, and no other leg is touched. */
  lemma CarriedMark(legs: Exposure, symbol: nat, signed: real, mark: Option<real>, other: nat)
    ensures LegMark(Carried(legs, symbol, signed, mark), other) ==
      if other == symbol && LegMark(legs, symbol).None? then mark else LegMark(legs, other)
  {
    match LegOf(legs, symbol)
    case None => LegAppended(legs, Leg(symbol, signed, mark), other);
    case Some(i) => LegReplaced(legs, i, Carried(legs, symbol, signed, mark)[i], other);
  }

  function LegMark(legs: Exposure, symbol: nat): Option<real> {
    match LegOf(legs, symbol)
    case None => None
    case Some(i) => legs[i].mark
  }

  lemma PassedAt(g: Gate, w: World, reqs: seq<Request>, i: nat)
    requires NonNegative(reqs) && EachPasses(g, w, reqs) && i < |reqs|
    ensures NonNegative(reqs[..i]) && EachPasses(g, w, reqs[..i])
    ensures Verdict(g, WorldAfter(w, reqs[..i]), reqs[i]) == None
    ensures WorldAfter(w, reqs[..i + 1]) == FilledWorld(WorldAfter(w, reqs[..i]), reqs[i])
  {
    hide Verdict, FilledWorld;
    var front := reqs[..i];
    assert forall j :: 0 <= j < i ==> front[..j] == reqs[..j] && front[j] == reqs[j];
    AfterOneMore(w, reqs, i);
  }

  lemma {:induction false} MarksStay(w: World, reqs: seq<Request>)
    requires NonNegative(reqs)
    ensures WorldAfter(w, reqs).marks == w.marks
  {
    if reqs != [] { MarksStay(w, reqs[..|reqs| - 1]); }
  }

  // ---------------------------------------------------------------- positions

  lemma PositionMoves(w: World, req: Request, symbol: nat)
    requires req.qty >= 0.0
    ensures FilledWorld(w, req).Position(symbol).qty ==
      w.Position(symbol).qty + if symbol == req.symbol then Signed(req.side, req.qty) else 0.0
  {
    hide FilledWorld;
    OneFill(w, req, symbol);
  }

  /** Right after an order that is not reduce-only its position is within both caps; after a reduce-only one
      it has neither grown nor turned. */
  lemma OrderWithinCaps(g: Gate, w: World, reqs: seq<Request>, i: nat)
    requires NonNegative(reqs) && EachPasses(g, w, reqs) && i < |reqs|
    ensures var symbol := reqs[i].symbol;
      var before := WorldAfter(w, reqs[..i]).Position(symbol).qty;
      var after := WorldAfter(w, reqs[..i + 1]).Position(symbol).qty;
      && reqs[i].qty <= g.risk.maxOrderQty
      && (if reqs[i].reduceOnly then Shrinks(before, after)
          else w.Mark(symbol).Some? && Abs(after) <= g.risk.maxPosition
               && Times(Abs(after), w.Mark(symbol).value) <= g.risk.maxNotional)
  {
    hide FilledWorld, Verdict, RiskCheck, EachPasses, Shrinks;
    PassedAt(g, w, reqs, i);
    var here := WorldAfter(w, reqs[..i]);
    MarksStay(w, reqs[..i]);
    PassesExactly(g, here, reqs[i]);
    PositionMoves(here, reqs[i], reqs[i].symbol);
    ClearsExactly(g.risk, reqs[i], here.Position(reqs[i].symbol), PriceOf(here, reqs[i].symbol));
  }

  lemma {:induction false} CapsSoFar(g: Gate, w: World, reqs: seq<Request>, symbol: nat)
    requires NonNegative(reqs) && EachPasses(g, w, reqs) && PriceOf(w, symbol) >= 0.0
    ensures var before, after := Abs(w.Position(symbol).qty), Abs(WorldAfter(w, reqs).Position(symbol).qty);
      && after <= Max(g.risk.maxPosition, before)
      && Times(after, PriceOf(w, symbol)) <= Max(g.risk.maxNotional, Times(before, PriceOf(w, symbol)))
  {
    hide FilledWorld, Verdict, RiskCheck, EachPasses, Times;
    if reqs != [] {
      var k := |reqs| - 1;
      PassedAt(g, w, reqs, k);
      CapsSoFar(g, w, reqs[..k], symbol);
      assert reqs[..k + 1] == reqs;
      var here, px := WorldAfter(w, reqs[..k]), PriceOf(w, symbol);
      MarksStay(w, reqs[..k]);
      PositionMoves(here, reqs[k], symbol);
      if reqs[k].symbol == symbol {
        PassesExactly(g, here, reqs[k]);
        ClearedKeepsCaps(g.risk, reqs[k], here.Position(symbol), px);
      }
    }
  }

  /** After the first `k` orders of an accepted batch have filled in full, every projected position is within
      the position cap, and within the notional cap at its mark, or no further out than it began. */
  lemma BatchWithinCaps(g: Gate, w: World, reqs: seq<Request>, k: nat, symbol: nat)
    requires NonNegative(reqs) && EachPasses(g, w, reqs) && k <= |reqs| && PriceOf(w, symbol) >= 0.0
    ensures var before, after := Abs(w.Position(symbol).qty), Abs(WorldAfter(w, reqs[..k]).Position(symbol).qty);
      && after <= Max(g.risk.maxPosition, before)
      && Times(after, PriceOf(w, symbol)) <= Max(g.risk.maxNotional, Times(before, PriceOf(w, symbol)))
  {
    hide EachPasses, WorldAfter, Times;
    PrefixPasses(g, w, reqs, k);
    CapsSoFar(g, w, reqs[..k], symbol);
  }

  lemma PrefixPasses(g: Gate, w: World, reqs: seq<Request>, k: nat)
    requires NonNegative(reqs) && EachPasses(g, w, reqs) && k <= |reqs|
    ensures NonNegative(reqs[..k]) && EachPasses(g, w, reqs[..k])
  {
    if k < |reqs| { PassedAt(g, w, reqs, k); } else { assert reqs[..k] == reqs; }
  }

  lemma ShrinksOn(a: real, b: real, c: real)
    requires Shrinks(a, b) && Shrinks(b, c)
    ensures Shrinks(a, c)
  {
  }

  /** A symbol without a usable price only gets smaller. */
  lemma {:induction false} UnpricedOnlyShrinks(g: Gate, w: World, reqs: seq<Request>, symbol: nat)
    requires NonNegative(reqs) && EachPasses(g, w, reqs) && w.Mark(symbol) == None
    ensures Shrinks(w.Position(symbol).qty, WorldAfter(w, reqs).Position(symbol).qty)
  {
    hide FilledWorld, Verdict, EachPasses, Shrinks;
    if reqs == [] {
      ShrinksAtAll(w.Position(symbol).qty);
    } else {
      var k := |reqs| - 1;
      PassedAt(g, w, reqs, k);
      UnpricedOnlyShrinks(g, w, reqs[..k], symbol);
      assert reqs[..k + 1] == reqs;
      PositionMoves(WorldAfter(w, reqs[..k]), reqs[k], symbol);
      if reqs[k].symbol == symbol {
        OrderWithinCaps(g, w, reqs, k);
        ShrinksOn(w.Position(symbol).qty, WorldAfter(w, reqs[..k]).Position(symbol).qty,
          WorldAfter(w, reqs).Position(symbol).qty);
      }
    }
  }

  lemma ShrinksAtAll(a: real)
    ensures Shrinks(a, a)
  {
  }

  // ---------------------------------------------------------------- the book

  lemma {:induction false} BookStays(w: World, reqs: seq<Request>)
    requires NonNegative(reqs)
    ensures WorldAfter(w, reqs).book.Some? <==> w.book.Some?
  {
    if reqs != [] { BookStays(w, reqs[..|reqs| - 1]); }
  }

  /** Right after an order that does not reduce what is held, the carried book is within every declared
      bound, priced, and no instrument was opened past the last one allowed. */
  lemma OrderWithinBook(g: Gate, w: World, reqs: seq<Request>, i: nat)
    requires NonNegative(reqs) && EachPasses(g, w, reqs) && i < |reqs|
    requires g.portfolio.Declared() && w.book.Some?
    requires !ReducesExposure(reqs[i].side, reqs[i].qty, WorldAfter(w, reqs[..i]).Held(reqs[i].symbol))
    ensures WorldAfter(w, reqs[..i]).book.Some? && WorldAfter(w, reqs[..i + 1]).book.Some?
    ensures var before, after := WorldAfter(w, reqs[..i]).book.value, WorldAfter(w, reqs[..i + 1]).book.value;
      && Within(g.portfolio, after)
      && (g.portfolio.maxSymbols > 0 && LegQty(before, reqs[i].symbol) == 0.0 && reqs[i].qty != 0.0 ==>
            Open(before) < g.portfolio.maxSymbols)
  {
    hide Verdict, Within, PortfolioCheck, ReducesExposure, EachPasses, Carried, Traded;
    PassedAt(g, w, reqs, i);
    BookStays(w, reqs[..i]);
    var here := WorldAfter(w, reqs[..i]);
    PassesExactly(g, here, reqs[i]);
    AdmitsExactly(g.portfolio, reqs[i], here.book.value, here.Held(reqs[i].symbol), here.Mark(reqs[i].symbol));
  }

  /** Nothing rests: the projected book is what is held. */
  ghost predicate NothingRests(w: World) {
    w.book.Some? && forall symbol: nat :: LegQty(w.book.value, symbol) == w.Held(symbol)
  }

  lemma StillNothingRests(w: World, reqs: seq<Request>, symbol: nat)
    requires NonNegative(reqs) && NothingRests(w)
    ensures WorldAfter(w, reqs).book.Some?
    ensures LegQty(WorldAfter(w, reqs).book.value, symbol) == WorldAfter(w, reqs).Held(symbol)
  {
    hide WorldAfter, Moved, LegQty;
    WorldMoves(w, reqs, symbol);
  }

  ghost predicate PricesNonNegative(w: World) {
    && (forall symbol :: symbol in w.marks ==> w.marks[symbol] >= 0.0)
    && (w.book.Some? ==> MarksNonNegative(w.book.value))
  }

  function LargerCount(a: nat, b: nat): nat { if a < b then b else a }

  /** One accepted order on a book without resting orders adds neither notional past the bound nor an
      instrument past the last one allowed. */
  lemma OneOrderOnTheBook(g: Gate, w: World, req: Request)
    requires req.qty >= 0.0 && Verdict(g, w, req) == None && PricesNonNegative(w) && w.book.Some?
    requires LegQty(w.book.value, req.symbol) == w.Held(req.symbol)
    ensures var after := Carried(w.book.value, req.symbol, Signed(req.side, req.qty), w.Mark(req.symbol));
      && MarksNonNegative(after)
      && (g.portfolio.maxGross > 0.0 && Gross(w.book.value).Some? ==>
            Gross(after).Some? && Gross(after).value <= Max(g.portfolio.maxGross, Gross(w.book.value).value))
      && (g.portfolio.maxSymbols > 0 ==>
            Open(after) <= LargerCount(g.portfolio.maxSymbols, Open(w.book.value)))
  {
    hide Verdict, PortfolioCheck, Gross, Net, Open, Carried, LegQty, MarksNonNegative, RiskCheck;
    var legs, signed, mark := w.book.value, Signed(req.side, req.qty), w.Mark(req.symbol);
    PassesExactly(g, w, req);
    OpensOne(legs, req.symbol, signed, mark);
    CarriedMarks(legs, req.symbol, signed, mark);
    if ReducesExposure(req.side, req.qty, w.Held(req.symbol)) {
      if Gross(legs).Some? { ReducingAddsNothing(legs, req.symbol, signed, mark); }
    } else if g.portfolio.Declared() {
      AdmitsExactly(g.portfolio, req, legs, w.Held(req.symbol), mark);
    }
  }

  lemma CarriedMarks(legs: Exposure, symbol: nat, signed: real, mark: Option<real>)
    requires MarksNonNegative(legs) && (mark.Some? ==> mark.value >= 0.0)
    ensures MarksNonNegative(Carried(legs, symbol, signed, mark))
  {
  }

  lemma {:induction false} BookSoFar(g: Gate, w: World, reqs: seq<Request>)
    requires NonNegative(reqs) && EachPasses(g, w, reqs) && NothingRests(w) && PricesNonNegative(w)
    ensures WorldAfter(w, reqs).book.Some?
    ensures var before, after := w.book.value, WorldAfter(w, reqs).book.value;
      && MarksNonNegative(after)
      && (g.portfolio.maxGross > 0.0 && Gross(before).Some? ==>
            Gross(after).Some? && Gross(after).value <= Max(g.portfolio.maxGross, Gross(before).value))
      && (g.portfolio.maxSymbols > 0 ==>
            Open(after) <= LargerCount(g.portfolio.maxSymbols, Open(before)))
  {
    hide Verdict, Gross, Open, Carried, LegQty, MarksNonNegative, EachPasses, Traded;
    if reqs != [] {
      var k := |reqs| - 1;
      PassedAt(g, w, reqs, k);
      BookSoFar(g, w, reqs[..k]);
      assert reqs[..k + 1] == reqs;
      MarksStay(w, reqs[..k]);
      StillNothingRests(w, reqs[..k], reqs[k].symbol);
      OneOrderOnTheBook(g, WorldAfter(w, reqs[..k]), reqs[k]);
    }
  }

  /** While nothing rests, after the first `k` orders of an accepted batch have filled in full the book's
      gross is within its bound, or no larger than it began, and so is the number of open instruments. */
  lemma BatchWithinBook(g: Gate, w: World, reqs: seq<Request>, k: nat)
    requires NonNegative(reqs) && EachPasses(g, w, reqs) && k <= |reqs|
    requires NothingRests(w) && PricesNonNegative(w)
    ensures WorldAfter(w, reqs[..k]).book.Some?
    ensures var before, after := w.book.value, WorldAfter(w, reqs[..k]).book.value;
      && (g.portfolio.maxGross > 0.0 && Gross(before).Some? ==>
            Gross(after).Some? && Gross(after).value <= Max(g.portfolio.maxGross, Gross(before).value))
      && (g.portfolio.maxSymbols > 0 ==> Open(after) <= LargerCount(g.portfolio.maxSymbols, Open(before)))
  {
    hide EachPasses, WorldAfter, Gross, Open;
    PrefixPasses(g, w, reqs, k);
    BookSoFar(g, w, reqs[..k]);
  }
}
