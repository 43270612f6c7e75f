/** The pre-trade gate over a batch: three checks an order, each in the world the earlier orders leave.
 */
module Guard {
  import opened Wrappers
  import opened Positions
  import opened Reals
  import opened Tracker
  import opened Risk
  import opened Portfolio

  datatype Reject = BatchTooLarge | LossLimit | ByPortfolio(why: PortfolioReject) | NoMark | ByRisk(reason: RiskReject)

  // ---------------------------------------------------------------- one order

  /** What the gate checks an order against. `marks` holds the prices that have not expired. */
  datatype World = World(
    positions: map<nat, Holding>, held: map<nat, real>, book: Option<Exposure>, marks: map<nat, real>)
  {
    function Position(symbol: nat): Holding {
      if symbol in positions then positions[symbol] else Flat()
    }

    function Held(symbol: nat): real {
      if symbol in held then held[symbol] else 0.0
    }

    function Mark(symbol: nat): Option<real> {
      if symbol in marks then Some(marks[symbol]) else None
    }
  }

  datatype Gate = Gate(tripped: bool, maxBatch: nat, portfolio: PortfolioLimits, risk: RiskLimits)

  function CheckLoss(g: Gate, req: Request, held: real): Option<Reject> {
    if !g.tripped || ReducesExposure(req.side, req.qty, held) then None else Some(LossLimit)
  }

  function CheckPortfolio(g: Gate, req: Request, book: Option<Exposure>, held: real,
                          mark: Option<real>): Option<Reject> {
    if !g.portfolio.Declared() then None
    else
      match book
      case None => if ReducesExposure(req.side, req.qty, held) then None else Some(ByPortfolio(Unreadable))
      case Some(legs) =>
        match PortfolioCheck(g.portfolio, req, legs, held, mark)
        case None => None
        case Some(reason) => Some(ByPortfolio(reason))
  }

  /** The price to measure an order in; a reduce-only order does without. */
  function MarkFor(req: Request, mark: Option<real>): Option<real> {
    if mark.Some? then mark else if req.reduceOnly then Some(0.0) else None
  }

  function CheckOne(g: Gate, req: Request, position: Holding, held: real, book: Option<Exposure>,
                    mark: Option<real>): Option<Reject> {
    if CheckLoss(g, req, held).Some? then CheckLoss(g, req, held)
    else if CheckPortfolio(g, req, book, held, mark).Some? then CheckPortfolio(g, req, book, held, mark)
    else
      match MarkFor(req, mark)
      case None => Some(NoMark)
      case Some(px) =>
        match RiskCheck(g.risk, req, position, px)
        case None => None
        case Some(reason) => Some(ByRisk(reason))
  }

  /** One order on its own. */
  function Verdict(g: Gate, w: World, req: Request): Option<Reject> {
    CheckOne(g, req, w.Position(req.symbol), w.Held(req.symbol), w.book, w.Mark(req.symbol))
  }

  // ---------------------------------------------------------------- a batch

  function FillPrice(req: Request, mark: Option<real>, position: Holding): real {
    if req.price.Some? then req.price.value else if mark.Some? then mark.value else position.avgPx
  }

  /** The world once an order has filled in full. */
  function FilledWorld(w: World, req: Request): World
    requires req.qty >= 0.0
  {
    var s, signed, mark := req.symbol, Signed(req.side, req.qty), w.Mark(req.symbol);
    var position := w.Position(s);
    World(w.positions[s := Traded(position, signed, FillPrice(req, mark, position))],
          w.held[s := w.Held(s) + signed],
          if w.book.Some? then Some(Carried(w.book.value, s, signed, mark)) else None,
          w.marks)
  }

  /** Sizes are magnitudes; an order of no size is checked like any other. */
  predicate NonNegative(reqs: seq<Request>) {
    forall i :: 0 <= i < |reqs| ==> reqs[i].qty >= 0.0
  }

  function WorldAfter(w: World, reqs: seq<Request>): World
    requires NonNegative(reqs)
  {
    if reqs == [] then w else FilledWorld(WorldAfter(w, reqs[..|reqs| - 1]), reqs[|reqs| - 1])
  }

  /** Every order of the batch passes on its own, in the world where all earlier ones have filled. */
  ghost predicate EachPasses(g: Gate, w: World, reqs: seq<Request>)
    requires NonNegative(reqs)
  {
    forall i :: 0 <= i < |reqs| ==> Verdict(g, WorldAfter(w, reqs[..i]), reqs[i]) == None
  }

  lemma AfterOneMore(w: World, reqs: seq<Request>, i: nat)
    requires NonNegative(reqs) && i < |reqs|
    ensures WorldAfter(w, reqs[..i + 1]) == FilledWorld(WorldAfter(w, reqs[..i]), reqs[i])
  {
    hide FilledWorld;
    assert reqs[..i + 1][..i] == reqs[..i];
  }

  class GuardedClient {
    const gate: Gate
    const ctx: World

    constructor (gate: Gate, ctx: World)
      ensures this.gate == gate && this.ctx == ctx
    {
      this.gate, this.ctx := gate, ctx;
    }

    /** The batch as a unit: accepted exactly when each order is, alone, in the world the earlier ones
        leave; refused for the reason of the first that is not. */
    method CheckBatch(reqs: seq<Request>) returns (verdict: Option<Reject>)
      requires NonNegative(reqs)
      ensures verdict == None <==> |reqs| <= gate.maxBatch && EachPasses(gate, ctx, reqs)
      ensures verdict != None && |reqs| <= gate.maxBatch ==>
        exists i :: 0 <= i < |reqs| && EachPasses(gate, ctx, reqs[..i])
                    && verdict == Verdict(gate, WorldAfter(ctx, reqs[..i]), reqs[i])
    {
      hide Traded, Carried, CheckOne, FillPrice, Overlays, Verdict, FilledWorld, EachPasses, WorldAfter;
      AtFirst(gate, ctx, reqs);
      if |reqs| > gate.maxBatch { return Some(BatchTooLarge); }
      var projected: map<nat, Holding> := map[];
      var held: map<nat, real> := map[];
      var book := ctx.book;
      for i := 0 to |reqs|
        invariant Overlays(ctx, projected, held, book, WorldAfter(ctx, reqs[..i]))
        invariant EachPasses(gate, ctx, reqs[..i])
      {
        var req := reqs[i];
        ghost var w := WorldAfter(ctx, reqs[..i]);
        PassesSoFar(gate, ctx, reqs, i);
        AfterOneMore(ctx, reqs, i);
        var position := if req.symbol in projected then projected[req.symbol] else ctx.Position(req.symbol);
        var heldQty := if req.symbol in held then held[req.symbol] else ctx.Held(req.symbol);
        OverlayReads(gate, ctx, projected, held, book, w, req);
        OverlayFills(ctx, projected, held, book, w, req);
        var refusal := CheckOne(gate, req, position, heldQty, book, ctx.Mark(req.symbol));
        if refusal.Some? { return refusal; }
        var signed := Signed(req.side, req.qty);
        if book.Some? { book := Some(Carried(book.value, req.symbol, signed, ctx.Mark(req.symbol))); }
        var after := Fill(req, position);
        projected := projected[req.symbol := after];
        held := held[req.symbol := heldQty + signed];
      }
      assert reqs[..|reqs|] == reqs;
      verdict := None;
    }

    /** Assume it fills in full. */
    method Fill(req: Request, position: Holding) returns (after: Holding)
      requires req.qty >= 0.0
      ensures after == Traded(position, Signed(req.side, req.qty), FillPrice(req, ctx.Mark(req.symbol), position))
    {
      var mark := ctx.Mark(req.symbol);
      var fillPx := if req.price.Some? then req.price.value else if mark.Some? then mark.value else position.avgPx;
      var p := new Position(req.symbol, position);
      p.ApplyFill(req.side, req.qty, fillPx);
      after := Holding(p.qty, p.avgPx, p.realizedPnl);
    }
  }

  /** The maps a batch carries, laid over the context, are the world `w`. */
  ghost predicate Overlays(ctx: World, projected: map<nat, Holding>, held: map<nat, real>, book: Option<Exposure>,
                           w: World) {
    && (forall s: nat :: w.Position(s) == if s in projected then projected[s] else ctx.Position(s))
    && (forall s: nat :: w.Held(s) == if s in held then held[s] else ctx.Held(s))
    && book == w.book && ctx.marks == w.marks
  }

  lemma AtFirst(g: Gate, ctx: World, reqs: seq<Request>)
    requires NonNegative(reqs)
    ensures Overlays(ctx, map[], map[], ctx.book, WorldAfter(ctx, reqs[..0])) && EachPasses(g, ctx, reqs[..0])
  {
  }

  lemma OverlayReads(g: Gate, ctx: World, projected: map<nat, Holding>, held: map<nat, real>, book: Option<Exposure>,
                     w: World, req: Request)
    requires Overlays(ctx, projected, held, book, w)
    ensures var position := if req.symbol in projected then projected[req.symbol] else ctx.Position(req.symbol);
      var heldQty := if req.symbol in held then held[req.symbol] else ctx.Held(req.symbol);
      CheckOne(g, req, position, heldQty, book, ctx.Mark(req.symbol)) == Verdict(g, w, req)
  {
    hide CheckOne;
  }

  lemma OverlayFills(ctx: World, projected: map<nat, Holding>, held: map<nat, real>, book: Option<Exposure>,
                     w: World, req: Request)
    requires Overlays(ctx, projected, held, book, w) && req.qty >= 0.0
    ensures var s, signed, mark := req.symbol, Signed(req.side, req.qty), ctx.Mark(req.symbol);
      var position := if s in projected then projected[s] else ctx.Position(s);
      var heldQty := if s in held then held[s] else ctx.Held(s);
      Overlays(ctx, projected[s := Traded(position, signed, FillPrice(req, mark, position))],
        held[s := heldQty + signed],
               if book.Some? then Some(Carried(book.value, s, signed, mark)) else None, FilledWorld(w, req))
  {
    hide Traded, Carried, FillPrice, Signed;
  }

  lemma PassesSoFar(g: Gate, w: World, reqs: seq<Request>, i: nat)
    requires NonNegative(reqs) && i < |reqs| && EachPasses(g, w, reqs[..i])
    ensures EachPasses(g, w, reqs[..i + 1]) <==> Verdict(g, WorldAfter(w, reqs[..i]), reqs[i]) == None
    ensures EachPasses(g, w, reqs) ==> Verdict(g, WorldAfter(w, reqs[..i]), reqs[i]) == None
  {
    hide Verdict, WorldAfter;
    assert forall j :: 0 <= j <= i ==> reqs[..i + 1][..j] == reqs[..j];
    assert forall j :: 0 <= j <= i && j <= |reqs[..i]| ==> reqs[..i][..j] == reqs[..j];
    assert reqs[..i + 1][i] == reqs[i];
  }

  // ---------------------------------------------------------------- the loss limit

  /** The signed sum, over one symbol's orders, of the amounts given. */
  function Moved(reqs: seq<Request>, amounts: seq<real>, symbol: nat): real
    requires |amounts| == |reqs|
  {
    if reqs == [] then 0.0
    else
      var k := |reqs| - 1;
      Moved(reqs[..k], amounts[..k], symbol) +
        (if reqs[k].symbol == symbol then Signed(reqs[k].side, amounts[k]) else 0.0)
  }

  function Sizes(reqs: seq<Request>): (r: seq<real>)
    ensures |r| == |reqs| && forall i :: 0 <= i < |reqs| ==> r[i] == reqs[i].qty
  {
    seq(|reqs|, i requires 0 <= i < |reqs| => reqs[i].qty)
  }

  lemma SizesFront(reqs: seq<Request>)
    requires reqs != []
    ensures Sizes(reqs)[..|reqs| - 1] == Sizes(reqs[..|reqs| - 1])
  {
  }

  /** What is held after full fills. */
  lemma {:induction false} HeldAfter(w: World, reqs: seq<Request>, symbol: nat)
    requires NonNegative(reqs)
    ensures WorldAfter(w, reqs).Held(symbol) == w.Held(symbol) + Moved(reqs, Sizes(reqs), symbol)
  {
    hide Traded, Carried;
    if reqs != [] {
      HeldAfter(w, reqs[..|reqs| - 1], symbol);
      SizesFront(reqs);
    }
  }

  /** Each view of the world carries the batch forward by the same net: projected, held and book. */
  lemma {:induction false} WorldMoves(w: World, reqs: seq<Request>, symbol: nat)
    requires NonNegative(reqs)
    ensures var after, net := WorldAfter(w, reqs), Moved(reqs, Sizes(reqs), symbol);
      && after.Held(symbol) == w.Held(symbol) + net
      && after.Position(symbol).qty == w.Position(symbol).qty + net
      && after.book.Some? == w.book.Some?
      && (w.book.Some? ==> LegQty(after.book.value, symbol) == LegQty(w.book.value, symbol) + net)
  {
    hide Traded, Carried, LegQty;
    HeldAfter(w, reqs, symbol);
    if reqs != [] {
      var front, last := reqs[..|reqs| - 1], reqs[|reqs| - 1];
      WorldMoves(w, front, symbol);
      SizesFront(reqs);
      OneFill(WorldAfter(w, front), last, symbol);
    }
  }

  lemma OneFill(w: World, req: Request, symbol: nat)
    requires req.qty >= 0.0
    ensures var after, moved := FilledWorld(w, req), if symbol == req.symbol then Signed(req.side, req.qty) else 0.0;
      && after.Position(symbol).qty == w.Position(symbol).qty + moved
      && after.book.Some? == w.book.Some?
      && (w.book.Some? ==> LegQty(after.book.value, symbol) == LegQty(w.book.value, symbol) + moved)
  {
    hide Traded, Carried, LegQty, FillPrice;
    var signed, mark, position := Signed(req.side, req.qty), w.Mark(req.symbol), w.Position(req.symbol);
    QuantityMoves(position, signed, FillPrice(req, mark, position));
    if w.book.Some? { CarriedQty(w.book.value, req.symbol, signed, mark, symbol); }
  }

  lemma QuantityMoves(h: Holding, s: real, px: real)
    ensures Traded(h, s, px).qty == h.qty + s
  {
    hide Traded;
    TradeConserves(h, s, px, 0.0);
  }

  /** Any part of each order, up to all of it. */
  ghost predicate PartOf(reqs: seq<Request>, amounts: seq<real>) {
    |amounts| == |reqs| && forall i :: 0 <= i < |reqs| ==> 0.0 <= amounts[i] <= reqs[i].qty
  }

  /** Under a tripped limit a symbol's orders all lean against what is held, and together do not exceed
      it; so any part of them moves it no further than all of them, and never the other way. */
  lemma {:induction false} TrippedNets(g: Gate, w: World, reqs: seq<Request>, amounts: seq<real>, symbol: nat)
    requires g.tripped && NonNegative(reqs) && EachPasses(g, w, reqs) && PartOf(reqs, amounts)
    ensures var h, all, part := w.Held(symbol), Moved(reqs, Sizes(reqs), symbol), Moved(reqs, amounts, symbol);
      && (h >= 0.0 ==> -h <= all <= part <= 0.0)
      && (h <= 0.0 ==> 0.0 <= part <= all <= -h)
  {
    hide WorldAfter;
    if reqs != [] {
      var k := |reqs| - 1;
      var front, last := reqs[..k], reqs[k];
      assert forall j :: 0 <= j <= k ==> front[..j] == reqs[..j];
      assert EachPasses(g, w, front);
      TrippedNets(g, w, front, amounts[..k], symbol);
      HeldAfter(w, front, symbol);
      SizesFront(reqs);
      if last.symbol == symbol {
        LossPassed(g, WorldAfter(w, front), last);
        ReducesExactly(last.side, last.qty, WorldAfter(w, front).Held(symbol));
      }
    }
  }

  lemma LossPassed(g: Gate, w: World, req: Request)
    requires g.tripped && Verdict(g, w, req) == None
    ensures ReducesExposure(req.side, req.qty, w.Held(req.symbol))
  {
  }

  /** While the loss limit is tripped, whatever part of an accepted batch fills, no symbol's position
      grows or changes sign. */
  lemma TrippedBatchOnlyReduces(g: Gate, w: World, reqs: seq<Request>, amounts: seq<real>, symbol: nat)
    requires g.tripped && NonNegative(reqs) && EachPasses(g, w, reqs) && PartOf(reqs, amounts)
    ensures var before, after := w.Held(symbol), w.Held(symbol) + Moved(reqs, amounts, symbol);
      Abs(after) <= Abs(before) && (after == 0.0 || (after > 0.0) == (before > 0.0))
  {
    hide EachPasses, Moved;
    TrippedNets(g, w, reqs, amounts, symbol);
  }

  /** Nothing opens a position while the limit is tripped: a symbol that is flat stays out of the batch. */
  lemma TrippedBatchOpensNothing(g: Gate, w: World, reqs: seq<Request>, i: nat)
    requires g.tripped && NonNegative(reqs) && EachPasses(g, w, reqs) && i < |reqs|
    ensures w.Held(reqs[i].symbol) != 0.0
  {
    hide WorldAfter;
    var front := reqs[..i];
    assert forall j :: 0 <= j < i ==> front[..j] == reqs[..j];
    assert EachPasses(g, w, front);
    TrippedNets(g, w, front, Sizes(front), reqs[i].symbol);
    HeldAfter(w, front, reqs[i].symbol);
    LossPassed(g, WorldAfter(w, front), reqs[i]);
  }
}
