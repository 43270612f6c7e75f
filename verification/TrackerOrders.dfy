/** What a run of venue events does to one order, and what a fill does to exposure. */
module TrackerOrders {
  import opened Wrappers
  import opened Positions
  import opened Reals
  import opened Sums
  import opened Tracker

  // ---------------------------------------------------------------- an order's own history

  /** An order only moves forward: its fills grow, a finished order stays finished, and what it is
      never changes. */
  predicate Advances(o: Order, p: Order) {
    && o.filledQty <= p.filledQty && o.lastUpdate <= p.lastUpdate
    && (!o.Live() ==> !p.Live() && o.origQty == p.origQty)
    && o.symbol == p.symbol && o.side == p.side && o.placedTs == p.placedTs && o.adopted == p.adopted
    && (o.orderId.Some? ==> p.orderId == o.orderId)
  }

  lemma AdvancesOn(o: Order, p: Order, q: Order)
    requires Advances(o, p) && Advances(p, q)
    ensures Advances(o, q)
  {
  }

  /** An update that puts an adopted order where `c` was. */
  predicate Overwrites(b: Book, u: Update, c: nat) {
    Find(b, u.cloid, u.orderId) == None && !u.status.IsTerminal() && AdoptedId(u) == c && c in b.orders
  }

  /** It takes an unknown order reported without a client id whose venue id is `c` as a number. */
  lemma OverwritesExactly(b: Book, u: Update, c: nat)
    requires c in b.orders
    ensures Overwrites(b, u, c) <==>
      && u.cloid == None && u.orderId == c && !u.status.IsTerminal()
      && (c in b.byId ==> b.byId[c] !in b.orders)
    ensures Overwrites(b, u, c) ==> UpdatedBook(b, u).orders[c] == AdoptedOrder(u)
  {
  }

  /** The quantity an event fills of order `c`. */
  function FillOf(s: State, e: Event, c: nat): real {
    if e.OnFill? && e.fill.tradeId !in s.window.seen && Find(s.book, e.fill.cloid, e.fill.orderId) == Some(c)
      then e.fill.qty
    else 0.0
  }

  predicate IsVenueEvent(e: Event) {
    e.OnFill? || e.OnUpdate? || e.OnAccount?
  }

  /** A venue event that does not put another order under `c`. */
  predicate Leaves(s: State, e: Event, c: nat) {
    e.Sound() && IsVenueEvent(e) && !(e.OnUpdate? && Overwrites(s.book, e.update, c))
  }

  lemma FillAdvances(b: Book, f: Fill, c: nat)
    requires c in b.orders && f.qty > 0.0 && FilledBook(b, f).Some?
    ensures var after := FilledBook(b, f).value;
      && c in after.orders && Advances(b.orders[c], after.orders[c])
      && after.orders[c].filledQty ==
         b.orders[c].filledQty + (if Find(b, f.cloid, f.orderId) == Some(c) then f.qty else 0.0)
  {
  }

  lemma UpdateAdvances(b: Book, u: Update, c: nat)
    requires c in b.orders && !Overwrites(b, u, c)
    ensures c in UpdatedBook(b, u).orders && Advances(b.orders[c], UpdatedBook(b, u).orders[c])
    ensures Find(b, u.cloid, u.orderId) == Some(c) && b.orders[c].Live() ==>
      UpdatedBook(b, u).orders[c].filledQty >= u.VenueFilled()
  {
  }

  lemma StepAdvances(s: State, e: Event, c: nat)
    requires c in s.book.orders && Leaves(s, e, c)
    ensures var after := Step(s, e);
      && c in after.book.orders && Advances(s.book.orders[c], after.book.orders[c])
      && after.book.orders[c].filledQty >= s.book.orders[c].filledQty + FillOf(s, e, c)
  {
    hide Advances, Overwrites, FilledBook, UpdatedBook, Posted, Remembered;
    assert Advances(s.book.orders[c], s.book.orders[c]) by { Stays(s.book.orders[c]); }
    match e
    case OnFill(f) =>
      if FilledBook(s.book, f).Some? { FillAdvances(s.book, f, c); } else { Orphan(s.book, f); }
    case OnUpdate(u) =>
      UpdateAdvances(s.book, u, c);
      FilledGrows(s.book.orders[c], UpdatedBook(s.book, u).orders[c]);
    case _ =>
  }

  lemma Stays(o: Order)
    ensures Advances(o, o)
  {
  }

  lemma FilledGrows(o: Order, p: Order)
    requires Advances(o, p)
    ensures o.filledQty <= p.filledQty
  {
  }

  lemma Orphan(b: Book, f: Fill)
    ensures FilledBook(b, f) == None <==> Find(b, f.cloid, f.orderId) == None
  {
  }

  /** A run of venue events, none of which puts another order under `c`. */
  predicate Undisturbed(s: State, es: seq<Event>, c: nat)
    requires AllSound(es)
  {
    es == [] || (Undisturbed(s, es[..|es| - 1], c) && Leaves(Run(s, es[..|es| - 1]), es[|es| - 1], c))
  }

  /** The fills applied to `c` over a run. */
  function FillsOf(s: State, es: seq<Event>, c: nat): real
    requires AllSound(es)
  {
    if es == [] then 0.0
    else FillsOf(s, es[..|es| - 1], c) + FillOf(Run(s, es[..|es| - 1]), es[|es| - 1], c)
  }

  /** However its fills and updates are duplicated and reordered, an order only moves forward, and its
      filled quantity covers the fills applied to it. */
  lemma {:induction false} OrdersAdvance(s: State, es: seq<Event>, c: nat)
    requires AllSound(es) && c in s.book.orders && Undisturbed(s, es, c)
    ensures var end := Run(s, es);
      && c in end.book.orders && Advances(s.book.orders[c], end.book.orders[c])
      && end.book.orders[c].filledQty >= s.book.orders[c].filledQty + FillsOf(s, es, c)
  {
    hide Advances, Leaves, Step, FillOf;
    if es == [] {
      Stays(s.book.orders[c]);
    } else {
      var front, last := es[..|es| - 1], es[|es| - 1];
      OrdersAdvance(s, front, c);
      var before := Run(s, front);
      StepAdvances(before, last, c);
      AdvancesOn(s.book.orders[c], before.book.orders[c], Step(before, last).book.orders[c]);
    }
  }

  /** And it covers every figure the venue reported for it while it was live. */
  lemma {:induction false} VenueFiguresCovered(s: State, es: seq<Event>, c: nat, i: nat)
    requires AllSound(es) && c in s.book.orders && Undisturbed(s, es, c)
    requires i < |es| && es[i].OnUpdate?
    requires var b := Run(s, es[..i]).book;
      Find(b, es[i].update.cloid, es[i].update.orderId) == Some(c) && b.orders[c].Live()
    ensures c in Run(s, es).book.orders && Run(s, es).book.orders[c].filledQty >= es[i].update.VenueFilled()
  {
    var front, last := es[..|es| - 1], es[|es| - 1];
    OrdersAdvance(s, front, c);
    var before := Run(s, front);
    if i == |es| - 1 {
      UpdateAdvances(before.book, last.update, c);
    } else {
      assert front[..i] == es[..i];
      VenueFiguresCovered(s, front, c, i);
      StepAdvances(before, last, c);
      FilledGrows(before.book.orders[c], Step(before, last).book.orders[c]);
    }
  }

  /** Runs in which no event reports an unknown order without a client id under the number `c`. */
  lemma {:induction false} DistinctIdsUndisturbed(s: State, es: seq<Event>, c: nat)
    requires AllSound(es)
    requires forall i :: 0 <= i < |es| ==> IsVenueEvent(es[i])
    requires forall i :: 0 <= i < |es| && es[i].OnUpdate? && es[i].update.cloid == None ==> es[i].update.orderId != c
    ensures Undisturbed(s, es, c)
  {
    hide Step;
    if es != [] {
      var front, last := es[..|es| - 1], es[|es| - 1];
      DistinctIdsUndisturbed(s, front, c);
      assert Leaves(Run(s, front), last, c);
    }
  }

  // ---------------------------------------------------------------- live orders have something left

  ghost predicate LiveHaveRemaining(b: Book) {
    forall c :: c in b.orders && b.orders[c].Live() ==> b.orders[c].Remaining() > 0.0
  }

  /** An ack or an adoption of an order with nothing to fill. */
  predicate AdmitsEmpty(s: State, e: Event) {
    match e
    case OnAck(req, ack, _) => !ack.status.IsTerminal() && req.qty <= 0.0
    case OnUpdate(u) =>
      !u.status.IsTerminal() && Find(s.book, u.cloid, u.orderId) == None && (u.remainingQty <= 0.0 || u.origQty <= 0.0)
    case _ => false
  }

  lemma PutRemaining(b: Book, c: nat, o: Order, byId: map<nat, nat>)
    requires LiveHaveRemaining(b)
    ensures LiveHaveRemaining(Book(b.orders[c := o], byId)) <==> (o.Live() ==> o.Remaining() > 0.0)
  {
    var after := b.orders[c := o];
    assert c in after && after[c] == o;
  }

  lemma FilledHasRemaining(o: Order, f: Fill)
    ensures FilledOrder(o, f).Live() ==> FilledOrder(o, f).Remaining() > 0.0
  {
  }

  lemma UpdatedHasRemaining(o: Order, u: Update)
    ensures UpdatedOrder(o, u).Live() ==> UpdatedOrder(o, u).Remaining() > 0.0
  {
  }

  lemma AdoptedHasRemaining(u: Update)
    requires !u.status.IsTerminal()
    ensures AdoptedOrder(u).Live() && (AdoptedOrder(u).Remaining() > 0.0 <==> u.remainingQty > 0.0 && u.origQty > 0.0)
  {
  }

  lemma UpdateRemaining(b: Book, u: Update)
    requires LiveHaveRemaining(b)
    ensures LiveHaveRemaining(UpdatedBook(b, u)) <==>
      !(!u.status.IsTerminal() && Find(b, u.cloid, u.orderId) == None && (u.remainingQty <= 0.0 || u.origQty <= 0.0))
  {
    hide LiveHaveRemaining, UpdatedOrder, AdoptedOrder, Order.Remaining;
    match Find(b, u.cloid, u.orderId)
    case Some(c) =>
      UpdatedHasRemaining(b.orders[c], u);
      PutRemaining(b, c, UpdatedOrder(b.orders[c], u), b.byId[u.orderId := c]);
    case None =>
      if !u.status.IsTerminal() {
        AdoptedHasRemaining(u);
        PutRemaining(b, AdoptedId(u), AdoptedOrder(u), b.byId[u.orderId := AdoptedId(u)]);
      }
  }

  lemma FillRemaining(b: Book, f: Fill)
    requires LiveHaveRemaining(b) && FilledBook(b, f).Some?
    ensures LiveHaveRemaining(FilledBook(b, f).value)
  {
    hide LiveHaveRemaining, FilledOrder, Order.Remaining;
    var c := Find(b, f.cloid, f.orderId).value;
    FilledHasRemaining(b.orders[c], f);
    PutRemaining(b, c, FilledOrder(b.orders[c], f), FilledBook(b, f).value.byId);
  }

  lemma AckRemaining(b: Book, req: Request, ack: Ack, ts: int)
    requires LiveHaveRemaining(b)
    ensures LiveHaveRemaining(Acked(b, req, ack, ts)) <==> !(!ack.status.IsTerminal() && req.qty <= 0.0)
  {
    hide LiveHaveRemaining;
    var after := Acked(b, req, ack, ts);
    if ack.status.IsTerminal() && ack.status != Filled {
      SameOrders(b, after);
    } else {
      PutRemaining(b, ack.cloid, after.orders[ack.cloid], after.byId);
    }
  }

  lemma SameOrders(b: Book, after: Book)
    requires LiveHaveRemaining(b) && forall c :: c in after.orders ==> c in b.orders && after.orders[c] == b.orders[c]
    ensures LiveHaveRemaining(after)
  {
  }

  /** Every live order has size left to fill, for as long as none is admitted without any. */
  lemma LiveKeepRemaining(s: State, e: Event)
    requires e.Sound() && LiveHaveRemaining(s.book)
    ensures LiveHaveRemaining(Step(s, e).book) <==> !AdmitsEmpty(s, e)
  {
    hide LiveHaveRemaining, FilledBook, UpdatedBook, Acked, Posted, Remembered;
    match e
    case OnAck(req, ack, ts) => AckRemaining(s.book, req, ack, ts);
    case OnFill(f) => if FilledBook(s.book, f).Some? { FillRemaining(s.book, f); }
    case OnUpdate(u) => UpdateRemaining(s.book, u);
    case RetireTerminal => SameOrders(s.book, Retired(s.book));
    case _ =>
  }

  predicate NoneAdmittedEmpty(es: seq<Event>)
    requires AllSound(es)
  {
    es == [] || (NoneAdmittedEmpty(es[..|es| - 1]) && !AdmitsEmpty(Run(New(), es[..|es| - 1]), es[|es| - 1]))
  }

  lemma {:induction false} LiveAlwaysHaveRemaining(es: seq<Event>)
    requires AllSound(es) && NoneAdmittedEmpty(es)
    ensures LiveHaveRemaining(Run(New(), es).book)
  {
    hide Step, AdmitsEmpty;
    if es != [] {
      hide LiveHaveRemaining;
      LiveAlwaysHaveRemaining(es[..|es| - 1]);
      LiveKeepRemaining(Run(New(), es[..|es| - 1]), es[|es| - 1]);
    }
  }

  // ---------------------------------------------------------------- the two channels

  /** The same fill and update of one live order, in either order: the filled quantities agree exactly
      when the venue's figure does not yet exceed ours. */
  lemma ChannelsCommuteExactly(b: Book, f: Fill, u: Update, c: nat)
    requires f.qty > 0.0 && Find(b, f.cloid, f.orderId) == Some(c) == Find(b, u.cloid, u.orderId)
    requires b.orders[c].Live()
    ensures FilledBook(b, f).Some? && FilledBook(UpdatedBook(b, u), f).Some?
    ensures var fillFirst := UpdatedBook(FilledBook(b, f).value, u);
      var updateFirst := FilledBook(UpdatedBook(b, u), f).value;
      && c in fillFirst.orders && c in updateFirst.orders
      && fillFirst.orders[c].filledQty <= updateFirst.orders[c].filledQty
      && (fillFirst.orders[c].filledQty == updateFirst.orders[c].filledQty
        <==> u.VenueFilled() <= b.orders[c].filledQty)
  {
    hide Update.VenueFilled;
    var filled, updated := FilledBook(b, f).value, UpdatedBook(b, u);
    assert Find(filled, u.cloid, u.orderId) == Some(c);
    assert Find(updated, f.cloid, f.orderId) == Some(c);
  }

  /** One lot of two fills; the update that reports it either follows the fill or precedes it. */
  lemma ChannelsMayDisagree()
    ensures
      var o := Order(Some(7), 1, Buy, Some(100.0), 2.0, 0.0, Resting, 0, None, None, 0, false);
      var b := Book(map[5 := o], map[7 := 5]);
      var f := Fill(1, 7, Some(5), Buy, 1.0, 100.0, 0.0, 0.0, Maker, 9, 10);
      var u := Update(1, 7, Some(5), Buy, PartiallyFilled, Some(100.0), 2.0, 1.0, 10);
      && FilledBook(b, f).Some? && FilledBook(UpdatedBook(b, u), f).Some?
      && UpdatedBook(FilledBook(b, f).value, u).orders[5].filledQty == 1.0
      && FilledBook(UpdatedBook(b, u), f).value.orders[5].filledQty == 2.0
  {
  }

  // ---------------------------------------------------------------- exposure

  /** What an order adds to the resting exposure of a symbol. */
  function RestingOf(o: Order, symbol: nat): real {
    if o.symbol == symbol && o.Live() then Signed(o.side, o.Remaining()) else 0.0
  }

  function RestingBy(orders: map<nat, Order>, symbol: nat): map<nat, real> {
    map c | c in orders :: RestingOf(orders[c], symbol)
  }

  /** The quantity `risk_position` reports: held, and everything live filled. */
  ghost function RiskQty(s: State, symbol: nat): real {
    s.ledger.Held(symbol).qty + Sum(RestingBy(s.book.orders, symbol))
  }

  lemma RestingPut(orders: map<nat, Order>, c: nat, o: Order, symbol: nat)
    ensures Sum(RestingBy(orders[c := o], symbol)) ==
      Sum(RestingBy(orders, symbol)) + RestingOf(o, symbol)
        - (if c in orders then RestingOf(orders[c], symbol) else 0.0)
  {
    assert RestingBy(orders[c := o], symbol) == RestingBy(orders, symbol)[c := RestingOf(o, symbol)];
    SumPut(RestingBy(orders, symbol), c, RestingOf(o, symbol));
  }

  function Min(x: real, y: real): real {
    if x <= y then x else y
  }

  /** A fill takes from a live order what it can. */
  lemma FillTakes(o: Order, f: Fill, symbol: nat)
    requires f.qty > 0.0
    ensures RestingOf(FilledOrder(o, f), symbol) ==
      RestingOf(o, symbol) - (if o.symbol == symbol && o.Live() then Signed(o.side, Min(f.qty, o.Remaining())) else 0.0)
  {
  }

  /** The exposure a fill moves from resting to held, symbol by symbol. */
  function Taken(b: Book, f: Fill, symbol: nat): real {
    match Find(b, f.cloid, f.orderId)
    case None => 0.0
    case Some(c) =>
      var o := b.orders[c];
      if o.symbol == symbol && o.Live() then Signed(o.side, Min(f.qty, o.Remaining())) else 0.0
  }

  lemma HeldAfterFill(l: Ledger, f: Fill, start: int, symbol: nat)
    requires f.qty > 0.0
    ensures Posted(l, f, start).Held(symbol).qty ==
      l.Held(symbol).qty + (if symbol == f.symbol then Signed(f.side, f.qty) else 0.0)
  {
    hide Traded, Booked;
    QtyAfterTrade(l.Held(f.symbol), Signed(f.side, f.qty), f.price);
  }

  lemma QtyAfterTrade(h: Holding, s: real, px: real)
    ensures Traded(h, s, px).qty == h.qty + s
  {
    TradeConserves(h, s, px, 0.0);
  }

  lemma FreshFillMoves(s: State, f: Fill, symbol: nat)
    requires f.qty > 0.0 && f.tradeId !in s.window.seen
    ensures RiskQty(AppliedFill(s, f), symbol) ==
      RiskQty(s, symbol) + (if symbol == f.symbol then Signed(f.side, f.qty) else 0.0) - Taken(s.book, f, symbol)
  {
    hide Posted, FilledOrder, RestingOf, Order.Remaining, Remembered, Ledger.Held;
    HeldAfterFill(s.ledger, f, s.sessionStart, symbol);
    match Find(s.book, f.cloid, f.orderId)
    case None =>
    case Some(c) =>
      var o := s.book.orders[c];
      FillTakes(o, f, symbol);
      RestingPut(s.book.orders, c, FilledOrder(o, f), symbol);
  }

  /** The order a fill was meant for: live, of the fill's symbol and side, with room for it. */
  predicate Expected(b: Book, f: Fill) {
    match Find(b, f.cloid, f.orderId)
    case None => false
    case Some(c) =>
      var o := b.orders[c];
      o.Live() && o.symbol == f.symbol && o.side == f.side && f.qty <= o.Remaining()
  }

  /** A trade not seen before leaves its symbol's risk position where it was exactly when it filled an
      order that was resting for it, and then every other symbol's too: exposure only moves from resting
      to held. */
  lemma ExposureMovesExactly(s: State, f: Fill)
    requires f.qty > 0.0 && f.tradeId !in s.window.seen
    ensures RiskQty(AppliedFill(s, f), f.symbol) == RiskQty(s, f.symbol) <==> Expected(s.book, f)
    ensures Expected(s.book, f) ==> forall symbol: nat :: RiskQty(AppliedFill(s, f), symbol) == RiskQty(s, symbol)
  {
    hide RiskQty, AppliedFill;
    FreshFillMoves(s, f, f.symbol);
    assert Taken(s.book, f, f.symbol) == Signed(f.side, f.qty) <==> Expected(s.book, f);
    forall symbol: nat | Expected(s.book, f)
      ensures RiskQty(AppliedFill(s, f), symbol) == RiskQty(s, symbol)
    {
      FreshFillMoves(s, f, symbol);
    }
  }

  /** Forgetting finished orders forgets no exposure. */
  lemma RetiringKeepsRisk(s: State, symbol: nat)
    ensures RiskQty(Step(s, RetireTerminal), symbol) == RiskQty(s, symbol)
  {
    var resting := RestingBy(s.book.orders, symbol);
    assert RestingBy(s.book.orders - Dead(s.book), symbol) == resting - Dead(s.book);
    SumDropsZeros(resting, Dead(s.book));
  }

  /** An accepted order is exposure from its ack on: its full size on its symbol, in place of whatever
      its client id named before; a refused or cancelled one is none. */
  lemma AckedIsExposure(s: State, req: Request, ack: Ack, ts: int, symbol: nat)
    requires req.qty > 0.0
    ensures var replaced := if ack.cloid in s.book.orders then RestingOf(s.book.orders[ack.cloid], symbol) else 0.0;
      RiskQty(Step(s, OnAck(req, ack, ts)), symbol) - RiskQty(s, symbol) ==
        if !ack.status.IsTerminal() then (if req.symbol == symbol then Signed(req.side, req.qty) else 0.0) - replaced
        else if ack.status == Filled then -replaced
        else 0.0
  {
    hide Ledger.Held;
    if !ack.status.IsTerminal() || ack.status == Filled {
      var o := Acked(s.book, req, ack, ts).orders[ack.cloid];
      RestingPut(s.book.orders, ack.cloid, o, symbol);
    }
  }

  /** An order of someone else's is exposure from the first update that reports it live: what the venue says
      remains of it, in place of whatever its id named. */
  lemma AdoptedIsExposure(s: State, u: Update, symbol: nat)
    requires Find(s.book, u.cloid, u.orderId) == None && !u.status.IsTerminal()
    requires 0.0 <= u.remainingQty <= u.origQty
    ensures var c := AdoptedId(u);
      var replaced := if c in s.book.orders then RestingOf(s.book.orders[c], symbol) else 0.0;
      RiskQty(Step(s, OnUpdate(u)), symbol) - RiskQty(s, symbol) ==
        (if u.symbol == symbol then Signed(u.side, u.remainingQty) else 0.0) - replaced
  {
    hide Ledger.Held;
    RestingPut(s.book.orders, AdoptedId(u), AdoptedOrder(u), symbol);
  }

  /** An overwritten position is the quantity given, at the price given or the one it had; its profit, every
      other position and every order stay, and the risk position moves by the difference. */
  lemma OverwritingMoves(s: State, symbol: nat, qty: real, avgPx: Option<real>, other: nat)
    ensures var after := Step(s, AdoptPosition(symbol, qty, avgPx));
      var was, now := s.ledger.Held(symbol), after.ledger.Held(symbol);
      && now.qty == qty && now.realized == was.realized
      && now.avgPx == (if avgPx.Some? then avgPx.value else was.avgPx)
      && (other != symbol ==> after.ledger.Held(other) == s.ledger.Held(other))
      && after.book == s.book
      && RiskQty(after, symbol) == RiskQty(s, symbol) + (qty - was.qty)
      && (after.adoptedPositions > s.adoptedPositions <==> qty != was.qty)
  {
  }

  // ---------------------------------------------------------------- the worst case

  /** What an order can still fill on one side of a symbol. */
  function RestingSide(o: Order, symbol: nat, side: Side): real {
    if o.symbol == symbol && o.side == side && o.Live() then o.Remaining() else 0.0
  }

  function OnlySide(orders: map<nat, Order>, symbol: nat, side: Side): map<nat, real> {
    map c | c in orders :: RestingSide(orders[c], symbol, side)
  }

  /** Everything resting on one side. */
  ghost function SideTotal(orders: map<nat, Order>, symbol: nat, side: Side): real {
    Sum(OnlySide(orders, symbol, side))
  }

  /** Some part, up to all, of every live order of the symbol. */
  ghost predicate PartFills(orders: map<nat, Order>, symbol: nat, amounts: map<nat, real>) {
    && amounts.Keys == orders.Keys
    && forall c :: c in orders ==>
      0.0 <= amounts[c] <= RestingSide(orders[c], symbol, Buy) + RestingSide(orders[c], symbol, Sell)
  }

  function SignedParts(orders: map<nat, Order>, amounts: map<nat, real>): map<nat, real>
    requires amounts.Keys == orders.Keys
  {
    map c | c in orders :: Signed(orders[c].side, amounts[c])
  }

  /** What is held once those parts have filled. */
  ghost function HeldAfter(s: State, symbol: nat, amounts: map<nat, real>): real
    requires amounts.Keys == s.book.orders.Keys
  {
    s.ledger.Held(symbol).qty + Sum(SignedParts(s.book.orders, amounts))
  }

  /** No part of what is resting, filled, holds more than the quantity `risk_position` reports. */
  ghost predicate WorstCase(s: State, symbol: nat) {
    forall amounts :: PartFills(s.book.orders, symbol, amounts) ==>
      Abs(HeldAfter(s, symbol, amounts)) <= Abs(RiskQty(s, symbol))
  }

  lemma RestingNets(orders: map<nat, Order>, symbol: nat)
    ensures Sum(RestingBy(orders, symbol)) == SideTotal(orders, symbol, Buy) - SideTotal(orders, symbol, Sell)
  {
    SumSplits(RestingBy(orders, symbol), OnlySide(orders, symbol, Buy), OnlySide(orders, symbol, Sell));
  }

  /** One side filled in full and the other not at all. */
  lemma OneSideFills(orders: map<nat, Order>, symbol: nat, side: Side)
    ensures PartFills(orders, symbol, OnlySide(orders, symbol, side))
    ensures Sum(SignedParts(orders, OnlySide(orders, symbol, side))) == Signed(side, SideTotal(orders, symbol, side))
    ensures SideTotal(orders, symbol, side) >= 0.0
  {
    var all := OnlySide(orders, symbol, side);
    var none: map<nat, real> := map c | c in orders :: 0.0;
    SumSplits(none, none, none);
    SumMonotone(none, all);
    var parts := SignedParts(orders, all);
    if side == Buy {
      SumSplits(parts, all, none);
    } else {
      SumSplits(parts, none, all);
    }
  }

  /** Whatever part fills, the position moves by no more than all the buys, or all the sells. */
  lemma PartsBetween(orders: map<nat, Order>, symbol: nat, amounts: map<nat, real>)
    requires PartFills(orders, symbol, amounts)
    ensures -SideTotal(orders, symbol, Sell) <= Sum(SignedParts(orders, amounts)) <= SideTotal(orders, symbol, Buy)
  {
    var buys, sells := OnlySide(orders, symbol, Buy), OnlySide(orders, symbol, Sell);
    var none: map<nat, real> := map c | c in orders :: 0.0;
    var sold: map<nat, real> := map c | c in orders :: -sells[c];
    SumSplits(none, none, none);
    SumSplits(sold, none, sells);
    SumMonotone(SignedParts(orders, amounts), buys);
    SumMonotone(sold, SignedParts(orders, amounts));
  }

  /** The reported quantity is the worst case exactly when everything resting is on one side and, if that
      is against the position, amounts to at least twice it. */
  lemma WorstCaseExactly(s: State, symbol: nat)
    ensures var h := s.ledger.Held(symbol).qty;
      var buys, sells := SideTotal(s.book.orders, symbol, Buy), SideTotal(s.book.orders, symbol, Sell);
      WorstCase(s, symbol) <==> (sells == 0.0 && buys >= -2.0 * h) || (buys == 0.0 && sells >= 2.0 * h)
  {
    hide RestingSide, RestingBy, SignedParts, OnlySide, SideTotal, Ledger.Held;
    var orders := s.book.orders;
    RestingNets(orders, symbol);
    OneSideFills(orders, symbol, Buy);
    OneSideFills(orders, symbol, Sell);
    if WorstCase(s, symbol) {
      assert Abs(HeldAfter(s, symbol, OnlySide(orders, symbol, Buy))) <= Abs(RiskQty(s, symbol));
      assert Abs(HeldAfter(s, symbol, OnlySide(orders, symbol, Sell))) <= Abs(RiskQty(s, symbol));
    } else {
      var amounts :| PartFills(orders, symbol, amounts)
        && Abs(HeldAfter(s, symbol, amounts)) > Abs(RiskQty(s, symbol));
      PartsBetween(orders, symbol, amounts);
    }
  }

  /** A buy and a sell of five resting on a flat symbol report nothing, and either alone may fill. */
  lemma RestingMayNetOut()
    ensures
      var buy := Order(Some(7), 1, Buy, Some(100.0), 5.0, 0.0, Resting, 0, None, None, 0, false);
      var s := New().(book := Book(map[1 := buy, 2 := buy.(side := Sell)], map[]));
      RiskQty(s, 1) == 0.0 && PartFills(s.book.orders, 1, map[1 := 5.0, 2 := 0.0])
      && HeldAfter(s, 1, map[1 := 5.0, 2 := 0.0]) == 5.0
  {
    var buy := Order(Some(7), 1, Buy, Some(100.0), 5.0, 0.0, Resting, 0, None, None, 0, false);
    var orders := map[1 := buy, 2 := buy.(side := Sell)];
    TwoSum(RestingBy(orders, 1), 5.0, -5.0);
    TwoSum(SignedParts(orders, map[1 := 5.0, 2 := 0.0]), 5.0, 0.0);
  }

  lemma TwoSum(m: map<nat, real>, a: real, b: real)
    requires m == map[1 := a, 2 := b]
    ensures Sum(m) == a + b
  {
    SumPick(m, 1);
    SumPick(m - {1}, 2);
    assert m - {1} - {2} == map[];
  }

  // ---------------------------------------------------------------- found again

  /** An event that echoes a client id we track is about that order, whatever venue id it carries. */
  lemma ClientIdDecides(b: Book, c: nat, orderId: nat)
    requires c in b.orders
    ensures Find(b, Some(c), orderId) == Some(c)
  {
  }

  /** Retiring finished orders leaves a live order that its venue's id finds findable by it exactly when no
      finished order carries the same id, and leaves no id that finds a finished one. */
  lemma RetiringKeepsFinding(b: Book, c: nat, orderId: nat)
    requires Find(b, None, orderId) == Some(c) && b.orders[c].Live()
    ensures Find(Retired(b), None, orderId) == Some(c) <==>
      forall d :: d in b.orders && !b.orders[d].Live() ==> b.orders[d].orderId != Some(orderId)
    ensures forall d :: d in Retired(b).orders <==> d in b.orders && b.orders[d].Live()
  {
    if d :| d in b.orders && !b.orders[d].Live() && b.orders[d].orderId == Some(orderId) {
      assert d in Dead(b) && orderId in DeadIds(b, Dead(b));
    }
  }

  /** An update that is not ignored leaves its order findable by the venue's id alone, whether it knew the
      order by its client id or adopted it. */
  lemma FoundByVenueId(b: Book, u: Update)
    requires Find(b, u.cloid, u.orderId).Some? ==> b.orders[Find(b, u.cloid, u.orderId).value].Live()
    requires Find(b, u.cloid, u.orderId).None? ==> !u.status.IsTerminal()
    ensures var c := if Find(b, u.cloid, u.orderId).Some? then Find(b, u.cloid, u.orderId).value else AdoptedId(u);
      Find(UpdatedBook(b, u), None, u.orderId) == Some(c)
  {
  }
}
