/** The tracker as the object that keeps its state in place, method by method against `Tracker`. */
module OrderTrackers {
  import opened Wrappers
  import opened Positions
  import opened Sums
  import opened Tracker
  import opened TrackerOrders

  class OrderTracker {
    var orders: map<nat, Order>
    var byOrderId: map<nat, nat>
    var positions: map<nat, Holding>
    var seenTrades: set<nat>
    var seenOrder: seq<nat>
    var lastSnapshot: Option<Drift>
    var firstSnapshot: Option<Drift>
    var sessionStartNs: int
    var inherited: Money
    var session: Money
    var orphanFills: nat
    var adoptedPositions: nat

    ghost function View(): State
      reads this
    {
      State(Book(orders, byOrderId), Ledger(positions, inherited, session), Window(seenTrades, seenOrder),
            sessionStartNs, orphanFills, adoptedPositions, firstSnapshot, lastSnapshot)
    }

    constructor ()
      ensures View() == New()
    {
      orders, byOrderId, positions := map[], map[], map[];
      seenTrades, seenOrder := {}, [];
      lastSnapshot, firstSnapshot := None, None;
      sessionStartNs, inherited, session := 0, NoMoney(), NoMoney();
      orphanFills, adoptedPositions := 0, 0;
    }

    method Ack(req: Request, ack: Tracker.Ack, ts: int)
      modifies this
      ensures View() == Step(old(View()), OnAck(req, ack, ts))
    {
      if ack.orderId.Some? { byOrderId := byOrderId[ack.orderId.value := ack.cloid]; }
      var order := Order(ack.orderId, req.symbol, req.side, req.price, req.qty, 0.0, ack.status, ts,
                         Some(req.tif), Some(req.reduceOnly), ts, false);
      if ack.status.IsTerminal() {
        if ack.status == Filled { orders := orders[ack.cloid := order]; }
        return;
      }
      orders := orders[ack.cloid := order];
    }

    method AdoptPosition(symbol: nat, qty: real, avgPx: Option<real>) returns (was: real)
      modifies this
      ensures View() == Step(old(View()), Event.AdoptPosition(symbol, qty, avgPx))
      ensures was == old(View()).ledger.Held(symbol).qty
    {
      var p := if symbol in positions then positions[symbol] else Flat();
      was := p.qty;
      p := p.(qty := qty);
      if avgPx.Some? { p := p.(avgPx := avgPx.value); }
      positions := positions[symbol := p];
      if was != qty { adoptedPositions := adoptedPositions + 1; }
    }

    method SetSessionStart(ns: int)
      modifies this
      ensures View() == Step(old(View()), Event.SetSessionStart(ns))
    {
      sessionStartNs := ns;
    }

    /** What is held plus everything live filled. */
    method RiskPosition(symbol: nat) returns (p: Holding)
      ensures p.qty == RiskQty(View(), symbol)
      ensures p.avgPx == View().ledger.Held(symbol).avgPx && p.realized == View().ledger.Held(symbol).realized
    {
      p := if symbol in positions then positions[symbol] else Flat();
      var resting := RestingExposure(symbol);
      p := p.(qty := p.qty + resting);
    }

    method RestingExposure(symbol: nat) returns (resting: real)
      ensures resting == Sum(RestingBy(orders, symbol))
    {
      resting := 0.0;
      var left := orders.Keys;
      ghost var all := RestingBy(orders, symbol);
      SumOfNone(all);
      while left != {}
        invariant left <= orders.Keys == all.Keys
        invariant resting == Sum(all - left)
        decreases |left|
      {
        var c :| c in left;
        var o := orders[c];
        SumTakes(all, left, c);
        if o.symbol == symbol && !o.status.IsTerminal() {
          resting := resting + (if o.side == Buy then o.Remaining() else -o.Remaining());
        }
        left := left - {c};
      }
    }

    method RetireTerminal()
      modifies this
      ensures View() == Step(old(View()), Event.RetireTerminal)
    {
      var dead := set c | c in orders && orders[c].status.IsTerminal();
      assert dead == Dead(Book(orders, byOrderId));
      Forget(dead);
    }

    method Forget(dead: set<nat>)
      requires dead <= orders.Keys
      modifies this`orders, this`byOrderId
      ensures orders == old(orders) - dead
      ensures byOrderId == old(byOrderId) - DeadIds(Book(old(orders), old(byOrderId)), dead)
    {
      hide DeadIds;
      ghost var book := Book(orders, byOrderId);
      NoDeadIds(book);
      var left := dead;
      assert dead - left == {};
      while left != {}
        invariant left <= dead && orders == old(orders) - (dead - left)
        invariant byOrderId == old(byOrderId) - DeadIds(book, dead - left)
        decreases |left|
      {
        var c :| c in left;
        var o := orders[c];
        ghost var done := dead - left;
        DeadIdsStep(book, done, c);
        orders := orders - {c};
        if o.orderId.Some? { byOrderId := byOrderId - {o.orderId.value}; }
        left := left - {c};
        assert dead - left == done + {c};
      }
      assert dead - {} == dead;
    }

    method RememberTrade(id: nat)
      modifies this`seenTrades, this`seenOrder
      ensures Window(seenTrades, seenOrder) == Remembered(old(View()).window, id)
    {
      if |seenOrder| >= MAX_SEEN_TRADES {
        var oldest := seenOrder[0];
        seenOrder := seenOrder[1..];
        seenTrades := seenTrades - {oldest};
      }
      seenOrder := seenOrder + [id];
      seenTrades := seenTrades + {id};
    }

    method ApplyFill(f: Fill)
      requires f.qty > 0.0
      modifies this
      ensures View() == Step(old(View()), OnFill(f))
    {
      hide Traded, FilledBook, Remembered, Posted;
      if f.tradeId in seenTrades { return; }
      RememberTrade(f.tradeId);
      PostFill(f);
      Attribute(f);
    }

    method PostFill(f: Fill)
      requires f.qty > 0.0
      modifies this`positions, this`inherited, this`session
      ensures Ledger(positions, inherited, session) == Posted(old(View()).ledger, f, sessionStartNs)
    {
      hide Traded;
      var position := new Position(f.symbol, if f.symbol in positions then positions[f.symbol] else Flat());
      var realizedBefore := position.realizedPnl;
      position.ApplyFill(f.side, f.qty, f.price);
      positions := positions[f.symbol := Holding(position.qty, position.avgPx, position.realizedPnl)];
      var realizedDelta := position.realizedPnl - realizedBefore;
      if f.ts < sessionStartNs {
        inherited := AddFill(inherited, f, realizedDelta);
      } else {
        session := AddFill(session, f, realizedDelta);
      }
    }

    static function AddFill(m: Money, f: Fill, realizedDelta: real): (r: Money)
      ensures r == m.Plus(Booked(f, realizedDelta))
    {
      Money(m.realized + realizedDelta, m.fees + f.fee, m.venueClosedPnl + f.closedPnl,
            if f.liquidity == Maker then m.makerFills + 1 else m.makerFills,
            if f.liquidity == Taker then m.takerFills + 1 else m.takerFills)
    }

    method Attribute(f: Fill)
      modifies this`orders, this`byOrderId, this`orphanFills
      ensures var book := FilledBook(old(View()).book, f);
        if book.Some? then Book(orders, byOrderId) == book.value && orphanFills == old(orphanFills)
        else Book(orders, byOrderId) == old(View()).book && orphanFills == old(orphanFills) + 1
    {
      var cloid := Lookup(f.cloid, f.orderId);
      if cloid == None || cloid.value !in orders {
        orphanFills := orphanFills + 1;
        return;
      }
      var order := orders[cloid.value];
      order := order.(filledQty := order.filledQty + f.qty);
      if order.orderId == None {
        order := order.(orderId := Some(f.orderId));
        byOrderId := byOrderId[f.orderId := cloid.value];
      }
      order := order.(lastUpdate := MaxTime(order.lastUpdate, f.ts));
      if order.filledQty >= order.origQty {
        order := order.(status := Filled);
      } else if !order.status.IsTerminal() {
        order := order.(status := PartiallyFilled);
      }
      orders := orders[cloid.value := order];
    }

    /** By client id when it is one we track, else whatever the venue id maps to. */
    method Lookup(cloid: Option<nat>, orderId: nat) returns (c: Option<nat>)
      ensures Find(View().book, cloid, orderId) == if c.Some? && c.value in orders then c else None
    {
      if cloid.Some? && cloid.value in orders { return cloid; }
      return if orderId in byOrderId then Some(byOrderId[orderId]) else None;
    }

    method ApplyUpdate(u: Update)
      modifies this
      ensures View() == Step(old(View()), OnUpdate(u))
    {
      var cloid := Lookup(u.cloid, u.orderId);
      if cloid == None || cloid.value !in orders {
        Adopt(u);
        return;
      }
      if orders[cloid.value].status.IsTerminal() { return; }
      Refresh(cloid.value, u);
      byOrderId := byOrderId[u.orderId := cloid.value];
    }

    method Refresh(c: nat, u: Update)
      requires c in orders && orders[c].Live()
      modifies this`orders
      ensures orders == old(orders)[c := UpdatedOrder(old(orders)[c], u)]
    {
      var order := orders[c];
      order := order.(filledQty := Max(order.filledQty, Max(u.origQty - u.remainingQty, 0.0)));
      var newest := u.ts >= order.lastUpdate;
      if u.status.IsTerminal() || newest { order := order.(status := u.status); }
      if newest {
        order := order.(origQty := u.origQty);
        if u.price.Some? { order := order.(price := u.price); }
      }
      if order.filledQty >= order.origQty && !order.status.IsTerminal() { order := order.(status := Filled); }
      order := order.(lastUpdate := MaxTime(order.lastUpdate, u.ts));
      if order.orderId == None { order := order.(orderId := Some(u.orderId)); }
      orders := orders[c := order];
    }

    method Adopt(u: Update)
      requires Find(View().book, u.cloid, u.orderId) == None
      modifies this`orders, this`byOrderId
      ensures Book(orders, byOrderId) == UpdatedBook(old(View()).book, u)
    {
      if u.status.IsTerminal() { return; }
      var cloid := if u.cloid.Some? then u.cloid.value else u.orderId;
      byOrderId := byOrderId[u.orderId := cloid];
      orders := orders[cloid := Order(Some(u.orderId), u.symbol, u.side, u.price, u.origQty,
                                      Max(u.origQty - u.remainingQty, 0.0), u.status, u.ts, None, None, u.ts, true)];
    }

    method OnEvent(e: Event)
      requires e.Sound() && IsVenueEvent(e)
      modifies this
      ensures View() == Step(old(View()), e)
    {
      match e
      case OnFill(f) => ApplyFill(f);
      case OnUpdate(u) => ApplyUpdate(u);
      case OnAccount(d) =>
        if firstSnapshot == None { firstSnapshot := Some(d); }
        lastSnapshot := Some(d);
    }
  }

  lemma NoDeadIds(b: Book)
    ensures DeadIds(b, {}) == {}
  {
  }

  lemma DeadIdsStep(b: Book, done: set<nat>, c: nat)
    requires c in b.orders
    ensures DeadIds(b, done + {c})
         == DeadIds(b, done) + if b.orders[c].orderId.Some? then {b.orders[c].orderId.value} else {}
  {
  }
}
