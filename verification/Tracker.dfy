/** What every event does to the tracker's state, as functions of that state: the order book, the
    positions and money, and the window of trade ids already applied. `OrderTracker` is the object
    that keeps the state.
 */
module Tracker {
  import opened Wrappers
  import opened Positions

  /** The dedup window. */
  const MAX_SEEN_TRADES: nat := 100_000

  datatype Tif = Gtc | Ioc | PostOnly | Fok

  datatype Liquidity = Maker | Taker

  datatype Status = Accepted | Resting | PartiallyFilled | Filled | Cancelled | Rejected {
    predicate IsTerminal() { Filled? || Cancelled? || Rejected? }
  }

  /** An order, under its client id in `Book.orders`. */
  datatype Order = Order(
    orderId: Option<nat>, symbol: nat, side: Side, price: Option<real>,
    origQty: real, filledQty: real, status: Status, lastUpdate: int,
    tif: Option<Tif>, reduceOnly: Option<bool>, placedTs: int, adopted: bool)
  {
    function Remaining(): real {
      Max(origQty - filledQty, 0.0)
    }

    predicate Live() {
      !status.IsTerminal()
    }
  }

  datatype Request = Request(symbol: nat, side: Side, qty: real, price: Option<real>, tif: Tif, reduceOnly: bool)

  datatype Ack = Ack(cloid: nat, orderId: Option<nat>, status: Status)

  datatype Fill = Fill(
    symbol: nat, orderId: nat, cloid: Option<nat>, side: Side, qty: real, price: real,
    fee: real, closedPnl: real, liquidity: Liquidity, tradeId: nat, ts: int)

  datatype Update = Update(
    symbol: nat, orderId: nat, cloid: Option<nat>, side: Side, status: Status, price: Option<real>,
    origQty: real, remainingQty: real, ts: int)
  {
    /** The venue's figure for what has executed. */
    function VenueFilled(): real {
      Max(origQty - remainingQty, 0.0)
    }
  }

  function Max(x: real, y: real): real {
    if x >= y then x else y
  }

  function MaxTime(x: int, y: int): int {
    if x >= y then x else y
  }

  // ---------------------------------------------------------------- the order book

  datatype Book = Book(orders: map<nat, Order>, byId: map<nat, nat>)

  /** The tracked order an event is about: by client id if the venue echoed one that is known, else by
      venue id. */
  function Find(b: Book, cloid: Option<nat>, orderId: nat): (c: Option<nat>)
    ensures c.Some? ==> c.value in b.orders
  {
    if cloid.Some? && cloid.value in b.orders then cloid
    else if orderId in b.byId && b.byId[orderId] in b.orders then Some(b.byId[orderId])
    else None
  }

  function Acked(b: Book, req: Request, ack: Ack, ts: int): Book {
    var byId := if ack.orderId.Some? then b.byId[ack.orderId.value := ack.cloid] else b.byId;
    if ack.status.IsTerminal() && ack.status != Filled then Book(b.orders, byId)
    else
      Book(b.orders[ack.cloid := Order(ack.orderId, req.symbol, req.side, req.price, req.qty, 0.0, ack.status, ts,
                                       Some(req.tif), Some(req.reduceOnly), ts, false)], byId)
  }

  function FilledOrder(o: Order, f: Fill): Order {
    var filled := o.filledQty + f.qty;
    o.(filledQty := filled,
       orderId := if o.orderId == None then Some(f.orderId) else o.orderId,
       lastUpdate := MaxTime(o.lastUpdate, f.ts),
       status := if filled >= o.origQty then Filled else if o.Live() then PartiallyFilled else o.status)
  }

  /** A fill in the book; `None` when no tracked order claims it. */
  function FilledBook(b: Book, f: Fill): Option<Book> {
    match Find(b, f.cloid, f.orderId)
    case None => None
    case Some(c) =>
      var o := b.orders[c];
      Some(Book(b.orders[c := FilledOrder(o, f)], if o.orderId == None then b.byId[f.orderId := c] else b.byId))
  }

  function UpdatedOrder(o: Order, u: Update): Order {
    var newest := u.ts >= o.lastUpdate;
    var filled := Max(o.filledQty, u.VenueFilled());
    var orig := if newest then u.origQty else o.origQty;
    var status := if u.status.IsTerminal() || newest then u.status else o.status;
    o.(filledQty := filled,
       origQty := orig,
       price := if newest && u.price.Some? then u.price else o.price,
       status := if filled >= orig && !status.IsTerminal() then Filled else status,
       lastUpdate := MaxTime(o.lastUpdate, u.ts),
       orderId := if o.orderId == None then Some(u.orderId) else o.orderId)
  }

  /** The client id an order we never submitted goes under. */
  function AdoptedId(u: Update): nat {
    if u.cloid.Some? then u.cloid.value else u.orderId
  }

  function AdoptedOrder(u: Update): Order {
    Order(Some(u.orderId), u.symbol, u.side, u.price, u.origQty, u.VenueFilled(), u.status, u.ts,
      None, None, u.ts, true)
  }

  function UpdatedBook(b: Book, u: Update): Book {
    match Find(b, u.cloid, u.orderId)
    case Some(c) =>
      var o := b.orders[c];
      if o.Live() then Book(b.orders[c := UpdatedOrder(o, u)], b.byId[u.orderId := c]) else b
    case None =>
      if u.status.IsTerminal() then b
      else Book(b.orders[AdoptedId(u) := AdoptedOrder(u)], b.byId[u.orderId := AdoptedId(u)])
  }

  /** The client ids of finished orders, and the venue ids they were known by. */
  function Dead(b: Book): set<nat> {
    set c | c in b.orders && !b.orders[c].Live()
  }

  function DeadIds(b: Book, dead: set<nat>): set<nat> {
    set c | c in dead && c in b.orders && b.orders[c].orderId.Some? :: b.orders[c].orderId.value
  }

  function Retired(b: Book): Book {
    Book(b.orders - Dead(b), b.byId - DeadIds(b, Dead(b)))
  }

  // ---------------------------------------------------------------- positions and money

  datatype Money = Money(realized: real, fees: real, venueClosedPnl: real, makerFills: nat, takerFills: nat) {
    function Plus(o: Money): Money {
      Money(realized + o.realized, fees + o.fees, venueClosedPnl + o.venueClosedPnl,
            makerFills + o.makerFills, takerFills + o.takerFills)
    }
  }

  function NoMoney(): Money { Money(0.0, 0.0, 0.0, 0, 0) }

  /** What one fill books, given what it realized. */
  function Booked(f: Fill, realized: real): Money {
    Money(realized, f.fee, f.closedPnl, if f.liquidity.Maker? then 1 else 0, if f.liquidity.Taker? then 1 else 0)
  }

  datatype Ledger = Ledger(positions: map<nat, Holding>, inherited: Money, session: Money) {
    function Held(symbol: nat): Holding {
      if symbol in positions then positions[symbol] else Flat()
    }
  }

  /** A fill in the ledger: its symbol's position, and one side of the session boundary. */
  function Posted(l: Ledger, f: Fill, start: int): Ledger
    requires f.qty > 0.0
  {
    var before := l.Held(f.symbol);
    var after := Traded(before, Signed(f.side, f.qty), f.price);
    var booked := Booked(f, after.realized - before.realized);
    var positions := l.positions[f.symbol := after];
    if f.ts < start then Ledger(positions, l.inherited.Plus(booked), l.session)
    else Ledger(positions, l.inherited, l.session.Plus(booked))
  }

  function Overwritten(l: Ledger, symbol: nat, qty: real, avgPx: Option<real>): Ledger {
    var h := l.Held(symbol);
    l.(positions := l.positions[symbol := h.(qty := qty, avgPx := if avgPx.Some? then avgPx.value else h.avgPx)])
  }

  // ---------------------------------------------------------------- the window of trade ids

  datatype Window = Window(seen: set<nat>, order: seq<nat>)

  function Remembered(w: Window, id: nat): Window {
    if |w.order| >= MAX_SEEN_TRADES then Window(w.seen - {w.order[0]} + {id}, w.order[1..] + [id])
    else Window(w.seen + {id}, w.order + [id])
  }

  // ---------------------------------------------------------------- the tracker

  datatype Drift = Drift(venueEquity: real, ts: int)

  datatype State = State(
    book: Book, ledger: Ledger, window: Window, sessionStart: int,
    orphanFills: nat, adoptedPositions: nat, firstSnapshot: Option<Drift>, lastSnapshot: Option<Drift>)

  function New(): State {
    State(Book(map[], map[]), Ledger(map[], NoMoney(), NoMoney()), Window({}, []), 0, 0, 0, None, None)
  }

  datatype Event =
    | OnAck(req: Request, ack: Ack, ts: int)
    | OnFill(fill: Fill)
    | OnUpdate(update: Update)
    | OnAccount(snapshot: Drift)
    | AdoptPosition(symbol: nat, qty: real, avgPx: Option<real>)
    | SetSessionStart(start: int)
    | RetireTerminal
  {
    /** A fill is a positive magnitude. */
    predicate Sound() { OnFill? ==> fill.qty > 0.0 }
  }

  function AppliedFill(s: State, f: Fill): State
    requires f.qty > 0.0
  {
    if f.tradeId in s.window.seen then s
    else
      var book := FilledBook(s.book, f);
      s.(window := Remembered(s.window, f.tradeId),
         ledger := Posted(s.ledger, f, s.sessionStart),
         book := if book.Some? then book.value else s.book,
         orphanFills := if book.Some? then s.orphanFills else s.orphanFills + 1)
  }

  function Step(s: State, e: Event): State
    requires e.Sound()
  {
    match e
    case OnAck(req, ack, ts) => s.(book := Acked(s.book, req, ack, ts))
    case OnFill(f) => AppliedFill(s, f)
    case OnUpdate(u) => s.(book := UpdatedBook(s.book, u))
    case OnAccount(d) =>
      s.(firstSnapshot := if s.firstSnapshot == None then Some(d) else s.firstSnapshot, lastSnapshot := Some(d))
    case AdoptPosition(symbol, qty, avgPx) =>
      s.(ledger := Overwritten(s.ledger, symbol, qty, avgPx),
         adoptedPositions := if s.ledger.Held(symbol).qty != qty then s.adoptedPositions + 1 else s.adoptedPositions)
    case SetSessionStart(start) => s.(sessionStart := start)
    case RetireTerminal => s.(book := Retired(s.book))
  }

  ghost predicate AllSound(es: seq<Event>) {
    forall i :: 0 <= i < |es| ==> es[i].Sound()
  }

  /** The state after a whole run. */
  function Run(s: State, es: seq<Event>): State
    requires AllSound(es)
  {
    if es == [] then s else Step(Run(s, es[..|es| - 1]), es[|es| - 1])
  }
}
