/** What whole runs of the tracker add up to: each trade is applied once, and the money and positions
    are those of the trades applied.
 */
module TrackerRuns {
  import opened Wrappers
  import opened Positions
  import opened Sums
  import opened Tracker

  // ---------------------------------------------------------------- replays

  /** The trade ids of a run's fills, in order. */
  function Ids(es: seq<Event>): seq<nat> {
    if es == [] then []
    else
      var last := es[|es| - 1];
      if last.OnFill? then Ids(es[..|es| - 1]) + [last.fill.tradeId] else Ids(es[..|es| - 1])
  }

  /** The window: the last so many ids. */
  function Recent(ids: seq<nat>): seq<nat> {
    if |ids| <= MAX_SEEN_TRADES then ids else ids[|ids| - MAX_SEEN_TRADES..]
  }

  predicate IsReplay(kept: seq<Event>, e: Event) {
    e.OnFill? && e.fill.tradeId in Recent(Ids(kept))
  }

  /** A run with its replays removed, read off the trade ids alone. */
  function Kept(es: seq<Event>): (kept: seq<Event>)
    ensures forall e :: e in kept ==> e in es
  {
    if es == [] then []
    else
      var front, last := Kept(es[..|es| - 1]), es[|es| - 1];
      if IsReplay(front, last) then front else front + [last]
  }

  lemma KeptSound(es: seq<Event>)
    requires AllSound(es)
    ensures AllSound(Kept(es))
  {
    forall i | 0 <= i < |Kept(es)|
      ensures Kept(es)[i].Sound()
    {
      assert Kept(es)[i] in es;
    }
  }

  ghost predicate NoRepeats(ids: seq<nat>) {
    forall i, j :: 0 <= i < j < |ids| ==> ids[i] != ids[j]
  }

  /** The set and the queue hold the same ids, each once, and no more than the window. */
  ghost predicate WindowInv(w: Window) {
    && NoRepeats(w.order) && |w.order| <= MAX_SEEN_TRADES
    && forall id :: id in w.seen <==> id in w.order
  }

  lemma RememberKeeps(w: Window, id: nat)
    requires WindowInv(w) && id !in w.seen
    ensures WindowInv(Remembered(w, id))
  {
    var order := Remembered(w, id).order;
    forall x
      ensures x in Remembered(w, id).seen <==> x in order
    {
      if |w.order| >= MAX_SEEN_TRADES {
        assert w.order == [w.order[0]] + w.order[1..];
        assert w.order[0] !in w.order[1..];
      }
    }
  }

  lemma RecentSlides(ids: seq<nat>, w: Window, id: nat)
    requires w.order == Recent(ids)
    ensures Remembered(w, id).order == Recent(ids + [id])
  {
  }

  lemma {:induction false} WindowAfter(es: seq<Event>)
    requires AllSound(es)
    ensures WindowInv(Run(New(), es).window)
    ensures Run(New(), es).window.order == Recent(Ids(Kept(es)))
  {
    hide WindowInv, Recent, Posted, FilledBook, Acked, UpdatedBook, Retired, Overwritten, Remembered;
    if es == [] {
      NewWindow();
    } else {
      var front, last := es[..|es| - 1], es[|es| - 1];
      WindowAfter(front);
      var s := Run(New(), front);
      SeenIsReplay(s, front, last);
      if last.OnFill? && last.fill.tradeId !in s.window.seen {
        RememberKeeps(s.window, last.fill.tradeId);
        RecentSlides(Ids(Kept(front)), s.window, last.fill.tradeId);
        IdsAdd(Kept(front), last);
      } else {
        IdsAdd(Kept(front), last);
      }
    }
  }

  lemma NewWindow()
    ensures WindowInv(New().window) && Recent([]) == []
  {
  }

  lemma IdsAdd(es: seq<Event>, e: Event)
    ensures Ids(es + [e]) == if e.OnFill? then Ids(es) + [e.fill.tradeId] else Ids(es)
  {
    assert (es + [e])[..|es|] == es;
  }

  lemma SeenIsReplay(s: State, es: seq<Event>, e: Event)
    requires WindowInv(s.window) && s.window.order == Recent(Ids(Kept(es)))
    ensures IsReplay(Kept(es), e) <==> e.OnFill? && e.fill.tradeId in s.window.seen
  {
  }

  predicate IsApplied(s: State, e: Event) {
    e.OnFill? && e.fill.tradeId !in s.window.seen
  }

  /** One more event: a replay is dropped and changes nothing, anything else is kept. */
  lemma Unroll(es: seq<Event>) returns (front: seq<Event>, last: Event, s: State)
    requires AllSound(es) && es != []
    ensures front == es[..|es| - 1] && last == es[|es| - 1] && AllSound(front) && s == Run(New(), front)
    ensures Run(New(), es) == Step(s, last)
    ensures if last.OnFill? && !IsApplied(s, last) then Kept(es) == Kept(front) && Run(New(), es) == s
            else Kept(es) == Kept(front) + [last]
  {
    hide WindowInv, Posted, FilledBook, Acked, UpdatedBook, Retired, Overwritten, Remembered, Recent;
    front, last := es[..|es| - 1], es[|es| - 1];
    s := Run(New(), front);
    WindowAfter(front);
    SeenIsReplay(s, front, last);
  }

  lemma RunAdds(es: seq<Event>, e: Event)
    requires AllSound(es) && e.Sound()
    ensures AllSound(es + [e]) && Run(New(), es + [e]) == Step(Run(New(), es), e)
  {
    hide Step;
    assert (es + [e])[..|es|] == es;
  }

  /** Any run ends in the state of the run with its replays removed. */
  lemma {:induction false} ReplaysRemoved(es: seq<Event>)
    requires AllSound(es)
    ensures AllSound(Kept(es)) && Run(New(), Kept(es)) == Run(New(), es)
  {
    hide Step;
    KeptSound(es);
    if es != [] {
      var front, last, s := Unroll(es);
      ReplaysRemoved(front);
      KeptSound(front);
      if Kept(es) != Kept(front) { RunAdds(Kept(front), last); }
    }
  }

  /** A fill is a no-op exactly when fewer than `MAX_SEEN_TRADES` new trades have been applied since its
      own trade was. */
  lemma ReplayIsNoOp(es: seq<Event>, f: Fill)
    requires AllSound(es) && f.qty > 0.0
    ensures var ids := Ids(Kept(es));
      AppliedFill(Run(New(), es), f) == Run(New(), es)
      <==> exists i :: 0 <= i < |ids| && ids[i] == f.tradeId && |ids| - 1 - i < MAX_SEEN_TRADES
  {
    hide Posted, FilledBook, Run, Kept, Ids, Remembered, Recent;
    var s, ids := Run(New(), es), Ids(Kept(es));
    WindowAfter(es);
    InRecent(ids, f.tradeId);
    if f.tradeId !in s.window.seen { RememberedLast(s.window, f.tradeId); }
  }

  lemma InRecent(ids: seq<nat>, id: nat)
    ensures id in Recent(ids) <==> exists i :: 0 <= i < |ids| && ids[i] == id && |ids| - 1 - i < MAX_SEEN_TRADES
  {
    var recent := Recent(ids);
    if id in recent {
      var j :| 0 <= j < |recent| && recent[j] == id;
      assert ids[|ids| - |recent| + j] == id;
    }
    forall i | 0 <= i < |ids| && ids[i] == id && |ids| - 1 - i < MAX_SEEN_TRADES
      ensures id in recent
    {
      assert recent[i - (|ids| - |recent|)] == ids[i];
    }
  }

  lemma RememberedLast(w: Window, id: nat)
    requires WindowInv(w) && id !in w.seen
    ensures Remembered(w, id) != w
  {
    assert id in Remembered(w, id).seen;
  }

  // ---------------------------------------------------------------- money

  /** The session boundary in force at the end of a run. */
  function Boundary(es: seq<Event>): int {
    if es == [] then 0
    else if es[|es| - 1].SetSessionStart? then es[|es| - 1].start
    else Boundary(es[..|es| - 1])
  }

  /** Fees, venue profit and fill counts of the fills on one side of the boundary in force when each
      arrived: executed since it, or before it. */
  function SideOf(es: seq<Event>, session: bool): Money {
    if es == [] then NoMoney()
    else
      var front, last := es[..|es| - 1], es[|es| - 1];
      if last.OnFill? && (last.fill.ts >= Boundary(front)) == session
        then SideOf(front, session).Plus(Booked(last.fill, 0.0))
      else SideOf(front, session)
  }

  /** The same over every fill. */
  function AllOf(es: seq<Event>): Money {
    if es == [] then NoMoney()
    else
      var front, last := es[..|es| - 1], es[|es| - 1];
      if last.OnFill? then AllOf(front).Plus(Booked(last.fill, 0.0)) else AllOf(front)
  }

  lemma PlusOnEitherSide(a: Money, b: Money, x: Money)
    ensures a.Plus(x).Plus(b) == a.Plus(b).Plus(x) == a.Plus(b.Plus(x))
  {
  }

  lemma {:induction false} SidesMakeAll(es: seq<Event>)
    ensures SideOf(es, true).Plus(SideOf(es, false)) == AllOf(es)
  {
    hide Money.Plus, Booked;
    if es == [] {
      NothingAdds(NoMoney());
    } else {
      var front, last := es[..|es| - 1], es[|es| - 1];
      SidesMakeAll(front);
      if last.OnFill? { PlusOnEitherSide(SideOf(front, true), SideOf(front, false), Booked(last.fill, 0.0)); }
    }
  }

  lemma NothingAdds(m: Money)
    ensures m.Plus(NoMoney()) == m
  {
  }

  lemma {:induction false} FillsAreCounted(es: seq<Event>)
    ensures AllOf(es).makerFills + AllOf(es).takerFills == |Ids(es)|
  {
    if es != [] { FillsAreCounted(es[..|es| - 1]); }
  }

  function RealizedOf(positions: map<nat, Holding>): map<nat, real> {
    map k | k in positions :: positions[k].realized
  }

  ghost predicate MoneyInv(l: Ledger) {
    l.session.realized + l.inherited.realized == Sum(RealizedOf(l.positions))
  }

  lemma PostedMoney(l: Ledger, f: Fill, start: int)
    requires f.qty > 0.0 && MoneyInv(l)
    ensures MoneyInv(Posted(l, f, start))
  {
    hide Traded;
    var after := Posted(l, f, start).positions[f.symbol];
    assert RealizedOf(Posted(l, f, start).positions) == RealizedOf(l.positions)[f.symbol := after.realized];
    SumPut(RealizedOf(l.positions), f.symbol, after.realized);
  }

  lemma OverwrittenMoney(l: Ledger, symbol: nat, qty: real, avgPx: Option<real>)
    requires MoneyInv(l)
    ensures MoneyInv(Overwritten(l, symbol, qty, avgPx))
  {
    var kept := l.Held(symbol).realized;
    assert RealizedOf(Overwritten(l, symbol, qty, avgPx).positions) == RealizedOf(l.positions)[symbol := kept];
    SumPut(RealizedOf(l.positions), symbol, kept);
  }

  lemma NewMoney()
    ensures MoneyInv(New().ledger)
  {
    assert RealizedOf(map[]) == map[];
  }

  /** Realized profit is conserved: the two sides of the session boundary hold what the positions do. */
  lemma {:induction false} RealizedIsConserved(es: seq<Event>)
    requires AllSound(es)
    ensures MoneyInv(Run(New(), es).ledger)
  {
    hide MoneyInv, Posted, Overwritten, FilledBook, Acked, UpdatedBook, Retired, Remembered;
    if es == [] {
      NewMoney();
    } else {
      var front, last := es[..|es| - 1], es[|es| - 1];
      RealizedIsConserved(front);
      var s := Run(New(), front);
      match last
      case OnFill(f) => PostedMoney(s.ledger, f, s.sessionStart);
      case AdoptPosition(symbol, qty, avgPx) => OverwrittenMoney(s.ledger, symbol, qty, avgPx);
      case _ =>
    }
  }

  /** Money without the part our own accounting realized. */
  function Reported(m: Money): Money { m.(realized := 0.0) }

  lemma PostedReports(l: Ledger, f: Fill, start: int)
    requires f.qty > 0.0
    ensures var booked := Booked(f, 0.0);
      && Reported(Posted(l, f, start).session)
        == (if f.ts >= start then Reported(l.session).Plus(booked) else Reported(l.session))
      && Reported(Posted(l, f, start).inherited)
        == (if f.ts >= start then Reported(l.inherited) else Reported(l.inherited).Plus(booked))
  {
    hide Traded;
  }

  lemma SideAdds(es: seq<Event>, e: Event, session: bool)
    ensures Boundary(es + [e]) == if e.SetSessionStart? then e.start else Boundary(es)
    ensures SideOf(es + [e], session) ==
      if e.OnFill? && (e.fill.ts >= Boundary(es)) == session then SideOf(es, session).Plus(Booked(e.fill, 0.0))
      else SideOf(es, session)
  {
    hide Booked, Money.Plus;
    assert (es + [e])[..|es|] == es;
  }

  /** The tracker's two sides are those of the events kept. */
  ghost predicate SidesAre(s: State, kept: seq<Event>) {
    && s.sessionStart == Boundary(kept)
    && Reported(s.ledger.session) == SideOf(kept, true)
    && Reported(s.ledger.inherited) == SideOf(kept, false)
  }

  lemma SidesStep(s: State, kept: seq<Event>, e: Event)
    requires e.Sound() && SidesAre(s, kept) && (e.OnFill? ==> IsApplied(s, e))
    ensures SidesAre(Step(s, e), kept + [e])
  {
    hide Posted, FilledBook, Acked, UpdatedBook, Retired, Remembered, Booked, Money.Plus, SideOf, Boundary;
    SideAdds(kept, e, true);
    SideAdds(kept, e, false);
    if e.OnFill? { PostedReports(s.ledger, e.fill, s.sessionStart); }
  }

  lemma {:induction false} SidesAfter(es: seq<Event>)
    requires AllSound(es)
    ensures SidesAre(Run(New(), es), Kept(es))
  {
    hide Step;
    if es != [] {
      hide SidesAre;
      var front, last, s := Unroll(es);
      SidesAfter(front);
      if !(last.OnFill? && !IsApplied(s, last)) { SidesStep(s, Kept(front), last); }
    }
  }

  /** Every applied fill's fee, venue profit and count lands on exactly one side of the boundary, and
      together they are the totals over the trades applied. */
  lemma EveryFillCountsOnce(es: seq<Event>)
    requires AllSound(es)
    ensures var s := Run(New(), es);
      && Reported(s.ledger.session) == SideOf(Kept(es), true)
      && Reported(s.ledger.inherited) == SideOf(Kept(es), false)
      && Reported(s.ledger.session.Plus(s.ledger.inherited)) == AllOf(Kept(es))
    ensures var total := Run(New(), es).ledger.session.Plus(Run(New(), es).ledger.inherited);
      total.makerFills + total.takerFills == |Ids(Kept(es))|
  {
    hide Run, Kept, SideOf, AllOf, Ids;
    SidesAfter(es);
    SidesMakeAll(Kept(es));
    FillsAreCounted(Kept(es));
    var l := Run(New(), es).ledger;
    assert Reported(l.session).Plus(Reported(l.inherited)) == Reported(l.session.Plus(l.inherited));
  }

  function Fees(es: seq<Event>): real {
    if es == [] then 0.0
    else Fees(es[..|es| - 1]) + if es[|es| - 1].OnFill? then es[|es| - 1].fill.fee else 0.0
  }

  function VenueProfit(es: seq<Event>): real {
    if es == [] then 0.0
    else VenueProfit(es[..|es| - 1]) + if es[|es| - 1].OnFill? then es[|es| - 1].fill.closedPnl else 0.0
  }

  function FillsAs(es: seq<Event>, liquidity: Liquidity): nat {
    if es == [] then 0
    else
      var last := es[|es| - 1];
      FillsAs(es[..|es| - 1], liquidity) + if last.OnFill? && last.fill.liquidity == liquidity then 1 else 0
  }

  lemma {:induction false} AllAre(es: seq<Event>)
    ensures var m := AllOf(es);
      && m.fees == Fees(es) && m.venueClosedPnl == VenueProfit(es)
      && m.makerFills == FillsAs(es, Maker) && m.takerFills == FillsAs(es, Taker)
  {
    if es != [] { AllAre(es[..|es| - 1]); }
  }

  /** Figure by figure: the fees reported are the fees of the trades applied, the venue's profit theirs, and
      makers and takers are counted apart. */
  lemma FiguresAreOfTrades(es: seq<Event>)
    requires AllSound(es)
    ensures var total := Run(New(), es).ledger.session.Plus(Run(New(), es).ledger.inherited);
      && total.fees == Fees(Kept(es)) && total.venueClosedPnl == VenueProfit(Kept(es))
      && total.makerFills == FillsAs(Kept(es), Maker) && total.takerFills == FillsAs(Kept(es), Taker)
  {
    hide Run, Kept, SideOf, AllOf;
    EveryFillCountsOnce(es);
    AllAre(Kept(es));
  }

  /** The account snapshots of a run, in order. */
  function Accounts(es: seq<Event>): seq<Drift> {
    if es == [] then []
    else Accounts(es[..|es| - 1]) + if es[|es| - 1].OnAccount? then [es[|es| - 1].snapshot] else []
  }

  /** Drift is measured from the first snapshot to the last. */
  lemma {:induction false} SnapshotsAreEnds(es: seq<Event>)
    requires AllSound(es)
    ensures var s, seen := Run(New(), es), Accounts(es);
      if seen == [] then s.firstSnapshot == None && s.lastSnapshot == None
      else s.firstSnapshot == Some(seen[0]) && s.lastSnapshot == Some(seen[|seen| - 1])
  {
    hide Posted, Overwritten, FilledBook, Acked, UpdatedBook, Retired, Remembered;
    if es != [] { SnapshotsAreEnds(es[..|es| - 1]); }
  }

  // ---------------------------------------------------------------- positions

  /** A symbol's trades, in the order they were applied. */
  function TradesIn(es: seq<Event>, symbol: nat): seq<Trade> {
    if es == [] then []
    else
      var front, last := es[..|es| - 1], es[|es| - 1];
      if last.OnFill? && last.fill.symbol == symbol then
        TradesIn(front, symbol) + [Trade(Signed(last.fill.side, last.fill.qty), last.fill.price)]
      else TradesIn(front, symbol)
  }

  ghost predicate NeverOverwritten(es: seq<Event>) {
    forall i :: 0 <= i < |es| ==> !es[i].AdoptPosition?
  }

  lemma TradesAdd(es: seq<Event>, e: Event, symbol: nat)
    ensures TradesIn(es + [e], symbol) ==
      if e.OnFill? && e.fill.symbol == symbol
        then TradesIn(es, symbol) + [Trade(Signed(e.fill.side, e.fill.qty), e.fill.price)]
      else TradesIn(es, symbol)
  {
    assert (es + [e])[..|es|] == es;
  }

  ghost predicate HeldIs(s: State, trades: seq<Trade>, symbol: nat) {
    s.ledger.Held(symbol) == After(trades)
  }

  lemma HeldAfterTrade(trades: seq<Trade>, t: Trade)
    ensures After(trades + [t]) == Traded(After(trades), t.size, t.px)
  {
    hide Traded;
    assert (trades + [t])[..|trades|] == trades;
  }

  lemma HeldStep(s: State, kept: seq<Event>, e: Event, symbol: nat)
    requires e.Sound() && HeldIs(s, TradesIn(kept, symbol), symbol)
      && (e.OnFill? ==> IsApplied(s, e)) && !e.AdoptPosition?
    ensures HeldIs(Step(s, e), TradesIn(kept + [e], symbol), symbol)
  {
    hide Traded, After, FilledBook, Acked, UpdatedBook, Retired, Remembered, Booked, TradesIn;
    TradesAdd(kept, e, symbol);
    if e.OnFill? && e.fill.symbol == symbol {
      HeldAfterTrade(TradesIn(kept, symbol), Trade(Signed(e.fill.side, e.fill.qty), e.fill.price));
    }
  }

  /** Each position is the average-cost position of the symbol's own trades. */
  lemma {:induction false} PositionsAreTrades(es: seq<Event>, symbol: nat)
    requires AllSound(es) && NeverOverwritten(es)
    ensures HeldIs(Run(New(), es), TradesIn(Kept(es), symbol), symbol)
  {
    hide Step;
    if es != [] {
      hide HeldIs;
      var front, last, s := Unroll(es);
      PositionsAreTrades(front, symbol);
      if !(last.OnFill? && !IsApplied(s, last)) { HeldStep(s, Kept(front), last, symbol); }
    }
  }

  /** After any run, however its fills were replayed and whatever happened to its orders, a symbol's
      realized and unrealized profit is the worth of its trades, at every mark. */
  lemma ProfitOfEverySymbol(es: seq<Event>, symbol: nat, mark: real)
    requires AllSound(es) && NeverOverwritten(es)
    ensures Run(New(), es).ledger.Held(symbol).Profit(mark) == Worth(TradesIn(Kept(es), symbol), mark)
    ensures Run(New(), es).ledger.Held(symbol).qty == NetSize(TradesIn(Kept(es), symbol))
  {
    hide Run, Kept, TradesIn;
    PositionsAreTrades(es, symbol);
    ProfitIsWorth(TradesIn(Kept(es), symbol), mark);
  }
}
