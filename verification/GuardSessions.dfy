/** A tripped session over many calls: batches accepted one after another, and filled or cancelled in any
    order and any part in between. The gate judges each batch by what is held, which an order already
    accepted does not change until it fills.
 */
module GuardSessions {
  import opened Wrappers
  import opened Positions
  import opened Reals
  import opened Tracker
  import opened Risk
  import opened Portfolio
  import opened Guard

  /** `open` is every accepted order, by what is left of it. */
  datatype Session = Session(held: map<nat, real>, open: seq<Request>) {
    function Held(symbol: nat): real {
      if symbol in held then held[symbol] else 0.0
    }
  }

  datatype Step =
    | Submit(w: World, batch: seq<Request>)
    | FillPart(i: nat, amount: real)
    | Cancel(i: nat)

  /** A batch is accepted against the quantities held now, whatever else its world says. */
  ghost predicate Enabled(g: Gate, s: Session, step: Step) {
    match step
    case Submit(w, batch) => w.held == s.held && NonNegative(batch) && EachPasses(g, w, batch)
    case FillPart(i, amount) => i < |s.open| && 0.0 <= amount <= s.open[i].qty
    case Cancel(i) => i < |s.open|
  }

  function Less(open: seq<Request>, i: nat, amount: real): seq<Request>
    requires i < |open|
  {
    open[i := open[i].(qty := open[i].qty - amount)]
  }

  function Do(s: Session, step: Step): Session
    requires step.Submit? || step.i < |s.open|
  {
    match step
    case Submit(_, batch) => s.(open := s.open + batch)
    case FillPart(i, amount) =>
      var o := s.open[i];
      Session(s.held[o.symbol := s.Held(o.symbol) + Signed(o.side, amount)], Less(s.open, i, amount))
    case Cancel(i) => s.(open := Less(s.open, i, s.open[i].qty))
  }

  // ---------------------------------------------------------------- what is promised

  /** Whatever part of the open orders fills. */
  ghost predicate SafeFor(open: seq<Request>, h: real, symbol: nat) {
    forall amounts :: PartOf(open, amounts) ==> Shrinks(h, h + Moved(open, amounts, symbol))
  }

  ghost predicate Safe(s: Session) {
    forall symbol: nat :: SafeFor(s.open, s.Held(symbol), symbol)
  }

  // ---------------------------------------------------------------- what it comes to

  /** The orders' sizes on one symbol, summed. */
  function Total(open: seq<Request>, symbol: nat): real {
    if open == [] then 0.0
    else
      var k := |open| - 1;
      Total(open[..k], symbol) + (if open[k].symbol == symbol then open[k].qty else 0.0)
  }

  /** An order of some size is on the side that takes `h` towards zero. */
  predicate Against(o: Request, h: real) {
    o.qty > 0.0 ==> if o.side == Sell then h > 0.0 else h < 0.0
  }

  ghost predicate AllAgainst(open: seq<Request>, h: real, symbol: nat) {
    forall i :: 0 <= i < |open| && open[i].symbol == symbol ==> Against(open[i], h)
  }

  /** Every open order leans against what is held, and all of them together do not exceed it. */
  ghost predicate Leans(open: seq<Request>, h: real, symbol: nat) {
    AllAgainst(open, h, symbol) && Total(open, symbol) <= Abs(h)
  }

  lemma {:induction false} TotalCovers(open: seq<Request>, symbol: nat, i: nat)
    requires NonNegative(open) && i < |open|
    ensures 0.0 <= Total(open, symbol) && (open[i].symbol == symbol ==> open[i].qty <= Total(open, symbol))
  {
    var k := |open| - 1;
    if i < k {
      TotalCovers(open[..k], symbol, i);
    } else if k > 0 {
      TotalCovers(open[..k], symbol, 0);
    }
  }

  lemma TotalNonNegative(open: seq<Request>, symbol: nat)
    requires NonNegative(open)
    ensures 0.0 <= Total(open, symbol)
  {
    if open != [] { TotalCovers(open, symbol, 0); }
  }

  /** Orders that all lean one way move the position that way, by no more than their total, and by all of
      it when all of them fill. */
  lemma {:induction false} LeaningMoves(open: seq<Request>, amounts: seq<real>, h: real, symbol: nat)
    requires NonNegative(open) && PartOf(open, amounts) && AllAgainst(open, h, symbol)
    ensures h >= 0.0 ==> -Total(open, symbol) <= Moved(open, amounts, symbol) <= 0.0
    ensures h <= 0.0 ==> 0.0 <= Moved(open, amounts, symbol) <= Total(open, symbol)
    ensures amounts == Sizes(open) ==>
      Moved(open, amounts, symbol) == if h > 0.0 then -Total(open, symbol) else Total(open, symbol)
  {
    if open != [] {
      var k := |open| - 1;
      assert forall i :: 0 <= i < k ==> open[..k][i] == open[i];
      SizesFront(open);
      LeaningMoves(open[..k], amounts[..k], h, symbol);
    }
  }

  function Only(n: nat, i: nat, amount: real): seq<real> {
    seq(n, j => if j == i then amount else 0.0)
  }

  lemma {:induction false} MovedByOnly(open: seq<Request>, i: nat, symbol: nat)
    requires i < |open| && open[i].symbol == symbol
    ensures Moved(open, Only(|open|, i, open[i].qty), symbol) == Signed(open[i].side, open[i].qty)
  {
    var k := |open| - 1;
    var amounts := Only(|open|, i, open[i].qty);
    if i < k {
      assert amounts[..k] == Only(k, i, open[..k][i].qty);
      MovedByOnly(open[..k], i, symbol);
    } else {
      MovedByNothing(open[..k], amounts[..k], symbol);
    }
  }

  lemma {:induction false} MovedByNothing(open: seq<Request>, amounts: seq<real>, symbol: nat)
    requires |amounts| == |open| && forall j :: 0 <= j < |amounts| ==> amounts[j] == 0.0
    ensures Moved(open, amounts, symbol) == 0.0
  {
    if open != [] { MovedByNothing(open[..|open| - 1], amounts[..|open| - 1], symbol); }
  }

  lemma SafeLeans(open: seq<Request>, h: real, symbol: nat)
    requires NonNegative(open) && SafeFor(open, h, symbol)
    ensures Leans(open, h, symbol)
  {
    forall i | 0 <= i < |open| && open[i].symbol == symbol
      ensures Against(open[i], h)
    {
      var amounts := Only(|open|, i, open[i].qty);
      assert PartOf(open, amounts);
      MovedByOnly(open, i, symbol);
      assert Shrinks(h, h + Moved(open, amounts, symbol));
    }
    var all := Sizes(open);
    assert PartOf(open, all);
    LeaningMoves(open, all, h, symbol);
    TotalNonNegative(open, symbol);
    assert Shrinks(h, h + Moved(open, all, symbol));
  }

  lemma LeansSafe(open: seq<Request>, h: real, symbol: nat)
    requires NonNegative(open) && Leans(open, h, symbol)
    ensures SafeFor(open, h, symbol)
  {
    hide Moved;
    forall amounts | PartOf(open, amounts)
      ensures Shrinks(h, h + Moved(open, amounts, symbol))
    {
      LeaningMoves(open, amounts, h, symbol);
    }
  }

  /** No part of the open orders can grow or turn a position exactly when they all lean against it and
      together do not exceed it. */
  lemma SafeExactly(open: seq<Request>, h: real, symbol: nat)
    requires NonNegative(open)
    ensures SafeFor(open, h, symbol) <==> Leans(open, h, symbol)
  {
    hide SafeFor, Leans;
    if SafeFor(open, h, symbol) { SafeLeans(open, h, symbol); }
    if Leans(open, h, symbol) { LeansSafe(open, h, symbol); }
  }

  // ---------------------------------------------------------------- one call

  /** With the batch added, no symbol's open orders exceed what is held in it. */
  ghost predicate HasRoom(s: Session, batch: seq<Request>) {
    forall symbol: nat :: Total(s.open, symbol) + Total(batch, symbol) <= Abs(s.Held(symbol))
  }

  lemma {:induction false} TotalAdds(a: seq<Request>, b: seq<Request>, symbol: nat)
    ensures Total(a + b, symbol) == Total(a, symbol) + Total(b, symbol)
    decreases |b|
  {
    if b == [] {
      assert a + b == a;
    } else {
      var k := |b| - 1;
      assert (a + b)[..|a| + k] == a + b[..k] && (a + b)[|a| + k] == b[k];
      TotalAdds(a, b[..k], symbol);
    }
  }

  /** An accepted batch leans against what is held, and alone does not exceed it. */
  lemma AcceptedLeans(g: Gate, w: World, batch: seq<Request>, symbol: nat)
    requires g.tripped && NonNegative(batch) && EachPasses(g, w, batch)
    ensures Leans(batch, w.Held(symbol), symbol)
  {
    hide EachPasses;
    assert SafeFor(batch, w.Held(symbol), symbol) by {
      hide Moved;
      forall amounts | PartOf(batch, amounts)
        ensures Shrinks(w.Held(symbol), w.Held(symbol) + Moved(batch, amounts, symbol))
      {
        TrippedBatchOnlyReduces(g, w, batch, amounts, symbol);
      }
    }
    SafeLeans(batch, w.Held(symbol), symbol);
  }

  lemma LeansTogether(open: seq<Request>, batch: seq<Request>, h: real, symbol: nat)
    requires Leans(open, h, symbol) && AllAgainst(batch, h, symbol)
    ensures Leans(open + batch, h, symbol) <==> Total(open, symbol) + Total(batch, symbol) <= Abs(h)
  {
    TotalAdds(open, batch, symbol);
    var both := open + batch;
    assert forall i :: 0 <= i < |both| ==> both[i] == if i < |open| then open[i] else batch[i - |open|];
  }

  /** Accepting a batch keeps a tripped session safe exactly when there was room for it beside the orders
      still open. */
  lemma SubmitSafeExactly(g: Gate, s: Session, w: World, batch: seq<Request>)
    requires g.tripped && NonNegative(s.open) && Safe(s) && Enabled(g, s, Submit(w, batch))
    ensures Safe(Do(s, Submit(w, batch))) <==> HasRoom(s, batch)
  {
    hide SafeFor, Leans, EachPasses, Total;
    var after := Do(s, Submit(w, batch));
    forall symbol: nat
      ensures SafeFor(after.open, after.Held(symbol), symbol)
          <==> Total(s.open, symbol) + Total(batch, symbol) <= Abs(s.Held(symbol))
    {
      RoomForSymbol(g, s, w, batch, symbol);
    }
  }

  lemma RoomForSymbol(g: Gate, s: Session, w: World, batch: seq<Request>, symbol: nat)
    requires g.tripped && NonNegative(s.open) && Safe(s) && Enabled(g, s, Submit(w, batch))
    ensures SafeFor(s.open + batch, s.Held(symbol), symbol)
        <==> Total(s.open, symbol) + Total(batch, symbol) <= Abs(s.Held(symbol))
  {
    hide SafeFor, EachPasses, Total;
    var h := s.Held(symbol);
    assert w.Held(symbol) == h;
    SafeExactly(s.open, h, symbol);
    AcceptedLeans(g, w, batch, symbol);
    LeansTogether(s.open, batch, h, symbol);
    SafeExactly(s.open + batch, h, symbol);
  }

  /** There is room for whatever the gate accepts when nothing is open in the batch's symbols. */
  lemma RoomWhenNothingOpen(g: Gate, s: Session, w: World, batch: seq<Request>)
    requires g.tripped && NonNegative(s.open) && Safe(s) && Enabled(g, s, Submit(w, batch))
    requires forall i :: 0 <= i < |batch| ==> Total(s.open, batch[i].symbol) == 0.0
    ensures HasRoom(s, batch)
  {
    hide SafeFor, EachPasses;
    forall symbol: nat
      ensures Total(s.open, symbol) + Total(batch, symbol) <= Abs(s.Held(symbol))
    {
      assert w.Held(symbol) == s.Held(symbol);
      AcceptedLeans(g, w, batch, symbol);
      SafeExactly(s.open, s.Held(symbol), symbol);
      if forall i :: 0 <= i < |batch| ==> batch[i].symbol != symbol { TotalElsewhere(batch, symbol); }
    }
  }

  lemma {:induction false} TotalElsewhere(batch: seq<Request>, symbol: nat)
    requires forall i :: 0 <= i < |batch| ==> batch[i].symbol != symbol
    ensures Total(batch, symbol) == 0.0
  {
    if batch != [] { TotalElsewhere(batch[..|batch| - 1], symbol); }
  }

  // ---------------------------------------------------------------- fills and cancels

  lemma {:induction false} TotalLess(open: seq<Request>, i: nat, amount: real, symbol: nat)
    requires i < |open|
    ensures Total(Less(open, i, amount), symbol) ==
      Total(open, symbol) - (if open[i].symbol == symbol then amount else 0.0)
  {
    var k := |open| - 1;
    var less := Less(open, i, amount);
    if i < k {
      assert less[..k] == Less(open[..k], i, amount);
      TotalLess(open[..k], i, amount, symbol);
    } else {
      assert less[..k] == open[..k];
    }
  }

  lemma LessLeans(open: seq<Request>, h: real, i: nat, amount: real, filled: bool, symbol: nat)
    requires NonNegative(open) && i < |open| && 0.0 <= amount <= open[i].qty && Leans(open, h, symbol)
    ensures var after := if filled && open[i].symbol == symbol then h + Signed(open[i].side, amount) else h;
      NonNegative(Less(open, i, amount)) && Leans(Less(open, i, amount), after, symbol)
  {
    hide Total;
    var less := Less(open, i, amount);
    var after := if filled && open[i].symbol == symbol then h + Signed(open[i].side, amount) else h;
    TotalLess(open, i, amount, symbol);
    TotalCovers(open, symbol, i);
    forall j | 0 <= j < |less| && less[j].symbol == symbol
      ensures Against(less[j], after)
    {
      TotalCovers(less, symbol, j);
      assert Against(open[j], h);
    }
  }

  /** Fills, in any order and any part, and cancels keep a session safe. */
  lemma FillsKeepSafe(g: Gate, s: Session, step: Step)
    requires NonNegative(s.open) && Safe(s) && Enabled(g, s, step) && !step.Submit?
    ensures NonNegative(Do(s, step).open) && Safe(Do(s, step))
  {
    hide SafeFor, Leans;
    var i := step.i;
    var amount := if step.FillPart? then step.amount else s.open[i].qty;
    forall symbol: nat
      ensures NonNegative(Do(s, step).open) && SafeFor(Do(s, step).open, Do(s, step).Held(symbol), symbol)
    {
      SafeExactly(s.open, s.Held(symbol), symbol);
      LessLeans(s.open, s.Held(symbol), i, amount, step.FillPart?, symbol);
      SafeExactly(Less(s.open, i, amount), Do(s, step).Held(symbol), symbol);
    }
  }

  // ---------------------------------------------------------------- whole sessions

  /** A session from the moment its gate trips, with whatever is open then. */
  ghost predicate Reaches(g: Gate, start: Session, steps: seq<Step>, states: seq<Session>) {
    && |states| == |steps| + 1 && states[0] == start && NonNegative(start.open)
    && forall k :: 0 <= k < |steps| ==> Enabled(g, states[k], steps[k]) && states[k + 1] == Do(states[k], steps[k])
  }

  ghost predicate RoomAt(steps: seq<Step>, states: seq<Session>, k: nat)
    requires k < |steps| && |states| == |steps| + 1
  {
    steps[k].Submit? ==> HasRoom(states[k], steps[k].batch)
  }

  lemma {:induction false} OpenNonNegative(g: Gate, start: Session, steps: seq<Step>, states: seq<Session>,
                                           k: nat)
    requires Reaches(g, start, steps, states) && k <= |steps|
    ensures NonNegative(states[k].open)
  {
    hide EachPasses;
    if k > 0 {
      OpenNonNegative(g, start, steps, states, k - 1);
      assert Enabled(g, states[k - 1], steps[k - 1]) && states[k] == Do(states[k - 1], steps[k - 1]);
    }
  }

  /** What a caller can look up when the gate trips: on every symbol the open orders lean against what is
      held and do not exceed it. */
  ghost predicate StartsLeaning(start: Session) {
    forall symbol: nat :: Leans(start.open, start.Held(symbol), symbol)
  }

  lemma StartSafeExactly(start: Session)
    requires NonNegative(start.open)
    ensures Safe(start) <==> StartsLeaning(start)
  {
    hide SafeFor, Leans;
    forall symbol: nat
      ensures SafeFor(start.open, start.Held(symbol), symbol) <==> Leans(start.open, start.Held(symbol), symbol)
    {
      SafeExactly(start.open, start.Held(symbol), symbol);
    }
  }

  lemma NothingOpenIsSafe(held: map<nat, real>)
    ensures Safe(Session(held, []))
  {
  }

  lemma StepSafe(g: Gate, start: Session, steps: seq<Step>, states: seq<Session>, k: nat)
    requires g.tripped && Reaches(g, start, steps, states) && k < |steps| && Safe(states[k])
    ensures Safe(states[k + 1]) <==> RoomAt(steps, states, k)
  {
    hide Safe, HasRoom, Do, EachPasses;
    OpenNonNegative(g, start, steps, states, k);
    assert Enabled(g, states[k], steps[k]) && states[k + 1] == Do(states[k], steps[k]);
    match steps[k]
    case Submit(w, batch) => SubmitSafeExactly(g, states[k], w, batch);
    case _ => FillsKeepSafe(g, states[k], steps[k]);
  }

  lemma {:induction false} SafeUpTo(g: Gate, start: Session, steps: seq<Step>, states: seq<Session>, n: nat)
    requires g.tripped && Reaches(g, start, steps, states) && n <= |steps|
    ensures (forall k :: 0 <= k <= n ==> Safe(states[k])) <==>
      Safe(start) && forall k :: 0 <= k < n ==> RoomAt(steps, states, k)
  {
    hide Safe, RoomAt, Enabled, Do;
    if n > 0 {
      SafeUpTo(g, start, steps, states, n - 1);
      if Safe(states[n - 1]) { StepSafe(g, start, steps, states, n - 1); }
    }
  }

  /** Over every sequence of accepted batches, fills and cancels after a gate trips: at no point can the
      open orders grow or turn a position, exactly when those open at the start lean against what is held
      without exceeding it, and each batch was accepted with room for it beside those still open. */
  lemma TrippedSessionSafeExactly(g: Gate, start: Session, steps: seq<Step>, states: seq<Session>)
    requires g.tripped && Reaches(g, start, steps, states)
    ensures (forall k :: 0 <= k < |states| ==> Safe(states[k])) <==>
      StartsLeaning(start) && forall k :: 0 <= k < |steps| ==> RoomAt(steps, states, k)
  {
    hide Safe, RoomAt, Enabled, Do, StartsLeaning;
    StartSafeExactly(start);
    SafeUpTo(g, start, steps, states, |steps|);
  }

  /** Long one in symbol 1, tripped, and no other bound in the way. */
  function Permissive(): Gate { Gate(true, 10, PortfolioLimits(0.0, 0.0, 0), RiskLimits(10.0, 10_000.0, 10.0)) }

  function LongOne(): World { World(map[], map[1 := 1.0], None, map[1 := 100.0]) }

  function SellOne(): Request { Request(1, Sell, 1.0, Some(100.0), Gtc, false) }

  lemma SellPasses()
    ensures NonNegative([SellOne()]) && EachPasses(Permissive(), LongOne(), [SellOne()])
  {
    var batch := [SellOne()];
    assert batch[..0] == [];
    assert Verdict(Permissive(), LongOne(), SellOne()) == None;
  }

  lemma {:induction false} OneSells(open: seq<Request>, symbol: nat)
    requires forall i :: 0 <= i < |open| ==> open[i] == SellOne()
    ensures Total(open, symbol) == if symbol == 1 then |open| as real else 0.0
  {
    if open != [] { OneSells(open[..|open| - 1], symbol); }
  }

  /** The gate itself does not see to that: long one, it accepts a sell of one twice. */
  lemma TwoCallsMayFlip()
    ensures
      var submit := Submit(LongOne(), [SellOne()]);
      var held := map[1 := 1.0];
      var states := [Session(held, []), Session(held, [SellOne()]), Session(held, [SellOne(), SellOne()])];
      Reaches(Permissive(), states[0], [submit, submit], states) && Safe(states[1]) && !Safe(states[2])
  {
    hide Safe, EachPasses, Permissive, SellOne, Total;
    var submit := Submit(LongOne(), [SellOne()]);
    var held := map[1 := 1.0];
    var none, one := Session(held, []), Session(held, [SellOne()]);
    SellPasses();
    assert Do(none, submit) == one && Do(one, submit) == Session(held, [SellOne(), SellOne()]);
    NothingOpenIsSafe(held);
    RoomForOneSell(held);
    IsTripped();
    SubmitSafeExactly(Permissive(), none, LongOne(), [SellOne()]);
    SubmitSafeExactly(Permissive(), one, LongOne(), [SellOne()]);
  }

  lemma IsTripped()
    ensures Permissive().tripped
  {
  }

  lemma RoomForOneSell(held: map<nat, real>)
    requires held == map[1 := 1.0]
    ensures HasRoom(Session(held, []), [SellOne()]) && !HasRoom(Session(held, [SellOne()]), [SellOne()])
  {
    hide Total, SellOne;
    forall symbol: nat
      ensures Total([], symbol) == 0.0 && Total([SellOne()], symbol) == if symbol == 1 then 1.0 else 0.0
    {
      OneSells([], symbol);
      OneSells([SellOne()], symbol);
    }
    var one := Session(held, [SellOne()]);
    assert Total(one.open, 1) + Total([SellOne()], 1) == 2.0 && one.Held(1) == 1.0;
  }
}
