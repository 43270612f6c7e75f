/** The bounds on the set of positions: gross and net notional, and how many instruments are open. */
module Portfolio {
  import opened Wrappers
  import opened Positions
  import opened Reals
  import opened Tracker
  import opened Risk

  // ---------------------------------------------------------------- the book of every instrument

  datatype Leg = Leg(symbol: nat, qty: real, mark: Option<real>)

  /** The projected exposure of each instrument, one leg a symbol. */
  type Exposure = seq<Leg>

  function LegOf(legs: Exposure, symbol: nat): (i: Option<nat>)
    ensures i.Some? ==> i.value < |legs| && legs[i.value].symbol == symbol
    ensures i.None? ==> forall j :: 0 <= j < |legs| ==> legs[j].symbol != symbol
  {
    if legs == [] then None
    else if legs[0].symbol == symbol then Some(0)
    else
      match LegOf(legs[1..], symbol)
      case None => None
      case Some(i) => Some(i + 1)
  }

  function LegQty(legs: Exposure, symbol: nat): real {
    match LegOf(legs, symbol)
    case None => 0.0
    case Some(i) => legs[i].qty
  }

  /** Carry an assumed full fill into the book. */
  function Carried(legs: Exposure, symbol: nat, signed: real, mark: Option<real>): Exposure {
    match LegOf(legs, symbol)
    case None => legs + [Leg(symbol, signed, mark)]
    case Some(i) =>
      legs[i := Leg(symbol, legs[i].qty + signed, if legs[i].mark == None then mark else legs[i].mark)]
  }

  lemma {:induction false} LegAppended(legs: Exposure, leg: Leg, symbol: nat)
    ensures LegOf(legs + [leg], symbol) ==
      if LegOf(legs, symbol).Some? then LegOf(legs, symbol) else if leg.symbol == symbol then Some(|legs|) else None
  {
    if legs == [] {
      assert legs + [leg] == [leg] && [leg][1..] == [];
      assert LegOf([], symbol) == None;
    } else {
      assert (legs + [leg])[1..] == legs[1..] + [leg];
      LegAppended(legs[1..], leg, symbol);
    }
  }

  lemma {:induction false} LegReplaced(legs: Exposure, k: nat, leg: Leg, symbol: nat)
    requires k < |legs| && leg.symbol == legs[k].symbol
    ensures LegOf(legs[k := leg], symbol) == LegOf(legs, symbol)
  {
    if k == 0 {
      assert legs[k := leg][1..] == legs[1..];
    } else {
      assert legs[k := leg][1..] == legs[1..][k - 1 := leg];
      LegReplaced(legs[1..], k - 1, leg, symbol);
    }
  }

  /** Carrying an order forward changes its own instrument by its signed size, and no other. */
  lemma CarriedQty(legs: Exposure, symbol: nat, signed: real, mark: Option<real>, other: nat)
    ensures LegQty(Carried(legs, symbol, signed, mark), other) ==
      LegQty(legs, other) + if other == symbol then signed else 0.0
  {
    match LegOf(legs, symbol)
    case None => LegAppended(legs, Leg(symbol, signed, mark), other);
    case Some(i) => LegReplaced(legs, i, Carried(legs, symbol, signed, mark)[i], other);
  }

  // ---------------------------------------------------------------- what the book comes to

  /** A leg's part of a total, `size` being what is measured of it; a flat one needs no price. */
  function Priced(leg: Leg, size: real): Option<real> {
    if leg.qty == 0.0 then Some(0.0) else if leg.mark.None? then None else Some(Times(size, leg.mark.value))
  }

  function Plus(a: Option<real>, b: Option<real>): Option<real> {
    if a.None? || b.None? then None else Some(a.value + b.value)
  }

  /** Magnitudes at their marks, summed; nothing when a leg that is not flat has no mark. */
  function Gross(legs: Exposure): Option<real> {
    if legs == [] then Some(0.0)
    else
      var leg := legs[|legs| - 1];
      Plus(Gross(legs[..|legs| - 1]), Priced(leg, Abs(leg.qty)))
  }

  /** Signed quantities at their marks, summed, under the same rule. */
  function Signeds(legs: Exposure): Option<real> {
    if legs == [] then Some(0.0)
    else
      var leg := legs[|legs| - 1];
      Plus(Signeds(legs[..|legs| - 1]), Priced(leg, leg.qty))
  }

  function Net(legs: Exposure): Option<real> {
    match Signeds(legs)
    case None => None
    case Some(total) => Some(Abs(total))
  }

  /** How many instruments carry a position. */
  function Open(legs: Exposure): nat {
    if legs == [] then 0 else Open(legs[..|legs| - 1]) + if legs[|legs| - 1].qty == 0.0 then 0 else 1
  }

  method SumGross(legs: Exposure) returns (total: Option<real>)
    ensures total == Gross(legs)
  {
    hide Abs;
    var sum := 0.0;
    assert legs[..0] == [];
    for i := 0 to |legs|
      invariant Gross(legs[..i]) == Some(sum)
    {
      assert legs[..i + 1][..i] == legs[..i];
      var leg := legs[i];
      if leg.qty == 0.0 { continue; }
      if leg.mark == None {
        UnpricedStays(legs, i + 1);
        return None;
      }
      sum := sum + Times(Abs(leg.qty), leg.mark.value);
    }
    assert legs[..|legs|] == legs;
    total := Some(sum);
  }

  method SumNet(legs: Exposure) returns (total: Option<real>)
    ensures total == Net(legs)
  {
    var sum := 0.0;
    assert legs[..0] == [];
    for i := 0 to |legs|
      invariant Signeds(legs[..i]) == Some(sum)
    {
      assert legs[..i + 1][..i] == legs[..i];
      var leg := legs[i];
      if leg.qty == 0.0 { continue; }
      if leg.mark == None {
        UnpricedStays(legs, i + 1);
        return None;
      }
      sum := sum + Times(leg.qty, leg.mark.value);
    }
    assert legs[..|legs|] == legs;
    total := Some(Abs(sum));
  }

  method CountOpen(legs: Exposure) returns (n: nat)
    ensures n == Open(legs)
  {
    n := 0;
    assert legs[..0] == [];
    for i := 0 to |legs|
      invariant n == Open(legs[..i])
    {
      assert legs[..i + 1][..i] == legs[..i];
      if legs[i].qty != 0.0 { n := n + 1; }
    }
    assert legs[..|legs|] == legs;
  }

  lemma {:induction false} UnpricedStays(legs: Exposure, k: nat)
    requires k <= |legs|
    ensures Gross(legs[..k]) == None ==> Gross(legs) == None
    ensures Signeds(legs[..k]) == None ==> Signeds(legs) == None
    decreases |legs|
  {
    if k < |legs| {
      assert legs[..|legs| - 1][..k] == legs[..k];
      UnpricedStays(legs[..|legs| - 1], k);
    } else {
      assert legs[..k] == legs;
    }
  }

  /** A total is there exactly when every leg that is not flat is priced. */
  lemma {:induction false} PricedExactly(legs: Exposure)
    ensures Gross(legs).Some? <==> forall i :: 0 <= i < |legs| && legs[i].qty != 0.0 ==> legs[i].mark.Some?
    ensures Signeds(legs).Some? <==> Gross(legs).Some?
  {
    if legs != [] {
      var front := legs[..|legs| - 1];
      PricedExactly(front);
      assert forall i :: 0 <= i < |front| ==> front[i] == legs[i];
    }
  }

  predicate MarksNonNegative(legs: Exposure) {
    forall i :: 0 <= i < |legs| && legs[i].mark.Some? ==> legs[i].mark.value >= 0.0
  }

  /** The net of a book is never above its gross, so a net bound above the gross one cannot bind. */
  lemma {:induction false} NetWithinGross(legs: Exposure)
    requires MarksNonNegative(legs)
    ensures Net(legs).Some? <==> Gross(legs).Some?
    ensures Net(legs).Some? ==> 0.0 <= Net(legs).value <= Gross(legs).value
  {
    hide Times;
    if legs != [] {
      var front, leg := legs[..|legs| - 1], legs[|legs| - 1];
      assert forall i :: 0 <= i < |front| ==> front[i] == legs[i];
      NetWithinGross(front);
      if leg.mark.Some? { Weighed(leg.qty, leg.mark.value); }
    }
  }

  lemma Weighed(q: real, m: real)
    requires m >= 0.0
    ensures Times(Abs(q), m) == Abs(Times(q, m))
  {
  }

  // ---------------------------------------------------------------- the engine

  datatype PortfolioLimits = PortfolioLimits(maxGross: real, maxNet: real, maxSymbols: nat) {
    predicate Declared() {
      maxGross > 0.0 || maxNet > 0.0 || maxSymbols > 0
    }
  }

  datatype PortfolioReject = SymbolCount | Unpriced(symbol: nat) | GrossNotional | NetNotional | Unreadable

  /** The first open leg without a price. */
  function FirstUnpriced(legs: Exposure): PortfolioReject {
    if legs == [] then Unreadable
    else if legs[0].qty != 0.0 && legs[0].mark == None then Unpriced(legs[0].symbol)
    else FirstUnpriced(legs[1..])
  }

  /** A total against its bound; a bound that is not above zero is none. */
  function Bounded(total: Option<real>, max: real, legs: Exposure, reason: PortfolioReject): Option<PortfolioReject> {
    if max <= 0.0 then None
    else if total.None? then Some(FirstUnpriced(legs))
    else if total.value > max then Some(reason)
    else None
  }

  /** Check an order against the book as it stands before it. An order that reduces what is held is never
      refused. */
  function PortfolioCheck(limits: PortfolioLimits, req: Request, before: Exposure, held: real,
                          mark: Option<real>): Option<PortfolioReject> {
    if !limits.Declared() || ReducesExposure(req.side, req.qty, held) then None
    else if limits.maxSymbols > 0 && LegQty(before, req.symbol) == 0.0 && req.qty != 0.0
            && Open(before) >= limits.maxSymbols then Some(SymbolCount)
    else if limits.maxGross == 0.0 && limits.maxNet == 0.0 then None
    else
      var after := Carried(before, req.symbol, Signed(req.side, req.qty), mark);
      match Bounded(Gross(after), limits.maxGross, after, GrossNotional)
      case Some(reason) => Some(reason)
      case None => Bounded(Net(after), limits.maxNet, after, NetNotional)
  }

  /** A book inside the two notional bounds: each that is declared can be computed and is not passed. */
  predicate Within(limits: PortfolioLimits, legs: Exposure) {
    && (limits.maxGross > 0.0 ==> Gross(legs).Some? && Gross(legs).value <= limits.maxGross)
    && (limits.maxNet > 0.0 ==> Net(legs).Some? && Net(legs).value <= limits.maxNet)
  }

  /** An order that does not reduce is admitted exactly when it leaves the book within its bounds and opens
      no instrument past the last one allowed. */
  lemma AdmitsExactly(limits: PortfolioLimits, req: Request, before: Exposure, held: real, mark: Option<real>)
    requires !ReducesExposure(req.side, req.qty, held)
    ensures PortfolioCheck(limits, req, before, held, mark) == None <==>
      && Within(limits, Carried(before, req.symbol, Signed(req.side, req.qty), mark))
      && (limits.maxSymbols > 0 && LegQty(before, req.symbol) == 0.0 && req.qty != 0.0 ==>
            Open(before) < limits.maxSymbols)
  {
    hide Gross, Net, Carried, Open, ReducesExposure;
  }

  /** A refusal for want of a price names an open leg that has none. */
  lemma {:induction false} UnpricedIsNamed(legs: Exposure)
    requires Gross(legs) == None
    ensures exists i :: 0 <= i < |legs| && legs[i].qty != 0.0 && legs[i].mark == None
                        && FirstUnpriced(legs) == Unpriced(legs[i].symbol)
    decreases |legs|
  {
    PricedExactly(legs);
    if !(legs[0].qty != 0.0 && legs[0].mark == None) {
      PricedExactly(legs[1..]);
      assert forall i :: 1 <= i < |legs| ==> legs[i] == legs[1..][i - 1];
      UnpricedIsNamed(legs[1..]);
      var i :| 0 <= i < |legs[1..]| && legs[1..][i].qty != 0.0 && legs[1..][i].mark == None
        && FirstUnpriced(legs[1..]) == Unpriced(legs[1..][i].symbol);
      assert legs[i + 1] == legs[1..][i];
    }
  }

  // ---------------------------------------------------------------- one order further

  /** What one leg is worth in the gross. */
  function Worth(leg: Leg): Option<real> {
    Priced(leg, Abs(leg.qty))
  }

  lemma {:induction false} GrossReplaced(legs: Exposure, k: nat, leg: Leg)
    requires k < |legs| && Gross(legs).Some? && Worth(leg).Some?
    ensures Worth(legs[k]).Some? && Gross(legs[k := leg]).Some?
    ensures Gross(legs[k := leg]).value == Gross(legs).value - Worth(legs[k]).value + Worth(leg).value
  {
    hide Priced;
    var n := |legs| - 1;
    var after := legs[k := leg];
    if k < n {
      GrossReplaced(legs[..n], k, leg);
      assert after[..n] == legs[..n][k := leg] && after[n] == legs[n];
    } else {
      assert after[..n] == legs[..n];
    }
  }

  lemma {:induction false} OpenReplaced(legs: Exposure, k: nat, leg: Leg)
    requires k < |legs|
    ensures Open(legs[k := leg])
         == Open(legs) - (if legs[k].qty == 0.0 then 0 else 1) + (if leg.qty == 0.0 then 0 else 1)
  {
    var n := |legs| - 1;
    var after := legs[k := leg];
    if k < n {
      OpenReplaced(legs[..n], k, leg);
      assert after[..n] == legs[..n][k := leg] && after[n] == legs[n];
    } else {
      assert after[..n] == legs[..n];
    }
  }

  /** An order that takes size off its own leg adds neither notional nor an instrument. */
  lemma ReducingAddsNothing(legs: Exposure, symbol: nat, signed: real, mark: Option<real>)
    requires MarksNonNegative(legs) && Gross(legs).Some? && LegQty(legs, symbol) != 0.0
    requires Abs(LegQty(legs, symbol) + signed) <= Abs(LegQty(legs, symbol))
    ensures var after := Carried(legs, symbol, signed, mark);
      && MarksNonNegative(after) && Gross(after).Some? && Gross(after).value <= Gross(legs).value
      && Open(after) <= Open(legs)
  {
    hide Gross, Times;
    var i := LegOf(legs, symbol).value;
    PricedExactly(legs);
    var leg := Leg(symbol, legs[i].qty + signed, legs[i].mark);
    NoHeavier(Abs(leg.qty), Abs(legs[i].qty), legs[i].mark.value);
    GrossReplaced(legs, i, leg);
    OpenReplaced(legs, i, leg);
  }

  /** At most one instrument opens, and only from flat. */
  lemma OpensOne(legs: Exposure, symbol: nat, signed: real, mark: Option<real>)
    ensures Open(Carried(legs, symbol, signed, mark)) <= Open(legs) +
      if LegQty(legs, symbol) == 0.0 && signed != 0.0 then 1 else 0
  {
    var after := Carried(legs, symbol, signed, mark);
    match LegOf(legs, symbol)
    case None => assert after[..|legs|] == legs;
    case Some(i) => OpenReplaced(legs, i, after[i]);
  }

  /** Reducing can widen the net all the same: long 100 and short 40 nets to 60, and buying back 30 of the
      short leaves 90, past a bound of 70. */
  lemma ReducingMayWidenNet()
    ensures
      var legs := [Leg(1, 100.0, Some(1.0)), Leg(2, -40.0, Some(1.0))];
      var limits := PortfolioLimits(0.0, 70.0, 0);
      var req := Request(2, Buy, 30.0, None, Gtc, false);
      && PortfolioCheck(limits, req, legs, -40.0, Some(1.0)) == None
      && Net(legs) == Some(60.0) && Net(Carried(legs, 2, 30.0, Some(1.0))) == Some(90.0)
  {
    var a := Leg(1, 100.0, Some(1.0));
    TwoLegs(a, Leg(2, -40.0, Some(1.0)));
    TwoLegs(a, Leg(2, -10.0, Some(1.0)));
    var legs := [a, Leg(2, -40.0, Some(1.0))];
    assert legs[1..] == [Leg(2, -40.0, Some(1.0))];
    assert LegOf(legs, 2) == Some(1);
    assert Carried(legs, 2, 30.0, Some(1.0)) == [a, Leg(2, -10.0, Some(1.0))];
  }

  lemma TwoLegs(a: Leg, b: Leg)
    requires a.qty != 0.0 && a.mark == Some(1.0) && b.qty != 0.0 && b.mark == Some(1.0)
    ensures Signeds([a, b]) == Some(a.qty + b.qty)
  {
    assert [a, b][..1] == [a] && [a][..0] == [];
    assert Signeds([a]) == Some(0.0 + Times(a.qty, 1.0));
  }
}
