/** The bounds on one instrument, and the rule for what takes exposure off. */
module Risk {
  import opened Wrappers
  import opened Positions
  import opened Reals
  import opened Tracker

  // ---------------------------------------------------------------- reducing

  /** Whether an order strictly takes exposure off `position`. */
  predicate ReducesExposure(side: Side, qty: real, position: real) {
    if position == 0.0 then false
    else
      var projected := position + Signed(side, qty);
      projected == 0.0 || ((projected > 0.0) == (position > 0.0) && Abs(projected) < Abs(position))
  }

  /** For a magnitude: some size, on the opposite side, and no larger than what is held. */
  lemma ReducesExactly(side: Side, qty: real, position: real)
    requires qty >= 0.0
    ensures ReducesExposure(side, qty, position) <==>
      (if side == Sell then position > 0.0 else position < 0.0) && 0.0 < qty <= Abs(position)
  {
  }

  /** The position neither grows nor changes sign. */
  predicate Shrinks(before: real, after: real) {
    Abs(after) <= Abs(before) && (after == 0.0 || (after > 0.0) == (before > 0.0))
  }

  // ---------------------------------------------------------------- the engine

  datatype RiskLimits = RiskLimits(maxPosition: real, maxNotional: real, maxOrderQty: real)

  datatype RiskReject = OrderTooLarge | PositionLimit | NotionalLimit | ReduceOnlyViolation

  /** Check an order against a position at a price. */
  function RiskCheck(limits: RiskLimits, req: Request, position: Holding, mark: real): Option<RiskReject> {
    var signed := Signed(req.side, req.qty);
    var projectedSigned := position.qty + signed;
    var projected := Abs(projectedSigned);
    if req.qty > limits.maxOrderQty then Some(OrderTooLarge)
    else if req.reduceOnly then
      var flips := position.qty != 0.0 && projectedSigned != 0.0 && (projectedSigned > 0.0) != (position.qty > 0.0);
      if projected > Abs(position.qty) || flips then Some(ReduceOnlyViolation) else None
    else if projected > limits.maxPosition then Some(PositionLimit)
    else if Times(projected, mark) > limits.maxNotional then Some(NotionalLimit)
    else None
  }

  /** What a cleared order leaves, filled in full: a reduce-only one a position that neither grew nor
      turned, any other one within both caps; and no order is larger than the largest. */
  lemma ClearsExactly(limits: RiskLimits, req: Request, position: Holding, mark: real)
    ensures var after := position.qty + Signed(req.side, req.qty);
      RiskCheck(limits, req, position, mark) == None <==>
        && req.qty <= limits.maxOrderQty
        && (if req.reduceOnly then Shrinks(position.qty, after)
            else Abs(after) <= limits.maxPosition && Times(Abs(after), mark) <= limits.maxNotional)
  {
    hide Times;
  }

  /** Whatever an order clears, a cap that holds before holds after. */
  lemma ClearedKeepsCaps(limits: RiskLimits, req: Request, position: Holding, mark: real)
    requires RiskCheck(limits, req, position, mark) == None && mark >= 0.0
    ensures var after := position.qty + Signed(req.side, req.qty);
      && Abs(after) <= Max(limits.maxPosition, Abs(position.qty))
      && Times(Abs(after), mark) <= Max(limits.maxNotional, Times(Abs(position.qty), mark))
  {
    hide RiskCheck, Times;
    ClearsExactly(limits, req, position, mark);
    var after := position.qty + Signed(req.side, req.qty);
    if req.reduceOnly { NoHeavier(Abs(after), Abs(position.qty), mark); }
  }

  lemma NoHeavier(a: real, b: real, m: real)
    requires 0.0 <= a <= b && m >= 0.0
    ensures 0.0 <= Times(a, m) <= Times(b, m)
  {
  }
}
