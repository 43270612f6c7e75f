/** What finishes an order, and which frame its size, price and status are taken from, whatever order the
    frames arrive in and however they are stamped.
 */
module TrackerEndings {
  import opened Wrappers
  import opened Tracker
  import opened TrackerOrders

  // ---------------------------------------------------------------- what one event does to one order

  /** The event is an update of the tracked order `c`. */
  predicate UpdateOf(s: State, e: Event, c: nat) {
    e.OnUpdate? && Find(s.book, e.update.cloid, e.update.orderId) == Some(c)
  }

  /** The event is a fill of the tracked order `c` that has not been applied before. */
  predicate FillFor(s: State, e: Event, c: nat) {
    e.OnFill? && e.fill.tradeId !in s.window.seen && Find(s.book, e.fill.cloid, e.fill.orderId) == Some(c)
  }

  /** A live order is finished by an event exactly when the event is for it and either reports a terminal
      status or brings its filled quantity up to its size. When the event is stamped does not matter. */
  lemma FinishedExactly(s: State, e: Event, c: nat)
    requires c in s.book.orders && s.book.orders[c].Live() && Leaves(s, e, c)
    ensures c in Step(s, e).book.orders
    ensures var after := Step(s, e).book.orders[c];
      !after.Live() <==>
        || (UpdateOf(s, e, c) && (e.update.status.IsTerminal() || after.filledQty >= after.origQty))
        || (FillFor(s, e, c) && after.filledQty >= after.origQty)
  {
    hide Posted, Remembered, Advances;
    match e
    case OnFill(f) =>
      if FilledBook(s.book, f).None? { Orphan(s.book, f); }
    case _ =>
  }

  /** What has been filled: a fill adds its own quantity, and an update raises it to the venue's figure. */
  lemma FilledBy(s: State, e: Event, c: nat)
    requires c in s.book.orders && s.book.orders[c].Live() && Leaves(s, e, c)
    ensures c in Step(s, e).book.orders
    ensures var before, after := s.book.orders[c].filledQty, Step(s, e).book.orders[c].filledQty;
      && (FillFor(s, e, c) ==> after == before + e.fill.qty)
      && (UpdateOf(s, e, c) ==> after >= before && after >= e.update.VenueFilled()
                                && (after == before || after == e.update.VenueFilled()))
      && (!FillFor(s, e, c) && !UpdateOf(s, e, c) ==> after == before)
  {
    hide Posted, Remembered, Advances, Update.VenueFilled;
    match e
    case OnFill(f) =>
      if FilledBook(s.book, f).None? { Orphan(s.book, f); }
    case _ =>
  }

  // ---------------------------------------------------------------- over runs

  lemma UndisturbedFront(s: State, es: seq<Event>, c: nat, k: nat)
    requires AllSound(es) && Undisturbed(s, es, c) && k <= |es|
    ensures Undisturbed(s, es[..k], c)
    decreases |es|
  {
    if k < |es| {
      assert es[..|es| - 1][..k] == es[..k];
      UndisturbedFront(s, es[..|es| - 1], c, k);
    } else {
      assert es[..k] == es;
    }
  }

  lemma UndisturbedAt(s: State, es: seq<Event>, c: nat, k: nat)
    requires AllSound(es) && Undisturbed(s, es, c) && k < |es|
    ensures Undisturbed(s, es[..k], c) && Leaves(Run(s, es[..k]), es[k], c)
    ensures Run(s, es[..k + 1]) == Step(Run(s, es[..k]), es[k])
  {
    hide Leaves, Step;
    UndisturbedFront(s, es, c, k);
    UndisturbedFront(s, es, c, k + 1);
    assert es[..k + 1][..k] == es[..k];
  }

  /** A terminal report is never missed: from the frame that brings it to a live order the order is
      finished in every later state, whatever the timestamps, and nothing of it is exposure. */
  lemma TerminalUpdatesFinish(s: State, es: seq<Event>, c: nat, i: nat, symbol: nat)
    requires AllSound(es) && c in s.book.orders && Undisturbed(s, es, c)
    requires i < |es| && UpdateOf(Run(s, es[..i]), es[i], c) && Run(s, es[..i]).book.orders[c].Live()
    requires es[i].update.status.IsTerminal()
    ensures c in Run(s, es).book.orders && !Run(s, es).book.orders[c].Live()
    ensures RestingOf(Run(s, es).book.orders[c], symbol) == 0.0
  {
    FinishedFrom(s, es, c, i + 1) by {
      UndisturbedAt(s, es, c, i);
      FinishedExactly(Run(s, es[..i]), es[i], c);
    }
  }

  lemma {:induction false} FinishedFrom(s: State, es: seq<Event>, c: nat, k: nat)
    requires AllSound(es) && c in s.book.orders && Undisturbed(s, es, c) && k <= |es|
    requires c in Run(s, es[..k]).book.orders && !Run(s, es[..k]).book.orders[c].Live()
    ensures c in Run(s, es).book.orders && !Run(s, es).book.orders[c].Live()
    decreases |es|
  {
    hide Step, Leaves;
    if k == |es| {
      assert es[..k] == es;
    } else {
      var front, last := es[..|es| - 1], es[|es| - 1];
      assert front[..k] == es[..k];
      FinishedFrom(s, front, c, k);
      StaysFinished(Run(s, front), last, c);
    }
  }

  lemma StaysFinished(s: State, e: Event, c: nat)
    requires c in s.book.orders && !s.book.orders[c].Live() && Leaves(s, e, c)
    ensures c in Step(s, e).book.orders && !Step(s, e).book.orders[c].Live()
  {
    hide Step, Leaves;
    StepAdvances(s, e, c);
  }

  /** An order is finished at the end of a run exactly when it was at the start, or some event of the run
      found it live and reported a terminal status or filled its size. */
  lemma {:induction false} FinishedByExactly(s: State, es: seq<Event>, c: nat)
    requires AllSound(es) && c in s.book.orders && Undisturbed(s, es, c)
    ensures c in Run(s, es).book.orders
    ensures !Run(s, es).book.orders[c].Live() <==>
      !s.book.orders[c].Live() || exists k :: 0 <= k < |es| && Finishes(s, es, c, k)
    decreases |es|
  {
    hide Step, Leaves, Finishes;
    if es != [] {
      var front, last := es[..|es| - 1], es[|es| - 1];
      var n := |front|;
      FinishedByExactly(s, front, c);
      forall k | 0 <= k < n
        ensures Finishes(s, front, c, k) <==> Finishes(s, es, c, k)
      {
        FinishesInFront(s, es, c, k);
      }
      assert es[..n] == front && es[..n + 1] == es;
      if Run(s, front).book.orders[c].Live() {
        LastFinishes(s, es, c);
      } else {
        StaysFinished(Run(s, front), last, c);
      }
    }
  }

  /** Event `k` of the run finds the order live and ends it. */
  predicate Finishes(s: State, es: seq<Event>, c: nat, k: nat)
    requires AllSound(es) && k < |es|
  {
    var before, after := Run(s, es[..k]).book.orders, Run(s, es[..k + 1]).book.orders;
    && c in before && c in after && before[c].Live()
    && (|| (UpdateOf(Run(s, es[..k]), es[k], c)
            && (es[k].update.status.IsTerminal() || after[c].filledQty >= after[c].origQty))
        || (FillFor(Run(s, es[..k]), es[k], c) && after[c].filledQty >= after[c].origQty))
  }

  lemma FinishesInFront(s: State, es: seq<Event>, c: nat, k: nat)
    requires AllSound(es) && k < |es| - 1
    ensures Finishes(s, es[..|es| - 1], c, k) <==> Finishes(s, es, c, k)
  {
    hide Run, UpdateOf, FillFor;
    var front := es[..|es| - 1];
    assert front[..k] == es[..k] && front[..k + 1] == es[..k + 1];
  }

  lemma LastFinishes(s: State, es: seq<Event>, c: nat)
    requires AllSound(es) && es != [] && Undisturbed(s, es, c)
    requires var b := Run(s, es[..|es| - 1]).book; c in b.orders && b.orders[c].Live()
    ensures c in Run(s, es).book.orders
    ensures !Run(s, es).book.orders[c].Live() <==> Finishes(s, es, c, |es| - 1)
  {
    hide Step, Leaves, UpdateOf, FillFor;
    var n := |es| - 1;
    FinishedExactly(Run(s, es[..n]), es[n], c);
    assert es[..n + 1] == es;
  }

  // ---------------------------------------------------------------- the newest frame

  /** The order has been told everything up to `ts`, and its size and price are the frame's. */
  ghost predicate SaysFrame(o: Order, u: Update) {
    && o.lastUpdate >= u.ts && o.origQty == u.origQty && (u.price.Some? ==> o.price == u.price)
  }

  lemma FrameTaken(s: State, e: Event, c: nat)
    requires c in s.book.orders && s.book.orders[c].Live() && Leaves(s, e, c) && UpdateOf(s, e, c)
    requires e.update.ts >= s.book.orders[c].lastUpdate
    ensures c in Step(s, e).book.orders && SaysFrame(Step(s, e).book.orders[c], e.update)
    ensures var o := Step(s, e).book.orders[c]; o.Live() ==> o.status == e.update.status
  {
    hide Posted, Remembered, Advances, Update.VenueFilled;
  }

  /** No update in the event is as new as `u`. */
  predicate Older(e: Event, u: Update) {
    e.OnUpdate? ==> e.update.ts < u.ts
  }

  lemma OlderFrameKeeps(s: State, e: Event, c: nat, u: Update)
    requires c in s.book.orders && Leaves(s, e, c) && Older(e, u) && SaysFrame(s.book.orders[c], u)
    ensures c in Step(s, e).book.orders && SaysFrame(Step(s, e).book.orders[c], u)
    ensures var o, p := s.book.orders[c], Step(s, e).book.orders[c];
      p.Live() && !FillFor(s, e, c) ==> o.Live() && p.status == o.status
  {
    hide Posted, Remembered, Advances, Update.VenueFilled;
    match e
    case OnFill(f) =>
      if FilledBook(s.book, f).None? { Orphan(s.book, f); }
    case _ =>
  }

  /** Size and price are the newest frame's: an update stamped no earlier than anything its order had been
      told keeps its word against every older one that arrives after it. So does its status, while no fill
      changes it and nothing finishes the order: a reordered frame does not walk the order back. */
  lemma {:induction false} NewestFrameStands(s: State, es: seq<Event>, c: nat, i: nat)
    requires AllSound(es) && c in s.book.orders && Undisturbed(s, es, c)
    requires i < |es| && UpdateOf(Run(s, es[..i]), es[i], c) && Run(s, es[..i]).book.orders[c].Live()
    requires es[i].update.ts >= Run(s, es[..i]).book.orders[c].lastUpdate
    requires forall j :: i < j < |es| ==> Older(es[j], es[i].update)
    ensures c in Run(s, es).book.orders && SaysFrame(Run(s, es).book.orders[c], es[i].update)
    ensures Run(s, es).book.orders[c].Live()
      && (forall j :: i < j < |es| ==> !FillFor(Run(s, es[..j]), es[j], c))
      ==> Run(s, es).book.orders[c].status == es[i].update.status
    decreases |es|
  {
    hide Step, Leaves, SaysFrame, Older, FillFor;
    var front, last := es[..|es| - 1], es[|es| - 1];
    assert forall j :: 0 <= j <= |front| ==> front[..j] == es[..j];
    var before := Run(s, front);
    if i == |front| {
      FrameTaken(before, last, c);
    } else {
      NewestFrameStands(s, front, c, i);
      OlderFrameKeeps(before, last, c, es[i].update);
      assert es[..|front|] == front;
    }
  }
}
