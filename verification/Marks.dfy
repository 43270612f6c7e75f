/** Mark prices that expire against the newest time the cache has been shown, and the rule by which a
    book midpoint may stand in for a venue's own mark.
 */
module Marks {
  import opened Wrappers

  const NANOS_MIN: int := -0x8000_0000_0000_0000
  const NANOS_MAX: int := 0x7FFF_FFFF_FFFF_FFFF

  type Nanos = t: int | NANOS_MIN <= t <= NANOS_MAX

  function SaturatingSub(a: Nanos, b: Nanos): Nanos {
    if a - b > NANOS_MAX then NANOS_MAX else if a - b < NANOS_MIN then NANOS_MIN else a - b
  }

  predicate IsStale(ts: Nanos, now: Nanos, maxAge: Nanos) {
    SaturatingSub(now, ts) > maxAge
  }

  /** Saturation costs nothing: a price is stale exactly when it is older than the maximum age, and under
      the largest maximum never. */
  lemma StaleExactly(ts: Nanos, now: Nanos, maxAge: Nanos)
    ensures IsStale(ts, now, maxAge) <==> maxAge < NANOS_MAX && now - ts > maxAge
  {
  }

  lemma StaleLater(ts: Nanos, later: Nanos, now: Nanos, next: Nanos, maxAge: Nanos)
    requires ts <= later && now <= next && IsStale(later, now, maxAge)
    ensures IsStale(ts, next, maxAge)
  {
  }

  datatype Source = VenueMark | BookMid

  datatype Quote = Quote(px: real, ts: Nanos, source: Source)

  predicate Supersedes(newer: Quote, incumbent: Quote, now: Nanos, maxAge: Nanos) {
    newer.ts >= incumbent.ts
    && (newer.source == VenueMark || incumbent.source == BookMid || IsStale(incumbent.ts, now, maxAge))
  }

  // ---------------------------------------------------------------- threads

  datatype State = State(marks: map<nat, Quote>, now: Nanos)

  function New(): State {
    State(map[], NANOS_MIN)
  }

  /** One atomic operation of some thread: advancing the clock, or, under the lock, the write of a price
      whose thread had already shown the clock its time and then read the clock as `seen`. */
  datatype Step =
    | Observe(ts: Nanos)
    | Write(symbol: nat, quote: Quote, seen: Nanos)

  predicate Enabled(s: State, step: Step) {
    step.Write? ==> step.quote.ts <= step.seen <= s.now
  }

  function Later(a: Nanos, b: Nanos): Nanos {
    if a >= b then a else b
  }

  function Do(s: State, step: Step, maxAge: Nanos): State {
    match step
    case Observe(ts) => s.(now := Later(s.now, ts))
    case Write(symbol, quote, seen) =>
      if symbol in s.marks && !Supersedes(quote, s.marks[symbol], seen, maxAge) then s
      else s.(marks := s.marks[symbol := quote])
  }

  ghost predicate Reaches(s: State, steps: seq<Step>, maxAge: Nanos, t: State)
    decreases |steps|
  {
    if steps == [] then s == t
    else
      var step := steps[|steps| - 1];
      exists before :: Reaches(s, steps[..|steps| - 1], maxAge, before)
        && Enabled(before, step) && t == Do(before, step, maxAge)
  }

  /** The price the gate may use, by a reader that loaded the clock as `seen` before it looked the price
      up; other threads may have moved both in between. */
  function Served(s: State, symbol: nat, seen: Nanos, maxAge: Nanos): Option<Quote> {
    if symbol in s.marks && !IsStale(s.marks[symbol].ts, seen, maxAge) then Some(s.marks[symbol]) else None
  }

  /** Nothing is forgotten and nothing goes back: not the clock, not the time of any stored price. */
  ghost predicate Forward(s: State, t: State) {
    && s.now <= t.now
    && forall symbol :: symbol in s.marks ==> symbol in t.marks && s.marks[symbol].ts <= t.marks[symbol].ts
  }

  lemma {:induction false} TimesNeverGoBack(s: State, steps: seq<Step>, maxAge: Nanos, t: State)
    requires Reaches(s, steps, maxAge, t)
    ensures Forward(s, t)
    decreases |steps|
  {
    if steps != [] {
      var step := steps[|steps| - 1];
      var before :| Reaches(s, steps[..|steps| - 1], maxAge, before)
        && Enabled(before, step) && t == Do(before, step, maxAge);
      TimesNeverGoBack(s, steps[..|steps| - 1], maxAge, before);
    }
  }

  /** The symbol is under a venue mark at least as new as `ts`, or that mark has expired. */
  predicate Covered(s: State, symbol: nat, ts: Nanos, maxAge: Nanos) {
    || IsStale(ts, s.now, maxAge)
    || (symbol in s.marks && s.marks[symbol].source == VenueMark && s.marks[symbol].ts >= ts)
  }

  lemma StepKeepsCover(s: State, step: Step, symbol: nat, ts: Nanos, maxAge: Nanos)
    requires Covered(s, symbol, ts, maxAge) && Enabled(s, step)
    ensures Covered(Do(s, step, maxAge), symbol, ts, maxAge)
  {
    hide SaturatingSub;
    var t := Do(s, step, maxAge);
    if IsStale(ts, s.now, maxAge) {
      StaleLater(ts, ts, s.now, t.now, maxAge);
    } else if step.Write? && step.symbol == symbol {
      var incumbent := s.marks[symbol];
      if IsStale(incumbent.ts, step.seen, maxAge) { StaleLater(ts, incumbent.ts, step.seen, s.now, maxAge); }
    }
  }

  lemma {:induction false} RunKeepsCover(s: State, steps: seq<Step>, maxAge: Nanos, t: State, symbol: nat, ts: Nanos)
    requires Reaches(s, steps, maxAge, t) && Covered(s, symbol, ts, maxAge)
    ensures Covered(t, symbol, ts, maxAge)
    decreases |steps|
  {
    hide Covered, Do, Enabled;
    if steps != [] {
      var step := steps[|steps| - 1];
      var before :| Reaches(s, steps[..|steps| - 1], maxAge, before)
        && Enabled(before, step) && t == Do(before, step, maxAge);
      RunKeepsCover(s, steps[..|steps| - 1], maxAge, before, symbol, ts);
      StepKeepsCover(before, step, symbol, ts, maxAge);
    }
  }

  /** Once a venue mark is stored, every later state either has it expired or holds a venue mark at least
      as new: no midpoint replaces a live mark, whatever the threads do. */
  lemma LiveMarkIsNeverDisplaced(s: State, steps: seq<Step>, maxAge: Nanos, t: State, symbol: nat)
    requires Reaches(s, steps, maxAge, t)
    requires symbol in s.marks && s.marks[symbol].source == VenueMark
    ensures Covered(t, symbol, s.marks[symbol].ts, maxAge)
  {
    hide Reaches;
    RunKeepsCover(s, steps, maxAge, t, symbol, s.marks[symbol].ts);
  }

  /** A reader that loads the clock in one state and looks the price up in a later one: while the venue
      mark is live at the lookup it is served a venue mark at least as new. */
  lemma ServedIsLive(s: State, before: seq<Step>, t: State, between: seq<Step>, u: State, maxAge: Nanos, symbol: nat)
    requires Reaches(s, before, maxAge, t) && Reaches(t, between, maxAge, u)
    requires symbol in s.marks && s.marks[symbol].source == VenueMark
    requires u.now - s.marks[symbol].ts <= maxAge
    ensures var served := Served(u, symbol, t.now, maxAge);
      served.Some? && served.value.source == VenueMark && served.value.ts >= s.marks[symbol].ts
  {
    hide Reaches, IsStale;
    LiveMarkIsNeverDisplaced(s, before, maxAge, t, symbol);
    RunKeepsCover(t, between, maxAge, u, symbol, s.marks[symbol].ts);
    TimesNeverGoBack(t, between, maxAge, u);
    StaleExactly(s.marks[symbol].ts, u.now, maxAge);
    StaleExactly(u.marks[symbol].ts, t.now, maxAge);
  }

  /** What is stored was written, and no venue mark written before it is newer. */
  ghost predicate Newest(steps: seq<Step>, t: State, symbol: nat) {
    && (symbol in t.marks ==> exists i :: 0 <= i < |steps| && Writes(steps[i], symbol, t.marks[symbol]))
    && forall i :: 0 <= i < |steps| && steps[i].Write? && steps[i].symbol == symbol ==>
      symbol in t.marks && (steps[i].quote.source == VenueMark ==> steps[i].quote.ts <= t.marks[symbol].ts)
  }

  predicate Writes(step: Step, symbol: nat, quote: Quote) {
    step.Write? && step.symbol == symbol && step.quote == quote
  }

  /** From an empty cache, whatever the threads do, the stored price is one some thread wrote, and at least
      as new as every venue mark written so far. */
  lemma {:induction false} NewestMarkStands(steps: seq<Step>, maxAge: Nanos, t: State, symbol: nat)
    requires Reaches(New(), steps, maxAge, t)
    ensures Newest(steps, t, symbol)
    decreases |steps|
  {
    hide IsStale;
    if steps != [] {
      var k := |steps| - 1;
      var front := steps[..k];
      var before :| Reaches(New(), front, maxAge, before)
        && Enabled(before, steps[k]) && t == Do(before, steps[k], maxAge);
      NewestMarkStands(front, maxAge, before, symbol);
      assert forall i :: 0 <= i < k ==> front[i] == steps[i];
      if symbol in t.marks { StoredWasWritten(front, steps[k], maxAge, before, symbol, steps); }
    }
  }

  lemma StoredWasWritten(front: seq<Step>, step: Step, maxAge: Nanos, before: State, symbol: nat, steps: seq<Step>)
    requires Newest(front, before, symbol) && steps == front + [step]
    requires symbol in Do(before, step, maxAge).marks
    ensures var stored := Do(before, step, maxAge).marks[symbol];
      exists i :: 0 <= i < |steps| && Writes(steps[i], symbol, stored)
  {
    hide Supersedes;
    var stored := Do(before, step, maxAge).marks[symbol];
    if Writes(step, symbol, stored) {
      assert Writes(steps[|front|], symbol, stored);
    } else {
      var i :| 0 <= i < |front| && Writes(front[i], symbol, stored);
      assert Writes(steps[i], symbol, stored);
    }
  }

  /** A venue mark no older than the incumbent is stored, and so is a midpoint unless a venue mark that was
      still live by its writer's clock holds the place. */
  lemma WrittenStands(s: State, symbol: nat, quote: Quote, seen: Nanos, maxAge: Nanos)
    requires Enabled(s, Write(symbol, quote, seen))
    requires symbol in s.marks ==> s.marks[symbol].ts <= quote.ts
    ensures symbol in Do(s, Write(symbol, quote, seen), maxAge).marks
    ensures Do(s, Write(symbol, quote, seen), maxAge).marks[symbol] != quote ==>
      && quote.source == BookMid && s.marks[symbol].source == VenueMark
      && (maxAge == NANOS_MAX || seen - s.marks[symbol].ts <= maxAge)
  {
    if symbol in s.marks { StaleExactly(s.marks[symbol].ts, seen, maxAge); }
  }

  /** No stored price is from the future of the clock. */
  ghost predicate ClockAhead(s: State) {
    forall symbol :: symbol in s.marks ==> s.marks[symbol].ts <= s.now
  }

  lemma {:induction false} ClockStaysAhead(s: State, steps: seq<Step>, maxAge: Nanos, t: State)
    requires Reaches(s, steps, maxAge, t) && ClockAhead(s)
    ensures ClockAhead(t)
    decreases |steps|
  {
    hide IsStale;
    if steps != [] {
      var step := steps[|steps| - 1];
      var before :| Reaches(s, steps[..|steps| - 1], maxAge, before)
        && Enabled(before, step) && t == Do(before, step, maxAge);
      ClockStaysAhead(s, steps[..|steps| - 1], maxAge, before);
    }
  }

  /** From an empty cache the clock stays ahead of every stored price, and a price is served exactly while
      it is within the maximum age of the clock the reader loaded; under the largest maximum, always. */
  lemma ServedExactlyWhileFresh(before: seq<Step>, t: State, between: seq<Step>, u: State, maxAge: Nanos, symbol: nat)
    requires Reaches(New(), before, maxAge, t) && Reaches(t, between, maxAge, u)
    ensures ClockAhead(t) && ClockAhead(u)
    ensures Served(u, symbol, t.now, maxAge) ==
      if symbol in u.marks && (maxAge == NANOS_MAX || t.now - u.marks[symbol].ts <= maxAge)
        then Some(u.marks[symbol]) else None
  {
    hide IsStale, Reaches;
    ClockStaysAhead(New(), before, maxAge, t);
    ClockStaysAhead(t, between, maxAge, u);
    if symbol in u.marks { StaleExactly(u.marks[symbol].ts, t.now, maxAge); }
  }

  /** The clock is moved only by what other threads show it. */
  lemma {:induction false} ClockPassesExactly(t: State, between: seq<Step>, maxAge: Nanos, u: State, time: int)
    requires Reaches(t, between, maxAge, u) && t.now <= time
    ensures u.now > time <==> exists i :: 0 <= i < |between| && Shows(between[i], time)
    decreases |between|
  {
    hide Supersedes;
    if between != [] {
      var k := |between| - 1;
      var front := between[..k];
      var before :| Reaches(t, front, maxAge, before)
        && Enabled(before, between[k]) && u == Do(before, between[k], maxAge);
      ClockPassesExactly(t, front, maxAge, before, time);
      assert forall i :: 0 <= i < k ==> front[i] == between[i];
    }
  }

  /** A step that shows the clock a time past `time`. */
  predicate Shows(step: Step, time: int) {
    step.Observe? && step.ts > time
  }

  /** A price still fresh by the clock the reader loaded is served expired exactly when some thread, between
      that load and the lookup, showed the clock a time past its expiry. */
  lemma ExpiredIsServedExactly(t: State, between: seq<Step>, u: State, maxAge: Nanos, symbol: nat)
    requires Reaches(t, between, maxAge, u) && symbol in u.marks
    ensures var expiry := u.marks[symbol].ts + maxAge;
      (Served(u, symbol, t.now, maxAge).Some? && IsStale(u.marks[symbol].ts, u.now, maxAge)) <==>
      (maxAge < NANOS_MAX && t.now <= expiry && exists i :: 0 <= i < |between| && Shows(between[i], expiry))
  {
    hide IsStale, Reaches;
    var expiry := u.marks[symbol].ts + maxAge;
    StaleExactly(u.marks[symbol].ts, t.now, maxAge);
    StaleExactly(u.marks[symbol].ts, u.now, maxAge);
    if t.now <= expiry { ClockPassesExactly(t, between, maxAge, u, expiry); }
  }

  /** One such call, from an empty cache: a price of time 0 is set, a reader under a maximum age of 10 loads
      the clock, and another thread shows it 11 before the lookup. */
  lemma ExpiredMayBeServed()
    ensures var mark := Quote(5.0, 0, VenueMark);
      var t := State(map[1 := mark], 0);
      var u := State(map[1 := mark], 11);
      && Reaches(New(), [Observe(0), Write(1, mark, 0)], 10, t) && Reaches(t, [Observe(11)], 10, u)
      && Served(u, 1, t.now, 10).Some? && IsStale(u.marks[1].ts, u.now, 10)
  {
    var mark := Quote(5.0, 0, VenueMark);
    var t := State(map[1 := mark], 0);
    ThenReaches(New(), [], 10, New(), Observe(0));
    ThenReaches(New(), [Observe(0)], 10, State(map[], 0), Write(1, mark, 0));
    ThenReaches(t, [], 10, t, Observe(11));
    assert [Observe(0)] + [Write(1, mark, 0)] == [Observe(0), Write(1, mark, 0)];
    assert [] + [Observe(0)] == [Observe(0)] && [] + [Observe(11)] == [Observe(11)];
  }

  lemma ThenReaches(s: State, steps: seq<Step>, maxAge: Nanos, t: State, step: Step)
    requires Reaches(s, steps, maxAge, t) && Enabled(t, step)
    ensures Reaches(s, steps + [step], maxAge, Do(t, step, maxAge))
  {
    var all := steps + [step];
    assert all[..|all| - 1] == steps && all[|all| - 1] == step;
    assert Reaches(s, all[..|all| - 1], maxAge, t) && Do(t, step, maxAge) == Do(t, all[|all| - 1], maxAge);
  }

  // ---------------------------------------------------------------- the cache

  class MarkCache {
    const maxAgeNs: Nanos
    var marks: map<nat, Quote>
    var nowNs: Nanos

    ghost function View(): State
      reads this
    {
      State(marks, nowNs)
    }

    constructor WithMaxAge(maxAgeNs: Nanos)
      ensures View() == New() && this.maxAgeNs == maxAgeNs
    {
      this.maxAgeNs := maxAgeNs;
      marks, nowNs := map[], NANOS_MIN;
    }

    method ObserveNow(ts: Nanos)
      modifies this`nowNs
      ensures View() == Do(old(View()), Observe(ts), maxAgeNs)
    {
      if ts > nowNs { nowNs := ts; }
    }

    /** A price shows the clock its own time before it is judged. */
    method Set(symbol: nat, px: real, ts: Nanos, source: Source)
      modifies this
      ensures var shown := Do(old(View()), Observe(ts), maxAgeNs);
        var write := Write(symbol, Quote(px, ts, source), shown.now);
        Enabled(shown, write) && View() == Do(shown, write, maxAgeNs)
    {
      ObserveNow(ts);
      var now := nowNs;
      var newer := Quote(px, ts, source);
      if symbol in marks {
        if !DoesSupersede(newer, marks[symbol], now) { return; }
      }
      marks := marks[symbol := newer];
    }

    /** The three rules, in the order they are asked. */
    function DoesSupersede(newer: Quote, incumbent: Quote, now: Nanos): (r: bool)
      ensures r <==> Supersedes(newer, incumbent, now, maxAgeNs)
    {
      if newer.ts < incumbent.ts then false
      else
        match (newer.source, incumbent.source)
        case (VenueMark, _) => true
        case (BookMid, BookMid) => true
        case (BookMid, VenueMark) => IsStale(incumbent.ts, now, maxAgeNs)
    }

    method GetQuote(symbol: nat) returns (q: Option<Quote>)
      ensures q == Served(View(), symbol, nowNs, maxAgeNs)
    {
      var now := nowNs;
      if symbol !in marks { return None; }
      var stored := marks[symbol];
      q := if IsStale(stored.ts, now, maxAgeNs) then None else Some(stored);
    }

    method Get(symbol: nat) returns (px: Option<real>)
      ensures var served := Served(View(), symbol, nowNs, maxAgeNs);
        px == if served.Some? then Some(served.value.px) else None
    {
      var q := GetQuote(symbol);
      px := if q.Some? then Some(q.value.px) else None;
    }
  }
}
