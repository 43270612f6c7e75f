/** The market-data beacon as two processes on an x86-TSO machine: a publisher storing nine fields a
    beat, the count last, and a reader loading them one by one, the count first. There is no lock and
    no retry, so a snapshot may mix beats; what it may not do is go backwards.
 */
module Beacon {
  import opened Modular

  /** One pass of the publisher's loop. Counters are the true totals, before truncation. */
  datatype Beat = Beat(
    lastEventNs: int, wallNs: nat,
    published: nat, coalesced: nat, dropped: nat, barsPublished: nat, staleQuote: nat,
    stopped: bool)

  const FLAG_RUNNING: int := 1
  const FLAG_STOPPED: int := 2

  /** Fields are numbered in the order they are stored; the last is the beat count. */
  const BEATS: nat := 8

  function Payload(b: Beat, f: nat): int
    requires f < 8
  {
    match f
    case 0 => b.lastEventNs
    case 1 => b.wallNs
    case 2 => b.published
    case 3 => b.coalesced
    case 4 => b.dropped
    case 5 => b.barsPublished
    case 6 => b.staleQuote
    case _ => if b.stopped then FLAG_STOPPED else FLAG_RUNNING
  }

  /** What field `f` should say after `n` beats; before the first, what `create` wrote. */
  function True(beats: seq<Beat>, f: nat, n: nat): int
    requires f < 9 && n <= |beats|
  {
    if f == 8 then n
    else if n > 0 then Payload(beats[n - 1], f)
    else if f == 7 then FLAG_RUNNING else 0
  }

  /** The five counters are cut to 32 bits; the beat count wraps at 64. */
  function Stored(f: nat, value: int): int {
    if 2 <= f <= 6 then value % 0x1_0000_0000
    else if f == 8 then value % 0x1_0000_0000_0000_0000
    else value
  }

  datatype Store = Store(field: nat, value: int)

  /** A load: the value found, and how many stores had reached memory by then. */
  datatype Load = Load(value: int, at: nat)

  /** `next` is the field the publisher stores next, 9 between beats. */
  datatype State = State(mem: seq<int>, buf: seq<Store>, beats: seq<Beat>, next: nat, committed: nat, loads: seq<Load>)

  function Init(): State {
    State([0, 0, 0, 0, 0, 0, 0, FLAG_RUNNING, 0], [], [], 9, 0, [])
  }

  /** The count as the publisher loads it: from its own buffer, or from memory. */
  function OwnCount(memory: int, buf: seq<Store>): int {
    if buf == [] then memory
    else if buf[|buf| - 1].field == BEATS then buf[|buf| - 1].value
    else OwnCount(memory, buf[..|buf| - 1])
  }

  /** The field the reader's `i`-th load is of: the count, then the payload in order. */
  function FieldOf(i: nat): (f: nat)
    ensures f < 9
  {
    if i % 9 == 0 then 8 else i % 9 - 1
  }

  datatype Step =
    | Begin(beat: Beat)
    | StoreField
    | StoreCount
    | Commit
    | LoadField

  ghost predicate Enabled(s: State, step: Step) {
    match step
    case Begin(_) => s.next == 9
    case StoreField => s.next < 8 && s.beats != []
    case StoreCount => s.next == 8 && |s.mem| == 9
    case Commit => s.buf != [] && s.buf[0].field < |s.mem|
    case LoadField => |s.mem| == 9
  }

  function Do(s: State, step: Step): State
    requires Enabled(s, step)
  {
    match step
    case Begin(beat) => s.(beats := s.beats + [beat], next := 0)
    case StoreField =>
      s.(buf := s.buf + [Store(s.next, Stored(s.next, Payload(s.beats[|s.beats| - 1], s.next)))], next := s.next + 1)
    case StoreCount =>
      s.(buf := s.buf + [Store(8, Stored(8, OwnCount(s.mem[8], s.buf) + 1))], next := 9)
    case Commit =>
      s.(mem := s.mem[s.buf[0].field := s.buf[0].value], buf := s.buf[1..], committed := s.committed + 1)
    case LoadField => s.(loads := s.loads + [Load(s.mem[FieldOf(|s.loads|)], s.committed)])
  }

  ghost predicate Run(steps: seq<Step>, s: State)
    decreases |steps|
  {
    if steps == [] then s == Init()
    else
      var step := steps[|steps| - 1];
      exists before :: Run(steps[..|steps| - 1], before) && Enabled(before, step) && s == Do(before, step)
  }

  // ---------------------------------------------------------------- the invariant

  /** The beat that field `f` belongs to once `c` stores have reached memory. */
  function BeatOf(f: nat, c: nat): nat
    requires f < 9
  {
    (c + 8 - f) / 9
  }

  /** The `m`-th store the publisher ever makes. */
  function Nth(beats: seq<Beat>, m: nat): Store
    requires m / 9 + 1 <= |beats|
  {
    Store(m % 9, Stored(m % 9, True(beats, m % 9, m / 9 + 1)))
  }

  ghost predicate LoadInv(s: State, i: nat)
    requires i < |s.loads|
  {
    && s.loads[i].at <= s.committed
    && BeatOf(FieldOf(i), s.loads[i].at) <= |s.beats|
    && s.loads[i].value == Stored(FieldOf(i), True(s.beats, FieldOf(i), BeatOf(FieldOf(i), s.loads[i].at)))
  }

  ghost predicate LoadsInv(s: State) {
    && (forall i :: 0 <= i < |s.loads| ==> LoadInv(s, i))
    && (forall i, j :: 0 <= i <= j < |s.loads| ==> s.loads[i].at <= s.loads[j].at)
  }

  ghost predicate WriterInv(s: State) {
    && |s.mem| == 9 && s.next <= 9 && (s.next < 9 ==> s.beats != [])
    && s.committed + |s.buf| == 9 * |s.beats| + s.next - 9
    && (forall i :: 0 <= i < |s.buf| ==> s.buf[i] == Nth(s.beats, s.committed + i))
    && (forall f :: 0 <= f < 9 ==> s.mem[f] == Stored(f, True(s.beats, f, BeatOf(f, s.committed))))
  }

  ghost predicate Inv(s: State) {
    WriterInv(s) && LoadsInv(s)
  }

  // ---------------------------------------------------------------- what every step keeps

  /** Through its own buffer the publisher reads the number of beats it has counted. */
  lemma {:induction false} OwnCountIsBeats(beats: seq<Beat>, memory: int, c: nat, buf: seq<Store>)
    requires c + |buf| <= 9 * |beats|
    requires memory == Stored(8, c / 9)
    requires forall i :: 0 <= i < |buf| ==> buf[i] == Nth(beats, c + i)
    ensures OwnCount(memory, buf) == Stored(8, (c + |buf|) / 9)
  {
    if buf != [] {
      var last := c + |buf| - 1;
      assert buf[|buf| - 1] == Nth(beats, last);
      if last % 9 != 8 { OwnCountIsBeats(beats, memory, c, buf[..|buf| - 1]); }
    }
  }

  /** What has been loaded stays explained as beats begin and stores commit. */
  lemma LoadsStay(s: State, t: State)
    requires LoadsInv(s) && t.loads == s.loads && s.committed <= t.committed && s.beats <= t.beats
    ensures LoadsInv(t)
  {
    forall i | 0 <= i < |s.loads|
      ensures LoadInv(t, i)
    {
      assert LoadInv(s, i);
    }
  }

  lemma BeginKeeps(s: State, beat: Beat)
    requires Inv(s) && Enabled(s, Begin(beat))
    ensures Inv(Do(s, Begin(beat)))
  {
    hide LoadsInv;
    LoadsStay(s, Do(s, Begin(beat)));
  }

  lemma StoreFieldKeeps(s: State)
    requires Inv(s) && Enabled(s, StoreField)
    ensures Inv(Do(s, StoreField))
  {
    hide LoadsInv;
    var t := Do(s, StoreField);
    assert s.committed + |s.buf| == 9 * (|s.beats| - 1) + s.next;
    assert t.buf[|s.buf|] == Nth(s.beats, s.committed + |s.buf|);
    LoadsStay(s, t);
  }

  lemma LastStoreIsCount(beats: seq<Beat>, m: nat)
    requires beats != [] && m == 9 * (|beats| - 1) + 8
    ensures Nth(beats, m) == Store(8, Stored(8, |beats|)) && m / 9 == |beats| - 1
  {
  }

  lemma CountOnce(n: nat)
    ensures Stored(8, Stored(8, n) + 1) == Stored(8, n + 1)
  {
  }

  lemma StoreCountKeeps(s: State)
    requires Inv(s) && Enabled(s, StoreCount)
    ensures Inv(Do(s, StoreCount))
  {
    hide LoadsInv, Stored, OwnCount;
    var t := Do(s, StoreCount);
    var m := s.committed + |s.buf|;
    assert True(s.beats, 8, BeatOf(8, s.committed)) == s.committed / 9;
    OwnCountIsBeats(s.beats, s.mem[8], s.committed, s.buf);
    LastStoreIsCount(s.beats, m);
    CountOnce(m / 9);
    assert t.buf[|s.buf|] == Nth(s.beats, m);
    LoadsStay(s, t);
  }

  /** The store numbered `c` is the one that brings its field up to date. */
  lemma CommitIsDue(f: nat, c: nat)
    requires f < 9
    ensures BeatOf(f, c + 1) == if f == c % 9 then c / 9 + 1 else BeatOf(f, c)
  {
  }

  lemma CommitKeeps(s: State)
    requires Inv(s) && Enabled(s, Commit)
    ensures Inv(Do(s, Commit))
  {
    hide LoadsInv, Stored, True;
    var t := Do(s, Commit);
    assert s.buf[0] == Nth(s.beats, s.committed);
    forall f | 0 <= f < 9
      ensures BeatOf(f, t.committed) <= |s.beats| && t.mem[f] == Stored(f, True(t.beats, f, BeatOf(f, t.committed)))
    {
      CommitIsDue(f, s.committed);
    }
    forall i | 0 <= i < |t.buf|
      ensures t.buf[i] == Nth(t.beats, t.committed + i)
    {
      assert s.buf[i + 1] == Nth(s.beats, s.committed + (i + 1));
    }
    LoadsStay(s, t);
  }

  lemma LoadFieldKeeps(s: State)
    requires Inv(s) && Enabled(s, LoadField)
    ensures Inv(Do(s, LoadField))
  {
    hide Stored, True;
    var t := Do(s, LoadField);
    forall i | 0 <= i < |t.loads|
      ensures LoadInv(t, i) && t.loads[i].at <= s.committed
    {
      if i < |s.loads| {
        assert LoadInv(s, i) && t.loads[i] == s.loads[i];
      }
    }
  }

  lemma StepKeeps(s: State, step: Step)
    requires Inv(s) && Enabled(s, step)
    ensures Inv(Do(s, step))
  {
    hide Inv, Do, Enabled;
    match step
    case Begin(beat) => BeginKeeps(s, beat);
    case StoreField => StoreFieldKeeps(s);
    case StoreCount => StoreCountKeeps(s);
    case Commit => CommitKeeps(s);
    case LoadField => LoadFieldKeeps(s);
  }

  lemma {:induction false} RunKeeps(steps: seq<Step>, s: State)
    requires Run(steps, s)
    ensures Inv(s)
    decreases |steps|
  {
    hide Inv, Enabled, Do;
    if steps == [] {
      InitInv();
    } else {
      var step := steps[|steps| - 1];
      var before :| Run(steps[..|steps| - 1], before) && Enabled(before, step) && s == Do(before, step);
      RunKeeps(steps[..|steps| - 1], before);
      StepKeeps(before, step);
    }
  }

  lemma InitInv()
    ensures Inv(Init())
  {
  }

  // ---------------------------------------------------------------- what a snapshot tells

  /** The `k`-th completed read. */
  predicate IsRead(s: State, k: nat) {
    9 * k + 9 <= |s.loads|
  }

  /** The value a read returned for field `f`. */
  function Got(s: State, k: nat, f: nat): int
    requires IsRead(s, k) && f < 9
  {
    s.loads[if f == 8 then 9 * k else 9 * k + 1 + f].value
  }

  /** The beat whose value that is. */
  function From(s: State, k: nat, f: nat): nat
    requires IsRead(s, k) && f < 9
  {
    BeatOf(f, s.loads[if f == 8 then 9 * k else 9 * k + 1 + f].at)
  }

  /** Each field holds what the beat it came from stored, and that beat is no older than the count
      reported beside it. */
  lemma FieldsNoOlderThanCount(steps: seq<Step>, s: State, k: nat, f: nat)
    requires Run(steps, s) && IsRead(s, k) && f < 9
    ensures From(s, k, 8) <= From(s, k, f) <= |s.beats|
    ensures Got(s, k, f) == Stored(f, True(s.beats, f, From(s, k, f)))
  {
    hide Run;
    RunKeeps(steps, s);
    var i := if f == 8 then 9 * k else 9 * k + 1 + f;
    assert LoadInv(s, i) && FieldOf(i) == f;
    assert s.loads[9 * k].at <= s.loads[i].at;
  }

  /** A later read takes every field from the same beat or a later one. */
  lemma ReadsAdvance(steps: seq<Step>, s: State, k: nat, l: nat, f: nat)
    requires Run(steps, s) && k <= l && IsRead(s, l) && f < 9
    ensures From(s, k, f) <= From(s, l, f)
  {
    hide Run;
    RunKeeps(steps, s);
    var i, j := if f == 8 then 9 * k else 9 * k + 1 + f, if f == 8 then 9 * l else 9 * l + 1 + f;
    assert s.loads[i].at <= s.loads[j].at;
  }

  /** The publisher's side of the bargain for one field. */
  ghost predicate NeverFalls(beats: seq<Beat>, f: nat)
    requires f < 9
  {
    forall m, n :: 0 <= m <= n <= |beats| ==> True(beats, f, m) <= True(beats, f, n)
  }

  lemma TrueAdvances(steps: seq<Step>, s: State, k: nat, l: nat, f: nat)
    requires Run(steps, s) && k <= l && IsRead(s, l) && f < 9 && NeverFalls(s.beats, f)
    ensures From(s, k, f) <= |s.beats| && From(s, l, f) <= |s.beats|
    ensures True(s.beats, f, From(s, k, f)) <= True(s.beats, f, From(s, l, f))
  {
    hide Run;
    FieldsNoOlderThanCount(steps, s, k, f);
    FieldsNoOlderThanCount(steps, s, l, f);
    ReadsAdvance(steps, s, k, l, f);
  }

  /** Times, flags and, short of a wrap, the count never go backwards between two reads. */
  lemma ReadsNeverGoBack(steps: seq<Step>, s: State, k: nat, l: nat, f: nat)
    requires Run(steps, s) && k <= l && IsRead(s, l) && f < 9 && !(2 <= f <= 6)
    requires NeverFalls(s.beats, f) && (f == 8 ==> |s.beats| < 0x1_0000_0000_0000_0000)
    ensures Got(s, k, f) <= Got(s, l, f)
  {
    hide Run;
    TrueAdvances(steps, s, k, l, f);
    FieldsNoOlderThanCount(steps, s, k, f);
    FieldsNoOlderThanCount(steps, s, l, f);
  }

  /** `now.wrapping_sub(prev)` on a truncated counter is the true increase exactly when that is below
      2^32. */
  lemma DeltasAreExact(steps: seq<Step>, s: State, k: nat, l: nat, f: nat)
    requires Run(steps, s) && k <= l && IsRead(s, l) && 2 <= f <= 6 && NeverFalls(s.beats, f)
    ensures From(s, k, f) <= |s.beats| && From(s, l, f) <= |s.beats|
    ensures var increase := True(s.beats, f, From(s, l, f)) - True(s.beats, f, From(s, k, f));
      0 <= increase && ((Got(s, l, f) - Got(s, k, f)) % 0x1_0000_0000 == increase <==> increase < 0x1_0000_0000)
  {
    hide Run;
    TrueAdvances(steps, s, k, l, f);
    FieldsNoOlderThanCount(steps, s, k, f);
    FieldsNoOlderThanCount(steps, s, l, f);
    WrappedDifference(True(s.beats, f, From(s, l, f)), True(s.beats, f, From(s, k, f)), 0x1_0000_0000);
  }

  /** What is read beside a later count is from a beat past the earlier count. */
  lemma MovingCountMovesPayload(steps: seq<Step>, s: State, k: nat, l: nat, f: nat)
    requires Run(steps, s) && k <= l && IsRead(s, l) && f < 8
    requires Got(s, k, 8) != Got(s, l, 8)
    ensures From(s, k, 8) < From(s, l, 8) <= From(s, l, f)
  {
    hide Run;
    FieldsNoOlderThanCount(steps, s, k, 8);
    FieldsNoOlderThanCount(steps, s, l, 8);
    FieldsNoOlderThanCount(steps, s, l, f);
    ReadsAdvance(steps, s, k, l, 8);
  }

  // ---------------------------------------------------------------- what values tell apart

  /** What the publisher promises of every payload field: it never falls and, if it is truncated, has not
      wrapped. A field may be quiet for any number of beats. */
  ghost predicate Steady(beats: seq<Beat>, f: nat)
    requires f < 8
  {
    && NeverFalls(beats, f)
    && (2 <= f <= 6 ==> forall n :: 0 <= n <= |beats| ==> 0 <= True(beats, f, n) < 0x1_0000_0000)
  }

  /** Beat `i` says something new in field `f`. */
  predicate Moves(beats: seq<Beat>, f: nat, i: nat)
    requires f < 8 && 0 < i <= |beats|
  {
    True(beats, f, i - 1) != True(beats, f, i)
  }

  /** A value lasts until the next beat that moves it, and never returns. */
  lemma {:induction false} MovedBetween(beats: seq<Beat>, f: nat, a: nat, b: nat)
    requires f < 8 && NeverFalls(beats, f) && a <= b <= |beats|
    ensures True(beats, f, a) != True(beats, f, b) <==> exists i :: a < i <= b && Moves(beats, f, i)
    decreases b - a
  {
    hide True;
    if a < b {
      var last := b - 1;
      MovedBetween(beats, f, a, last);
      assert True(beats, f, a) <= True(beats, f, last) <= True(beats, f, b);
      assert Moves(beats, f, b) <==> True(beats, f, last) != True(beats, f, b);
    }
  }

  /** Truncation loses nothing a read could be compared by. */
  lemma GotTells(steps: seq<Step>, s: State, k: nat, f: nat, n: nat)
    requires Run(steps, s) && IsRead(s, k) && f < 8 && Steady(s.beats, f) && n <= |s.beats|
    ensures From(s, k, f) <= |s.beats|
    ensures Got(s, k, f) == Stored(f, True(s.beats, f, n)) <==>
      True(s.beats, f, From(s, k, f)) == True(s.beats, f, n)
  {
    hide Run, True, Got, From;
    FieldsNoOlderThanCount(steps, s, k, f);
  }

  // ---------------------------------------------------------------- when a snapshot is a state

  /** Whether beat `n`'s store of field `f` is among the first `c` to reach memory. */
  predicate Committed(f: nat, n: nat, c: nat) {
    n == 0 || 9 * (n - 1) + f < c
  }

  function LoadedAt(s: State, k: nat, f: nat): nat
    requires IsRead(s, k) && f < 9
  {
    s.loads[if f == 8 then 9 * k else 9 * k + 1 + f].at
  }

  lemma CommittedIsSeen(s: State, k: nat, f: nat, n: nat)
    requires IsRead(s, k) && f < 9
    ensures Committed(f, n, LoadedAt(s, k, f)) <==> n <= From(s, k, f)
  {
  }

  /** On the schedule: the read loaded `f` before some beat that moved it had stored it to memory, and `g`
      after that beat or a later one had moved `g` there. */
  ghost predicate Torn(s: State, k: nat, f: nat, g: nat)
    requires IsRead(s, k) && f < 8 && g < 8
  {
    exists i, j :: 1 <= i <= j <= |s.beats| && Moves(s.beats, f, i) && Moves(s.beats, g, j)
      && !Committed(f, i, LoadedAt(s, k, f)) && Committed(g, j, LoadedAt(s, k, g))
  }

  lemma TornBetween(s: State, k: nat, f: nat, g: nat)
    requires IsRead(s, k) && f < 8 && g < 8 && From(s, k, g) <= |s.beats|
    ensures Torn(s, k, f, g) <==>
      exists i, j :: From(s, k, f) < i <= j <= From(s, k, g) && Moves(s.beats, f, i) && Moves(s.beats, g, j)
  {
    hide Committed, From, LoadedAt, Moves;
    forall n: nat
      ensures Committed(f, n, LoadedAt(s, k, f)) <==> n <= From(s, k, f)
      ensures Committed(g, n, LoadedAt(s, k, g)) <==> n <= From(s, k, g)
    {
      CommittedIsSeen(s, k, f, n);
      CommittedIsSeen(s, k, g, n);
    }
  }

  /** The read says of these fields what beat `n` did. */
  ghost predicate Says(s: State, k: nat, fields: set<nat>, n: nat)
    requires IsRead(s, k) && (forall f :: f in fields ==> f < 8) && n <= |s.beats|
  {
    forall f :: f in fields ==> Got(s, k, f) == Stored(f, True(s.beats, f, n))
  }

  ghost predicate IsAState(s: State, k: nat, fields: set<nat>)
    requires IsRead(s, k) && forall f :: f in fields ==> f < 8
  {
    exists n :: 0 <= n <= |s.beats| && Says(s, k, fields, n)
  }

  ghost predicate SomeTorn(s: State, k: nat, fields: set<nat>)
    requires IsRead(s, k) && forall f :: f in fields ==> f < 8
  {
    exists f, g :: f in fields && g in fields && Torn(s, k, f, g)
  }

  /** Any fields of a snapshot are together a state the publisher passed through exactly when no two of
      them are torn. */
  lemma SnapshotIsAStateExactly(steps: seq<Step>, s: State, k: nat, fields: set<nat>)
    requires Run(steps, s) && IsRead(s, k) && forall f :: f in fields ==> f < 8 && Steady(s.beats, f)
    ensures IsAState(s, k, fields) <==> !SomeTorn(s, k, fields)
  {
    hide Run, Steady, Says, Torn, Got;
    if n :| 0 <= n <= |s.beats| && Says(s, k, fields, n) {
      forall f, g | f in fields && g in fields
        ensures !Torn(s, k, f, g)
      {
        StateIsNotTorn(steps, s, k, fields, n, f, g);
      }
    }
    if !SomeTorn(s, k, fields) {
      forall f | f in fields
        ensures From(s, k, f) <= |s.beats|
      {
        FieldsNoOlderThanCount(steps, s, k, f);
      }
      var n := LatestFirst(s, k, fields, fields);
      LatestFirstIsSaid(steps, s, k, fields, n);
    }
  }

  lemma StateIsNotTorn(steps: seq<Step>, s: State, k: nat, fields: set<nat>, n: nat, f: nat, g: nat)
    requires Run(steps, s) && IsRead(s, k) && forall h :: h in fields ==> h < 8 && Steady(s.beats, h)
    requires n <= |s.beats| && Says(s, k, fields, n) && f in fields && g in fields
    ensures !Torn(s, k, f, g)
  {
    hide Run, True, Stored, Got, From, Torn;
    GotTells(steps, s, k, f, n);
    GotTells(steps, s, k, g, n);
    TornBetween(s, k, f, g);
    forall i, j | From(s, k, f) < i <= j <= From(s, k, g) && Moves(s.beats, f, i) && Moves(s.beats, g, j)
      ensures false
    {
      LastsUntilMoved(s.beats, f, From(s, k, f), i, n);
      StartsWhenMoved(s.beats, g, From(s, k, g), j, n);
    }
  }

  /** Before a beat that moves a field lies every beat with a value it had earlier. */
  lemma LastsUntilMoved(beats: seq<Beat>, f: nat, a: nat, i: nat, n: nat)
    requires f < 8 && NeverFalls(beats, f) && a < i <= |beats| && Moves(beats, f, i)
    requires n <= |beats| && True(beats, f, n) == True(beats, f, a)
    ensures n < i
  {
    hide True;
    var last := i - 1;
    assert True(beats, f, a) <= True(beats, f, last) < True(beats, f, i);
  }

  lemma StartsWhenMoved(beats: seq<Beat>, g: nat, b: nat, j: nat, n: nat)
    requires g < 8 && NeverFalls(beats, g) && 0 < j <= b <= |beats| && Moves(beats, g, j)
    requires n <= |beats| && True(beats, g, n) == True(beats, g, b)
    ensures j <= n
  {
    hide True;
    var last := j - 1;
    assert True(beats, g, last) < True(beats, g, j) <= True(beats, g, b);
  }

  /** The first beat at which field `f` had the value it has at beat `a`. */
  function First(beats: seq<Beat>, f: nat, a: nat): (n: nat)
    requires f < 8 && a <= |beats|
    ensures n <= a && True(beats, f, n) == True(beats, f, a)
    ensures n > 0 ==> Moves(beats, f, n)
  {
    if a > 0 && True(beats, f, a - 1) == True(beats, f, a) then First(beats, f, a - 1) else a
  }

  /** The latest of the first beats at which the fields reached what was read of them. */
  lemma {:induction false} LatestFirst(s: State, k: nat, fields: set<nat>, some: set<nat>) returns (n: nat)
    requires IsRead(s, k) && some <= fields
    requires forall f :: f in fields ==> f < 8 && From(s, k, f) <= |s.beats|
    ensures forall f :: f in some ==> First(s.beats, f, From(s, k, f)) <= n
    ensures n == 0 || exists g :: g in some && First(s.beats, g, From(s, k, g)) == n
    decreases |some|
  {
    hide First, From;
    if some == {} { return 0; }
    var f :| f in some;
    n := LatestFirst(s, k, fields, some - {f});
    if n < First(s.beats, f, From(s, k, f)) { n := First(s.beats, f, From(s, k, f)); }
  }

  lemma LatestFirstIsSaid(steps: seq<Step>, s: State, k: nat, fields: set<nat>, n: nat)
    requires Run(steps, s) && IsRead(s, k)
    requires forall f :: f in fields ==> f < 8 && Steady(s.beats, f) && From(s, k, f) <= |s.beats|
    requires !SomeTorn(s, k, fields)
    requires forall f :: f in fields ==> First(s.beats, f, From(s, k, f)) <= n
    requires n == 0 || exists g :: g in fields && First(s.beats, g, From(s, k, g)) == n
    ensures n <= |s.beats| && Says(s, k, fields, n)
  {
    hide Run, True, Stored, Got, From, First, Torn;
    forall f | f in fields
      ensures n <= |s.beats| && Got(s, k, f) == Stored(f, True(s.beats, f, n))
    {
      var a := From(s, k, f);
      if n <= a {
        var first := First(s.beats, f, a);
        assert True(s.beats, f, first) <= True(s.beats, f, n) <= True(s.beats, f, a);
      } else {
        var g :| g in fields && First(s.beats, g, From(s, k, g)) == n;
        assert Moves(s.beats, g, n) && n <= From(s, k, g);
        assert !Torn(s, k, f, g);
        TornBetween(s, k, f, g);
        MovedBetween(s.beats, f, a, n);
      }
      GotTells(steps, s, k, f, n);
    }
  }

  /** Of two fields only the one loaded from the earlier beat can be behind. */
  lemma PairIsAStateExactly(steps: seq<Step>, s: State, k: nat, f: nat, g: nat)
    requires Run(steps, s) && IsRead(s, k) && f < 8 && g < 8 && Steady(s.beats, f) && Steady(s.beats, g)
    requires From(s, k, f) <= From(s, k, g)
    ensures IsAState(s, k, {f, g}) <==> !Torn(s, k, f, g)
  {
    hide Run, Steady, IsAState, From, Torn;
    SnapshotIsAStateExactly(steps, s, k, {f, g});
    forall h, h' | h in {f, g} && h' in {f, g} && Torn(s, k, h, h')
      ensures h == f && h' == g
    {
      FieldsNoOlderThanCount(steps, s, k, h');
      TornBetween(s, k, h, h');
    }
  }

  /** A field that says something new at every beat. */
  ghost predicate Rises(beats: seq<Beat>, f: nat)
    requires f < 8
  {
    Steady(beats, f) && forall i :: 0 < i <= |beats| ==> Moves(beats, f, i)
  }

  /** Fields that move at every beat are a state exactly when they all come from one beat. */
  lemma RisingFieldsNeedOneBeat(steps: seq<Step>, s: State, k: nat, fields: set<nat>)
    requires Run(steps, s) && IsRead(s, k) && forall f :: f in fields ==> f < 8 && Rises(s.beats, f)
    ensures IsAState(s, k, fields) <==>
      forall f, g :: f in fields && g in fields ==> From(s, k, f) == From(s, k, g)
  {
    hide Run, Steady, IsAState, From, Torn, Moves;
    SnapshotIsAStateExactly(steps, s, k, fields);
    forall f, g | f in fields && g in fields
      ensures Torn(s, k, f, g) <==> From(s, k, f) < From(s, k, g)
    {
      FieldsNoOlderThanCount(steps, s, k, g);
      TornBetween(s, k, f, g);
      var j := From(s, k, g);
      if From(s, k, f) < j { assert Moves(s.beats, f, j) && Moves(s.beats, g, j); }
    }
  }

  // ---------------------------------------------------------------- a frozen payload

  /** Some beat that moved the field reached memory between the two loads of it. */
  ghost predicate MovedInMemory(s: State, k: nat, l: nat, f: nat)
    requires IsRead(s, k) && IsRead(s, l) && f < 8
  {
    exists i :: 1 <= i <= |s.beats| && Moves(s.beats, f, i)
      && !Committed(f, i, LoadedAt(s, k, f)) && Committed(f, i, LoadedAt(s, l, f))
  }

  /** A field differs between two reads exactly when a beat that moved it reached memory between the two
      loads; so it does whenever the beat the later read counts has moved it past what the earlier read
      got. */
  lemma FieldMovesExactly(steps: seq<Step>, s: State, k: nat, l: nat, f: nat)
    requires Run(steps, s) && k <= l && IsRead(s, l) && f < 8 && Steady(s.beats, f)
    ensures From(s, k, f) <= From(s, l, f) <= |s.beats| && From(s, l, 8) <= |s.beats|
    ensures Got(s, k, f) != Got(s, l, f) <==> MovedInMemory(s, k, l, f)
    ensures Got(s, k, f) != Got(s, l, f) <==>
      True(s.beats, f, From(s, k, f)) < True(s.beats, f, From(s, l, f))
    ensures True(s.beats, f, From(s, k, f)) < True(s.beats, f, From(s, l, 8)) ==> Got(s, k, f) != Got(s, l, f)
  {
    hide Run, True, Stored, Got, From, Moves;
    FieldsNoOlderThanCount(steps, s, l, f);
    ReadsAdvance(steps, s, k, l, f);
    GotTells(steps, s, k, f, From(s, l, f));
    MovedBetween(s.beats, f, From(s, k, f), From(s, l, f));
    MovedAsLoaded(s, k, l, f);
  }

  lemma MovedAsLoaded(s: State, k: nat, l: nat, f: nat)
    requires IsRead(s, k) && IsRead(s, l) && f < 8 && From(s, l, f) <= |s.beats|
    ensures MovedInMemory(s, k, l, f) <==>
      exists i :: From(s, k, f) < i <= From(s, l, f) && Moves(s.beats, f, i)
  {
    hide Committed, From, LoadedAt, Moves;
    forall n: nat
      ensures Committed(f, n, LoadedAt(s, k, f)) <==> n <= From(s, k, f)
      ensures Committed(f, n, LoadedAt(s, l, f)) <==> n <= From(s, l, f)
    {
      CommittedIsSeen(s, k, f, n);
      CommittedIsSeen(s, l, f, n);
    }
  }

  /** Some beat past the one the earlier read counts, up to the one the later counts, moved the field. */
  ghost predicate MovedAsCounted(s: State, k: nat, l: nat, f: nat)
    requires IsRead(s, k) && IsRead(s, l) && f < 8 && From(s, l, 8) <= |s.beats|
  {
    exists i :: From(s, k, 8) < i <= From(s, l, 8) && Moves(s.beats, f, i)
  }

  /** The misleading reading: the count moves, over beats that moved the field, and the field does not. It
      is made exactly when none of the beats that moved the field reached memory between its two loads;
      the earlier read had then already got all that the later one counts. */
  lemma FrozenExactly(steps: seq<Step>, s: State, k: nat, l: nat, f: nat)
    requires Run(steps, s) && k <= l && IsRead(s, l) && f < 8 && Steady(s.beats, f)
    requires |s.beats| < 0x1_0000_0000_0000_0000
    ensures From(s, k, f) <= |s.beats| && From(s, l, 8) <= |s.beats|
    ensures Got(s, k, 8) != Got(s, l, 8) && MovedAsCounted(s, k, l, f) && Got(s, k, f) == Got(s, l, f)
        <==> MovedAsCounted(s, k, l, f) && !MovedInMemory(s, k, l, f)
    ensures Got(s, k, f) == Got(s, l, f) ==>
      True(s.beats, f, From(s, l, 8)) <= True(s.beats, f, From(s, k, f))
  {
    hide Run, Steady, Moves, MovedInMemory, Got, From, True;
    FieldsNoOlderThanCount(steps, s, l, 8);
    FieldMovesExactly(steps, s, k, l, f);
    CountMoves(steps, s, k, l);
  }

  lemma CountMoves(steps: seq<Step>, s: State, k: nat, l: nat)
    requires Run(steps, s) && k <= l && IsRead(s, l) && |s.beats| < 0x1_0000_0000_0000_0000
    ensures Got(s, k, 8) == From(s, k, 8) <= From(s, l, 8) == Got(s, l, 8)
  {
    hide Run, Got, From;
    FieldsNoOlderThanCount(steps, s, k, 8);
    FieldsNoOlderThanCount(steps, s, l, 8);
    ReadsAdvance(steps, s, k, l, 8);
  }

  /** A read's payload is at most one beat ahead of the count any later read reports. */
  lemma PayloadOneAhead(steps: seq<Step>, s: State, k: nat, l: nat, f: nat)
    requires Run(steps, s) && k < l && IsRead(s, l) && f < 8
    ensures From(s, k, f) <= From(s, l, 8) + 1
  {
    hide Run;
    RunKeeps(steps, s);
    assert s.loads[9 * k + 1 + f].at <= s.loads[9 * l].at;
  }

  /** It does not last: a beat that moved the field, two or more past the count of some later read and
      counted by the last, is seen to have moved it since the first. */
  lemma FrozenNoLonger(steps: seq<Step>, s: State, k: nat, l: nat, m: nat, f: nat, i: nat)
    requires Run(steps, s) && k < l <= m && IsRead(s, m) && f < 8 && Steady(s.beats, f)
    requires From(s, l, 8) + 2 <= i <= From(s, m, 8) && i <= |s.beats| && Moves(s.beats, f, i)
    ensures Got(s, k, f) != Got(s, m, f)
  {
    hide Run, Steady, Moves, MovedInMemory, Got, From, True;
    PayloadOneAhead(steps, s, k, l, f);
    FieldsNoOlderThanCount(steps, s, m, f);
    FieldMovesExactly(steps, s, k, m, f);
    MovedAsLoaded(s, k, m, f);
  }

  /** So from the counts alone: once the count has moved by two since some later read, a field that moves
      at every beat no longer says what the earlier read got. */
  lemma RisingFrozenNoLonger(steps: seq<Step>, s: State, k: nat, l: nat, m: nat, f: nat)
    requires Run(steps, s) && k < l <= m && IsRead(s, m) && f < 8 && Rises(s.beats, f)
    requires |s.beats| < 0x1_0000_0000_0000_0000 && Got(s, m, 8) - Got(s, l, 8) >= 2
    ensures Got(s, k, f) != Got(s, m, f)
  {
    hide Run, Steady, Got, From;
    CountMoves(steps, s, l, m);
    FieldsNoOlderThanCount(steps, s, m, 8);
    FrozenNoLonger(steps, s, k, l, m, f, From(s, m, 8));
  }

  // ---------------------------------------------------------------- a read may mix beats

  lemma Extend(steps: seq<Step>, s: State, step: Step)
    requires Run(steps, s) && Enabled(s, step)
    ensures Run(steps + [step], Do(s, step))
  {
    var all := steps + [step];
    assert all[..|all| - 1] == steps && all[|all| - 1] == step;
    assert Run(all[..|all| - 1], s) && Enabled(s, all[|all| - 1]) && Do(s, step) == Do(s, all[|all| - 1]);
  }

  lemma DrainAll(steps: seq<Step>, s: State) returns (steps': seq<Step>, s': State)
    requires Run(steps, s)
    ensures Run(steps', s') && s'.buf == [] && s'.next == s.next && s'.beats == s.beats && s'.loads == s.loads
    ensures s'.committed == s.committed + |s.buf|
  {
    hide Run, Inv;
    steps', s' := steps, s;
    while s'.buf != []
      invariant Run(steps', s') && s'.next == s.next && s'.beats == s.beats && s'.loads == s.loads
      invariant s'.committed + |s'.buf| == s.committed + |s.buf|
      decreases |s'.buf|
    {
      RunKeeps(steps', s');
      MemoryShape(s');
      Extend(steps', s', Commit);
      steps', s' := steps' + [Commit], Do(s', Commit);
    }
  }

  /** A beat's payload stored and committed, its count not yet. */
  lemma PayloadOnly(steps: seq<Step>, s: State, b: Beat) returns (steps': seq<Step>, s': State)
    requires Run(steps, s) && s.next == 9 && s.buf == []
    ensures Run(steps', s') && s'.next == 8 && s'.buf == []
    ensures s'.beats == s.beats + [b] && s'.loads == s.loads && s'.committed == s.committed + 8
  {
    hide Run, Inv, Stored, OwnCount;
    Extend(steps, s, Begin(b));
    steps', s' := steps + [Begin(b)], Do(s, Begin(b));
    while s'.next < 8
      invariant Run(steps', s') && s'.next <= 8 && |s'.buf| == s'.next && s'.committed == s.committed
      invariant s'.beats == s.beats + [b] && s'.loads == s.loads
      decreases 8 - s'.next
    {
      Extend(steps', s', StoreField);
      steps', s' := steps' + [StoreField], Do(s', StoreField);
    }
    steps', s' := DrainAll(steps', s');
  }

  lemma ThenCount(steps: seq<Step>, s: State) returns (steps': seq<Step>, s': State)
    requires Run(steps, s) && s.next == 8 && s.buf == []
    ensures Run(steps', s') && s'.next == 9 && s'.buf == []
    ensures s'.beats == s.beats && s'.loads == s.loads && s'.committed == s.committed + 1
  {
    hide Run, Inv, Stored, OwnCount;
    RunKeeps(steps, s);
    MemoryShape(s);
    Extend(steps, s, StoreCount);
    steps', s' := DrainAll(steps + [StoreCount], Do(s, StoreCount));
  }

  lemma MemoryShape(s: State)
    requires Inv(s)
    ensures |s.mem| == 9 && (s.buf != [] ==> s.buf[0].field < 9)
  {
    if s.buf != [] { assert s.buf[0] == Nth(s.beats, s.committed + 0); }
  }

  lemma SomeLoads(steps: seq<Step>, s: State, n: nat) returns (steps': seq<Step>, s': State)
    requires Run(steps, s)
    ensures Run(steps', s') && s'.(loads := s.loads) == s && |s'.loads| == |s.loads| + n
    ensures forall i :: 0 <= i < |s.loads| ==> s'.loads[i] == s.loads[i]
    ensures forall i :: |s.loads| <= i < |s'.loads| ==> s'.loads[i].at == s.committed
  {
    hide Run, Inv;
    steps', s' := steps, s;
    while |s'.loads| < |s.loads| + n
      invariant Run(steps', s') && s'.(loads := s.loads) == s && |s.loads| <= |s'.loads| <= |s.loads| + n
      invariant forall i :: 0 <= i < |s.loads| ==> s'.loads[i] == s.loads[i]
      invariant forall i :: |s.loads| <= i < |s'.loads| ==> s'.loads[i].at == s.committed
    {
      RunKeeps(steps', s');
      MemoryShape(s');
      Extend(steps', s', LoadField);
      steps', s' := steps' + [LoadField], Do(s', LoadField);
    }
  }

  /** Monotone counters or not, a snapshot need not be a state the publisher passed through: here it
      reports one slice published beside two coalesced, which no beat ever said. */
  lemma SnapshotMayMixBeats() returns (steps: seq<Step>, s: State)
    ensures Run(steps, s) && IsRead(s, 0) && (forall f :: 0 <= f < 8 ==> Steady(s.beats, f))
    ensures Got(s, 0, 2) == 1 && Got(s, 0, 3) == 2 && !IsAState(s, 0, {2, 3})
  {
    hide Inv, Do, Enabled;
    var one, two := Beat(0, 0, 1, 1, 0, 0, 0, false), Beat(0, 0, 2, 2, 0, 0, 0, false);
    steps, s := PayloadOnly([], Init(), one);
    steps, s := ThenCount(steps, s);
    steps, s := SomeLoads(steps, s, 4);
    steps, s := PayloadOnly(steps, s, two);
    steps, s := ThenCount(steps, s);
    steps, s := SomeLoads(steps, s, 5);
    assert s.beats == [one, two];
    TwoSteady(one, two);
    OneBesideTwo(steps, s, one, two);
  }

  lemma TwoSteady(one: Beat, two: Beat)
    requires one == Beat(0, 0, 1, 1, 0, 0, 0, false) && two == Beat(0, 0, 2, 2, 0, 0, 0, false)
    ensures forall f :: 0 <= f < 8 ==> Steady([one, two], f)
  {
  }

  lemma OneBesideTwo(steps: seq<Step>, s: State, one: Beat, two: Beat)
    requires Run(steps, s) && s.beats == [one, two] && |s.loads| == 9
    requires one == Beat(0, 0, 1, 1, 0, 0, 0, false) && two == Beat(0, 0, 2, 2, 0, 0, 0, false)
    requires s.loads[3].at == 9 && s.loads[4].at == 18
    ensures Got(s, 0, 2) == 1 && Got(s, 0, 3) == 2 && !IsAState(s, 0, {2, 3})
  {
    hide Run, Got;
    FieldsNoOlderThanCount(steps, s, 0, 2);
    FieldsNoOlderThanCount(steps, s, 0, 3);
    assert From(s, 0, 2) == 1 && From(s, 0, 3) == 2;
    forall n | 0 <= n <= |s.beats|
      ensures !Says(s, 0, {2, 3}, n)
    {
      assert 2 in {2, 3} && 3 in {2, 3};
      assert True(s.beats, 2, n) == True(s.beats, 3, n) == n;
    }
  }

  /** And a count can move beside a payload that does not, though every field rises: the first read takes
      its count from beat one and, beat two's payload having been stored meanwhile, its payload from beat
      two; the second finds beat two counted. */
  lemma CountMayMoveAlone() returns (steps: seq<Step>, s: State)
    ensures Run(steps, s) && IsRead(s, 1) && forall f :: 0 <= f < 7 ==> Rises(s.beats, f)
    ensures Got(s, 0, 8) == 1 && Got(s, 1, 8) == 2
    ensures forall f :: 0 <= f < 8 ==> Got(s, 0, f) == Got(s, 1, f)
  {
    hide Inv, Do, Enabled;
    var one, two := Beat(1, 1, 1, 1, 1, 1, 1, false), Beat(2, 2, 2, 2, 2, 2, 2, false);
    steps, s := PayloadOnly([], Init(), one);
    steps, s := ThenCount(steps, s);
    steps, s := SomeLoads(steps, s, 1);
    steps, s := PayloadOnly(steps, s, two);
    steps, s := SomeLoads(steps, s, 8);
    steps, s := ThenCount(steps, s);
    steps, s := SomeLoads(steps, s, 9);
    assert s.beats == [one, two];
    BothRise(one, two);
    CountMoved(steps, s, one, two);
  }

  lemma BothRise(one: Beat, two: Beat)
    requires one == Beat(1, 1, 1, 1, 1, 1, 1, false) && two == Beat(2, 2, 2, 2, 2, 2, 2, false)
    ensures forall f :: 0 <= f < 7 ==> Rises([one, two], f)
  {
  }

  lemma CountMoved(steps: seq<Step>, s: State, one: Beat, two: Beat)
    requires Run(steps, s) && s.beats == [one, two] && |s.loads| == 18
    requires s.loads[0].at == 9 && (forall i :: 1 <= i < 9 ==> s.loads[i].at == 17)
    requires forall i :: 9 <= i < 18 ==> s.loads[i].at == 18
    ensures Got(s, 0, 8) == 1 && Got(s, 1, 8) == 2
    ensures forall f :: 0 <= f < 8 ==> Got(s, 0, f) == Got(s, 1, f)
  {
    hide Run, Got;
    FieldsNoOlderThanCount(steps, s, 0, 8);
    FieldsNoOlderThanCount(steps, s, 1, 8);
    forall f | 0 <= f < 8
      ensures Got(s, 0, f) == Got(s, 1, f)
    {
      FieldsNoOlderThanCount(steps, s, 0, f);
      FieldsNoOlderThanCount(steps, s, 1, f);
      assert From(s, 0, f) == 2 && From(s, 1, f) == 2;
    }
  }

  // ---------------------------------------------------------------- one process

  /** What a read hands back, by name. */
  datatype Snapshot = Snapshot(
    beats: int, lastEventNs: int, lastBeatNs: int,
    published: int, coalesced: int, dropped: int, barsPublished: int, staleQuote: int, flags: int)
  {
    predicate Running() { flags % 2 == 1 }

    predicate Stopped() { flags / 2 % 2 == 1 }
  }

  /** The page as one process sees it: the publisher's calls and the reader's, in turn. */
  class Page {
    const words: array<int>
    ghost var history: seq<Beat>

    ghost predicate Valid()
      reads this, words
    {
      words.Length == 9 && forall f :: 0 <= f < 9 ==> words[f] == Stored(f, True(history, f, |history|))
    }

    constructor Create()
      ensures Valid() && history == [] && fresh(words)
    {
      words := new int[9];
      history := [];
      new;
      for f := 0 to 9
        invariant history == []
        invariant forall g :: 0 <= g < f ==> words[g] == if g == 7 then FLAG_RUNNING else 0
      {
        words[f] := if f == 7 then FLAG_RUNNING else 0;
      }
    }

    method Publish(b: Beat) returns (beats: int)
      requires Valid()
      modifies this, words
      ensures Valid() && history == old(history) + [b]
      ensures beats == |history| % 0x1_0000_0000_0000_0000
    {
      words[0] := b.lastEventNs;
      words[1] := b.wallNs;
      words[2] := b.published % 0x1_0000_0000;
      words[3] := b.coalesced % 0x1_0000_0000;
      words[4] := b.dropped % 0x1_0000_0000;
      words[5] := b.barsPublished % 0x1_0000_0000;
      words[6] := b.staleQuote % 0x1_0000_0000;
      words[7] := if b.stopped then FLAG_STOPPED else FLAG_RUNNING;
      beats := (words[8] + 1) % 0x1_0000_0000_0000_0000;
      words[8] := beats;
      history := history + [b];
    }

    /** With nothing running beside it, a read says of the last beat, name by name, what was published. */
    method Read() returns (r: Snapshot)
      requires Valid()
      ensures r.beats == |history| % 0x1_0000_0000_0000_0000
      ensures history != [] ==>
        var b := history[|history| - 1];
        && r.lastEventNs == b.lastEventNs && r.lastBeatNs == b.wallNs
        && r.published == b.published % 0x1_0000_0000 && r.coalesced == b.coalesced % 0x1_0000_0000
        && r.dropped == b.dropped % 0x1_0000_0000 && r.barsPublished == b.barsPublished % 0x1_0000_0000
        && r.staleQuote == b.staleQuote % 0x1_0000_0000
        && (r.Stopped() <==> b.stopped) && (r.Running() <==> !b.stopped)
      ensures history == [] ==> r.lastEventNs == r.lastBeatNs == 0 && r.Running() && !r.Stopped()
    {
      var beats := words[8];
      r := Snapshot(beats, words[0], words[1], words[2], words[3], words[4], words[5], words[6], words[7]);
      assert words[7] == if history != [] && history[|history| - 1].stopped then FLAG_STOPPED else FLAG_RUNNING;
    }
  }
}
