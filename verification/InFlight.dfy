/** Which symbols have an intent at the venue: a bitset driven by atomic read-modify-writes from two
    threads, and one slot shared by every symbol past its end.
 */
module InFlight {

  const CAPACITY: nat := 4096
  const WORDS: nat := 64

  // ---------------------------------------------------------------- bits

  function Shifted(k: bv6): bv64 {
    (1 as bv64) << k
  }

  function Bit(k: nat): bv64
    requires k < 64
  {
    Shifted(k as bv6)
  }

  lemma ShiftsDisjoint(j: bv6, k: bv6)
    ensures Shifted(k) != 0
    ensures j != k ==> Shifted(j) & Shifted(k) == 0
  {
  }

  lemma NarrowIsExact(j: nat, k: nat)
    requires j < 64 && k < 64 && j != k
    ensures j as bv6 != k as bv6
  {
    WideAgain(j);
    WideAgain(k);
  }

  lemma WideAgain(j: nat)
    requires j < 64
    ensures (j as bv6) as nat == j
  {
  }

  lemma BitsDisjoint(j: nat, k: nat)
    requires j < 64 && k < 64
    ensures Bit(k) != 0 && (j != k ==> And(Bit(j), Bit(k)) == 0)
  {
    hide Shifted;
    if j != k { NarrowIsExact(j, k); }
    ShiftsDisjoint(j as bv6, k as bv6);
  }

  function And(w: bv64, b: bv64): bv64 { w & b }

  function Or(w: bv64, b: bv64): bv64 { w | b }

  function AndNot(w: bv64, b: bv64): bv64 { w & !b }

  predicate IsSet(w: bv64, k: nat)
    requires k < 64
  {
    And(w, Bit(k)) != 0
  }

  function SetBit(w: bv64, k: nat): bv64
    requires k < 64
  {
    Or(w, Bit(k))
  }

  function ClearBit(w: bv64, k: nat): bv64
    requires k < 64
  {
    AndNot(w, Bit(k))
  }

  lemma OrApart(w: bv64, b: bv64, c: bv64)
    requires And(b, c) == 0
    ensures And(Or(w, b), c) == And(w, c)
  {
  }

  lemma AndApart(w: bv64, b: bv64, c: bv64)
    requires And(b, c) == 0
    ensures And(AndNot(w, b), c) == And(w, c)
  {
  }

  lemma OrOwn(w: bv64, b: bv64)
    ensures And(Or(w, b), b) == b
  {
  }

  lemma AndOwn(w: bv64, b: bv64)
    ensures And(AndNot(w, b), b) == 0
  {
  }

  lemma OwnBit(w: bv64, k: nat)
    requires k < 64
    ensures IsSet(SetBit(w, k), k) && !IsSet(ClearBit(w, k), k)
  {
    hide Bit, And, Or, AndNot;
    BitsDisjoint(k, k);
    OrOwn(w, Bit(k));
    AndOwn(w, Bit(k));
  }

  lemma OtherBit(w: bv64, k: nat, j: nat)
    requires k < 64 && j < 64 && j != k
    ensures IsSet(SetBit(w, k), j) == IsSet(w, j) == IsSet(ClearBit(w, k), j)
  {
    hide Bit, And, Or, AndNot;
    BitsDisjoint(k, j);
    OrApart(w, Bit(k), Bit(j));
    AndApart(w, Bit(k), Bit(j));
  }

  lemma NoBitInZero(j: nat)
    requires j < 64
    ensures !IsSet(0, j)
  {
    hide Bit;
  }

  /** The bits set among the first `n` of a word. */
  function Ones(w: bv64, n: nat): nat
    requires n <= 64
  {
    if n == 0 then 0 else Ones(w, n - 1) + (if IsSet(w, n - 1) then 1 else 0)
  }

  // ---------------------------------------------------------------- the set the words stand for

  type Words = w: seq<bv64> | |w| == WORDS witness seq(WORDS, _ => 0)

  predicate Has(words: Words, id: nat)
    requires id < CAPACITY
  {
    IsSet(words[id / 64], id % 64)
  }

  ghost function Members(words: Words): set<nat> {
    set id | 0 <= id < CAPACITY && Has(words, id)
  }

  /** Two symbols of the set never share a bit. */
  lemma SymbolsNeverAlias(a: nat, b: nat)
    requires a < CAPACITY && b < CAPACITY && a != b
    ensures a / 64 != b / 64 || And(Bit(a % 64), Bit(b % 64)) == 0
  {
    if a / 64 == b / 64 { BitsDisjoint(a % 64, b % 64); }
  }

  function Added(words: Words, id: nat): Words
    requires id < CAPACITY
  {
    words[id / 64 := SetBit(words[id / 64], id % 64)]
  }

  function Removed(words: Words, id: nat): Words
    requires id < CAPACITY
  {
    words[id / 64 := ClearBit(words[id / 64], id % 64)]
  }

  lemma OrHas(words: Words, id: nat, other: nat)
    requires id < CAPACITY && other < CAPACITY
    ensures Has(Added(words, id), other) <==> Has(words, other) || other == id
    ensures Has(Removed(words, id), other) <==> Has(words, other) && other != id
  {
    hide IsSet, SetBit, ClearBit;
    if other / 64 == id / 64 {
      if other == id { OwnBit(words[id / 64], id % 64); } else { OtherBit(words[id / 64], id % 64, other % 64); }
    }
  }

  /** `fetch_or` adds exactly the symbol, `fetch_and` removes exactly it. */
  lemma BitIsMember(words: Words, id: nat)
    requires id < CAPACITY
    ensures Members(Added(words, id)) == Members(words) + {id}
    ensures Members(Removed(words, id)) == Members(words) - {id}
  {
    hide Has, Added, Removed;
    forall other | 0 <= other < CAPACITY
      ensures Has(Added(words, id), other) <==> Has(words, other) || other == id
      ensures Has(Removed(words, id), other) <==> Has(words, other) && other != id
    {
      OrHas(words, id, other);
    }
  }

  lemma ZeroedHas(words: Words, i: nat, other: nat)
    requires i < WORDS && other < CAPACITY
    ensures Has(words[i := 0], other) <==> Has(words, other) && other / 64 != i
  {
    hide IsSet;
    NoBitInZero(other % 64);
  }

  lemma WordCleared(words: Words, i: nat)
    requires i < WORDS
    ensures Members(words[i := 0]) == set id | id in Members(words) && id / 64 != i
  {
    hide Has;
    var left := set id | id in Members(words) && id / 64 != i;
    forall other: nat
      ensures other in Members(words[i := 0]) <==> other in left
    {
      if other < CAPACITY { ZeroedHas(words, i, other); }
    }
  }

  // ---------------------------------------------------------------- atomic steps

  /** The atomics; `overflow` is 0 or 1. */
  datatype State = State(words: Words, overflow: nat, completed: nat, coarseClaims: nat)

  function New(): State {
    State(seq(WORDS, _ => 0), 0, 0, 0)
  }

  /** One atomic operation of some thread. A call past the bound counts and then swaps, and a release
      clears and then counts, so other threads' operations may fall in between. */
  datatype Step =
    | TryClaim(symbol: nat)
    | CountCoarse
    | Free(symbol: nat)
    | CountRelease
    | ClearWord(i: nat)
    | ClearOverflow
  {
    predicate Valid() { ClearWord? ==> i < WORDS }
  }

  function Do(s: State, step: Step): State
    requires step.Valid()
  {
    match step
    case TryClaim(symbol) =>
      if symbol < CAPACITY then s.(words := Added(s.words, symbol))
      else if s.overflow == 0 then s.(overflow := 1) else s
    case CountCoarse => s.(coarseClaims := s.coarseClaims + 1)
    case Free(symbol) => if symbol < CAPACITY then s.(words := Removed(s.words, symbol)) else s.(overflow := 0)
    case CountRelease => s.(completed := s.completed + 1)
    case ClearWord(i) => s.(words := s.words[i := 0])
    case ClearOverflow => s.(overflow := 0)
  }

  /** What the caller of a claim is told: the bit was clear, or the exchange succeeded. */
  predicate Won(s: State, symbol: nat) {
    if symbol < CAPACITY then !IsSet(s.words[symbol / 64], symbol % 64) else s.overflow == 0
  }

  ghost predicate AllValid(steps: seq<Step>) {
    forall i :: 0 <= i < |steps| ==> steps[i].Valid()
  }

  function Run(s: State, steps: seq<Step>): State
    requires AllValid(steps)
  {
    if steps == [] then s else Do(Run(s, steps[..|steps| - 1]), steps[|steps| - 1])
  }

  // ---------------------------------------------------------------- refinement to a set

  /** The abstract object: the symbols in flight, and whether one past the bound is. */
  datatype Abstract = Abstract(members: set<nat>, taken: bool)

  ghost function Meaning(s: State): Abstract {
    Abstract(Members(s.words), s.overflow != 0)
  }

  ghost function Effect(a: Abstract, step: Step): Abstract {
    match step
    case TryClaim(symbol) => if symbol < CAPACITY then a.(members := a.members + {symbol}) else a.(taken := true)
    case Free(symbol) => if symbol < CAPACITY then a.(members := a.members - {symbol}) else a.(taken := false)
    case ClearWord(i) => a.(members := set id | id in a.members && id / 64 != i)
    case ClearOverflow => a.(taken := false)
    case _ => a
  }

  /** Each atomic step is the set operation of the same name, and a claim is won exactly when the symbol
      was absent. */
  lemma StepRefinesSet(s: State, step: Step)
    requires step.Valid()
    ensures Meaning(Do(s, step)) == Effect(Meaning(s), step)
    ensures step.TryClaim? ==>
      (Won(s, step.symbol) <==>
        if step.symbol < CAPACITY then step.symbol !in Meaning(s).members else !Meaning(s).taken)
  {
    hide Members, Added, Removed;
    match step
    case TryClaim(symbol) => if symbol < CAPACITY { BitIsMember(s.words, symbol); WonExactly(s.words, symbol); }
    case Free(symbol) => if symbol < CAPACITY { BitIsMember(s.words, symbol); }
    case ClearWord(i) => WordCleared(s.words, i);
    case _ =>
  }

  lemma WonExactly(words: Words, symbol: nat)
    requires symbol < CAPACITY
    ensures !IsSet(words[symbol / 64], symbol % 64) <==> symbol !in Members(words)
  {
    hide IsSet;
    assert symbol in Members(words) <==> Has(words, symbol);
  }

  /** Whether `symbol`'s slot is occupied. */
  ghost predicate Occupied(a: Abstract, symbol: nat) {
    if symbol < CAPACITY then symbol in a.members else a.taken
  }

  /** The steps that empty `symbol`'s slot. */
  predicate Frees(step: Step, symbol: nat) {
    match step
    case Free(other) => if symbol < CAPACITY then other == symbol else other >= CAPACITY
    case ClearWord(i) => symbol < CAPACITY && symbol / 64 == i
    case ClearOverflow => symbol >= CAPACITY
    case _ => false
  }

  lemma {:induction false} StaysOccupied(s: State, steps: seq<Step>, symbol: nat)
    requires AllValid(steps) && Occupied(Meaning(s), symbol)
    requires forall k :: 0 <= k < |steps| ==> !Frees(steps[k], symbol)
    ensures Occupied(Meaning(Run(s, steps)), symbol)
  {
    hide Meaning, Do;
    if steps != [] {
      StaysOccupied(s, steps[..|steps| - 1], symbol);
      StepRefinesSet(Run(s, steps[..|steps| - 1]), steps[|steps| - 1]);
    }
  }

  lemma {:induction false} RunInTwo(s: State, a: seq<Step>, b: seq<Step>)
    requires AllValid(a) && AllValid(b)
    ensures AllValid(a + b) && Run(s, a + b) == Run(Run(s, a), b)
  {
    hide Do;
    if b == [] {
      assert a + b == a;
    } else {
      RunInTwo(s, a, b[..|b| - 1]);
      assert (a + b)[..|a + b| - 1] == a + b[..|b| - 1];
    }
  }

  lemma RunNext(s: State, steps: seq<Step>, i: nat)
    requires AllValid(steps) && i < |steps|
    ensures Run(s, steps[..i + 1]) == Do(Run(s, steps[..i]), steps[i])
  {
    hide Do;
    assert steps[..i + 1][..i] == steps[..i];
  }

  /** In every interleaving, between two claims won for one symbol some step freed it: one target never
      becomes two orders. */
  lemma NoSecondClaim(s: State, steps: seq<Step>, i: nat, j: nat, symbol: nat)
    requires AllValid(steps) && i < j < |steps| && steps[i] == TryClaim(symbol) == steps[j]
    requires Won(Run(s, steps[..i]), symbol) && Won(Run(s, steps[..j]), symbol)
    ensures exists k :: i < k < j && Frees(steps[k], symbol)
  {
    hide Meaning, Won, Frees, Do, Run;
    if forall k :: i < k < j ==> !Frees(steps[k], symbol) {
      var before, between := steps[..i + 1], steps[i + 1..j];
      assert before + between == steps[..j];
      RunInTwo(s, before, between);
      var after := Run(s, before);
      RunNext(s, steps, i);
      StepRefinesSet(Run(s, steps[..i]), steps[i]);
      assert forall k :: 0 <= k < |between| ==> between[k] == steps[i + 1 + k];
      StaysOccupied(after, between, symbol);
      StepRefinesSet(Run(s, steps[..j]), steps[j]);
    }
  }

  // ---------------------------------------------------------------- past the bound

  /** The symbols past the bound whose claim was won and who have not freed it since. */
  function Admitted(s: State, steps: seq<Step>): set<nat>
    requires AllValid(steps)
  {
    if steps == [] then {}
    else
      var before, last := Admitted(s, steps[..|steps| - 1]), steps[|steps| - 1];
      match last
      case TryClaim(symbol) =>
        if symbol >= CAPACITY && Won(Run(s, steps[..|steps| - 1]), symbol) then before + {symbol} else before
      case Free(symbol) => before - {symbol}
      case ClearOverflow => {}
      case _ => before
  }

  /** No step frees the shared slot from under another symbol; a release into an empty slot is harmless. */
  ghost predicate NoneFreedByOthers(steps: seq<Step>)
    requires AllValid(steps)
  {
    forall k :: 0 <= k < |steps| && steps[k].Free? && steps[k].symbol >= CAPACITY ==>
      Admitted(New(), steps[..k]) <= {steps[k].symbol}
  }

  /** The shared slot says how many symbols past the bound are admitted, and never more than one is. */
  ghost predicate Truthful(steps: seq<Step>)
    requires AllValid(steps)
  {
    |Admitted(New(), steps)| == Run(New(), steps).overflow <= 1
  }

  lemma {:induction false} AdmittedAreCoarse(steps: seq<Step>)
    requires AllValid(steps)
    ensures forall x :: x in Admitted(New(), steps) ==> x >= CAPACITY
  {
    hide Run, Won;
    if steps != [] { AdmittedAreCoarse(steps[..|steps| - 1]); }
  }

  lemma AtMost(held: set<nat>, x: nat)
    ensures |held - {x}| == 0 <==> held <= {x}
    ensures x in held && |held| <= 1 ==> held == {x}
  {
    assert held - {x} == {} <==> held <= {x};
    if x in held { assert held == held - {x} + {x}; }
  }

  /** One step further: the slot stays truthful unless the step frees it from under another symbol. */
  lemma TruthfulStep(steps: seq<Step>, step: Step)
    requires AllValid(steps) && step.Valid() && Truthful(steps)
    ensures AllValid(steps + [step])
    ensures Truthful(steps + [step]) <==>
      (step.Free? && step.symbol >= CAPACITY ==> Admitted(New(), steps) <= {step.symbol})
  {
    hide Added, Removed;
    var held := Admitted(New(), steps);
    assert (steps + [step])[..|steps|] == steps;
    AdmittedAreCoarse(steps);
    if step.Free? {
      AtMost(held, step.symbol);
      assert step.symbol !in held ==> held - {step.symbol} == held;
    } else if step.TryClaim? && Won(Run(New(), steps), step.symbol) && step.symbol >= CAPACITY {
      assert held == {};
    }
  }

  /** Past the bound, on every run: the slot is truthful all the way through exactly when no release frees
      it from under another symbol. */
  lemma {:induction false} TruthfulExactly(steps: seq<Step>)
    requires AllValid(steps)
    ensures (forall k :: 0 <= k <= |steps| ==> Truthful(steps[..k])) <==> NoneFreedByOthers(steps)
  {
    hide Truthful, Run, Admitted;
    assert steps[..|steps|] == steps;
    if steps == [] {
      NothingAdmitted();
    } else {
      var front, last := steps[..|steps| - 1], steps[|steps| - 1];
      TruthfulExactly(front);
      assert forall k :: 0 <= k <= |front| ==> front[..k] == steps[..k];
      assert steps == front + [last] && front[..|front|] == front;
      if Truthful(front) { TruthfulStep(front, last); }
    }
  }

  lemma NothingAdmitted()
    ensures Truthful([])
  {
  }

  /** So while no release frees the slot from under another symbol, at most one is admitted. */
  lemma AtMostOneAdmitted(steps: seq<Step>)
    requires AllValid(steps) && NoneFreedByOthers(steps)
    ensures |Admitted(New(), steps)| == Run(New(), steps).overflow <= 1
    ensures forall symbol :: symbol in Admitted(New(), steps) ==> symbol >= CAPACITY
  {
    hide Run, Admitted;
    TruthfulExactly(steps);
    AdmittedAreCoarse(steps);
    assert Truthful(steps[..|steps|]) && steps[..|steps|] == steps;
  }

  /** A release by a symbol that holds nothing lets a second one in. */
  lemma StrangersReleaseAdmitsTwo()
    ensures var steps := [TryClaim(5000), Free(6000), TryClaim(6000)];
      AllValid(steps) && Admitted(New(), steps) == {5000, 6000}
  {
    hide Added, Removed;
    var one := [TryClaim(5000)];
    var two := [TryClaim(5000), Free(6000)];
    var steps := [TryClaim(5000), Free(6000), TryClaim(6000)];
    assert one[..0] == [] && two[..1] == one && steps[..2] == two;
    assert Admitted(New(), one) == {5000};
    assert Admitted(New(), two) == {5000} - {6000};
    assert Run(New(), one) == New().(overflow := 1);
    assert Run(New(), two).overflow == 0;
  }

  // ---------------------------------------------------------------- counting

  /** The members below `n`. */
  ghost function Below(words: Words, n: nat): set<nat>
    requires n <= CAPACITY
  {
    if n == 0 then {} else Below(words, n - 1) + (if Has(words, n - 1) then {n - 1} else {})
  }

  lemma {:induction false} BelowMembers(words: Words, n: nat)
    requires n <= CAPACITY
    ensures forall id: nat :: id in Below(words, n) <==> id < n && Has(words, id)
  {
    hide Has;
    if n > 0 { BelowMembers(words, n - 1); }
  }

  lemma NothingBelow(words: Words)
    ensures Below(words, 0) == {}
  {
  }

  lemma AllBelow(words: Words)
    ensures Below(words, CAPACITY) == Members(words)
  {
    hide Has, Below;
    BelowMembers(words, CAPACITY);
  }

  lemma BelowNext(words: Words, id: nat)
    requires id < CAPACITY
    ensures |Below(words, id + 1)| == |Below(words, id)| + if Has(words, id) then 1 else 0
  {
    hide Has;
    BelowMembers(words, id);
    assert id !in Below(words, id);
  }

  lemma HasAt(words: Words, i: nat, k: nat)
    requires i < WORDS && k < 64
    ensures Has(words, 64 * i + k) <==> IsSet(words[i], k)
  {
    hide IsSet;
    assert (64 * i + k) / 64 == i && (64 * i + k) % 64 == k;
  }

  /** One word's share. */
  lemma {:induction false} BelowWord(words: Words, i: nat, n: nat)
    requires i < WORDS && n <= 64
    ensures |Below(words, 64 * i + n)| == |Below(words, 64 * i)| + Ones(words[i], n)
  {
    hide IsSet, Has, Below;
    if n > 0 {
      BelowWord(words, i, n - 1);
      BelowNext(words, 64 * i + (n - 1));
      HasAt(words, i, n - 1);
    }
  }

  /** The object, with one thread calling it. */
  class Slots {
    const words: array<bv64>
    var overflow: nat
    var completed: nat
    var coarseClaims: nat

    ghost predicate Valid()
      reads this, words
    {
      words.Length == WORDS && overflow <= 1
    }

    ghost function View(): State
      requires Valid()
      reads this, words
    {
      State(words[..], overflow, completed, coarseClaims)
    }

    constructor ()
      ensures Valid() && View() == New() && fresh(words)
    {
      words := new bv64[WORDS](_ => 0);
      overflow, completed, coarseClaims := 0, 0, 0;
    }

    method Claim(symbol: nat) returns (won: bool)
      requires Valid()
      modifies this, words
      ensures Valid() && won == Won(old(View()), symbol)
      ensures View() == if symbol < CAPACITY then Do(old(View()), TryClaim(symbol))
        else Do(Do(old(View()), CountCoarse), TryClaim(symbol))
    {
      hide IsSet, SetBit;
      if symbol < CAPACITY {
        won := FetchOr(symbol);
      } else {
        coarseClaims := coarseClaims + 1;
        won := overflow == 0;
        if won { overflow := 1; }
      }
    }

    method FetchOr(symbol: nat) returns (clear: bool)
      requires Valid() && symbol < CAPACITY
      modifies words
      ensures clear == !IsSet(old(words[symbol / 64]), symbol % 64)
      ensures words[..] == Added(old(words[..]), symbol)
    {
      hide IsSet, SetBit;
      var was := words[symbol / 64];
      words[symbol / 64] := SetBit(was, symbol % 64);
      clear := !IsSet(was, symbol % 64);
    }

    method FetchAnd(symbol: nat)
      requires Valid() && symbol < CAPACITY
      modifies words
      ensures words[..] == Removed(old(words[..]), symbol)
    {
      hide ClearBit;
      words[symbol / 64] := ClearBit(words[symbol / 64], symbol % 64);
    }

    method Release(symbol: nat)
      requires Valid()
      modifies this, words
      ensures Valid() && View() == Do(Do(old(View()), Free(symbol)), CountRelease)
    {
      if symbol < CAPACITY {
        FetchAnd(symbol);
      } else {
        overflow := 0;
      }
      completed := completed + 1;
    }

    method Contains(symbol: nat) returns (found: bool)
      requires Valid()
      ensures found <==> Occupied(Meaning(View()), symbol)
    {
      hide IsSet;
      if symbol < CAPACITY { WonExactly(words[..], symbol); }
      found := if symbol < CAPACITY then IsSet(words[symbol / 64], symbol % 64) else overflow != 0;
    }

    /** With nothing else running, the number of symbols in flight. */
    method Len() returns (n: nat)
      requires Valid()
      ensures n == |Members(View().words)| + (if Meaning(View()).taken then 1 else 0)
    {
      hide Ones, Has, Below;
      var bits := 0;
      NothingBelow(words[..]);
      for i := 0 to WORDS
        invariant bits == |Below(words[..], 64 * i)|
      {
        BelowWord(words[..], i, 64);
        bits := bits + Ones(words[i], 64);
      }
      AllBelow(words[..]);
      n := bits + if overflow < 1 then overflow else 1;
    }

    method Clear()
      requires Valid()
      modifies this`overflow, words
      ensures Valid() && Meaning(View()) == Abstract({}, false)
    {
      for i := 0 to WORDS
        invariant forall k :: 0 <= k < i ==> words[k] == 0
      {
        words[i] := 0;
      }
      NoBits(words[..]);
      overflow := 0;
    }
  }

  lemma NoBits(words: Words)
    requires forall k :: 0 <= k < WORDS ==> words[k] == 0
    ensures Members(words) == {}
  {
    forall id | 0 <= id < CAPACITY
      ensures !Has(words, id)
    {
      NoBitInZero(id % 64);
    }
  }
}
