/** The incremental runtime: one observation in, one feature row out, from a bounded buffer. */
module Streaming {
  import opened Wrappers
  import opened Float
  import opened Registry
  import opened Names
  import opened Functions
  import opened Spec
  import opened Lookback
  import opened Causality

  /** One column, resolved: its transform, the slots of its arguments, and the slot it is kept in. */
  datatype Step = Step(transform: Transform, params: Params, args: seq<nat>, out: nat)

  /** The names some column reads that no earlier column produces. */
  ghost function Required(defs: seq<FeatureDef>): set<string> {
    set c, k | 0 <= c < |defs| && 0 <= k < |defs[c].Sources()|
      && IndexOf(defs, c, defs[c].Sources()[k]).None? :: defs[c].Sources()[k]
  }

  /** An observation a stream accepts: every required input, nothing else, nothing above 2^53. */
  ghost predicate WellFormed<F>(fpu: Fpu<F>, defs: seq<FeatureDef>, obs: map<string, F>) {
    obs.Keys == Required(defs) && forall key :: key in obs ==> !fpu.TooLarge(obs[key])
  }

  /** The history with one more observation. */
  function Extend<F>(hist: map<string, seq<F>>, obs: map<string, F>): map<string, seq<F>>
    requires hist.Keys == obs.Keys
  {
    map key | key in hist :: hist[key] + [obs[key]]
  }

  lemma ExtendLengths<F>(was: map<string, seq<F>>, obs: map<string, F>, n: nat)
    requires was.Keys == obs.Keys && SameLength(was, n)
    ensures SameLength(Extend(was, obs), n + 1) && Extend(was, obs).Keys == was.Keys
  {
  }

  /** The trailing observations a buffer of depth `lookback` keeps. */
  function Last<F>(h: seq<F>, lookback: nat): seq<F> {
    if |h| < lookback then h else h[|h| - lookback..]
  }

  function NextWindow<F>(w: seq<F>, v: F, lookback: nat): seq<F> {
    if |w| < lookback then w + [v] else if w == [] then [] else w[1..] + [v]
  }

  lemma WindowGrows<F>(was: map<string, seq<F>>, obs: map<string, F>, key: string, lookback: nat)
    requires lookback >= 1 && was.Keys == obs.Keys && key in was
    ensures key in Extend(was, obs)
    ensures Last(Extend(was, obs)[key], lookback) == NextWindow(Last(was[key], lookback), obs[key], lookback)
  {
  }

  /** The slot a source is read from: an earlier column, else a supplied input. */
  ghost predicate SlotOf(defs: seq<FeatureDef>, inputs: seq<string>, c: nat, name: string, slot: nat)
    requires c <= |defs|
  {
    match IndexOf(defs, c, name)
    case Some(j) => slot == |inputs| + j
    case None => slot < |inputs| && inputs[slot] == name
  }

  ghost predicate StepFor(defs: seq<FeatureDef>, inputs: seq<string>, c: nat, step: Step)
    requires c < |defs|
  {
    && step.transform == defs[c].feature && step.params == defs[c].params
    && step.out == |inputs| + c
    && |step.args| == |defs[c].Sources()|
    && forall k :: 0 <= k < |step.args| ==> SlotOf(defs, inputs, c, defs[c].Sources()[k], step.args[k])
  }

  /** A plan that can be run: construction establishes it and nothing changes it. */
  ghost predicate Planned(defs: seq<FeatureDef>, inputs: seq<string>, plan: seq<Step>, lookback: nat) {
    && Ascending(inputs) && Elements(inputs) == Required(defs)
    && |plan| == |defs| && (forall c :: 0 <= c < |defs| ==> StepFor(defs, inputs, c, plan[c]))
    && lookback >= 1 && Bounded(defs, lookback)
  }

  class FeatureStream<F(!new)> {
    ghost const defs: seq<FeatureDef>
    const fpu: Fpu<F>
    const columns: seq<string>
    const inputs: seq<string>
    const plan: seq<Step>
    const lookback: nat
    /** One buffer of `lookback` values per input, then one per column. */
    const slots: array2<F>
    const scratch: array<F>
    const row: array<F>
    var len: nat
    var observed: nat
    var warm: bool
    /** Every observation ever pushed, by input. */
    ghost var hist: map<string, seq<F>>

    ghost predicate Shaped() {
      && Planned(defs, inputs, plan, lookback) && columns == ColumnNames(defs)
      && slots.Length0 == |inputs| + |defs| && slots.Length1 == lookback
      && scratch.Length == lookback && row.Length == |defs| && scratch != row
    }

    /** Buffer `s` starts with `w`. */
    ghost predicate Stored(s: nat, w: seq<F>)
      reads slots
    {
      s < slots.Length0 && |w| <= slots.Length1 && forall j :: 0 <= j < |w| ==> slots[s, j] == w[j]
    }

    ghost predicate InputsHeld()
      reads this`hist, slots
    {
      forall i :: 0 <= i < |inputs| ==> inputs[i] in hist && Stored(i, Last(hist[inputs[i]], lookback))
    }

    ghost predicate Valid()
      reads this, slots, scratch, row
    {
      && Shaped()
      && hist.Keys == Required(defs) && SameLength(hist, observed)
      && len == (if observed < lookback then observed else lookback)
      && InputsHeld()
    }

    constructor Build(fpu: Fpu<F>, ghost defs: seq<FeatureDef>, columns: seq<string>, inputs: seq<string>,
                      plan: seq<Step>, lookback: nat)
      requires Planned(defs, inputs, plan, lookback) && columns == ColumnNames(defs)
      ensures Valid() && this.defs == defs && this.fpu == fpu && this.lookback == lookback
      ensures fresh(slots) && fresh(scratch) && fresh(row)
      ensures observed == 0 && !warm && hist == map key | key in Required(defs) :: []
    {
      this.defs, this.fpu, this.columns, this.inputs := defs, fpu, columns, inputs;
      this.plan, this.lookback := plan, lookback;
      slots := new F[|inputs| + |columns|, lookback]((_, _) => fpu.nan);
      scratch := new F[lookback](_ => fpu.nan);
      row := new F[|columns|](_ => fpu.nan);
      len, observed, warm := 0, 0, false;
      hist := map key | key in Required(defs) :: [];
      new;
      assert forall i :: 0 <= i < |inputs| ==> inputs[i] in Elements(inputs);
    }

    /** Append one value to an input buffer: in place, or by compacting the full window. */
    method AppendTo(s: nat, ghost w: seq<F>, v: F)
      requires Shaped() && s < slots.Length0 && |w| == len <= lookback && Stored(s, w)
      modifies slots
      ensures Stored(s, NextWindow(w, v, lookback))
      ensures forall t, j :: 0 <= t < slots.Length0 && t != s && 0 <= j < lookback ==> slots[t, j] == old(slots[t, j])
    {
      if len < lookback {
        slots[s, len] := v;
      } else {
        forall k | 0 <= k < lookback - 1 {
          slots[s, k] := slots[s, k + 1];
        }
        slots[s, lookback - 1] := v;
      }
    }

    /** The first `done` input buffers hold the grown history, the others still the old one. */
    ghost predicate PartlyAppended(was: map<string, seq<F>>, grown: map<string, seq<F>>, done: nat)
      reads slots
    {
      forall i :: 0 <= i < |inputs| ==>
        && inputs[i] in was && inputs[i] in grown
        && Stored(i, if i < done then Last(grown[inputs[i]], lookback) else Last(was[inputs[i]], lookback))
    }

    method AppendOne(ghost was: map<string, seq<F>>, obs: map<string, F>, s: nat)
      requires Shaped() && s < |inputs| && len <= lookback
      requires was.Keys == obs.Keys && inputs[s] in obs && |Last(was[inputs[s]], lookback)| == len
      requires PartlyAppended(was, Extend(was, obs), s)
      modifies slots
      ensures PartlyAppended(was, Extend(was, obs), s + 1)
    {
      assert lookback >= 1;
      hide Last, NextWindow, Extend, Planned;
      WindowGrows(was, obs, inputs[s], lookback);
      AppendTo(s, Last(was[inputs[s]], lookback), obs[inputs[s]]);
    }

    lemma NothingAppended(obs: map<string, F>)
      requires Valid() && obs.Keys == Required(defs)
      ensures PartlyAppended(hist, Extend(hist, obs), 0)
      ensures forall i :: 0 <= i < |inputs| ==>
        inputs[i] in obs && inputs[i] in hist && |Last(hist[inputs[i]], lookback)| == len
      ensures len <= lookback
    {
      hide Stored, Bounded, StepFor, Required;
      assert forall i :: 0 <= i < |inputs| ==> inputs[i] in Elements(inputs);
    }

    method StoreAll(obs: map<string, F>)
      requires Valid() && obs.Keys == Required(defs)
      modifies slots
      ensures PartlyAppended(hist, Extend(hist, obs), |inputs|)
    {
      hide Last, NextWindow, Extend, Planned, Required, PartlyAppended, InputsHeld;
      ghost var was, grown := hist, Extend(hist, obs);
      NothingAppended(obs);
      for s := 0 to |inputs|
        invariant PartlyAppended(was, grown, s)
      {
        AppendOne(was, obs, s);
      }
    }

    /** Put the observation in every input buffer. */
    method Append(obs: map<string, F>)
      requires Valid() && obs.Keys == Required(defs)
      modifies slots, this`len, this`observed, this`hist
      ensures hist == Extend(old(hist), obs) && observed == old(observed) + 1
      ensures Valid()
    {
      hide Last, Extend, Planned, Required;
      ExtendLengths(hist, obs, observed);
      ghost var grown := Extend(hist, obs);
      StoreAll(obs);
      label appended:
      hist := grown;
      len := if len + 1 < lookback then len + 1 else lookback;
      observed := observed + 1;
      forall i | 0 <= i < |inputs|
        ensures inputs[i] in hist && Stored(i, Last(hist[inputs[i]], lookback))
      {
        assert old@appended(Stored(i, Last(grown[inputs[i]], lookback)));
      }
    }

    /** The buffered part of slot `s`, as the slice a transform is handed. */
    function Held(s: nat): (r: seq<F>)
      requires s < slots.Length0 && len <= slots.Length1
      reads this`len, slots
      ensures |r| == len && forall j :: 0 <= j < len ==> r[j] == slots[s, j]
    {
      var n := len;
      seq(n, j requires 0 <= j < n reads slots => slots[s, j])
    }

    /** What the buffers should hold of every input. */
    ghost function Window(): (w: map<string, seq<F>>)
      reads this
    {
      map key | key in hist :: Last(hist[key], lookback)
    }

    /** The leading column slots and row cells hold `cols`, columns over the buffered window. */
    ghost predicate Evaluated(cols: seq<seq<F>>)
      reads this`len, slots, row
    {
      && 1 <= len <= slots.Length1 && |cols| <= row.Length
      && (forall b :: 0 <= b < |cols| ==> |cols[b]| == len && Stored(|inputs| + b, cols[b]))
      && (forall b :: 0 <= b < |cols| && |cols[b]| == len ==> row[b] == cols[b][len - 1])
    }

    lemma OneArgument(win: map<string, seq<F>>, prev: seq<seq<F>>, c: nat, name: string, slot: nat)
      requires c <= |defs| && |prev| == c && SameLength(win, len)
      requires len <= slots.Length1 && forall b :: 0 <= b < c ==> |prev[b]| == len && Stored(|inputs| + b, prev[b])
      requires forall i :: 0 <= i < |inputs| ==> inputs[i] in win && Stored(i, win[inputs[i]])
      requires SlotOf(defs, inputs, c, name, slot) && slot < slots.Length0
      ensures Held(slot) == Source(fpu, defs, prev, win, len, c, name)
    {
      match IndexOf(defs, c, name)
      case Some(j) => assert Stored(|inputs| + j, prev[j]);
      case None => assert Stored(slot, win[inputs[slot]]);
    }

    lemma ArgumentSlots(c: nat)
      requires Valid() && c < |defs|
      ensures |plan| == |defs| && |plan[c].args| == |defs[c].Sources()|
      ensures forall k :: 0 <= k < |plan[c].args| ==>
        SlotOf(defs, inputs, c, defs[c].Sources()[k], plan[c].args[k]) && plan[c].args[k] < slots.Length0
      ensures forall i :: 0 <= i < |inputs| ==> inputs[i] in Window() && Stored(i, Window()[inputs[i]])
    {
      hide Last, Bounded, Required;
      assert StepFor(defs, inputs, c, plan[c]);
    }

    /** The slices the plan names are the arguments the batch path would gather over the window. */
    method GatherArgs(ghost win: map<string, seq<F>>, ghost prev: seq<seq<F>>, c: nat) returns (args: seq<seq<F>>)
      requires Valid() && c < |defs| && SameLength(win, len) && win == Window()
      requires |prev| == c && Evaluated(prev)
      ensures args == Arguments(fpu, defs, prev, win, len, c)
    {
      hide Planned, Required, Last, Source, SlotOf, Stored, StepFor, InputsHeld;
      ArgumentSlots(c);
      var step := plan[c];
      ghost var sources := defs[c].Sources();
      args := seq(|step.args|, k requires 0 <= k < |step.args| && step.args[k] < slots.Length0 && len <= slots.Length1
                  reads this, slots => Held(step.args[k]));
      forall k | 0 <= k < |args|
        ensures args[k] == Source(fpu, defs, prev, win, len, c, sources[k])
      {
        OneArgument(win, prev, c, sources[k], step.args[k]);
      }
    }

    /** Keep a column: into its slot for later columns to read, and its last cell into the row. */
    method KeepColumn(ghost cols: seq<seq<F>>, c: nat, column: seq<F>)
      requires Shaped() && c == |cols| < |defs| && |column| == len
      requires Evaluated(cols)
      modifies slots, row
      ensures Evaluated(cols + [column])
      ensures forall s, j :: 0 <= s < |inputs| && 0 <= j < lookback ==> slots[s, j] == old(slots[s, j])
    {
      var out := |inputs| + c;
      forall j | 0 <= j < len {
        slots[out, j] := column[j];
      }
      row[c] := column[len - 1];
    }

    method EvaluateStep(ghost win: map<string, seq<F>>, ghost prev: seq<seq<F>>, c: nat)
      returns (r: Result<(), FeatureError>)
      requires Valid() && c < |defs| && SameLength(win, len) && win == Window()
      requires |prev| == c && Evaluated(prev)
      modifies slots, scratch, row
      ensures Valid()
      ensures r.Ok? <==> RunnableAt(defs, c)
      ensures r.Err? ==> r.error == ParamError
      ensures r.Ok? ==> Evaluated(prev + [NextColumn(fpu, defs, prev, win, len, c)])
    {
      var step := plan[c];
      assert StepFor(defs, inputs, c, step);
      var args := GatherArgs(win, prev, c);
      hide Planned, Required, Last, StepFor, ReadParams, Arguments;
      r := Functions.Evaluate(fpu, step.transform, step.params, args, len, scratch);
      if r.Ok? {
        KeepColumn(prev, c, scratch[..len]);
      }
    }

    lemma NothingEvaluated(win: map<string, seq<F>>)
      requires Valid() && len >= 1 && SameLength(win, len)
      ensures Evaluated([]) && Columns(fpu, defs, win, len, 0) == [] && |plan| == |defs|
    {
    }

    /** Evaluate every column over the window, in declaration order. */
    method EvaluateAll(ghost win: map<string, seq<F>>) returns (r: Result<(), FeatureError>)
      requires Valid() && len >= 1 && SameLength(win, len) && win == Window()
      modifies slots, scratch, row
      ensures Valid()
      ensures r.Ok? <==> Runnable(defs)
      ensures r.Err? ==> r.error == ParamError
      ensures r.Ok? ==> Evaluated(Columns(fpu, defs, win, len, |defs|))
    {
      hide RunnableAt, NextColumn, Columns, Evaluated, Required, Last, InputsHeld, StepFor;
      ghost var cols: seq<seq<F>> := [];
      NothingEvaluated(win);
      for c := 0 to |plan|
        invariant Valid() && Evaluated(cols) && cols == Columns(fpu, defs, win, len, c)
        invariant forall b :: 0 <= b < c ==> RunnableAt(defs, b)
      {
        r := EvaluateStep(win, cols, c);
        if r.Err? { return; }
        ColumnsStep(fpu, defs, win, len, c);
        cols := cols + [NextColumn(fpu, defs, cols, win, len, c)];
      }
      return Ok(());
    }

    /** The row every push hands back. */
    ghost predicate RowMatchesBatch()
      requires SameLength(hist, observed)
      reads this`hist, this`observed, row
    {
      && observed >= 1 && row.Length == |defs|
      && forall j :: 0 <= j < |defs| ==> row[j] == Columns(fpu, defs, hist, observed, |defs|)[j][observed - 1]
    }

    lemma DepthCovers()
      requires Valid()
      ensures lookback >= 1 && Bounded(defs, lookback) && row.Length == |defs|
    {
      hide InputsHeld, Bounded;
    }

    lemma WindowRowIsBatchRow(win: map<string, seq<F>>)
      requires Valid() && observed >= 1 && SameLength(win, len) && win == Window() && Runnable(defs)
      requires Evaluated(Columns(fpu, defs, win, len, |defs|))
      ensures RowMatchesBatch()
    {
      hide Planned, Required, Last, Columns, InputsHeld, Stored, Runnable, Bounded;
      DepthCovers();
      forall j | 0 <= j < |defs|
        ensures row[j] == Columns(fpu, defs, hist, observed, |defs|)[j][observed - 1]
      {
        LastRowMatches(fpu, defs, hist, observed, lookback, j);
      }
    }

    /** Push one observation. A malformed one is refused before any buffer is touched. A well-formed one
        joins the history, and the row is then the batch row of the whole history at this index, cell
        for cell; the only way that can fail is a transform that refuses its parameters, and then the
        row is blanked. */
    method Push(obs: map<string, F>) returns (r: Result<array<F>, FeatureError>)
      requires Valid()
      modifies this`len, this`observed, this`warm, this`hist, slots, scratch, row
      ensures Valid()
      ensures !WellFormed(fpu, defs, obs) ==>
        && r == Err(InputError)
        && unchanged(this) && unchanged(slots) && unchanged(scratch) && unchanged(row)
      ensures WellFormed(fpu, defs, obs) ==>
        && hist == Extend(old(hist), obs) && observed == old(observed) + 1
        && (r.Ok? <==> Runnable(defs))
      ensures WellFormed(fpu, defs, obs) && r.Err? ==>
        r.error == ParamError && !warm && forall j :: 0 <= j < row.Length ==> row[j] == fpu.nan
      ensures r.Ok? ==>
        && r.value == row && RowMatchesBatch()
        && (warm <==> forall j :: 0 <= j < row.Length ==> fpu.isFinite(row[j]))
    {
      InputsAreRequired();
      var good := Accepts(fpu, inputs, obs);
      if !good { return Err(InputError); }
      r := Ingest(obs);
    }

    method Ingest(obs: map<string, F>) returns (r: Result<array<F>, FeatureError>)
      requires Valid() && obs.Keys == Required(defs)
      modifies this`len, this`observed, this`warm, this`hist, slots, scratch, row
      ensures Valid()
      ensures hist == Extend(old(hist), obs) && observed == old(observed) + 1
      ensures r.Ok? <==> Runnable(defs)
      ensures r.Err? ==> r.error == ParamError && !warm && forall j :: 0 <= j < row.Length ==> row[j] == fpu.nan
      ensures r.Ok? ==>
        && r.value == row && RowMatchesBatch()
        && (warm <==> forall j :: 0 <= j < row.Length ==> fpu.isFinite(row[j]))
    {
      hide Planned, Required, Last, Columns, Extend, InputsHeld, Runnable, RowMatchesBatch;
      Append(obs);
      r := Serve();
    }

    lemma WindowLengths()
      requires Valid() && observed >= 1
      ensures len >= 1 && SameLength(Window(), len)
    {
      hide InputsHeld, Columns;
    }

    /** Evaluate the window just extended; a transform that refuses blanks the row. */
    method Serve() returns (r: Result<array<F>, FeatureError>)
      requires Valid() && observed >= 1
      modifies this`warm, slots, scratch, row
      ensures Valid()
      ensures r.Ok? <==> Runnable(defs)
      ensures r.Err? ==> r.error == ParamError && !warm && forall j :: 0 <= j < row.Length ==> row[j] == fpu.nan
      ensures r.Ok? ==>
        && r.value == row && RowMatchesBatch()
        && (warm <==> forall j :: 0 <= j < row.Length ==> fpu.isFinite(row[j]))
    {
      hide Planned, Required, Last, Columns, InputsHeld, Runnable, Evaluated, SameLength, RowMatchesBatch;
      WindowLengths();
      ghost var win := Window();
      var done := EvaluateAll(win);
      if done.Err? {
        FillNan(fpu, row, row.Length);
        warm := false;
        return Err(done.error);
      }
      WindowRowIsBatchRow(win);
      warm := forall j :: 0 <= j < row.Length ==> fpu.isFinite(row[j]);
      return Ok(row);
    }

    lemma InputsAreRequired()
      requires Valid()
      ensures forall name :: name in inputs <==> name in Required(defs)
    {
      assert forall name :: name in inputs <==> name in Elements(inputs);
    }
  }

  /** Every key is expected, no key is missing, no value is too large to hold exactly. */
  method Accepts<F>(fpu: Fpu<F>, inputs: seq<string>, obs: map<string, F>) returns (good: bool)
    ensures good <==>
      && (forall name :: name in inputs <==> name in obs)
      && (forall name :: name in obs ==> !fpu.TooLarge(obs[name]))
  {
    if exists key :: key in obs && key !in inputs { return false; }
    for i := 0 to |inputs|
      invariant forall j :: 0 <= j < i ==> inputs[j] in obs && !fpu.TooLarge(obs[inputs[j]])
    {
      if inputs[i] !in obs || fpu.TooLarge(obs[inputs[i]]) { return false; }
    }
    good := true;
  }

  /** The last cell over the trailing `lookback` observations is the batch cell at that index. */
  lemma LastRowMatches<F>(fpu: Fpu<F>, defs: seq<FeatureDef>, hist: map<string, seq<F>>, n: nat, lookback: nat, j: nat)
    requires lookback >= 1 && n >= 1 && SameLength(hist, n) && j < |defs|
    requires Bounded(defs, lookback) && Runnable(defs)
    ensures var win := map key | key in hist :: Last(hist[key], lookback);
      var m := if n < lookback then n else lookback;
      SameLength(win, m) &&
        Columns(fpu, defs, win, m, |defs|)[j][m - 1] == Columns(fpu, defs, hist, n, |defs|)[j][n - 1]
  {
    hide Last, Columns, Runnable, Stretch, Bounded, Deep;
    var win := map key | key in hist :: Last(hist[key], lookback);
    var m := if n < lookback then n else lookback;
    TrailingStretch(hist, n, win, m, lookback);
    DeepEnough(defs, n, lookback, j);
    StretchMatchesHistory(fpu, defs, hist, n, win, m, n - m, j, n - 1);
  }

  lemma TrailingStretch<F>(hist: map<string, seq<F>>, n: nat, win: map<string, seq<F>>, m: nat, lookback: nat)
    requires SameLength(hist, n) && win == map key | key in hist :: Last(hist[key], lookback)
    requires m == if n < lookback then n else lookback
    ensures Stretch(hist, n, win, m, n - m) && SameLength(win, m)
  {
  }

  lemma DeepEnough(defs: seq<FeatureDef>, n: nat, lookback: nat, j: nat)
    requires Bounded(defs, lookback) && j < |defs| && n >= 1
    ensures Deep(defs, if n < lookback then 0 else n - lookback, j, n - 1)
  {
    hide Depths, LookbacksOk;
  }

  lemma RequiredIsNeeded(defs: seq<FeatureDef>, inputs: seq<string>)
    requires forall name :: name in inputs <==> exists c :: 0 <= c < |defs| && Needs(defs, c, name)
    ensures Elements(inputs) == Required(defs)
  {
    forall name
      ensures name in Elements(inputs) <==> name in Required(defs)
    {
      if c :| 0 <= c < |defs| && Needs(defs, c, name) {
        var k :| 0 <= k < |defs[c].Sources()| && defs[c].Sources()[k] == name;
        assert name in Required(defs);
      }
      if name in Required(defs) {
        var c, k :| 0 <= c < |defs| && 0 <= k < |defs[c].Sources()|
          && IndexOf(defs, c, defs[c].Sources()[k]).None? && defs[c].Sources()[k] == name;
        assert Needs(defs, c, name);
      }
    }
  }

  /** Build a stream of an explicit depth. It is refused exactly when the depth does not cover every
      column's lookback, or a column name shadows an input. */
  method WithLookback<F(!new)>(fpu: Fpu<F>, spec: FeatureSpec, lookback: nat)
    returns (r: Result<FeatureStream<F>, FeatureError>)
    requires spec.Valid()
    ensures r.Ok? <==>
      lookback >= 1 && Bounded(spec.features, lookback) && !Collides(spec.features, Required(spec.features))
    ensures r.Ok? ==>
      && fresh(r.value) && fresh(r.value.slots) && fresh(r.value.scratch) && fresh(r.value.row)
      && r.value.Valid() && r.value.defs == spec.features && r.value.fpu == fpu && r.value.lookback == lookback
      && r.value.observed == 0 && !r.value.warm
    ensures r.Err? ==> r.error == ParamError || r.error == SpecError
  {
    var defs := spec.features;
    var derived := MaxLookback(defs);
    if derived.Err? { return Err(derived.error); }
    if derived.value.None? {
      NotBounded(defs, lookback);
      return Err(SpecError);
    }
    if lookback < derived.value.value { return Err(SpecError); }
    BoundedDeeper(defs, derived.value.value, lookback);
    var inputs := RequiredInputs(defs);
    RequiredIsNeeded(defs, inputs);
    var columns := ColumnNames(defs);
    var collides := exists c :: 0 <= c < |columns| && columns[c] in inputs;
    assert collides <==> Collides(defs, Required(defs)) by {
      assert forall name :: name in inputs <==> name in Elements(inputs);
    }
    if collides { return Err(SpecError); }
    var plan := Resolve(defs, inputs);
    var stream := new FeatureStream.Build(fpu, defs, columns, inputs, plan, lookback);
    return Ok(stream);
  }

  lemma BoundedDeeper(defs: seq<FeatureDef>, d: nat, e: nat)
    requires Bounded(defs, d) && d <= e
    ensures Bounded(defs, e)
  {
  }

  lemma NotBounded(defs: seq<FeatureDef>, d: nat)
    requires exists c :: 0 <= c < |defs| && LookbacksOk(defs, c + 1) && Reaches(defs, c, IsEma)
    ensures !Bounded(defs, d)
  {
    if Bounded(defs, d) {
      var c :| 0 <= c < |defs| && LookbacksOk(defs, c + 1) && Reaches(defs, c, IsEma);
      UnboundedIffReachesEma(defs, c, |defs|);
    }
  }

  /** Name to slot, once: earlier columns first, then the supplied inputs. */
  method Resolve(defs: seq<FeatureDef>, inputs: seq<string>) returns (plan: seq<Step>)
    requires Elements(inputs) == Required(defs)
    ensures |plan| == |defs| && forall c :: 0 <= c < |defs| ==> StepFor(defs, inputs, c, plan[c])
  {
    plan := [];
    for c := 0 to |defs|
      invariant |plan| == c && forall b :: 0 <= b < c ==> StepFor(defs, inputs, b, plan[b])
    {
      var args := ResolveArgs(defs, inputs, c);
      plan := plan + [Step(defs[c].feature, defs[c].params, args, |inputs| + c)];
    }
  }

  method ResolveArgs(defs: seq<FeatureDef>, inputs: seq<string>, c: nat) returns (args: seq<nat>)
    requires Elements(inputs) == Required(defs) && c < |defs|
    ensures |args| == |defs[c].Sources()|
    ensures forall k :: 0 <= k < |args| ==> SlotOf(defs, inputs, c, defs[c].Sources()[k], args[k])
  {
    hide SlotOf, Required, Elements;
    var sources := defs[c].Sources();
    args := [];
    for k := 0 to |sources|
      invariant |args| == k && forall j :: 0 <= j < k ==> SlotOf(defs, inputs, c, sources[j], args[j])
    {
      var slot := ResolveOne(defs, inputs, c, k);
      args := args + [slot];
    }
  }

  method ResolveOne(defs: seq<FeatureDef>, inputs: seq<string>, c: nat, k: nat) returns (slot: nat)
    requires Elements(inputs) == Required(defs) && c < |defs| && k < |defs[c].Sources()|
    ensures SlotOf(defs, inputs, c, defs[c].Sources()[k], slot)
  {
    var name := defs[c].Sources()[k];
    match IndexOf(defs, c, name)
    case Some(j) => slot := |inputs| + j;
    case None =>
      assert name in Required(defs);
      slot :| 0 <= slot < |inputs| && inputs[slot] == name;
  }

  /** Build a stream of the derived depth: possible exactly when some depth is enough. */
  method NewStream<F(!new)>(fpu: Fpu<F>, spec: FeatureSpec) returns (r: Result<FeatureStream<F>, FeatureError>)
    requires spec.Valid()
    ensures r.Ok? <==>
      (exists d: nat :: Bounded(spec.features, d)) && !Collides(spec.features, Required(spec.features))
    ensures r.Ok? ==>
      && fresh(r.value) && fresh(r.value.slots) && fresh(r.value.scratch) && fresh(r.value.row)
      && r.value.Valid() && r.value.defs == spec.features && r.value.fpu == fpu
      && r.value.observed == 0 && !r.value.warm
    ensures r.Ok? ==>
      && Bounded(spec.features, r.value.lookback)
      && forall d: nat :: d >= 1 && Bounded(spec.features, d) ==> 1 <= r.value.lookback <= d
  {
    var derived := MaxLookback(spec.features);
    if derived.Err? { return Err(derived.error); }
    var depth := if derived.value.Some? then derived.value.value else 0;
    if exists d: nat :: Bounded(spec.features, d) {
      var d: nat :| Bounded(spec.features, d);
      if derived.value.None? { NotBounded(spec.features, d); }
    }
    r := WithLookback(fpu, spec, depth);
  }
}
