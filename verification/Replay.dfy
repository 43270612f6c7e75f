/** The claim the streaming runtime exists to make, over whole runs: pushing a history one observation at
    a time gives, row by row, the matrix the batch path computes from the whole arrays.
 */
module Replay {
  import opened Wrappers
  import opened Float
  import opened Registry
  import opened Names
  import opened Spec
  import opened Lookback
  import opened Causality
  import opened Streaming

  ghost predicate AllWellFormed<F>(fpu: Fpu<F>, defs: seq<FeatureDef>, run: seq<map<string, F>>) {
    forall i :: 0 <= i < |run| ==> WellFormed(fpu, defs, run[i])
  }

  /** The whole input arrays a run of observations amounts to. */
  ghost function History<F>(fpu: Fpu<F>, defs: seq<FeatureDef>, run: seq<map<string, F>>): (h: map<string, seq<F>>)
    requires AllWellFormed(fpu, defs, run)
    ensures h.Keys == Required(defs) && SameLength(h, |run|)
    ensures forall key, i :: key in h && 0 <= i < |run| ==> h[key][i] == run[i][key]
  {
    map key | key in Required(defs) :: seq(|run|, i requires 0 <= i < |run| => run[i][key])
  }

  lemma HistoryGrows<F>(fpu: Fpu<F>, defs: seq<FeatureDef>, run: seq<map<string, F>>, i: nat)
    requires AllWellFormed(fpu, defs, run) && i < |run|
    ensures AllWellFormed(fpu, defs, run[..i]) && AllWellFormed(fpu, defs, run[..i + 1])
    ensures History(fpu, defs, run[..i + 1]) == Extend(History(fpu, defs, run[..i]), run[i])
  {
    PrefixWellFormed(fpu, defs, run, i);
    PrefixWellFormed(fpu, defs, run, i + 1);
    assert WellFormed(fpu, defs, run[i]) && run[i].Keys == Required(defs);
    HistoryStep(fpu, defs, run, i);
  }

  lemma HistoryStep<F>(fpu: Fpu<F>, defs: seq<FeatureDef>, run: seq<map<string, F>>, i: nat)
    requires AllWellFormed(fpu, defs, run) && i < |run| && run[i].Keys == Required(defs)
    requires AllWellFormed(fpu, defs, run[..i]) && AllWellFormed(fpu, defs, run[..i + 1])
    ensures History(fpu, defs, run[..i + 1]) == Extend(History(fpu, defs, run[..i]), run[i])
  {
    hide Required, WellFormed, AllWellFormed, History;
    var before, after := History(fpu, defs, run[..i]), History(fpu, defs, run[..i + 1]);
    forall key | key in after
      ensures after[key] == before[key] + [run[i][key]]
    {
      forall k | 0 <= k <= i
        ensures after[key][k] == (before[key] + [run[i][key]])[k]
      {
        assert run[..i + 1][k] == if k < i then run[..i][k] else run[i];
      }
    }
  }

  lemma PrefixWellFormed<F>(fpu: Fpu<F>, defs: seq<FeatureDef>, run: seq<map<string, F>>, i: nat)
    requires AllWellFormed(fpu, defs, run) && i <= |run|
    ensures AllWellFormed(fpu, defs, run[..i])
  {
  }

  lemma PrefixStretch<F>(fpu: Fpu<F>, defs: seq<FeatureDef>, run: seq<map<string, F>>, m: nat)
    requires AllWellFormed(fpu, defs, run) && m <= |run| && AllWellFormed(fpu, defs, run[..m])
    ensures Stretch(History(fpu, defs, run), |run|, History(fpu, defs, run[..m]), m, 0)
  {
  }

  /** Causality, over runs: what is observed later changes no earlier row. */
  lemma EarlierRowsStand<F>(fpu: Fpu<F>, defs: seq<FeatureDef>, run: seq<map<string, F>>, i: nat, j: nat)
    requires AllWellFormed(fpu, defs, run) && i < |run| && j < |defs| && Runnable(defs)
    requires AllWellFormed(fpu, defs, run[..i + 1])
    ensures Columns(fpu, defs, History(fpu, defs, run[..i + 1]), i + 1, |defs|)[j][i]
         == Columns(fpu, defs, History(fpu, defs, run), |run|, |defs|)[j][i]
  {
    hide Stretch, Columns, Required, WellFormed, AllWellFormed, Runnable, History;
    var all, part := History(fpu, defs, run), History(fpu, defs, run[..i + 1]);
    PrefixStretch(fpu, defs, run, i + 1);
    StretchMatchesHistory(fpu, defs, all, |run|, part, i + 1, 0, j, i);
  }

  /** A stream of this depth can be built for the spec. */
  ghost predicate Servable(defs: seq<FeatureDef>, lookback: nat) {
    lookback >= 1 && Bounded(defs, lookback) && !Collides(defs, Required(defs))
  }

  /** Row `i` of a run is row `i` of the batch matrix. */
  ghost predicate RowOfBatch<F>(fpu: Fpu<F>, defs: seq<FeatureDef>, run: seq<map<string, F>>, i: nat, row: seq<F>)
    requires AllWellFormed(fpu, defs, run) && i < |run|
  {
    && |row| == |defs|
    && forall j :: 0 <= j < |defs| ==> row[j] == Columns(fpu, defs, History(fpu, defs, run), |run|, |defs|)[j][i]
  }

  /** Push a whole run through a fresh stream and keep every row. */
  method StreamAll<F(!new)>(fpu: Fpu<F>, spec: FeatureSpec, lookback: nat, run: seq<map<string, F>>)
    returns (rows: Result<seq<seq<F>>, FeatureError>)
    requires spec.Valid() && AllWellFormed(fpu, spec.features, run)
    ensures rows.Ok? <==> Servable(spec.features, lookback) && (run == [] || Runnable(spec.features))
    ensures rows.Ok? ==>
      && |rows.value| == |run|
      && forall i :: 0 <= i < |run| ==> RowOfBatch(fpu, spec.features, run, i, rows.value[i])
  {
    hide Runnable, RowOfBatch, Bounded, Collides;
    var built := WithLookback(fpu, spec, lookback);
    if built.Err? { return Err(built.error); }
    EmptyHistory(fpu, spec.features, run);
    rows := PushAll(fpu, spec.features, run, built.value);
  }

  lemma EmptyHistory<F>(fpu: Fpu<F>, defs: seq<FeatureDef>, run: seq<map<string, F>>)
    ensures AllWellFormed(fpu, defs, run[..0])
    ensures History(fpu, defs, run[..0]).Keys == Required(defs) && SameLength(History(fpu, defs, run[..0]), 0)
  {
  }

  method PushAll<F(!new)>(fpu: Fpu<F>, ghost defs: seq<FeatureDef>, run: seq<map<string, F>>, stream: FeatureStream<F>)
    returns (rows: Result<seq<seq<F>>, FeatureError>)
    requires AllWellFormed(fpu, defs, run) && InStep(fpu, defs, run, 0, stream)
    modifies stream`len, stream`observed, stream`warm, stream`hist, stream.slots, stream.scratch, stream.row
    ensures rows.Ok? <==> run == [] || Runnable(defs)
    ensures rows.Ok? ==>
      && |rows.value| == |run|
      && forall i :: 0 <= i < |run| ==> RowOfBatch(fpu, defs, run, i, rows.value[i])
  {
    hide InStep, RowOfBatch, Runnable, AllWellFormed, WellFormed, Required, History;
    var out: seq<seq<F>> := [];
    for i := 0 to |run|
      invariant InStep(fpu, defs, run, i, stream)
      invariant |out| == i && forall k :: 0 <= k < i ==> RowOfBatch(fpu, defs, run, k, out[k])
      invariant i > 0 ==> Runnable(defs)
    {
      var row := PushNext(fpu, defs, run, i, stream);
      if row.Err? { return Err(row.error); }
      out := out + [row.value];
    }
    return Ok(out);
  }

  /** The stream has seen exactly the first `i` observations of the run. */
  ghost predicate InStep<F(!new)>(fpu: Fpu<F>, defs: seq<FeatureDef>, run: seq<map<string, F>>, i: nat,
                                  stream: FeatureStream<F>)
    requires AllWellFormed(fpu, defs, run) && i <= |run|
    reads stream, stream.slots, stream.scratch, stream.row
  {
    && stream.Valid() && stream.defs == defs && stream.fpu == fpu && stream.observed == i
    && AllWellFormed(fpu, defs, run[..i]) && stream.hist == History(fpu, defs, run[..i])
  }

  method PushNext<F(!new)>(fpu: Fpu<F>, ghost defs: seq<FeatureDef>, run: seq<map<string, F>>, i: nat,
                           stream: FeatureStream<F>)
    returns (row: Result<seq<F>, FeatureError>)
    requires AllWellFormed(fpu, defs, run) && i < |run| && InStep(fpu, defs, run, i, stream)
    modifies stream`len, stream`observed, stream`warm, stream`hist, stream.slots, stream.scratch, stream.row
    ensures InStep(fpu, defs, run, i + 1, stream)
    ensures row.Ok? <==> Runnable(defs)
    ensures row.Ok? ==> RowOfBatch(fpu, defs, run, i, row.value)
  {
    HistoryGrows(fpu, defs, run, i);
    assert WellFormed(fpu, defs, run[i]);
    var pushed := stream.Push(run[i]);
    if pushed.Err? { return Err(pushed.error); }
    RowStands(fpu, defs, run, i, stream);
    return Ok(stream.row[..]);
  }

  lemma RowStands<F(!new)>(fpu: Fpu<F>, defs: seq<FeatureDef>, run: seq<map<string, F>>, i: nat,
                           stream: FeatureStream<F>)
    requires AllWellFormed(fpu, defs, run) && i < |run| && Runnable(defs)
    requires AllWellFormed(fpu, defs, run[..i + 1])
    requires stream.defs == defs && stream.fpu == fpu && stream.observed == i + 1
    requires stream.hist == History(fpu, defs, run[..i + 1]) && stream.RowMatchesBatch()
    ensures RowOfBatch(fpu, defs, run, i, stream.row[..])
  {
    forall j | 0 <= j < |defs|
      ensures stream.row[j] == Columns(fpu, defs, History(fpu, defs, run), |run|, |defs|)[j][i]
    {
      EarlierRowsStand(fpu, defs, run, i, j);
    }
  }

  lemma HistoryIsGoodInput<F>(fpu: Fpu<F>, defs: seq<FeatureDef>, run: seq<map<string, F>>)
    requires AllWellFormed(fpu, defs, run) && defs != []
    ensures GoodInputs(fpu, History(fpu, defs, run), |run|)
    ensures Wired(defs, History(fpu, defs, run).Keys)
  {
    var h := History(fpu, defs, run);
    assert defs[0].Sources()[0] in h;
    forall c, k | 0 <= c < |defs| && 0 <= k < |defs[c].Sources()|
      ensures defs[c].Sources()[k] in h || IndexOf(defs, c, defs[c].Sources()[k]).Some?
    {
    }
  }

  lemma LengthUnique<F>(inputs: map<string, seq<F>>, m: nat, n: nat)
    requires inputs != map[] && SameLength(inputs, m) && SameLength(inputs, n)
    ensures m == n
  {
    var key :| key in inputs;
  }

  /** The serving path against the research path, for every servable spec, every buffer depth from the
      derived one up, and every run of well-formed observations: either both refuse the spec's
      parameters, or every streamed cell equals the computed cell. */
  method CompareWithBatch<F(!new)>(fpu: Fpu<F>, spec: FeatureSpec, lookback: nat, run: seq<map<string, F>>,
                                   inputs: map<string, seq<F>>)
    returns (rows: Result<seq<seq<F>>, FeatureError>, matrix: Result<FeatureMatrix<F>, FeatureError>)
    requires spec.Valid() && AllWellFormed(fpu, spec.features, run) && run != []
    requires inputs == History(fpu, spec.features, run)
    requires Servable(spec.features, lookback)
    ensures rows.Ok? <==> matrix.Ok?
    ensures rows.Ok? <==> Runnable(spec.features)
    ensures rows.Ok? ==>
      && |rows.value| == |run| == matrix.value.data.Length0 && matrix.value.data.Length1 == |spec.features|
      && matrix.value.columns == ColumnNames(spec.features)
      && forall i, j :: 0 <= i < |run| && 0 <= j < |spec.features| ==>
        |rows.value[i]| == |spec.features| && rows.value[i][j] == matrix.value.data[i, j]
  {
    HistoryIsGoodInput(fpu, spec.features, run);
    rows := StreamAll(fpu, spec, lookback, run);
    matrix := Compute(fpu, spec, inputs);
    if matrix.Ok? {
      LengthUnique(inputs, matrix.value.data.Length0, |run|);
    }
  }

  /** Construction accepts specs that can never be evaluated: exactly those with a refused `ddof`. */
  lemma ServableButNotRunnable(defs: seq<FeatureDef>, lookback: nat)
    requires Servable(defs, lookback)
    ensures !Runnable(defs) <==> exists c :: 0 <= c < |defs| && DdofRefused(defs[c].feature, defs[c].params)
  {
    forall c | 0 <= c < |defs|
      ensures !RunnableAt(defs, c) <==> DdofRefused(defs[c].feature, defs[c].params)
    {
      hide ReadParams, Registry.Lookback, DdofRefused;
      DepthsAt(defs, c, |defs|);
      assert Own(defs, c).Some?;
      LookbackIsReach(defs[c].feature, defs[c].params);
    }
  }

  /** One such spec: a two-sample deviation with three delta degrees of freedom. */
  lemma PushCanFailAfterConstruction()
    ensures exists def: FeatureDef :: def.Valid() && Servable([def], 2) && !Runnable([def])
  {
    var def := FeatureDef("c", Transform.RollingStd, map["window" := IntParam(2), "ddof" := IntParam(3)], map[]);
    var defs := [def];
    assert Depths(defs, 1) == [Some(2)] by {
      assert def.Sources() == ["x"];
      assert IndexOf(defs, 0, "x").None?;
      assert Deepest(defs, [], 0, 1) == Some(1);
      assert Depths(defs, 0) == [];
    }
    assert Required(defs) == {"x"} by {
      assert def.Sources() == ["x"];
      assert def.Sources()[0] in Required(defs);
    }
    assert !Collides(defs, {"x"});
    assert Servable(defs, 2);
    assert !RunnableAt(defs, 0);
    assert def.Valid() by {
      assert 'c' in "c" && !IsBlank("c");
    }
  }
}
