/** Feature specs: the batch computation, and what a spec can say about itself before it is run. */
module Spec {
  import opened Wrappers
  import opened Float
  import opened Registry
  import opened Names
  import opened Functions

  datatype FeatureDef = FeatureDef(
    column: string, feature: Transform, params: Params, bindings: map<string, string>)
  {
    /** Where each positional input comes from, in call order. */
    function Sources(): (r: seq<string>)
      ensures |r| == |feature.Inputs()|
    {
      var names := feature.Inputs();
      seq(|names|, k requires 0 <= k < |names| => if names[k] in bindings then bindings[names[k]] else names[k])
    }

    predicate Valid() {
      && !IsBlank(column)
      && (forall k :: k in params ==> k in feature.ParamNames())
      && (forall k :: k in bindings ==> k in feature.Inputs() && !IsBlank(bindings[k]))
    }
  }

  datatype FeatureSpec = FeatureSpec(
    name: string, version: nat, libraryVersion: nat, features: seq<FeatureDef>)
  {
    /** What the constructor guarantees; versions are `u32`. */
    predicate Valid() {
      && !IsBlank(name)
      && 1 <= version < 0x1_0000_0000 && libraryVersion < 0x1_0000_0000
      && features != []
      && DistinctColumns(features)
      && forall c :: 0 <= c < |features| ==> features[c].Valid()
    }
  }

  predicate DistinctColumns(defs: seq<FeatureDef>) {
    forall i, j :: 0 <= i < j < |defs| ==> defs[i].column != defs[j].column
  }

  function ColumnNames(defs: seq<FeatureDef>): (r: seq<string>)
    ensures |r| == |defs| && forall c :: 0 <= c < |defs| ==> r[c] == defs[c].column
  {
    seq(|defs|, c requires 0 <= c < |defs| => defs[c].column)
  }

  /** The column among the first `c` that `name` refers to. */
  function IndexOf(defs: seq<FeatureDef>, c: nat, name: string): (r: Option<nat>)
    requires c <= |defs|
    ensures r.Some? ==> r.value < c && defs[r.value].column == name
    ensures r.None? <==> forall j :: 0 <= j < c ==> defs[j].column != name
  {
    if c == 0 then None
    else if defs[c - 1].column == name then Some(c - 1)
    else IndexOf(defs, c - 1, name)
  }

  lemma IndexOfColumn(defs: seq<FeatureDef>, c: nat, j: nat)
    requires j < c <= |defs| && DistinctColumns(defs)
    ensures IndexOf(defs, c, defs[j].column) == Some(j)
  {
  }

  // ---------------------------------------------------------------- required inputs

  /** Column `c` reads `name`, and no earlier column produces it. */
  ghost predicate Needs(defs: seq<FeatureDef>, c: nat, name: string)
    requires c < |defs|
  {
    name in defs[c].Sources() && IndexOf(defs, c, name).None?
  }

  /** The input names a caller must supply, sorted: exactly what some column reads from outside. */
  method RequiredInputs(defs: seq<FeatureDef>) returns (names: seq<string>)
    ensures Ascending(names)
    ensures forall name :: name in names <==> exists c :: 0 <= c < |defs| && Needs(defs, c, name)
  {
    var produced: set<string> := {};
    names := [];
    for c := 0 to |defs|
      invariant Ascending(names)
      invariant forall name :: name in produced <==> IndexOf(defs, c, name).Some?
      invariant forall name :: name in names <==> exists b :: 0 <= b < c && Needs(defs, b, name)
    {
      names := NeedsOf(defs, c, produced, names);
      produced := produced + {defs[c].column};
    }
  }

  method NeedsOf(defs: seq<FeatureDef>, c: nat, produced: set<string>, before: seq<string>)
    returns (names: seq<string>)
    requires c < |defs| && Ascending(before)
    requires forall name :: name in produced <==> IndexOf(defs, c, name).Some?
    ensures Ascending(names)
    ensures forall name :: name in names <==> name in before || Needs(defs, c, name)
  {
    names := before;
    var sources := defs[c].Sources();
    for k := 0 to |sources|
      invariant Ascending(names)
      invariant forall name :: name in names <==>
        name in before || (name in sources[..k] && name !in produced)
    {
      var source := sources[k];
      assert sources[..k + 1] == sources[..k] + [source];
      if source !in produced {
        InsertMembers(names, source);
        hide Insert, Ascending;
        names := Insert(names, source);
      }
    }
    assert sources[..|sources|] == sources;
  }

  // ---------------------------------------------------------------- the batch matrix

  function Blank<F>(fpu: Fpu<F>, n: nat): seq<F> {
    seq(n, _ => fpu.nan)
  }

  ghost predicate SameLength<F>(inputs: map<string, seq<F>>, n: nat) {
    forall key :: key in inputs ==> |inputs[key]| == n
  }

  /** The series column `c` reads under `name`: an earlier column, else a supplied input. */
  function Source<F>(fpu: Fpu<F>, defs: seq<FeatureDef>, prev: seq<seq<F>>, inputs: map<string, seq<F>>,
                     n: nat, c: nat, name: string): (r: seq<F>)
    requires c <= |defs| && |prev| == c && SameLength(inputs, n)
    requires forall j :: 0 <= j < c ==> |prev[j]| == n
    ensures |r| == n
  {
    match IndexOf(defs, c, name)
    case Some(j) => prev[j]
    case None => if name in inputs then inputs[name] else Blank(fpu, n)
  }

  function Arguments<F>(fpu: Fpu<F>, defs: seq<FeatureDef>, prev: seq<seq<F>>, inputs: map<string, seq<F>>,
                        n: nat, c: nat): (r: seq<seq<F>>)
    requires c < |defs| && |prev| == c && SameLength(inputs, n)
    requires forall j :: 0 <= j < c ==> |prev[j]| == n
    ensures |r| == |defs[c].feature.Inputs()| && forall k :: 0 <= k < |r| ==> |r[k]| == n
  {
    var sources := defs[c].Sources();
    seq(|sources|, k requires 0 <= k < |sources| => Source(fpu, defs, prev, inputs, n, c, sources[k]))
  }

  function NextColumn<F>(fpu: Fpu<F>, defs: seq<FeatureDef>, prev: seq<seq<F>>, inputs: map<string, seq<F>>,
                         n: nat, c: nat): (r: seq<F>)
    requires c < |defs| && |prev| == c && SameLength(inputs, n)
    requires forall j :: 0 <= j < c ==> |prev[j]| == n
    ensures |r| == n
  {
    var op := ReadParams(defs[c].feature, defs[c].params);
    if op.Ok? then Column(fpu, op.value, Arguments(fpu, defs, prev, inputs, n, c), n) else Blank(fpu, n)
  }

  /** The first `c` columns of the matrix over whole input series of length `n`. */
  function Columns<F>(fpu: Fpu<F>, defs: seq<FeatureDef>, inputs: map<string, seq<F>>, n: nat, c: nat): (r: seq<seq<F>>)
    requires c <= |defs| && SameLength(inputs, n)
    ensures |r| == c && forall j :: 0 <= j < c ==> |r[j]| == n
  {
    if c == 0 then []
    else
      var prev := Columns(fpu, defs, inputs, n, c - 1);
      prev + [NextColumn(fpu, defs, prev, inputs, n, c - 1)]
  }

  lemma ColumnsPrefix<F>(fpu: Fpu<F>, defs: seq<FeatureDef>, inputs: map<string, seq<F>>, n: nat, b: nat, c: nat)
    requires b <= c <= |defs| && SameLength(inputs, n)
    ensures Columns(fpu, defs, inputs, n, b) == Columns(fpu, defs, inputs, n, c)[..b]
  {
    if b < c { ColumnsPrefix(fpu, defs, inputs, n, b, c - 1); }
  }

  ghost predicate GoodInputs<F>(fpu: Fpu<F>, inputs: map<string, seq<F>>, n: nat) {
    && inputs != map[] && SameLength(inputs, n)
    && forall key, i :: key in inputs && 0 <= i < n ==> !fpu.TooLarge(inputs[key][i])
  }

  predicate Collides(defs: seq<FeatureDef>, keys: set<string>) {
    exists c :: 0 <= c < |defs| && defs[c].column in keys
  }

  predicate WiredAt(defs: seq<FeatureDef>, keys: set<string>, c: nat)
    requires c < |defs|
  {
    forall k :: 0 <= k < |defs[c].Sources()| ==>
      defs[c].Sources()[k] in keys || IndexOf(defs, c, defs[c].Sources()[k]).Some?
  }

  predicate Wired(defs: seq<FeatureDef>, keys: set<string>) {
    forall c :: 0 <= c < |defs| ==> WiredAt(defs, keys, c)
  }

  predicate RunnableAt(defs: seq<FeatureDef>, c: nat)
    requires c < |defs|
  {
    ReadParams(defs[c].feature, defs[c].params).Ok?
  }

  /** Every column's transform accepts its parameters. */
  predicate Runnable(defs: seq<FeatureDef>) {
    forall c :: 0 <= c < |defs| ==> RunnableAt(defs, c)
  }

  /** A computed matrix; the cells are indexed by row and column. */
  datatype FeatureMatrix<F> = FeatureMatrix(columns: seq<string>, data: array2<F>)

  method CheckInputs<F>(fpu: Fpu<F>, inputs: map<string, seq<F>>) returns (n: Option<nat>)
    ensures n.Some? ==> GoodInputs(fpu, inputs, n.value)
    ensures n.None? ==> forall m: nat :: !GoodInputs(fpu, inputs, m)
  {
    n := None;
    var todo := inputs.Keys;
    while todo != {}
      invariant todo <= inputs.Keys
      invariant n.None? <==> todo == inputs.Keys
      invariant n.Some? ==> forall key :: key in inputs && key !in todo ==>
        |inputs[key]| == n.value && forall i :: 0 <= i < n.value ==> !fpu.TooLarge(inputs[key][i])
    {
      var key :| key in todo;
      var arr := inputs[key];
      if n.Some? && |arr| != n.value {
        var other :| other in inputs && other !in todo;
        return None;
      }
      n := Some(|arr|);
      for i := 0 to |arr|
        invariant forall j :: 0 <= j < i ==> !fpu.TooLarge(arr[j])
      {
        if fpu.TooLarge(arr[i]) { return None; }
      }
      todo := todo - {key};
    }
  }

  method Gather<F>(fpu: Fpu<F>, defs: seq<FeatureDef>, ghost prev: seq<seq<F>>, inputs: map<string, seq<F>>,
                   n: nat, c: nat, values: map<string, seq<F>>) returns (args: Option<seq<seq<F>>>)
    requires c < |defs| && |prev| == c && SameLength(inputs, n)
    requires forall j :: 0 <= j < c ==> |prev[j]| == n
    requires Environment(fpu, defs, prev, inputs, n, c, values)
    ensures args.Some? <==> WiredAt(defs, inputs.Keys, c)
    ensures args.Some? ==> args.value == Arguments(fpu, defs, prev, inputs, n, c)
  {
    hide Source, IndexOf;
    var sources := defs[c].Sources();
    ghost var want := Arguments(fpu, defs, prev, inputs, n, c);
    var found := [];
    for k := 0 to |sources|
      invariant found == want[..k]
      invariant forall j :: 0 <= j < k ==> sources[j] in values
    {
      if sources[k] !in values { return None; }
      assert values[sources[k]] == want[k];
      found := found + [values[sources[k]]];
    }
    return Some(found);
  }

  /** The name table of the batch loop holds the inputs and the columns computed so far. */
  ghost predicate Environment<F>(fpu: Fpu<F>, defs: seq<FeatureDef>, prev: seq<seq<F>>, inputs: map<string, seq<F>>,
                                 n: nat, c: nat, values: map<string, seq<F>>)
    requires c <= |defs| && |prev| == c && SameLength(inputs, n)
    requires forall j :: 0 <= j < c ==> |prev[j]| == n
  {
    && (forall name :: name in values <==> name in inputs || IndexOf(defs, c, name).Some?)
    && (forall name :: name in values ==> values[name] == Source(fpu, defs, prev, inputs, n, c, name))
  }

  lemma EnvironmentStarts<F>(fpu: Fpu<F>, defs: seq<FeatureDef>, inputs: map<string, seq<F>>, n: nat)
    requires SameLength(inputs, n)
    ensures Columns(fpu, defs, inputs, n, 0) == [] && Environment(fpu, defs, [], inputs, n, 0, inputs)
  {
  }

  lemma EnvironmentGrows<F>(fpu: Fpu<F>, defs: seq<FeatureDef>, prev: seq<seq<F>>, inputs: map<string, seq<F>>,
                            n: nat, c: nat, values: map<string, seq<F>>, column: seq<F>)
    requires c < |defs| && |prev| == c && SameLength(inputs, n) && |column| == n
    requires forall j :: 0 <= j < c ==> |prev[j]| == n
    requires Environment(fpu, defs, prev, inputs, n, c, values)
    ensures Environment(fpu, defs, prev + [column], inputs, n, c + 1, values[defs[c].column := column])
  {
    var grown := values[defs[c].column := column];
    forall name | name in grown
      ensures grown[name] == Source(fpu, defs, prev + [column], inputs, n, c + 1, name)
    {
      if name != defs[c].column {
        assert IndexOf(defs, c + 1, name) == IndexOf(defs, c, name);
      }
    }
  }

  /** The batch path: a whole matrix from whole series, column by column. It accepts exactly the specs
      and inputs that make sense, and its cells are `Columns`. */
  method Compute<F>(fpu: Fpu<F>, spec: FeatureSpec, inputs: map<string, seq<F>>)
    returns (r: Result<FeatureMatrix<F>, FeatureError>)
    requires spec.Valid()
    ensures r.Ok? <==>
      && (exists n: nat :: GoodInputs(fpu, inputs, n))
      && !Collides(spec.features, inputs.Keys)
      && Wired(spec.features, inputs.Keys)
      && Runnable(spec.features)
    ensures r.Ok? ==>
      && fresh(r.value.data)
      && r.value.columns == ColumnNames(spec.features)
      && r.value.data.Length1 == |spec.features|
      && GoodInputs(fpu, inputs, r.value.data.Length0)
      && forall i, j :: 0 <= i < r.value.data.Length0 && 0 <= j < |spec.features| ==>
        r.value.data[i, j] == Columns(fpu, spec.features, inputs, r.value.data.Length0, |spec.features|)[j][i]
    ensures r.Err? ==>
      if forall n: nat :: !GoodInputs(fpu, inputs, n) then r.error == InputError
      else if Collides(spec.features, inputs.Keys) then r.error == SpecError
      else exists c :: FirstFault(spec.features, inputs.Keys, c, r.error)
  {
    var defs := spec.features;
    var rows := CheckInputs(fpu, inputs);
    if rows.None? { return Err(InputError); }
    var n := rows.value;
    if exists c :: 0 <= c < |defs| && defs[c].column in inputs { return Err(SpecError); }
    var data := new F[n, |defs|]((_, _) => fpu.Zero());
    var column := new F[n](_ => fpu.Zero());
    var fault := FillMatrix(fpu, defs, inputs, n, data, column);
    if fault.Some? { return Err(fault.value); }
    return Ok(FeatureMatrix(ColumnNames(defs), data));
  }

  method FillMatrix<F>(fpu: Fpu<F>, defs: seq<FeatureDef>, inputs: map<string, seq<F>>, n: nat,
                       data: array2<F>, column: array<F>) returns (fault: Option<FeatureError>)
    requires SameLength(inputs, n) && !Collides(defs, inputs.Keys)
    requires data.Length0 == n && data.Length1 == |defs| && column.Length == n
    modifies data, column
    ensures fault.None? <==> Wired(defs, inputs.Keys) && Runnable(defs)
    ensures fault.Some? ==> exists c :: FirstFault(defs, inputs.Keys, c, fault.value)
    ensures fault.None? ==> forall i, j :: 0 <= i < n && 0 <= j < |defs| ==>
      data[i, j] == Columns(fpu, defs, inputs, n, |defs|)[j][i]
  {
    hide Wired, WiredAt, Runnable, Accepted, AcceptedAt, Environment, Columns, NextColumn, Collides;
    var values := inputs;
    ghost var prev: seq<seq<F>> := [];
    AcceptedIsWiredAndRunnable(defs, inputs.Keys);
    EnvironmentStarts(fpu, defs, inputs, n);
    for c := 0 to |defs|
      invariant prev == Columns(fpu, defs, inputs, n, c)
      invariant Environment(fpu, defs, prev, inputs, n, c, values)
      invariant Accepted(defs, inputs.Keys, c)
      invariant Holds(data, prev)
    {
      hide Holds;
      fault := ComputeColumn(fpu, defs, prev, inputs, n, c, values, column);
      AcceptedStep(defs, inputs.Keys, c);
      if fault.Some? {
        assert FirstFault(defs, inputs.Keys, c, fault.value);
        return;
      }
      StoreColumn(data, prev, c, column);
      ColumnsStep(fpu, defs, inputs, n, c);
      EnvironmentGrows(fpu, defs, prev, inputs, n, c, values, column[..]);
      values := values[defs[c].column := column[..]];
      prev := prev + [column[..]];
    }
    return None;
  }

  lemma AcceptedIsWiredAndRunnable(defs: seq<FeatureDef>, keys: set<string>)
    ensures Accepted(defs, keys, |defs|) <==> Wired(defs, keys) && Runnable(defs)
    ensures Accepted(defs, keys, 0)
  {
    assert forall c :: 0 <= c < |defs| ==>
      (AcceptedAt(defs, keys, c) <==> WiredAt(defs, keys, c) && RunnableAt(defs, c));
  }

  lemma AcceptedStep(defs: seq<FeatureDef>, keys: set<string>, c: nat)
    requires c < |defs| && Accepted(defs, keys, c)
    ensures Accepted(defs, keys, c + 1) <==> AcceptedAt(defs, keys, c)
    ensures Accepted(defs, keys, |defs|) ==> AcceptedAt(defs, keys, c)
  {
  }

  lemma ColumnsStep<F>(fpu: Fpu<F>, defs: seq<FeatureDef>, inputs: map<string, seq<F>>, n: nat, c: nat)
    requires c < |defs| && SameLength(inputs, n)
    ensures Columns(fpu, defs, inputs, n, c + 1)
         == Columns(fpu, defs, inputs, n, c)
          + [NextColumn(fpu, defs, Columns(fpu, defs, inputs, n, c), inputs, n, c)]
  {
  }

  method ComputeColumn<F>(fpu: Fpu<F>, defs: seq<FeatureDef>, ghost prev: seq<seq<F>>, inputs: map<string, seq<F>>,
                          n: nat, c: nat, values: map<string, seq<F>>, column: array<F>)
    returns (fault: Option<FeatureError>)
    requires c < |defs| && |prev| == c && SameLength(inputs, n) && column.Length == n
    requires forall j :: 0 <= j < c ==> |prev[j]| == n
    requires Environment(fpu, defs, prev, inputs, n, c, values)
    modifies column
    ensures fault.None? <==> AcceptedAt(defs, inputs.Keys, c)
    ensures fault.Some? ==> fault.value == if WiredAt(defs, inputs.Keys, c) then ParamError else SpecError
    ensures fault.None? ==> column[..] == NextColumn(fpu, defs, prev, inputs, n, c)
  {
    var args := Gather(fpu, defs, prev, inputs, n, c, values);
    if args.None? { return Some(SpecError); }
    var done := Evaluate(fpu, defs[c].feature, defs[c].params, args.value, n, column);
    if done.Err? { return Some(done.error); }
    assert column[..] == column[..n];
    return None;
  }

  /** Column `c` is the first that cannot be wired or run, and `error` says which. */
  ghost predicate FirstFault(defs: seq<FeatureDef>, keys: set<string>, c: nat, error: FeatureError) {
    && c < |defs| && Accepted(defs, keys, c) && !AcceptedAt(defs, keys, c)
    && error == if WiredAt(defs, keys, c) then ParamError else SpecError
  }

  ghost predicate Accepted(defs: seq<FeatureDef>, keys: set<string>, c: nat)
    requires c <= |defs|
  {
    forall b :: 0 <= b < c ==> AcceptedAt(defs, keys, b)
  }

  ghost predicate AcceptedAt(defs: seq<FeatureDef>, keys: set<string>, c: nat)
    requires c < |defs|
  {
    WiredAt(defs, keys, c) && RunnableAt(defs, c)
  }

  /** The leading columns of `data` are `prev`. */
  ghost predicate Holds<F>(data: array2<F>, prev: seq<seq<F>>)
    reads data
  {
    && |prev| <= data.Length1
    && (forall j :: 0 <= j < |prev| ==> |prev[j]| == data.Length0)
    && (forall i, j :: 0 <= i < data.Length0 && 0 <= j < |prev| ==> data[i, j] == prev[j][i])
  }

  method StoreColumn<F>(data: array2<F>, ghost prev: seq<seq<F>>, j: nat, column: array<F>)
    requires j == |prev| < data.Length1 && column.Length == data.Length0
    requires Holds(data, prev)
    modifies data
    ensures Holds(data, prev + [column[..]])
  {
    for i := 0 to data.Length0
      invariant forall b :: 0 <= b < i ==> data[b, j] == column[b]
      invariant Holds(data, prev)
    {
      data[i, j] := column[i];
    }
  }
}
