/** Bindings are how a spec is pointed at data: what a column reads is the series its binding names, and
    giving the outside series other names, in the spec and in the data alike, changes no value.
 */
module Renaming {
  import opened Wrappers
  import opened Float
  import opened Registry
  import opened Functions
  import opened Spec
  import opened Streaming

  // ---------------------------------------------------------------- what is read

  /** The name an argument of a column is bound to: the binding, or the argument's own name. */
  function Bound(def: FeatureDef, argument: string): string {
    if argument in def.bindings then def.bindings[argument] else argument
  }

  /** What stands for column `c` under a name: the column of that name if an earlier one has it, else the
      series supplied under it. */
  ghost predicate Reads<F>(fpu: Fpu<F>, defs: seq<FeatureDef>, inputs: map<string, seq<F>>, n: nat, c: nat,
                           name: string, series: seq<F>)
    requires c <= |defs| && SameLength(inputs, n)
  {
    && (forall j :: 0 <= j < c && defs[j].column == name ==> series == Columns(fpu, defs, inputs, n, c)[j])
    && ((forall j :: 0 <= j < c ==> defs[j].column != name) && name in inputs ==> series == inputs[name])
  }

  ghost predicate Supplied(defs: seq<FeatureDef>, keys: set<string>, c: nat, name: string)
    requires c <= |defs|
  {
    name in keys || exists j :: 0 <= j < c && defs[j].column == name
  }

  /** A column is its transform of the series its arguments are bound to, argument by argument. */
  lemma ColumnReadsItsBindings<F>(fpu: Fpu<F>, defs: seq<FeatureDef>, inputs: map<string, seq<F>>, n: nat, c: nat,
                                  op: Op, args: seq<seq<F>>)
    requires DistinctColumns(defs) && c < |defs| && SameLength(inputs, n)
    requires ReadParams(defs[c].feature, defs[c].params) == Ok(op)
    requires |args| == |defs[c].feature.Inputs()|
    requires forall k :: 0 <= k < |args| ==>
      && Supplied(defs, inputs.Keys, c, Bound(defs[c], defs[c].feature.Inputs()[k]))
      && Reads(fpu, defs, inputs, n, c, Bound(defs[c], defs[c].feature.Inputs()[k]), args[k])
    ensures forall k :: 0 <= k < |args| ==> |args[k]| == n
    ensures Columns(fpu, defs, inputs, n, c + 1)[c] == Column(fpu, op, args, n)
  {
    hide Columns, ReadParams;
    var names, prev := defs[c].feature.Inputs(), Columns(fpu, defs, inputs, n, c);
    var want := Arguments(fpu, defs, prev, inputs, n, c);
    forall k | 0 <= k < |args|
      ensures args[k] == want[k]
    {
      var name := Bound(defs[c], names[k]);
      assert defs[c].Sources()[k] == name;
      if j :| 0 <= j < c && defs[j].column == name {
        IndexOfColumn(defs, c, j);
      }
    }
    assert args == want;
    ColumnsStep(fpu, defs, inputs, n, c);
  }

  /** The inputs a spec needs are the outside names its arguments are bound to. */
  lemma RequiredAreBound(defs: seq<FeatureDef>, name: string)
    ensures name in Required(defs) <==>
      exists c, k :: 0 <= c < |defs| && 0 <= k < |defs[c].feature.Inputs()|
        && Bound(defs[c], defs[c].feature.Inputs()[k]) == name
        && forall j :: 0 <= j < c ==> defs[j].column != name
  {
    if name in Required(defs) {
      var c, k :| 0 <= c < |defs| && 0 <= k < |defs[c].Sources()|
        && IndexOf(defs, c, defs[c].Sources()[k]).None? && defs[c].Sources()[k] == name;
      assert Bound(defs[c], defs[c].feature.Inputs()[k]) == name;
    }
    forall c, k | 0 <= c < |defs| && 0 <= k < |defs[c].feature.Inputs()|
      && Bound(defs[c], defs[c].feature.Inputs()[k]) == name && (forall j :: 0 <= j < c ==> defs[j].column != name)
      ensures name in Required(defs)
    {
      assert defs[c].Sources()[k] == name;
    }
  }

  // ---------------------------------------------------------------- renaming

  function To(ren: map<string, string>, name: string): string {
    if name in ren then ren[name] else name
  }

  /** A renaming of everything the spec reads from outside, apart from each other and from the columns. */
  ghost predicate Renames(defs: seq<FeatureDef>, ren: map<string, string>) {
    && ren.Keys == Required(defs)
    && (forall a, b :: a in ren && b in ren && ren[a] == ren[b] ==> a == b)
    && (forall a, c :: a in ren && 0 <= c < |defs| ==> ren[a] != defs[c].column)
  }

  /** Every argument bound by name, to the renamed series when it is an outside one. */
  function Rebound(defs: seq<FeatureDef>, ren: map<string, string>, c: nat): FeatureDef
    requires c < |defs|
  {
    var def := defs[c];
    var names := def.feature.Inputs();
    def.(bindings := map x | x in names ::
      if IndexOf(defs, c, Bound(def, x)).None? then To(ren, Bound(def, x)) else Bound(def, x))
  }

  function Renamed(defs: seq<FeatureDef>, ren: map<string, string>): (r: seq<FeatureDef>)
    ensures |r| == |defs|
    ensures forall c :: 0 <= c < |defs| ==> r[c] == Rebound(defs, ren, c) && r[c].column == defs[c].column
  {
    seq(|defs|, c requires 0 <= c < |defs| => Rebound(defs, ren, c))
  }

  /** The same series under the other names. */
  ghost predicate Relabelled<F>(ren: map<string, string>, inputs: map<string, seq<F>>, other: map<string, seq<F>>) {
    forall a :: a in ren ==> (a in inputs <==> ren[a] in other) && (a in inputs ==> other[ren[a]] == inputs[a])
  }

  lemma {:induction false} IndexRenamed(defs: seq<FeatureDef>, ren: map<string, string>, c: nat, name: string)
    requires c <= |defs|
    ensures IndexOf(Renamed(defs, ren), c, name) == IndexOf(defs, c, name)
  {
    hide Rebound;
    if c > 0 { IndexRenamed(defs, ren, c - 1, name); }
  }

  /** The renamed spec reads, argument by argument, the renamed source. */
  lemma SourceRenamed(defs: seq<FeatureDef>, ren: map<string, string>, c: nat, k: nat)
    requires c < |defs| && k < |defs[c].Sources()|
    ensures k < |Renamed(defs, ren)[c].Sources()|
    ensures var s := defs[c].Sources()[k];
      Renamed(defs, ren)[c].Sources()[k] == if IndexOf(defs, c, s).None? then To(ren, s) else s
  {
    assert defs[c].Sources()[k] == Bound(defs[c], defs[c].feature.Inputs()[k]);
  }

  lemma OutsideIsRequired(defs: seq<FeatureDef>, c: nat, k: nat)
    requires c < |defs| && k < |defs[c].Sources()| && IndexOf(defs, c, defs[c].Sources()[k]).None?
    ensures defs[c].Sources()[k] in Required(defs)
  {
  }

  lemma ArgumentsRenamed<F>(fpu: Fpu<F>, defs: seq<FeatureDef>, ren: map<string, string>, prev: seq<seq<F>>,
                            inputs: map<string, seq<F>>, other: map<string, seq<F>>, n: nat, c: nat)
    requires Renames(defs, ren) && SameLength(inputs, n) && SameLength(other, n) && Relabelled(ren, inputs, other)
    requires c < |defs| && |prev| == c && forall j :: 0 <= j < c ==> |prev[j]| == n
    ensures Arguments(fpu, Renamed(defs, ren), prev, other, n, c) == Arguments(fpu, defs, prev, inputs, n, c)
  {
    hide IndexOf, FeatureDef.Sources, Required;
    var defs' := Renamed(defs, ren);
    forall k | 0 <= k < |defs[c].Sources()|
      ensures k < |defs'[c].Sources()|
      ensures Source(fpu, defs', prev, other, n, c, defs'[c].Sources()[k])
           == Source(fpu, defs, prev, inputs, n, c, defs[c].Sources()[k])
    {
      var s := defs[c].Sources()[k];
      SourceRenamed(defs, ren, c, k);
      IndexRenamed(defs, ren, c, defs'[c].Sources()[k]);
      if IndexOf(defs, c, s).None? { OutsideIsRequired(defs, c, k); }
    }
  }

  /** Renaming what comes from outside, in the spec and in the data, changes no column. */
  lemma {:induction false} RenamingKeepsColumns<F>(
    fpu: Fpu<F>, defs: seq<FeatureDef>, ren: map<string, string>,
    inputs: map<string, seq<F>>, other: map<string, seq<F>>, n: nat, c: nat)
    requires Renames(defs, ren) && SameLength(inputs, n) && SameLength(other, n) && Relabelled(ren, inputs, other)
    requires c <= |defs|
    ensures Columns(fpu, Renamed(defs, ren), other, n, c) == Columns(fpu, defs, inputs, n, c)
  {
    hide Renames, Relabelled, NextColumn, Renamed;
    if c > 0 {
      RenamingKeepsColumns(fpu, defs, ren, inputs, other, n, c - 1);
      NextRenamed(fpu, defs, ren, Columns(fpu, defs, inputs, n, c - 1), inputs, other, n, c - 1);
    }
  }

  lemma NextRenamed<F>(fpu: Fpu<F>, defs: seq<FeatureDef>, ren: map<string, string>, prev: seq<seq<F>>,
                       inputs: map<string, seq<F>>, other: map<string, seq<F>>, n: nat, c: nat)
    requires Renames(defs, ren) && SameLength(inputs, n) && SameLength(other, n) && Relabelled(ren, inputs, other)
    requires c < |defs| && |prev| == c && forall j :: 0 <= j < c ==> |prev[j]| == n
    ensures NextColumn(fpu, Renamed(defs, ren), prev, other, n, c) == NextColumn(fpu, defs, prev, inputs, n, c)
  {
    hide Renames, Relabelled, Arguments, ReadParams, Required;
    ArgumentsRenamed(fpu, defs, ren, prev, inputs, other, n, c);
  }

  /** It needs exactly the renamed inputs. */
  lemma RenamingRenamesRequired(defs: seq<FeatureDef>, ren: map<string, string>)
    requires Renames(defs, ren)
    ensures Required(Renamed(defs, ren)) == set a | a in Required(defs) :: ren[a]
  {
    var defs' := Renamed(defs, ren);
    forall name
      ensures name in Required(defs') <==> exists a :: a in Required(defs) && ren[a] == name
    {
      if name in Required(defs') {
        var c, k :| 0 <= c < |defs'| && 0 <= k < |defs'[c].Sources()|
          && IndexOf(defs', c, defs'[c].Sources()[k]).None? && defs'[c].Sources()[k] == name;
        RenamedIsOutside(defs, ren, c, k);
        assert ren[defs[c].Sources()[k]] == name;
      }
      if a :| a in Required(defs) && ren[a] == name {
        var c, k :| 0 <= c < |defs| && 0 <= k < |defs[c].Sources()|
          && IndexOf(defs, c, defs[c].Sources()[k]).None? && defs[c].Sources()[k] == a;
        SourceRenamed(defs, ren, c, k);
        RenamedIsOutside(defs, ren, c, k);
        assert defs'[c].Sources()[k] in Required(defs');
      }
    }
  }

  /** An argument is an outside one after renaming exactly when it was before. */
  lemma RenamedIsOutside(defs: seq<FeatureDef>, ren: map<string, string>, c: nat, k: nat)
    requires Renames(defs, ren) && c < |defs| && k < |Renamed(defs, ren)[c].Sources()|
    ensures k < |defs[c].Sources()|
    ensures var s := defs[c].Sources()[k];
      && (IndexOf(Renamed(defs, ren), c, Renamed(defs, ren)[c].Sources()[k]).None? <==> IndexOf(defs, c, s).None?)
      && (IndexOf(defs, c, s).None? ==> s in Required(defs) && Renamed(defs, ren)[c].Sources()[k] == ren[s])
  {
    SourceRenamed(defs, ren, c, k);
    IndexRenamed(defs, ren, c, Renamed(defs, ren)[c].Sources()[k]);
    if IndexOf(defs, c, defs[c].Sources()[k]).None? { OutsideIsRequired(defs, c, k); }
  }

  /** And it can be wired and run exactly when the spec can. */
  lemma RenamingKeepsAcceptance(defs: seq<FeatureDef>, ren: map<string, string>, keys: set<string>, other: set<string>)
    requires Renames(defs, ren) && forall a :: a in ren ==> (a in keys <==> ren[a] in other)
    ensures Runnable(Renamed(defs, ren)) <==> Runnable(defs)
    ensures Wired(Renamed(defs, ren), other) <==> Wired(defs, keys)
  {
    var defs' := Renamed(defs, ren);
    forall c | 0 <= c < |defs|
      ensures WiredAt(defs', other, c) <==> WiredAt(defs, keys, c)
      ensures RunnableAt(defs', c) <==> RunnableAt(defs, c)
    {
      hide IndexOf, Required, FeatureDef.Sources, Renames, ReadParams;
      forall k | 0 <= k < |defs[c].Sources()|
        ensures k < |defs'[c].Sources()|
        ensures (defs'[c].Sources()[k] in other || IndexOf(defs', c, defs'[c].Sources()[k]).Some?)
            <==> (defs[c].Sources()[k] in keys || IndexOf(defs, c, defs[c].Sources()[k]).Some?)
      {
        SourceRenamed(defs, ren, c, k);
        RenamedIsOutside(defs, ren, c, k);
        RenamesAll(defs, ren);
      }
    }
  }

  lemma RenamesAll(defs: seq<FeatureDef>, ren: map<string, string>)
    requires Renames(defs, ren)
    ensures ren.Keys == Required(defs)
  {
  }

  // ---------------------------------------------------------------- swapping two arguments

  /** Swapping the two bindings of a two-argument transform gives the column of the two series swapped. */
  lemma SwappingBindings<F>(fpu: Fpu<F>, def: FeatureDef, inputs: map<string, seq<F>>, n: nat, p: string, q: string)
    requires |def.feature.Inputs()| == 2 && SameLength(inputs, n) && p in inputs && q in inputs
    requires var names := def.feature.Inputs(); Bound(def, names[0]) == p && Bound(def, names[1]) == q
    ensures var names := def.feature.Inputs();
      var swapped := def.(bindings := map[names[0] := q, names[1] := p]);
      var crossed := inputs[p := inputs[q]][q := inputs[p]];
      && SameLength(crossed, n)
      && Columns(fpu, [swapped], inputs, n, 1) == Columns(fpu, [def], crossed, n, 1)
  {
    hide ReadParams;
    var names := def.feature.Inputs();
    InputsDiffer(def.feature);
    var swapped := def.(bindings := map[names[0] := q, names[1] := p]);
    var crossed := inputs[p := inputs[q]][q := inputs[p]];
    assert def.Sources() == [p, q] && swapped.Sources() == [q, p];
    var none: seq<seq<F>> := [];
    assert Arguments(fpu, [swapped], none, inputs, n, 0) == [inputs[q], inputs[p]];
    assert Arguments(fpu, [def], none, crossed, n, 0) == [inputs[q], inputs[p]];
    ColumnsStep(fpu, [swapped], inputs, n, 0);
    ColumnsStep(fpu, [def], crossed, n, 0);
  }

  lemma InputsDiffer(t: Transform)
    requires |t.Inputs()| == 2
    ensures t.Inputs()[0] != t.Inputs()[1]
  {
    var names := t.Inputs();
    match t
    case BookImbalance => assert names[0][0] != names[1][0];
    case MidPrice => assert names[0][0] != names[1][0];
    case RelativeSpread => assert names[0][0] != names[1][0];
    case Spread => assert names[0][0] != names[1][0];
    case TradeFlowImbalance => assert |names[0]| != |names[1]|;
  }
}
