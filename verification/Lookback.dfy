/** What a spec says about itself before it runs: how far back a column reaches, and whether its value
    passes through a logarithm. Both are inherited along bindings to earlier columns.
 */
module Lookback {
  import opened Wrappers
  import opened Registry
  import opened Spec

  // ---------------------------------------------------------------- the binding graph

  /** Column `c` reads earlier column `j`. */
  ghost predicate Feeds(defs: seq<FeatureDef>, j: nat, c: nat)
    requires c < |defs|
  {
    exists k :: 0 <= k < |defs[c].Sources()| && IndexOf(defs, c, defs[c].Sources()[k]) == Some(j)
  }

  /** A chain of bindings from column `c` back to the column `p[|p| - 1]`. */
  ghost predicate Path(defs: seq<FeatureDef>, c: nat, p: seq<nat>) {
    && p != [] && p[0] == c < |defs|
    && (|p| > 1 ==> Feeds(defs, p[1], c) && Path(defs, p[1], p[1..]))
  }

  ghost predicate Hits(defs: seq<FeatureDef>, c: nat, p: seq<nat>, hit: Transform -> bool) {
    Path(defs, c, p) && p[|p| - 1] < |defs| && hit(defs[p[|p| - 1]].feature)
  }

  /** Some chain of bindings from `c` ends in a column whose transform satisfies `hit`. */
  ghost predicate Reaches(defs: seq<FeatureDef>, c: nat, hit: Transform -> bool) {
    exists p :: Hits(defs, c, p, hit)
  }

  /** Reaching is a property of the column itself or of a column it reads. */
  lemma ReachesStep(defs: seq<FeatureDef>, c: nat, hit: Transform -> bool)
    requires c < |defs|
    ensures Reaches(defs, c, hit) <==>
      hit(defs[c].feature) || exists j :: 0 <= j < c && Feeds(defs, j, c) && Reaches(defs, j, hit)
  {
    if hit(defs[c].feature) {
      assert Hits(defs, c, [c], hit);
    }
    if j :| 0 <= j < c && Feeds(defs, j, c) && Reaches(defs, j, hit) {
      var p :| Hits(defs, j, p, hit);
      assert ([c] + p)[1..] == p;
      assert Hits(defs, c, [c] + p, hit);
    }
    if Reaches(defs, c, hit) && !hit(defs[c].feature) {
      var p :| Hits(defs, c, p, hit);
      assert |p| > 1 && p[1..][|p| - 2] == p[|p| - 1];
      assert Hits(defs, p[1], p[1..], hit);
    }
  }

  // ---------------------------------------------------------------- lookback

  /** The deepest of two lookbacks, `None` being unbounded. */
  function Deeper(a: Option<nat>, b: Option<nat>): Option<nat> {
    if a.None? || b.None? then None else if a.value < b.value then b else a
  }

  function SourceDepth(defs: seq<FeatureDef>, prev: seq<Option<nat>>, c: nat, name: string): Option<nat>
    requires c <= |defs| && |prev| == c
  {
    match IndexOf(defs, c, name)
    case Some(j) => prev[j]
    case None => Some(1)
  }

  function Deepest(defs: seq<FeatureDef>, prev: seq<Option<nat>>, c: nat, k: nat): (d: Option<nat>)
    requires c < |defs| && |prev| == c && k <= |defs[c].Sources()|
    ensures d.Some? ==> d.value >= 1
  {
    if k == 0 then Some(1)
    else Deeper(Deepest(defs, prev, c, k - 1), SourceDepth(defs, prev, c, defs[c].Sources()[k - 1]))
  }

  /** A column reads its own window of sources that each reach back; they share one observation. */
  function Compose(own: Option<nat>, deepest: Option<nat>): Option<nat>
    requires own.Some? ==> own.value >= 1
  {
    if own.None? || deepest.None? then None else Some(own.value + deepest.value - 1)
  }

  predicate LookbackOk(defs: seq<FeatureDef>, c: nat)
    requires c < |defs|
  {
    Lookback(defs[c].feature, defs[c].params).Ok?
  }

  predicate LookbacksOk(defs: seq<FeatureDef>, c: nat)
    requires c <= |defs|
  {
    forall b :: 0 <= b < c ==> LookbackOk(defs, b)
  }

  function Own(defs: seq<FeatureDef>, c: nat): (own: Option<nat>)
    requires c < |defs| && LookbackOk(defs, c)
    ensures own.Some? ==> own.value >= 1
  {
    Lookback(defs[c].feature, defs[c].params).value
  }

  /** What the spec derives for a column's own window is what its arithmetic reads. */
  lemma OwnIsReach(defs: seq<FeatureDef>, c: nat)
    requires c < |defs| && LookbackOk(defs, c) && RunnableAt(defs, c)
    ensures ReadParams(defs[c].feature, defs[c].params).value.Reach() == Own(defs, c)
  {
    UnboundedIsEma(defs[c].feature, defs[c].params);
    if Own(defs, c).Some? { LookbackIsReach(defs[c].feature, defs[c].params); }
  }

  function NextDepth(defs: seq<FeatureDef>, prev: seq<Option<nat>>, c: nat): Option<nat>
    requires c < |defs| && |prev| == c && LookbackOk(defs, c)
  {
    Compose(Own(defs, c), Deepest(defs, prev, c, |defs[c].Sources()|))
  }

  /** The lookbacks of the first `c` columns, in raw observations. */
  function Depths(defs: seq<FeatureDef>, c: nat): (r: seq<Option<nat>>)
    requires c <= |defs| && LookbacksOk(defs, c)
    ensures |r| == c
  {
    if c == 0 then []
    else
      var prev := Depths(defs, c - 1);
      prev + [NextDepth(defs, prev, c - 1)]
  }

  lemma {:induction false} DepthsPrefix(defs: seq<FeatureDef>, b: nat, c: nat)
    requires b <= c <= |defs| && LookbacksOk(defs, c)
    ensures Depths(defs, b) == Depths(defs, c)[..b]
  {
    hide NextDepth, LookbackOk;
    if b < c {
      DepthsPrefix(defs, b, c - 1);
      assert Depths(defs, c)[..b] == Depths(defs, c - 1)[..b];
    }
  }

  lemma DepthsAt(defs: seq<FeatureDef>, b: nat, c: nat)
    requires b < c <= |defs| && LookbacksOk(defs, c)
    ensures LookbacksOk(defs, b + 1)
    ensures Depths(defs, c)[b] == NextDepth(defs, Depths(defs, c)[..b], b)
    ensures Depths(defs, c)[..b] == Depths(defs, b)
  {
    DepthsPrefix(defs, b + 1, c);
    DepthsPrefix(defs, b, c);
    assert Depths(defs, c)[b] == Depths(defs, c)[..b + 1][b];
  }

  lemma DeepestCovers(defs: seq<FeatureDef>, prev: seq<Option<nat>>, c: nat, k: nat, j: nat)
    requires c < |defs| && |prev| == c && j < k <= |defs[c].Sources()|
    ensures Deepest(defs, prev, c, k).Some? ==>
      var d := SourceDepth(defs, prev, c, defs[c].Sources()[j]);
      d.Some? && d.value <= Deepest(defs, prev, c, k).value
  {
    if j < k - 1 { DeepestCovers(defs, prev, c, k - 1, j); }
  }

  lemma {:induction false} DeepestUnbounded(defs: seq<FeatureDef>, prev: seq<Option<nat>>, c: nat, k: nat)
    requires c < |defs| && |prev| == c && k <= |defs[c].Sources()|
    ensures Deepest(defs, prev, c, k).None? <==>
      exists j :: 0 <= j < k && SourceDepth(defs, prev, c, defs[c].Sources()[j]).None?
  {
    hide SourceDepth, FeatureDef.Sources;
    if k > 0 {
      DeepestUnbounded(defs, prev, c, k - 1);
      assert SourceDepth(defs, prev, c, defs[c].Sources()[k - 1]).None? ==>
        Deepest(defs, prev, c, k).None?;
    }
  }

  predicate IsEma(t: Transform) {
    t.Ema? || t.EmaCrossover?
  }

  lemma DeepestReaches(defs: seq<FeatureDef>, prev: seq<Option<nat>>, c: nat, hit: Transform -> bool)
    requires c < |defs| && |prev| == c
    requires forall j :: 0 <= j < c ==> (prev[j].None? <==> Reaches(defs, j, hit))
    ensures Deepest(defs, prev, c, |defs[c].Sources()|).None? <==>
      exists j :: 0 <= j < c && Feeds(defs, j, c) && Reaches(defs, j, hit)
  {
    hide Reaches;
    var sources := defs[c].Sources();
    DeepestUnbounded(defs, prev, c, |sources|);
    if k :| 0 <= k < |sources| && SourceDepth(defs, prev, c, sources[k]).None? {
      var j := IndexOf(defs, c, sources[k]).value;
      assert Feeds(defs, j, c) && Reaches(defs, j, hit);
    }
    if j :| 0 <= j < c && Feeds(defs, j, c) && Reaches(defs, j, hit) {
      var k :| 0 <= k < |sources| && IndexOf(defs, c, sources[k]) == Some(j);
      assert SourceDepth(defs, prev, c, sources[k]).None?;
    }
  }

  /** A column has no finite lookback exactly when a chain of bindings leads to an exponential average. */
  lemma {:induction false} UnboundedIffReachesEma(defs: seq<FeatureDef>, c: nat, n: nat)
    requires c < n <= |defs| && LookbacksOk(defs, n)
    ensures Depths(defs, n)[c].None? <==> Reaches(defs, c, IsEma)
    decreases c
  {
    DepthsAt(defs, c, n);
    var prev := Depths(defs, n)[..c];
    UnboundedIsEma(defs[c].feature, defs[c].params);
    assert Own(defs, c).None? <==> IsEma(defs[c].feature);
    forall j | 0 <= j < c
      ensures prev[j].None? <==> Reaches(defs, j, IsEma)
    {
      UnboundedIffReachesEma(defs, j, n);
    }
    hide Reaches, Lookback;
    DeepestReaches(defs, prev, c, IsEma);
    ReachesStep(defs, c, IsEma);
  }

  /** The lookback of one column: composed through the columns before it, any of whose parameters it
      may trip over. */
  method ColumnLookback(defs: seq<FeatureDef>, column: string) returns (r: Result<Option<nat>, FeatureError>)
    requires DistinctColumns(defs)
    ensures var at := IndexOf(defs, |defs|, column);
      var end := if at.Some? then at.value + 1 else |defs|;
      if !LookbacksOk(defs, end) then r == Err(ParamError)
      else if at.None? then r == Err(SpecError)
      else r == Ok(Depths(defs, end)[at.value])
  {
    hide Lookback, Recorded, Depths;
    var depth: map<string, Option<nat>> := map[];
    RecordedEmpty(defs);
    for c := 0 to |defs|
      invariant LookbacksOk(defs, c)
      invariant forall b :: 0 <= b < c ==> defs[b].column != column
      invariant Recorded(defs, c, depth)
    {
      var own := Lookback(defs[c].feature, defs[c].params);
      if own.Err? {
        assert !LookbackOk(defs, c);
        return Err(own.error);
      }
      assert LookbacksOk(defs, c + 1);
      var total := TotalDepth(defs, c, own.value, depth);
      RecordedGrows(defs, c, depth, total);
      depth := depth[defs[c].column := total];
      if defs[c].column == column {
        IndexOfColumn(defs, |defs|, c);
        return Ok(total);
      }
    }
    return Err(SpecError);
  }

  lemma RecordedEmpty(defs: seq<FeatureDef>)
    ensures Recorded(defs, 0, map[])
  {
  }

  ghost predicate Recorded(defs: seq<FeatureDef>, c: nat, depth: map<string, Option<nat>>)
    requires c <= |defs| && LookbacksOk(defs, c)
  {
    forall name :: SourceDepth(defs, Depths(defs, c), c, name) == if name in depth then depth[name] else Some(1)
  }

  lemma RecordedGrows(defs: seq<FeatureDef>, c: nat, depth: map<string, Option<nat>>, total: Option<nat>)
    requires c < |defs| && LookbacksOk(defs, c + 1)
    requires Recorded(defs, c, depth) && total == Depths(defs, c + 1)[c]
    ensures Recorded(defs, c + 1, depth[defs[c].column := total])
  {
    hide Depths, LookbackOk;
    var grown := depth[defs[c].column := total];
    DepthsPrefix(defs, c, c + 1);
    forall name
      ensures SourceDepth(defs, Depths(defs, c + 1), c + 1, name) == if name in grown then grown[name] else Some(1)
    {
      if name != defs[c].column {
        assert SourceDepth(defs, Depths(defs, c), c, name) == if name in depth then depth[name] else Some(1);
      }
    }
  }

  method TotalDepth(defs: seq<FeatureDef>, c: nat, own: Option<nat>, depth: map<string, Option<nat>>)
    returns (total: Option<nat>)
    requires c < |defs| && LookbacksOk(defs, c + 1) && Recorded(defs, c, depth)
    requires LookbackOk(defs, c) && own == Own(defs, c)
    ensures total == Depths(defs, c + 1)[c]
  {
    hide Lookback, Recorded, Depths, Deepest;
    var deepest := DeepestSource(defs, c, depth, Depths(defs, c));
    DepthStep(defs, c);
    total := if own.None? || deepest.None? then None else Some(own.value + deepest.value - 1);
  }

  method DeepestSource(defs: seq<FeatureDef>, c: nat, depth: map<string, Option<nat>>, ghost prev: seq<Option<nat>>)
    returns (deepest: Option<nat>)
    requires c < |defs| && LookbacksOk(defs, c) && Recorded(defs, c, depth) && prev == Depths(defs, c)
    ensures deepest == Deepest(defs, prev, c, |defs[c].Sources()|)
    ensures deepest.Some? ==> deepest.value >= 1
  {
    hide Lookback, Recorded, Depths, IndexOf;
    var sources := defs[c].Sources();
    deepest := Some(1);
    for k := 0 to |sources|
      invariant deepest == Deepest(defs, prev, c, k)
    {
      RecordedAt(defs, c, depth, sources[k]);
      var d := if sources[k] in depth then depth[sources[k]] else Some(1);
      deepest := if deepest.None? || d.None? then None else if deepest.value < d.value then d else deepest;
    }
  }

  lemma DepthStep(defs: seq<FeatureDef>, c: nat)
    requires c < |defs| && LookbacksOk(defs, c + 1)
    ensures LookbacksOk(defs, c) && LookbackOk(defs, c)
    ensures Depths(defs, c + 1)[c] == Compose(Own(defs, c), Deepest(defs, Depths(defs, c), c, |defs[c].Sources()|))
  {
  }

  lemma RecordedAt(defs: seq<FeatureDef>, c: nat, depth: map<string, Option<nat>>, name: string)
    requires c <= |defs| && LookbacksOk(defs, c) && Recorded(defs, c, depth)
    ensures SourceDepth(defs, Depths(defs, c), c, name) == if name in depth then depth[name] else Some(1)
  {
  }

  /** Every column of the spec can be served from the last `d` observations. */
  ghost predicate Bounded(defs: seq<FeatureDef>, d: nat) {
    && LookbacksOk(defs, |defs|)
    && forall c :: 0 <= c < |defs| ==> Depths(defs, |defs|)[c].Some? && Depths(defs, |defs|)[c].value <= d
  }

  /** The buffer depth: the least bound, never below one; `None` at the first unbounded column; an
      error at the first column whose lookback cannot be read. */
  method MaxLookback(defs: seq<FeatureDef>) returns (r: Result<Option<nat>, FeatureError>)
    requires DistinctColumns(defs)
    ensures r.Ok? && r.value.Some? ==>
      && r.value.value >= 1 && Bounded(defs, r.value.value)
      && forall d: nat :: d >= 1 && Bounded(defs, d) ==> r.value.value <= d
    ensures r.Ok? && r.value.None? ==>
      exists c :: 0 <= c < |defs| && LookbacksOk(defs, c + 1) && Reaches(defs, c, IsEma)
    ensures r.Err? ==> r.error == ParamError && !LookbacksOk(defs, |defs|)
  {
    hide Lookback, Depths, Reaches;
    var best := 1;
    for c := 0 to |defs|
      invariant LookbacksOk(defs, c)
      invariant best >= 1
      invariant forall b :: 0 <= b < c ==> Depths(defs, c)[b].Some? && Depths(defs, c)[b].value <= best
      invariant best > 1 ==> exists b :: 0 <= b < c && Depths(defs, c)[b] == Some(best)
    {
      IndexOfColumn(defs, |defs|, c);
      var d := ColumnLookback(defs, defs[c].column);
      if d.Err? { return Err(d.error); }
      if d.value.None? {
        UnboundedIffReachesEma(defs, c, c + 1);
        return Ok(None);
      }
      DepthsPrefix(defs, c, c + 1);
      assert Depths(defs, c + 1)[c] == d.value;
      ghost var before, after := Depths(defs, c), Depths(defs, c + 1);
      assert forall b :: 0 <= b < c ==> after[b] == before[b];
      if best < d.value.value { best := d.value.value; }
    }
    return Ok(Some(best));
  }

  // ---------------------------------------------------------------- logarithms

  predicate UsesLog(t: Transform) {
    t.ReachesLibm()
  }

  /** The names of the columns in `marked`, in matrix order. */
  function Select(defs: seq<FeatureDef>, marked: set<nat>, c: nat): seq<string>
    requires c <= |defs|
  {
    if c == 0 then []
    else Select(defs, marked, c - 1) + if c - 1 in marked then [defs[c - 1].column] else []
  }

  ghost function LogColumns(defs: seq<FeatureDef>): set<nat> {
    set c: nat | 0 <= c < |defs| && Reaches(defs, c, UsesLog)
  }

  /** The columns whose value is a function of a logarithm, in matrix order: exactly those from which a
      chain of bindings leads to a transform that takes one. */
  method LibmColumns(defs: seq<FeatureDef>) returns (names: seq<string>)
    requires DistinctColumns(defs)
    ensures names == Select(defs, LogColumns(defs), |defs|)
  {
    var tainted := Tainted(defs);
    names := [];
    for c := 0 to |defs|
      invariant names == Select(defs, LogColumns(defs), c)
    {
      IndexOfColumn(defs, |defs|, c);
      if defs[c].column in tainted { names := names + [defs[c].column]; }
    }
  }

  /** The names, so far down the spec, of the columns a logarithm reaches. */
  ghost predicate Taints(defs: seq<FeatureDef>, c: nat, tainted: set<string>)
    requires c <= |defs|
  {
    forall name :: name in tainted <==>
      IndexOf(defs, c, name).Some? && Reaches(defs, IndexOf(defs, c, name).value, UsesLog)
  }

  method Tainted(defs: seq<FeatureDef>) returns (tainted: set<string>)
    requires DistinctColumns(defs)
    ensures Taints(defs, |defs|, tainted)
  {
    hide Taints, Reaches;
    tainted := {};
    NothingTainted(defs);
    for c := 0 to |defs|
      invariant Taints(defs, c, tainted)
    {
      var sources := defs[c].Sources();
      var inherited := exists k :: 0 <= k < |sources| && sources[k] in tainted;
      TaintStep(defs, c, tainted);
      TaintGrows(defs, c, tainted);
      if defs[c].feature.ReachesLibm() || inherited {
        tainted := tainted + {defs[c].column};
      }
    }
  }

  lemma NothingTainted(defs: seq<FeatureDef>)
    ensures Taints(defs, 0, {})
  {
  }

  lemma TaintGrows(defs: seq<FeatureDef>, c: nat, tainted: set<string>)
    requires c < |defs| && DistinctColumns(defs) && Taints(defs, c, tainted)
    ensures Taints(defs, c + 1, if Reaches(defs, c, UsesLog) then tainted + {defs[c].column} else tainted)
  {
    hide Reaches;
  }

  lemma TaintStep(defs: seq<FeatureDef>, c: nat, tainted: set<string>)
    requires c < |defs| && DistinctColumns(defs)
    requires Taints(defs, c, tainted)
    ensures Reaches(defs, c, UsesLog) <==>
      defs[c].feature.ReachesLibm() || exists k :: 0 <= k < |defs[c].Sources()| && defs[c].Sources()[k] in tainted
  {
    ReachesStep(defs, c, UsesLog);
    if j :| 0 <= j < c && Feeds(defs, j, c) && Reaches(defs, j, UsesLog) {
      var k :| 0 <= k < |defs[c].Sources()| && IndexOf(defs, c, defs[c].Sources()[k]) == Some(j);
      assert defs[c].Sources()[k] in tainted;
    }
    if k :| 0 <= k < |defs[c].Sources()| && defs[c].Sources()[k] in tainted {
      assert Feeds(defs, IndexOf(defs, c, defs[c].Sources()[k]).value, c);
    }
  }
}
