/** The transform registry: names, call shapes, parameter checks and lookbacks. */
module Registry {
  import opened Wrappers

  datatype FeatureError = UnknownFeature | SpecError | Mismatch | InputError | ParamError

  datatype Param = BoolParam(b: bool) | IntParam(i: int) | StrParam(s: string)

  type Params = map<string, Param>

  datatype Transform =
    | BookImbalance | CloseLocation | Ema | EmaCrossover | LogReturn | MidPrice | Momentum
    | RealizedVolatility | RelativeRange | RelativeSpread | RollingMean | RollingStd | RollingSum
    | RollingZscore | SmaCrossover | Spread | TradeFlowImbalance
  {
    function Name(): string {
      match this
      case BookImbalance => "book_imbalance"
      case CloseLocation => "close_location"
      case Ema => "ema"
      case EmaCrossover => "ema_crossover"
      case LogReturn => "log_return"
      case MidPrice => "mid_price"
      case Momentum => "momentum"
      case RealizedVolatility => "realized_volatility"
      case RelativeRange => "relative_range"
      case RelativeSpread => "relative_spread"
      case RollingMean => "rolling_mean"
      case RollingStd => "rolling_std"
      case RollingSum => "rolling_sum"
      case RollingZscore => "rolling_zscore"
      case SmaCrossover => "sma_crossover"
      case Spread => "spread"
      case TradeFlowImbalance => "trade_flow_imbalance"
    }

    /** The positional array arguments, in call order: the names a spec binds. */
    function Inputs(): (r: seq<string>)
      ensures 1 <= |r| <= 3
    {
      match this
      case BookImbalance => ["bid_sz", "ask_sz"]
      case CloseLocation | RelativeRange => ["high", "low", "close"]
      case MidPrice | RelativeSpread | Spread => ["bid_px", "ask_px"]
      case TradeFlowImbalance => ["trade_sz", "trade_sign"]
      case Ema | RollingMean | RollingStd | RollingSum | RollingZscore => ["x"]
      case EmaCrossover | LogReturn | Momentum | RealizedVolatility | SmaCrossover => ["price"]
    }

    function ParamNames(): seq<string> {
      match this
      case Ema => ["span"]
      case EmaCrossover | SmaCrossover => ["fast", "slow"]
      case LogReturn => ["period"]
      case Momentum | RealizedVolatility | RollingMean | RollingSum | TradeFlowImbalance => ["window"]
      case RollingStd | RollingZscore => ["ddof", "window"]
      case _ => []
    }

    predicate ReachesLibm() {
      LogReturn? || Momentum? || RealizedVolatility?
    }
  }

  // ---------------------------------------------------------------- parameters

  /** An optional window-shaped parameter: an integer, and at least `minimum`. */
  function Window(params: Params, key: string, default: int, minimum: nat): (r: Result<nat, FeatureError>)
    ensures r.Ok? ==> r.value >= minimum
  {
    var raw := if key in params then params[key] else IntParam(default);
    if raw.IntParam? && raw.i >= minimum then Ok(raw.i) else Err(ParamError)
  }

  /** A window-shaped parameter that has no default. */
  function RequiredWindow(params: Params, key: string, minimum: nat): (r: Result<nat, FeatureError>)
    ensures r.Ok? ==> r.value >= minimum
  {
    if key !in params then Err(ParamError) else Window(params, key, minimum, minimum)
  }

  /** The parameter is there, an integer, and at least `minimum`. */
  predicate Whole(params: Params, key: string, minimum: int) {
    key in params && params[key].IntParam? && params[key].i >= minimum
  }

  function CrossoverSpans(params: Params): (r: Result<(nat, nat), FeatureError>)
    ensures r.Ok? <==> Whole(params, "fast", 1) && Whole(params, "slow", 1) && params["fast"].i < params["slow"].i
    ensures r.Ok? ==> r.value == (params["fast"].i, params["slow"].i)
  {
    var fast :- RequiredWindow(params, "fast", 1);
    var slow :- RequiredWindow(params, "slow", 1);
    if fast >= slow then Err(ParamError) else Ok((fast, slow))
  }

  /** A transform with its parameters read: what one evaluation actually computes. */
  datatype Op =
    | MeanOp(window: nat) | StdOp(window: nat, ddof: nat) | SumOp(window: nat)
    | ZscoreOp(window: nat, ddof: nat) | ReturnOp(period: nat) | VolatilityOp(window: nat)
    | EmaOp(span: nat) | SmaCrossOp(fast: nat, slow: nat) | EmaCrossOp(fast: nat, slow: nat)
    | MidOp | SpreadOp | RelativeSpreadOp | ImbalanceOp | FlowOp(window: nat)
    | RangeOp | LocationOp
  {
    function Arity(): nat {
      match this
      case MidOp | SpreadOp | RelativeSpreadOp | ImbalanceOp | FlowOp(_) => 2
      case RangeOp | LocationOp => 3
      case _ => 1
    }

    /** How many trailing observations of each input reach the last cell; `None` is all of them. */
    function Reach(): Option<nat> {
      match this
      case MeanOp(w) => Some(w)
      case StdOp(w, _) => Some(w)
      case SumOp(w) => Some(w)
      case ZscoreOp(w, _) => Some(w)
      case FlowOp(w) => Some(w)
      case ReturnOp(p) => Some(p + 1)
      case VolatilityOp(w) => Some(w + 1)
      case SmaCrossOp(_, slow) => Some(slow)
      case EmaOp(_) => None
      case EmaCrossOp(_, _) => None
      case _ => Some(1)
    }

    predicate Legal() {
      && (MeanOp? || SumOp? || VolatilityOp? || FlowOp? ==> window >= 1)
      && (StdOp? || ZscoreOp? ==> window > ddof)
      && (ReturnOp? ==> period >= 1)
      && (EmaOp? ==> span >= 1)
      && (SmaCrossOp? || EmaCrossOp? ==> 1 <= fast < slow)
    }
  }

  /** The parameter half of the `eval_*` adapters. */
  function ReadParams(t: Transform, params: Params): (r: Result<Op, FeatureError>)
    ensures r.Ok? ==> r.value.Legal() && r.value.Arity() == |t.Inputs()|
    ensures r.Err? ==> r.error == ParamError
  {
    match t
    case RollingMean => var w :- RequiredWindow(params, "window", 1); Ok(MeanOp(w))
    case RollingSum => var w :- RequiredWindow(params, "window", 1); Ok(SumOp(w))
    case RollingStd =>
      var ddof :- Window(params, "ddof", 0, 0);
      var w :- RequiredWindow(params, "window", ddof + 1);
      Ok(StdOp(w, ddof))
    case RollingZscore =>
      var ddof :- Window(params, "ddof", 0, 0);
      var w :- RequiredWindow(params, "window", ddof + 1);
      Ok(ZscoreOp(w, ddof))
    case LogReturn => var p :- Window(params, "period", 1, 1); Ok(ReturnOp(p))
    case Momentum => var w :- RequiredWindow(params, "window", 1); Ok(ReturnOp(w))
    case RealizedVolatility => var w :- RequiredWindow(params, "window", 1); Ok(VolatilityOp(w))
    case Ema => var s :- RequiredWindow(params, "span", 1); Ok(EmaOp(s))
    case SmaCrossover => var fs :- CrossoverSpans(params); Ok(SmaCrossOp(fs.0, fs.1))
    case EmaCrossover => var fs :- CrossoverSpans(params); Ok(EmaCrossOp(fs.0, fs.1))
    case TradeFlowImbalance => var w :- RequiredWindow(params, "window", 1); Ok(FlowOp(w))
    case MidPrice => Ok(MidOp)
    case Spread => Ok(SpreadOp)
    case RelativeSpread => Ok(RelativeSpreadOp)
    case BookImbalance => Ok(ImbalanceOp)
    case RelativeRange => Ok(RangeOp)
    case CloseLocation => Ok(LocationOp)
  }

  /** Which parameters a transform runs with: every window-shaped one a whole number, `period` and `ddof`
      with their defaults, the window past the degrees of freedom it gives up, spans in order. */
  predicate Runs(t: Transform, params: Params) {
    match t
    case RollingMean | RollingSum | Momentum | RealizedVolatility | TradeFlowImbalance => Whole(params, "window", 1)
    case RollingStd | RollingZscore =>
      if "ddof" in params then Whole(params, "ddof", 0) && Whole(params, "window", params["ddof"].i + 1)
      else Whole(params, "window", 1)
    case LogReturn => "period" in params ==> Whole(params, "period", 1)
    case Ema => Whole(params, "span", 1)
    case SmaCrossover | EmaCrossover =>
      Whole(params, "fast", 1) && Whole(params, "slow", 1) && params["fast"].i < params["slow"].i
    case _ => true
  }

  /** The operation is the transform's own, and every number in it is the one its parameter names. */
  predicate Carries(t: Transform, op: Op, params: Params)
    requires Runs(t, params)
  {
    match (t, op)
    case (RollingMean, MeanOp(w)) => w == params["window"].i
    case (RollingSum, SumOp(w)) => w == params["window"].i
    case (RollingStd, StdOp(w, d)) => w == params["window"].i && d == Default(params, "ddof", 0)
    case (RollingZscore, ZscoreOp(w, d)) => w == params["window"].i && d == Default(params, "ddof", 0)
    case (LogReturn, ReturnOp(p)) => p == Default(params, "period", 1)
    case (Momentum, ReturnOp(p)) => p == params["window"].i
    case (RealizedVolatility, VolatilityOp(w)) => w == params["window"].i
    case (Ema, EmaOp(s)) => s == params["span"].i
    case (SmaCrossover, SmaCrossOp(f, s)) => f == params["fast"].i && s == params["slow"].i
    case (EmaCrossover, EmaCrossOp(f, s)) => f == params["fast"].i && s == params["slow"].i
    case (TradeFlowImbalance, FlowOp(w)) => w == params["window"].i
    case (MidPrice, MidOp) => true
    case (Spread, SpreadOp) => true
    case (RelativeSpread, RelativeSpreadOp) => true
    case (BookImbalance, ImbalanceOp) => true
    case (RelativeRange, RangeOp) => true
    case (CloseLocation, LocationOp) => true
    case _ => false
  }

  function Default(params: Params, key: string, default: int): int {
    if key in params && params[key].IntParam? then params[key].i else default
  }

  /** A transform's parameters are accepted exactly when it runs with them, and are then the numbers it
      runs with. */
  lemma ReadsExactly(t: Transform, params: Params)
    ensures ReadParams(t, params).Ok? <==> Runs(t, params)
    ensures ReadParams(t, params).Ok? ==> Carries(t, ReadParams(t, params).value, params)
  {
  }

  /** The `lookback_*` functions, which read the parameters a second time and on their own. */
  function Lookback(t: Transform, params: Params): (r: Result<Option<nat>, FeatureError>)
    ensures r.Ok? && r.value.Some? ==> r.value.value >= 1
    ensures r.Err? ==> r.error == ParamError
  {
    match t
    case RollingMean | RollingStd | RollingSum | RollingZscore | TradeFlowImbalance =>
      var w :- RequiredWindow(params, "window", 1); Ok(Some(w))
    case LogReturn => var p :- Window(params, "period", 1, 1); Ok(Some(p + 1))
    case Momentum | RealizedVolatility => var w :- RequiredWindow(params, "window", 1); Ok(Some(w + 1))
    case SmaCrossover => var fs :- CrossoverSpans(params); Ok(Some(fs.1))
    case Ema | EmaCrossover => Ok(None)
    case _ => Ok(Some(1))
  }

  /** The one way a transform with a finite lookback can refuse to run: a `ddof` that is not a
      non-negative integer, or that leaves no degrees of freedom in the window. */
  predicate DdofRefused(t: Transform, params: Params) {
    && (t.RollingStd? || t.RollingZscore?)
    && "ddof" in params
    && !(params["ddof"].IntParam? && 0 <= params["ddof"].i
         && "window" in params && params["window"].IntParam? && params["ddof"].i < params["window"].i)
  }

  /** A declared finite lookback is the reach of the arithmetic, and it can be declared for
      parameters the evaluation refuses exactly when `ddof` is at fault. */
  lemma LookbackIsReach(t: Transform, params: Params)
    requires Lookback(t, params).Ok? && Lookback(t, params).value.Some?
    ensures ReadParams(t, params).Err? <==> DdofRefused(t, params)
    ensures ReadParams(t, params).Ok? ==> ReadParams(t, params).value.Reach() == Lookback(t, params).value
  {
  }

  /** A transform is unbounded exactly when it is one of the two exponential averages. */
  lemma UnboundedIsEma(t: Transform, params: Params)
    ensures Lookback(t, params) == Ok(None) <==> t.Ema? || t.EmaCrossover?
    ensures ReadParams(t, params).Ok? ==> (ReadParams(t, params).value.Reach().None? <==> t.Ema? || t.EmaCrossover?)
  {
  }
}
