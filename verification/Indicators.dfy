/** The stateless indicator arithmetic of Indicators.java.

    Each indicator is a function of the window, computed by a method that runs
    the source's index loop and is proved equal to that function. */
module Indicators {
  import opened Series

  /** IndicatorConfig.java: the periods and switches of one stream. */
  datatype Config = Config(
    rollingMeanPeriods: seq<int>,
    expAvgPeriods: seq<int>,
    momentumPeriod: int,
    trendConvergenceEnabled: bool,
    deviationBandsPeriod: int,
    deviationBandsEnabled: bool,
    secondaryAvgPeriod: int,
    dispersionPeriod: int,
    windowSize: nat,
    macdSignalPeriod: int)
  {
    /** The periods by which the source divides without a guard. */
    predicate Valid() {
      && momentumPeriod >= 1
      && macdSignalPeriod >= 1
      && forall i :: 0 <= i < |expAvgPeriods| ==> expAvgPeriods[i] >= 1
    }

    /** Every windowed indicator fits in the stored window. */
    predicate Fits() {
      && windowSize >= 2
      && momentumPeriod + 1 <= windowSize
      && dispersionPeriod <= windowSize
      && secondaryAvgPeriod <= windowSize
      && (deviationBandsEnabled ==> deviationBandsPeriod <= windowSize)
      && forall i :: 0 <= i < |rollingMeanPeriods| ==> rollingMeanPeriods[i] <= windowSize
    }
  }

  datatype Bands = Bands(upper: real, middle: real, lower: real)

  /** One entry of the emitted feature map; the source's key strings are in one-to-one
      correspondence with these. */
  datatype Feature =
    | Value
    | RollingMeanOf(period: int)
    | ExpAvgOf(period: int)
    | MomentumOf(period: int)
    | BandUpper
    | BandMiddle
    | BandLower
    | SecondaryAvg
    | ValueChangePct
    | DispersionOf
    | TrendConvergence
    | TrendSignal
    | TrendHist

  type Features = map<Feature, real>

  // ----- what each indicator is -----

  function RollingMean(values: seq<real>, period: int): real {
    if period <= 0 || |values| < period then 0.0
    else Sum(values[|values| - period..]) / period as real
  }

  /** Smoothing factor of an exponential average: a weight for every period of at least 1. */
  function Smoothing(period: int): (k: real)
    requires period != -1
    ensures period >= 1 ==> 0.0 < k <= 1.0
  {
    2.0 / (period as real + 1.0)
  }

  /** The exponential average seeded at the first element. */
  function Ema(values: seq<real>, k: real): real
    requires values != []
  {
    var n := |values|;
    if n == 1 then values[0] else values[n - 1] * k + Ema(values[..n - 1], k) * (1.0 - k)
  }

  function ExpAvg(values: seq<real>, period: int): real
    requires period != -1
  {
    if values == [] then 0.0 else Ema(values, Smoothing(period))
  }

  /** Total of the rises between neighbours. */
  function Gains(values: seq<real>): (g: real)
    ensures g >= 0.0
  {
    var n := |values|;
    if n < 2 then 0.0
    else
      var change := values[n - 1] - values[n - 2];
      Gains(values[..n - 1]) + if change > 0.0 then change else 0.0
  }

  /** Total of the falls between neighbours, as a non-negative number. */
  function Losses(values: seq<real>): (l: real)
    ensures l >= 0.0
  {
    var n := |values|;
    if n < 2 then 0.0
    else
      var change := values[n - 1] - values[n - 2];
      Losses(values[..n - 1]) + if change > 0.0 then 0.0 else -change
  }

  /** A negative period sums nothing, which reads as no losses. */
  function Momentum(values: seq<real>, period: int): real
    requires period != 0
  {
    if |values| < period + 1 then 50.0
    else if period < 0 then 100.0
    else
      var window := values[|values| - period - 1..];
      Oscillator(Gains(window) / period as real, Losses(window) / period as real)
  }

  /** The 0..100 scale of the ratio of average gain to average loss. */
  function Oscillator(avgGain: real, avgLoss: real): (r: real)
    requires avgGain >= 0.0 && avgLoss >= 0.0
    ensures 0.0 <= r <= 100.0
    ensures r == 100.0 <==> avgLoss == 0.0
  {
    if avgLoss == 0.0 then 100.0
    else
      var rs := avgGain / avgLoss;
      assert rs >= 0.0;
      UnitFraction(1.0 + rs);
      100.0 - 100.0 / (1.0 + rs)
  }

  lemma UnitFraction(d: real)
    requires d >= 1.0
    ensures 0.0 < 100.0 / d <= 100.0
  {
    var q := 100.0 / d;
    DivideBack(100.0, d);
    if q > 100.0 {
      MulMono(1.0, d, q);
      assert false;
    }
  }

  /** Population variance of the last `period` values. */
  function Variance(values: seq<real>, period: int): (v: real)
    requires 0 < period <= |values|
    ensures v >= 0.0
  {
    SquaredDistances(values[|values| - period..], RollingMean(values, period)) / period as real
  }

  function Dispersion(values: seq<real>, period: int, sqrt: real -> real): real {
    if period <= 0 || |values| < period then 0.0 else sqrt(Variance(values, period))
  }

  function DeviationBands(values: seq<real>, period: int, sqrt: real -> real): Bands {
    if period <= 0 || |values| < period then Bands(0.0, 0.0, 0.0)
    else
      var mean := RollingMean(values, period);
      var std := sqrt(Variance(values, period));
      Bands(mean + 2.0 * std, mean, mean - 2.0 * std)
  }

  function ValueChange(values: seq<real>): real {
    var n := |values|;
    if n < 2 || values[n - 2] == 0.0 then 0.0
    else (values[n - 1] - values[n - 2]) / values[n - 2] * 100.0
  }

  // ----- the emitted map -----

  /** The value the map holds under a stateless key. */
  function FeatureValue(f: Feature, primary: seq<real>, secondary: seq<real>, cfg: Config, sqrt: real -> real): real
    requires primary != []
    requires f.ExpAvgOf? || f.MomentumOf? ==> f.period >= 1
  {
    match f
    case Value => primary[|primary| - 1]
    case RollingMeanOf(p) => RollingMean(primary, p)
    case ExpAvgOf(p) => ExpAvg(primary, p)
    case MomentumOf(p) => Momentum(primary, p)
    case BandUpper => DeviationBands(primary, cfg.deviationBandsPeriod, sqrt).upper
    case BandMiddle => DeviationBands(primary, cfg.deviationBandsPeriod, sqrt).middle
    case BandLower => DeviationBands(primary, cfg.deviationBandsPeriod, sqrt).lower
    case SecondaryAvg => RollingMean(secondary, cfg.secondaryAvgPeriod)
    case ValueChangePct => ValueChange(primary)
    case DispersionOf => Dispersion(primary, cfg.dispersionPeriod, sqrt)
    case _ => 0.0
  }

  /** The stateless keys of the map for a non-empty primary series. */
  function FeatureKeys(hasSecondary: bool, cfg: Config): (keys: set<Feature>)
    requires cfg.Valid()
    ensures forall f :: f in keys && (f.ExpAvgOf? || f.MomentumOf?) ==> f.period >= 1
  {
    {Value} + RollingMeanKeys(cfg.rollingMeanPeriods) + ExpAvgKeys(cfg.expAvgPeriods) + OtherKeys(hasSecondary, cfg)
  }

  function RollingMeanKeys(periods: seq<int>): (keys: set<Feature>)
    ensures forall f :: f in keys ==> f.RollingMeanOf?
  {
    set p | p in periods :: RollingMeanOf(p)
  }

  function ExpAvgKeys(periods: seq<int>): (keys: set<Feature>)
    ensures forall f :: f in keys <==> f.ExpAvgOf? && f.period in periods
  {
    set p | p in periods :: ExpAvgOf(p)
  }

  function OtherKeys(hasSecondary: bool, cfg: Config): (keys: set<Feature>) {
    {MomentumOf(cfg.momentumPeriod), ValueChangePct, DispersionOf}
    + (if cfg.deviationBandsEnabled then {BandUpper, BandMiddle, BandLower} else {})
    + (if hasSecondary then {SecondaryAvg} else {})
  }

  function AllFeatures(primary: seq<real>, secondary: seq<real>, cfg: Config, sqrt: real -> real): Features
    requires cfg.Valid()
  {
    if primary == [] then map[]
    else map f | f in FeatureKeys(secondary != [], cfg) :: FeatureValue(f, primary, secondary, cfg, sqrt)
  }

  // ----- the source's loops -----

  method ComputeRollingMean(values: seq<real>, period: int) returns (r: real)
    ensures r == RollingMean(values, period)
  {
    if period <= 0 || |values| < period {
      return 0.0;
    }
    var from := |values| - period;
    var sum := 0.0;
    for i := from to |values|
      invariant sum == Sum(values[from..i])
    {
      SliceGrow(values, from, i);
      sum := sum + values[i];
    }
    assert values[from..|values|] == values[from..];
    return sum / period as real;
  }

  method ComputeExpAvg(values: seq<real>, period: int) returns (r: real)
    requires period != -1
    ensures r == ExpAvg(values, period)
  {
    if values == [] {
      return 0.0;
    }
    var k := 2.0 / (period as real + 1.0);
    r := values[0];
    for i := 1 to |values|
      invariant r == Ema(values[..i], k)
    {
      assert values[..i + 1][..i] == values[..i];
      r := values[i] * k + r * (1.0 - k);
    }
    assert values[..|values|] == values;
  }

  method ComputeMomentum(values: seq<real>, period: int) returns (r: real)
    requires period != 0
    ensures r == Momentum(values, period)
  {
    if |values| < period + 1 {
      return 50.0;
    }
    hide Oscillator, Gains, Losses;
    var gains, losses := 0.0, 0.0;
    ghost var from := |values| - period - 1;
    NoSteps();
    var i := |values| - period;
    while i < |values|
      invariant period < 0 ==> i > |values| && gains == losses == 0.0
      invariant period > 0 ==> 0 <= from < i <= |values|
      invariant period > 0 ==> gains == Gains(values[from..i]) && losses == Losses(values[from..i])
    {
      var change := values[i] - values[i - 1];
      SliceGrow(values, from, i);
      OneStep(values[from..i + 1]);
      if change > 0.0 {
        gains := gains + change;
      } else {
        losses := losses - change;
      }
      i := i + 1;
    }
    if period > 0 {
      assert i == |values| && values[from..i] == values[from..];
    }
    r := ComputeOscillator(gains, losses, period);
  }

  /** The averages and the scale at the end of momentum. */
  method ComputeOscillator(gains: real, losses: real, period: int) returns (r: real)
    requires gains >= 0.0 && losses >= 0.0 && (period > 0 || (period < 0 && gains == losses == 0.0))
    ensures r == if period < 0 then 100.0 else Oscillator(gains / period as real, losses / period as real)
  {
    var avgGain, avgLoss := gains / period as real, losses / period as real;
    if avgLoss == 0.0 {
      return 100.0;
    }
    var rs := avgGain / avgLoss;
    return 100.0 - 100.0 / (1.0 + rs);
  }

  lemma NoSteps()
    ensures forall x :: Gains([x]) == Losses([x]) == 0.0
  {
  }

  lemma OneStep(s: seq<real>)
    requires |s| >= 2
    ensures var n, change := |s| - 1, s[|s| - 1] - s[|s| - 2];
            && Gains(s) == (if change > 0.0 then Gains(s[..n]) + change else Gains(s[..n]))
            && Losses(s) == (if change > 0.0 then Losses(s[..n]) else Losses(s[..n]) - change)
  {
  }

  /** The variance loop that deviationBands and dispersion both run. */
  method ComputeVariance(values: seq<real>, period: int) returns (mean: real, variance: real)
    requires 0 < period <= |values|
    ensures mean == RollingMean(values, period) && variance == Variance(values, period)
  {
    mean := ComputeRollingMean(values, period);
    variance := 0.0;
    var from := |values| - period;
    for i := from to |values|
      invariant variance == SquaredDistances(values[from..i], mean)
    {
      SliceGrow(values, from, i);
      var d := values[i] - mean;
      variance := variance + d * d;
    }
    assert values[from..|values|] == values[from..];
    variance := variance / period as real;
  }

  method ComputeDeviationBands(values: seq<real>, period: int, sqrt: real -> real) returns (r: Bands)
    ensures r == DeviationBands(values, period, sqrt)
  {
    if period <= 0 || |values| < period {
      return Bands(0.0, 0.0, 0.0);
    }
    var mean, variance := ComputeVariance(values, period);
    var std := sqrt(variance);
    return Bands(mean + 2.0 * std, mean, mean - 2.0 * std);
  }

  method ComputeDispersion(values: seq<real>, period: int, sqrt: real -> real) returns (r: real)
    ensures r == Dispersion(values, period, sqrt)
  {
    if period <= 0 || |values| < period {
      return 0.0;
    }
    var _, variance := ComputeVariance(values, period);
    return sqrt(variance);
  }

  /** Every entry written so far is the value its key stands for. */
  ghost predicate Filled(features: Features, primary: seq<real>, secondary: seq<real>, cfg: Config, sqrt: real -> real)
    requires primary != []
  {
    forall f :: f in features ==>
      (f.ExpAvgOf? || f.MomentumOf? ==> f.period >= 1) && features[f] == FeatureValue(f, primary, secondary, cfg, sqrt)
  }

  /** The loop over the rolling-mean periods. */
  method PutRollingMeans(primary: seq<real>, ghost secondary: seq<real>, cfg: Config, ghost sqrt: real -> real,
                         before: Features)
    returns (features: Features)
    requires primary != [] && Filled(before, primary, secondary, cfg, sqrt)
    ensures features.Keys == before.Keys + RollingMeanKeys(cfg.rollingMeanPeriods)
    ensures Filled(features, primary, secondary, cfg, sqrt)
  {
    hide RollingMean, ExpAvg, Momentum, DeviationBands, Dispersion, ValueChange;
    features := before;
    for i := 0 to |cfg.rollingMeanPeriods|
      invariant features.Keys == before.Keys + RollingMeanKeys(cfg.rollingMeanPeriods[..i])
      invariant Filled(features, primary, secondary, cfg, sqrt)
    {
      var mean := ComputeRollingMean(primary, cfg.rollingMeanPeriods[i]);
      features := features[RollingMeanOf(cfg.rollingMeanPeriods[i]) := mean];
    }
  }

  /** The loop over the exponential-average periods. */
  method PutExpAvgs(primary: seq<real>, ghost secondary: seq<real>, cfg: Config, ghost sqrt: real -> real,
                    before: Features)
    returns (features: Features)
    requires cfg.Valid() && primary != [] && Filled(before, primary, secondary, cfg, sqrt)
    ensures features.Keys == before.Keys + ExpAvgKeys(cfg.expAvgPeriods)
    ensures Filled(features, primary, secondary, cfg, sqrt)
  {
    hide RollingMean, ExpAvg, Momentum, DeviationBands, Dispersion, ValueChange;
    features := before;
    for i := 0 to |cfg.expAvgPeriods|
      invariant features.Keys == before.Keys + ExpAvgKeys(cfg.expAvgPeriods[..i])
      invariant Filled(features, primary, secondary, cfg, sqrt)
    {
      var avg := ComputeExpAvg(primary, cfg.expAvgPeriods[i]);
      features := features[ExpAvgOf(cfg.expAvgPeriods[i]) := avg];
    }
  }

  /** Fills the sorted map key by key, as the source does. */
  method ComputeAll(primary: seq<real>, secondary: seq<real>, cfg: Config, sqrt: real -> real)
    returns (features: Features)
    requires cfg.Valid()
    ensures features == AllFeatures(primary, secondary, cfg, sqrt)
  {
    hide FeatureValue, RollingMeanKeys, ExpAvgKeys, OtherKeys;
    if primary == [] {
      return map[];
    }
    features := map[Value := primary[|primary| - 1]];
    ValueFilled(primary, secondary, cfg, sqrt);
    features := PutRollingMeans(primary, secondary, cfg, sqrt, features);
    features := PutExpAvgs(primary, secondary, cfg, sqrt, features);
    features := PutRest(primary, secondary, cfg, sqrt, features);
    FilledIsAll(features, primary, secondary, cfg, sqrt);
  }

  /** The puts after the two loops. */
  method PutRest(primary: seq<real>, secondary: seq<real>, cfg: Config, sqrt: real -> real, before: Features)
    returns (features: Features)
    requires cfg.Valid() && primary != [] && Filled(before, primary, secondary, cfg, sqrt)
    ensures features.Keys == before.Keys + OtherKeys(secondary != [], cfg)
    ensures Filled(features, primary, secondary, cfg, sqrt)
  {
    hide RollingMean, ExpAvg, Momentum, DeviationBands, Dispersion, ValueChange;
    var m := ComputeMomentum(primary, cfg.momentumPeriod);
    features := before[MomentumOf(cfg.momentumPeriod) := m];
    if cfg.deviationBandsEnabled {
      var bands := ComputeDeviationBands(primary, cfg.deviationBandsPeriod, sqrt);
      features := features[BandUpper := bands.upper][BandMiddle := bands.middle][BandLower := bands.lower];
    }
    if secondary != [] {
      var avg := ComputeRollingMean(secondary, cfg.secondaryAvgPeriod);
      features := features[SecondaryAvg := avg];
    }
    var d := ComputeDispersion(primary, cfg.dispersionPeriod, sqrt);
    features := features[ValueChangePct := ValueChange(primary)][DispersionOf := d];
  }

  lemma ValueFilled(primary: seq<real>, secondary: seq<real>, cfg: Config, sqrt: real -> real)
    requires primary != []
    ensures Filled(map[Value := primary[|primary| - 1]], primary, secondary, cfg, sqrt)
  {
  }

  lemma FilledIsAll(features: Features, primary: seq<real>, secondary: seq<real>, cfg: Config, sqrt: real -> real)
    requires cfg.Valid() && primary != []
    requires features.Keys == FeatureKeys(secondary != [], cfg)
    requires Filled(features, primary, secondary, cfg, sqrt)
    ensures features == AllFeatures(primary, secondary, cfg, sqrt)
  {
    hide FeatureKeys, FeatureValue;
  }

  // ----- laws of the indicators -----

  lemma EmaStep(values: seq<real>, k: real)
    requires |values| >= 2
    ensures Ema(values, k) == values[|values| - 1] * k + Ema(values[..|values| - 1], k) * (1.0 - k)
  {
  }

  lemma EmaOne(values: seq<real>, k: real)
    requires |values| == 1
    ensures Ema(values, k) == values[0]
  {
  }

  /** Dropping a prefix moves the average by exactly the decayed gap between the dropped
      average and the new seed. */
  lemma {:induction false} EmaSplit(dropped: seq<real>, kept: seq<real>, k: real)
    requires dropped != [] && kept != []
    ensures Ema(dropped + kept, k) - Ema(kept, k) == Pow(1.0 - k, |kept|) * (Ema(dropped, k) - kept[0])
  {
    hide Ema, Pow;
    var n := |kept|;
    var all, shorter := dropped + kept, kept[..n - 1];
    assert all[..|all| - 1] == dropped + shorter;
    EmaStep(all, k);
    PowStep(1.0 - k, n);
    if n == 1 {
      assert dropped + shorter == dropped;
      EmaOne(kept, k);
      FirstGap(kept[0], Ema(dropped, k), k);
    } else {
      EmaSplit(dropped, shorter, k);
      EmaStep(kept, k);
      SmoothGap(kept[n - 1], Ema(dropped + shorter, k), Ema(shorter, k), k,
                Ema(dropped, k) - kept[0], Pow(1.0 - k, n - 1));
    }
  }

  /** One smoothing step scales the gap between two averages by 1 - k. */
  lemma SmoothGap(x: real, a: real, b: real, k: real, gap: real, p: real)
    requires a - b == p * gap
    ensures (x * k + a * (1.0 - k)) - (x * k + b * (1.0 - k)) == ((1.0 - k) * p) * gap
  {
    assert a * (1.0 - k) - b * (1.0 - k) == (a - b) * (1.0 - k);
    assert (p * gap) * (1.0 - k) == ((1.0 - k) * p) * gap;
  }

  lemma FirstGap(x: real, a: real, k: real)
    ensures x * k + a * (1.0 - k) - x == (1.0 - k) * (a - x)
  {
  }

  /** A smoothing step stays between its operands' bounds. */
  lemma SmoothWithin(x: real, a: real, k: real, lo: real, hi: real)
    requires lo <= x <= hi && lo <= a <= hi && 0.0 <= k <= 1.0
    ensures lo <= x * k + a * (1.0 - k) <= hi
  {
    var j := 1.0 - k;
    MulMono(lo, x, k);
    MulMono(lo, a, j);
    MulMono(x, hi, k);
    MulMono(a, hi, j);
    assert lo * k + lo * j == lo * (k + j);
    assert hi * k + hi * j == hi * (k + j);
    AddBounds(lo * k, lo * j, x * k, a * j, hi * k, hi * j);
  }

  lemma AddBounds(l1: real, l2: real, m1: real, m2: real, h1: real, h2: real)
    requires l1 <= m1 <= h1 && l2 <= m2 <= h2
    ensures l1 + l2 <= m1 + m2 <= h1 + h2
  {
  }

  /** An exponential average never leaves the range of its series. */
  lemma {:induction false} EmaWithin(values: seq<real>, k: real, lo: real, hi: real)
    requires values != [] && 0.0 <= k <= 1.0
    requires forall i :: 0 <= i < |values| ==> lo <= values[i] <= hi
    ensures lo <= Ema(values, k) <= hi
  {
    var n := |values|;
    if n > 1 {
      EmaWithin(values[..n - 1], k, lo, hi);
      SmoothWithin(values[n - 1], Ema(values[..n - 1], k), k, lo, hi);
    }
  }

  lemma GapScaled(p: real, gap: real, range: real)
    requires p >= 0.0 && -range <= gap <= range
    ensures Abs(p * gap) <= p * range
  {
    MulMono(gap, range, p);
    MulMono(-range, gap, p);
  }

  lemma NoGap(p: real, gap: real, range: real)
    requires p >= 0.0 && range >= 0.0 && gap == 0.0
    ensures Abs(gap) <= p * range
  {
    MulMono(0.0, p, range);
  }

  /** The stored window's average is the full history's up to `window` events, and after that
      differs by at most the decayed range of the history. */
  lemma EmaTruncation(history: seq<real>, window: nat, period: int, lo: real, hi: real)
    requires period >= 1 && window >= 1
    requires forall i :: 0 <= i < |history| ==> lo <= history[i] <= hi
    requires history != []
    ensures |history| <= window ==> ExpAvg(Tail(history, window), period) == ExpAvg(history, period)
    ensures Abs(ExpAvg(history, period) - ExpAvg(Tail(history, window), period))
         <= Pow(1.0 - Smoothing(period), window) * (hi - lo)
  {
    hide Ema, Pow, Smoothing, Abs;
    var k := Smoothing(period);
    PowBounds(1.0 - k, window);
    var p := Pow(1.0 - k, window);
    assert lo <= history[0] <= hi;
    if |history| <= window {
      assert Tail(history, window) == history;
      NoGap(p, ExpAvg(history, period) - ExpAvg(Tail(history, window), period), hi - lo);
    } else {
      var cut := |history| - window;
      var dropped, kept := history[..cut], history[cut..];
      assert dropped + kept == history;
      var gap := Ema(dropped, k) - kept[0];
      EmaSplit(dropped, kept, k);
      assert ExpAvg(history, period) - ExpAvg(Tail(history, window), period) == p * gap;
      EmaWithin(dropped, k, lo, hi);
      GapScaled(p, gap, hi - lo);
    }
  }

  /** A rolling mean read from the stored window equals the full history's for every history
      exactly when its period fits in the window. */
  lemma RollingMeanRefines(window: nat, period: int)
    ensures (forall h: seq<real> :: RollingMean(Tail(h, window), period) == RollingMean(h, period))
        <==> period <= window
  {
    if period <= window {
      forall h: seq<real> ensures RollingMean(Tail(h, window), period) == RollingMean(h, period) {
        RollingMeanFits(h, window, period);
      }
    } else {
      var h := seq(period, _ => 1.0);
      MeanOfOnes(period);
      assert RollingMean(Tail(h, window), period) == 0.0;
    }
  }

  lemma RollingMeanFits(h: seq<real>, window: nat, period: int)
    requires period <= window
    ensures RollingMean(Tail(h, window), period) == RollingMean(h, period)
  {
    if 0 < period <= |h| { TailWindow(h, window, period); }
  }

  lemma MeanOfOnes(period: nat)
    requires period > 0
    ensures RollingMean(seq(period, _ => 1.0), period) == 1.0
  {
    hide Sum;
    var h := seq(period, _ => 1.0);
    SumOfOnes(h);
    assert h[|h| - period..] == h;
    SelfRatio(period as real);
  }

  lemma {:induction false} SumOfOnes(s: seq<real>)
    requires forall i :: 0 <= i < |s| ==> s[i] == 1.0
    ensures Sum(s) == |s| as real
  {
    if s != [] { SumOfOnes(s[..|s| - 1]); }
  }

  lemma SelfRatio(n: real)
    requires n > 0.0
    ensures n / n == 1.0
  {
  }

  lemma {:induction false} LossesOfConstant(s: seq<real>, c: real)
    requires forall i :: 0 <= i < |s| ==> s[i] == c
    ensures Losses(s) == 0.0
  {
    if |s| >= 2 { LossesOfConstant(s[..|s| - 1], c); }
  }

  /** The oscillator needs one more value than its period. */
  lemma MomentumRefines(window: nat, period: int)
    requires period != 0
    ensures (forall h: seq<real> :: Momentum(Tail(h, window), period) == Momentum(h, period)) <==> period + 1 <= window
  {
    if period + 1 <= window {
      forall h: seq<real> ensures Momentum(Tail(h, window), period) == Momentum(h, period) {
        if 0 < period < |h| { TailWindow(h, window, period + 1); }
      }
    } else {
      var h := seq(period + 1, i => 0.0);
      LossesOfConstant(h, 0.0);
      assert h[|h| - period - 1..] == h;
      assert Momentum(h, period) == 100.0;
      assert Momentum(Tail(h, window), period) == 50.0;
    }
  }

  lemma VarianceRefines(history: seq<real>, window: nat, period: int)
    requires 0 < period <= window && period <= |history|
    ensures Variance(Tail(history, window), period) == Variance(history, period)
  {
    TailWindow(history, window, period);
    RollingMeanRefines(window, period);
  }

  /** Bands read from the stored window equal the full history's for every history exactly when
      their period fits. */
  lemma BandsRefine(window: nat, period: int, sqrt: real -> real)
    ensures (forall h: seq<real> :: DeviationBands(Tail(h, window), period, sqrt) == DeviationBands(h, period, sqrt))
            <==> period <= window
  {
    RollingMeanRefines(window, period);
    if period <= window {
      forall h: seq<real> ensures DeviationBands(Tail(h, window), period, sqrt) == DeviationBands(h, period, sqrt) {
        if 0 < period <= |h| { VarianceRefines(h, window, period); }
      }
    } else {
      var h: seq<real> :| RollingMean(Tail(h, window), period) != RollingMean(h, period);
      assert DeviationBands(Tail(h, window), period, sqrt).middle == 0.0;
    }
  }

  lemma DispersionFits(history: seq<real>, window: nat, period: int, sqrt: real -> real)
    requires period <= window
    ensures Dispersion(Tail(history, window), period, sqrt) == Dispersion(history, period, sqrt)
  {
    if 0 < period <= |history| { VarianceRefines(history, window, period); }
  }

  /** One value followed by different ones has a dispersion. */
  lemma SpreadDisperses(period: nat, sqrt: real -> real)
    requires IsSqrt(sqrt) && period >= 2
    ensures Dispersion([1.0] + seq(period - 1, _ => 0.0), period, sqrt) > 0.0
  {
    var h := [1.0] + seq(period - 1, _ => 0.0);
    assert h[|h| - period..] == h;
    var mean := RollingMean(h, period);
    if mean == 1.0 { SpreadPositive(h, mean, 1); } else { SpreadPositive(h, mean, 0); }
    QuotientPositive(SquaredDistances(h, mean), period as real);
    RootFacts(sqrt, Variance(h, period));
  }

  lemma QuotientPositive(a: real, b: real)
    requires a > 0.0 && b > 0.0
    ensures a / b > 0.0
  {
  }

  lemma ZeroRoot(sqrt: real -> real)
    requires IsSqrt(sqrt)
    ensures sqrt(0.0) == 0.0
  {
    var r := sqrt(0.0);
    RootFacts(sqrt, 0.0);
    ZeroProduct(r, r, r * r);
  }

  lemma SingleHasNoSpread(h: seq<real>, sqrt: real -> real)
    requires IsSqrt(sqrt) && h != []
    ensures Dispersion(h, 1, sqrt) == 0.0
  {
    var last := h[|h| - 1..];
    assert last == [h[|h| - 1]];
    assert Sum(last) == h[|h| - 1] by { assert last[..0] == []; }
    assert SquaredDistances(last, h[|h| - 1]) == 0.0 by { assert last[..0] == []; }
    assert RollingMean(h, 1) == h[|h| - 1];
    assert Variance(h, 1) == 0.0;
    ZeroRoot(sqrt);
  }

  /** Dispersion read from the stored window equals the full history's for every history exactly
      when its period fits or is a single value, which never disperses. */
  lemma DispersionRefines(window: nat, period: int, sqrt: real -> real)
    requires IsSqrt(sqrt)
    ensures (forall h: seq<real> :: Dispersion(Tail(h, window), period, sqrt) == Dispersion(h, period, sqrt))
            <==> period <= window || period <= 1
  {
    if period <= window {
      forall h: seq<real> ensures Dispersion(Tail(h, window), period, sqrt) == Dispersion(h, period, sqrt) {
        DispersionFits(h, window, period, sqrt);
      }
    } else if period <= 1 {
      forall h: seq<real> ensures Dispersion(Tail(h, window), period, sqrt) == Dispersion(h, period, sqrt) {
        if period == 1 && h != [] { SingleHasNoSpread(h, sqrt); }
      }
    } else {
      var h := [1.0] + seq(period - 1, _ => 0.0);
      SpreadDisperses(period, sqrt);
      assert Dispersion(Tail(h, window), period, sqrt) == 0.0;
    }
  }

  /** The percent change needs two stored values. */
  lemma ValueChangeRefines(window: nat)
    ensures (forall h: seq<real> :: ValueChange(Tail(h, window)) == ValueChange(h)) <==> window >= 2
  {
    if window < 2 {
      assert ValueChange([1.0, 2.0]) == 100.0;
      assert |Tail([1.0, 2.0], window)| < 2;
    }
  }

  /** One stateless entry read from the stored windows equals the full history's. */
  lemma FeatureRefines(f: Feature, primary: seq<real>, secondary: seq<real>, cfg: Config, sqrt: real -> real)
    requires cfg.Valid() && cfg.Fits() && primary != []
    requires f in FeatureKeys(secondary != [], cfg) && !f.ExpAvgOf?
    ensures FeatureValue(f, Tail(primary, cfg.windowSize), Tail(secondary, cfg.windowSize), cfg, sqrt)
         == FeatureValue(f, primary, secondary, cfg, sqrt)
  {
    hide RollingMean, ExpAvg, Momentum, DeviationBands, Dispersion, ValueChange;
    var w := cfg.windowSize;
    match f
    case RollingMeanOf(p) => RollingMeanRefines(w, p);
    case MomentumOf(p) => MomentumRefines(w, p);
    case BandUpper => BandsRefine(w, cfg.deviationBandsPeriod, sqrt);
    case BandMiddle => BandsRefine(w, cfg.deviationBandsPeriod, sqrt);
    case BandLower => BandsRefine(w, cfg.deviationBandsPeriod, sqrt);
    case SecondaryAvg => RollingMeanRefines(w, cfg.secondaryAvgPeriod);
    case ValueChangePct => ValueChangeRefines(w);
    case DispersionOf => DispersionFits(primary, w, cfg.dispersionPeriod, sqrt);
    case _ =>
  }

  /** An average over the stored window strays from the full one by at most the decayed range of the
      history. */
  predicate WithinDecay(full: real, stored: real, period: int, window: nat, range: real)
    requires period >= 1
  {
    Abs(full - stored) <= Pow(1.0 - Smoothing(period), window) * range
  }

  /** The whole emitted map: same keys, same values under every key but the exponential averages,
      and those within the decayed range of the history. */
  lemma AllFeaturesRefine(primary: seq<real>, secondary: seq<real>, cfg: Config, sqrt: real -> real, lo: real, hi: real)
    requires cfg.Valid() && cfg.Fits() && primary != []
    requires forall i :: 0 <= i < |primary| ==> lo <= primary[i] <= hi
    ensures var stored := AllFeatures(Tail(primary, cfg.windowSize), Tail(secondary, cfg.windowSize), cfg, sqrt);
            var full := AllFeatures(primary, secondary, cfg, sqrt);
            && stored.Keys == full.Keys
            && (forall f :: f in full && !f.ExpAvgOf? ==> stored[f] == full[f])
            && (forall f :: f in full && f.ExpAvgOf? ==>
                  f.period >= 1
                  && WithinDecay(full[f], stored[f], f.period, cfg.windowSize, hi - lo))
  {
    hide RollingMean, ExpAvg, Momentum, DeviationBands, Dispersion, ValueChange, Pow, Smoothing, FeatureKeys;
    var w := cfg.windowSize;
    var stored := AllFeatures(Tail(primary, w), Tail(secondary, w), cfg, sqrt);
    var full := AllFeatures(primary, secondary, cfg, sqrt);
    forall f | f in full && !f.ExpAvgOf? ensures stored[f] == full[f] {
      FeatureRefines(f, primary, secondary, cfg, sqrt);
    }
    forall f | f in full && f.ExpAvgOf?
      ensures f.period >= 1
      ensures WithinDecay(full[f], stored[f], f.period, w, hi - lo)
    {
      EmaTruncation(primary, w, f.period, lo, hi);
    }
  }

  // ----- Chebyshev -----

  /** How many values lie outside the closed interval. */
  function Outside(s: seq<real>, lower: real, upper: real): (n: nat)
    ensures n <= |s|
  {
    if s == [] then 0
    else Outside(s[..|s| - 1], lower, upper) + if lower <= s[|s| - 1] <= upper then 0 else 1
  }

  lemma OutlierCost(d: real, r: real)
    requires r >= 0.0 && !(-r <= d <= r)
    ensures Square(d) >= r * r
  {
    SquareMono(Abs(d), r);
    assert (-d) * (-d) == d * d;
  }

  lemma OneMore(n: int, a: real)
    ensures (n + 1) as real * a == n as real * a + a
  {
  }

  /** Each outlier contributes at least the squared half-width to the squared distances. */
  lemma {:induction false} OutsidersCost(s: seq<real>, c: real, r: real, area: real)
    requires r >= 0.0 && area == r * r
    ensures Outside(s, c - r, c + r) as real * area <= SquaredDistances(s, c)
  {
    hide Square;
    if s != [] {
      var init, x := s[..|s| - 1], s[|s| - 1];
      OutsidersCost(init, c, r, area);
      if !(c - r <= x <= c + r) { OutlierCost(x - c, r); }
      CostStep(Outside(init, c - r, c + r), Outside(s, c - r, c + r), area, SquaredDistances(init, c), Square(x - c));
    }
  }

  lemma CostStep(n: int, m: int, area: real, total: real, d: real)
    requires n as real * area <= total && d >= 0.0
    requires m == n || (m == n + 1 && d >= area)
    ensures m as real * area <= total + d
  {
    OneMore(n, area);
  }

  /** A series with no spread has no outlier. */
  lemma {:induction false} NoSpreadNoOutlier(s: seq<real>, c: real)
    requires SquaredDistances(s, c) == 0.0
    ensures Outside(s, c, c) == 0
  {
    if s != [] {
      var d := s[|s| - 1] - c;
      if Square(d) == 0.0 { ZeroProduct(d, d, Square(d)); }
      NoSpreadNoOutlier(s[..|s| - 1], c);
    }
  }

  /** At most a quarter of the trailing window lies outside the bands, and the band width is four
      times the dispersion at the same period. */
  lemma BandsCoverThreeQuarters(values: seq<real>, period: int, sqrt: real -> real)
    requires IsSqrt(sqrt) && 0 < period <= |values|
    ensures var b := DeviationBands(values, period, sqrt);
            && 4 * Outside(values[|values| - period..], b.lower, b.upper) <= period
            && b.upper - b.lower == 4.0 * Dispersion(values, period, sqrt)
  {
    hide Outside, SquaredDistances, RollingMean, Square;
    var window := values[|values| - period..];
    var mean, variance := RollingMean(values, period), Variance(values, period);
    var std, total := sqrt(variance), SquaredDistances(window, mean);
    RootFacts(sqrt, variance);
    DivideBack(total, period as real);
    if variance == 0.0 {
      ZeroProduct(std, std, variance);
      NoSpreadNoOutlier(window, mean);
    } else {
      OutsidersCost(window, mean, 2.0 * std, (2.0 * std) * (2.0 * std));
      AtMostAQuarter(Outside(window, mean - 2.0 * std, mean + 2.0 * std), period, std, (2.0 * std) * (2.0 * std),
                     variance);
    }
  }

  lemma AtMostAQuarter(n: int, period: int, std: real, r2: real, variance: real)
    requires variance > 0.0 && std * std == variance
    requires n as real * r2 <= variance * period as real
    requires r2 == (2.0 * std) * (2.0 * std)
    ensures 4 * n <= period
  {
    assert (2.0 * std) * (2.0 * std) == 4.0 * variance;
    assert n as real * (4.0 * variance) == (4 * n) as real * variance;
    if 4 * n > period {
      MulMonoStrict(period as real, (4 * n) as real, variance);
    }
  }

  /** The oscillator stays in [0, 100]; with enough values it is 100 exactly when nothing fell. */
  lemma MomentumRange(values: seq<real>, period: int)
    requires period != 0
    ensures 0.0 <= Momentum(values, period) <= 100.0
    ensures 0 < period < |values| ==>
              (Momentum(values, period) == 100.0 <==> Losses(values[|values| - period - 1..]) == 0.0)
  {
    if 0 < period < |values| {
      DivideBack(Losses(values[|values| - period - 1..]), period as real);
    }
  }
}
