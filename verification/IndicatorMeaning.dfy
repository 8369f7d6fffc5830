/** What each stream indicator is a number of, stated on the series itself, and which key of the
    computed map holds which. */
module IndicatorMeaning {
  import opened Series
  import opened Indicators

  /** The last n values. */
  function Last(values: seq<real>, n: nat): seq<real>
    requires n <= |values|
  {
    values[|values| - n..]
  }

  // ----- means -----

  lemma MeanIs(values: seq<real>, period: int)
    ensures 0 < period <= |values| ==> RollingMean(values, period) * period as real == Sum(Last(values, period))
    ensures !(0 < period <= |values|) ==> RollingMean(values, period) == 0.0
  {
    if 0 < period <= |values| { DivideBack(Sum(Last(values, period)), period as real); }
  }

  lemma SmoothingIs(period: int)
    requires period != -1
    ensures Smoothing(period) * (period as real + 1.0) == 2.0
  {
    ProductBack(2.0, period as real + 1.0, Smoothing(period));
  }

  /** The weight the average of n values gives to value j. */
  function Weight(k: real, n: nat, j: nat): real
    requires j < n
  {
    if j == 0 then Pow(1.0 - k, n - 1) else k * Pow(1.0 - k, n - 1 - j)
  }

  function Weighted(values: seq<real>, k: real): (w: seq<real>)
    ensures |w| == |values|
  {
    seq(|values|, j requires 0 <= j < |values| => Weight(k, |values|, j) * values[j])
  }

  function Scaled(s: seq<real>, c: real): (r: seq<real>)
    ensures |r| == |s| && forall i :: 0 <= i < |r| ==> r[i] == s[i] * c
  {
    seq(|s|, i requires 0 <= i < |s| => s[i] * c)
  }

  lemma {:induction false} SumScaled(s: seq<real>, c: real)
    ensures Sum(Scaled(s, c)) == Sum(s) * c
  {
    if s != [] {
      var n := |s| - 1;
      SumScaled(s[..n], c);
      var a, b := Scaled(s, c)[..n], Scaled(s[..n], c);
      forall i | 0 <= i < n ensures a[i] == b[i] {
        assert s[..n][i] == s[i];
      }
      assert a == b;
      ScaleSum(Sum(s[..n]), s[n], c);
    }
  }

  lemma ScaleSum(a: real, b: real, c: real)
    ensures (a + b) * c == a * c + b * c
  {
  }

  lemma WeightDecays(k: real, n: nat, j: nat, x: real)
    requires j < n
    ensures Weight(k, n + 1, j) * x == (Weight(k, n, j) * x) * (1.0 - k)
  {
    hide Pow;
    if j == 0 {
      PowStep(1.0 - k, n);
      ThreeFactors(1.0 - k, Pow(1.0 - k, n - 1), x);
    } else {
      PowStep(1.0 - k, n - j);
      var p := Pow(1.0 - k, n - 1 - j);
      assert k * ((1.0 - k) * p) == (1.0 - k) * (k * p);
      ThreeFactors(1.0 - k, k * p, x);
    }
  }

  lemma ThreeFactors(a: real, b: real, x: real)
    ensures (a * b) * x == (b * x) * a
  {
  }

  /** One more value scales the weighted values before it. */
  lemma WeightedGrows(values: seq<real>, k: real)
    requires |values| >= 2
    ensures var n := |values| - 1;
            && Weighted(values, k)[..n] == Scaled(Weighted(values[..n], k), 1.0 - k)
            && Weighted(values, k)[n] == k * values[n]
  {
    hide Pow, Weight;
    var n := |values| - 1;
    var w := Weighted(values, k);
    forall j | 0 <= j < n ensures w[j] == Scaled(Weighted(values[..n], k), 1.0 - k)[j] {
      WeightDecays(k, n, j, values[j]);
    }
    NewestWeight(k, n + 1);
  }

  /** The exponential average is the sum of the values under these weights. */
  lemma {:induction false} EmaIsWeighted(values: seq<real>, k: real)
    requires values != []
    ensures Ema(values, k) == Sum(Weighted(values, k))
  {
    hide Ema, Pow, Weight, Weighted, Scaled;
    var n := |values| - 1;
    if n == 0 {
      EmaOne(values, k);
      OneWeighted(values, k);
    } else {
      EmaIsWeighted(values[..n], k);
      EmaStep(values, k);
      WeightedGrows(values, k);
      SumScaled(Weighted(values[..n], k), 1.0 - k);
    }
  }

  lemma OneWeighted(values: seq<real>, k: real)
    requires |values| == 1
    ensures Sum(Weighted(values, k)) == values[0]
  {
    NewestWeight(k, 1);
    assert Weighted(values, k) == [values[0]];
    SumOne(values[0]);
  }

  lemma NewestWeight(k: real, n: nat)
    requires n >= 1
    ensures Weight(k, n, n - 1) == if n == 1 then 1.0 else k
  {
  }

  // ----- spread -----

  /** The population deviation of the last `period` values. */
  lemma DispersionIs(values: seq<real>, period: int, sqrt: real -> real)
    requires IsSqrt(sqrt) && 0 < period <= |values|
    ensures var d, window := Dispersion(values, period, sqrt), Last(values, period);
            && d >= 0.0
            && d * d * period as real == SquaredDistances(window, RollingMean(values, period))
            && (d == 0.0 <==> Constant(window))
  {
    hide SquaredDistances;
    var window := Last(values, period);
    var v := Variance(values, period);
    RootFacts(sqrt, v);
    RootVanishes(sqrt, v);
    DivideBack(SquaredDistances(window, RollingMean(values, period)), period as real);
    QuotientVanishes(SquaredDistances(window, RollingMean(values, period)), period as real);
    SpreadVanishes(window);
  }

  /** The middle band is the mean; the others lie two deviations above and below it. */
  lemma BandsAre(values: seq<real>, period: int, sqrt: real -> real)
    ensures var b := DeviationBands(values, period, sqrt);
            && b.middle == RollingMean(values, period)
            && b.upper - b.middle == 2.0 * Dispersion(values, period, sqrt) == b.middle - b.lower
  {
  }

  lemma ValueChangeIs(values: seq<real>)
    ensures var v, n := ValueChange(values), |values|;
            if n >= 2 && values[n - 2] != 0.0
            then v * values[n - 2] == 100.0 * (values[n - 1] - values[n - 2])
            else v == 0.0
  {
    var n := |values|;
    if n >= 2 && values[n - 2] != 0.0 {
      var p, d := values[n - 2], values[n - 1] - values[n - 2];
      ProductBack(d, p, d / p);
      ThreeFactors(d / p, 100.0, p);
    }
  }

  // ----- momentum -----

  /** The rise, if any, into each value but the first. */
  function Rises(values: seq<real>): (r: seq<real>)
    requires values != []
    ensures |r| == |values| - 1
  {
    seq(|values| - 1, i requires 0 <= i < |values| - 1 =>
      if values[i + 1] > values[i] then values[i + 1] - values[i] else 0.0)
  }

  /** And the fall. */
  function Falls(values: seq<real>): (r: seq<real>)
    requires values != []
    ensures |r| == |values| - 1
  {
    seq(|values| - 1, i requires 0 <= i < |values| - 1 =>
      if values[i + 1] < values[i] then values[i] - values[i + 1] else 0.0)
  }

  lemma {:induction false} GainsAndLosses(values: seq<real>)
    requires values != []
    ensures Gains(values) == Sum(Rises(values)) && Losses(values) == Sum(Falls(values))
    ensures Gains(values) - Losses(values) == values[|values| - 1] - values[0]
  {
    var n := |values| - 1;
    if n > 0 {
      GainsAndLosses(values[..n]);
      assert Rises(values)[..n - 1] == Rises(values[..n]) && Falls(values)[..n - 1] == Falls(values[..n]);
    }
  }

  /** With enough values the oscillator is the share of the rises in all movement, in percent, and 100
      when nothing fell; with fewer it is 50. */
  predicate OscillatorIs(primary: seq<real>, p: int, x: real)
    requires p >= 1
  {
    && (|primary| <= p ==> x == 50.0)
    && (|primary| > p ==>
          var window := Last(primary, p + 1);
          ShareIs(Sum(Rises(window)), Sum(Falls(window)), x))
  }

  predicate ShareIs(up: real, down: real, x: real) {
    if down > 0.0 then x * (up + down) == 100.0 * up else x == 100.0
  }

  lemma MomentumIs(values: seq<real>, period: int)
    requires period >= 1
    ensures OscillatorIs(values, period, Momentum(values, period))
  {
    hide Gains, Losses, Sum, Rises, Falls, Oscillator, ShareIs;
    if |values| > period {
      var window := Last(values, period + 1);
      GainsAndLosses(window);
      OscillatorShares(Gains(window), Losses(window), period as real);
    }
  }

  lemma OscillatorShares(gains: real, losses: real, n: real)
    requires gains >= 0.0 && losses >= 0.0 && n > 0.0
    ensures gains / n >= 0.0 && losses / n >= 0.0
    ensures ShareIs(gains, losses, Oscillator(gains / n, losses / n))
  {
    hide Oscillator;
    QuotientVanishes(gains, n);
    QuotientVanishes(losses, n);
    if losses > 0.0 {
      ShareOfRises(gains, losses, n);
    } else {
      NothingLost(gains / n, losses / n);
    }
  }

  lemma NothingLost(g: real, l: real)
    requires g >= 0.0 && l == 0.0
    ensures Oscillator(g, l) == 100.0
  {
  }

  lemma ShareOfRises(gains: real, losses: real, n: real)
    requires gains >= 0.0 && losses > 0.0 && n > 0.0
    ensures gains / n >= 0.0 && losses / n > 0.0
    ensures Oscillator(gains / n, losses / n) * (gains + losses) == 100.0 * gains
  {
    var g, l := gains / n, losses / n;
    DivideBack(gains, n);
    DivideBack(losses, n);
    QuotientVanishes(gains, n);
    QuotientVanishes(losses, n);
    OscillatorShare(g, l);
    var m := Oscillator(g, l);
    assert m * (gains + losses) == m * ((g + l) * n) by { assert gains + losses == (g + l) * n; }
    assert m * ((g + l) * n) == (m * (g + l)) * n;
    assert (100.0 * g) * n == 100.0 * (g * n);
  }

  lemma OscillatorShare(g: real, l: real)
    requires g >= 0.0 && l > 0.0
    ensures Oscillator(g, l) * (g + l) == 100.0 * g
  {
    var rs := g / l;
    ProductBack(g, l, rs);
    QuotientVanishes(g, l);
    var d := 1.0 + rs;
    assert d * l == g + l;
    var x := 100.0 / d;
    ProductBack(100.0, d, x);
    assert x * (g + l) == x * (d * l);
    assert x * (d * l) == (x * d) * l;
    assert (100.0 - x) * (g + l) == 100.0 * (g + l) - x * (g + l);
  }

  // ----- the map -----

  /** Which keys the map of a non-empty series holds. */
  lemma KeysAre(primary: seq<real>, secondary: seq<real>, cfg: Config, sqrt: real -> real)
    requires cfg.Valid() && primary != []
    ensures var m := AllFeatures(primary, secondary, cfg, sqrt);
            && Value in m && ValueChangePct in m && DispersionOf in m
            && (forall p :: RollingMeanOf(p) in m <==> p in cfg.rollingMeanPeriods)
            && (forall p :: ExpAvgOf(p) in m <==> p in cfg.expAvgPeriods)
            && (forall p :: MomentumOf(p) in m <==> p == cfg.momentumPeriod)
            && (BandUpper in m <==> cfg.deviationBandsEnabled)
            && (BandMiddle in m <==> cfg.deviationBandsEnabled)
            && (BandLower in m <==> cfg.deviationBandsEnabled)
            && (SecondaryAvg in m <==> secondary != [])
            && TrendConvergence !in m && TrendSignal !in m && TrendHist !in m
  {
    hide FeatureKeys, FeatureValue;
    assert AllFeatures(primary, secondary, cfg, sqrt).Keys == FeatureKeys(secondary != [], cfg);
    PeriodKeys(secondary != [], cfg);
    PlainKeys(secondary != [], cfg);
  }

  lemma PeriodKeys(hasSecondary: bool, cfg: Config)
    requires cfg.Valid()
    ensures var keys := FeatureKeys(hasSecondary, cfg);
            && (forall p :: RollingMeanOf(p) in keys <==> p in cfg.rollingMeanPeriods)
            && (forall p :: ExpAvgOf(p) in keys <==> p in cfg.expAvgPeriods)
            && (forall p :: MomentumOf(p) in keys <==> p == cfg.momentumPeriod)
  {
    var keys := FeatureKeys(hasSecondary, cfg);
    forall p ensures RollingMeanOf(p) in keys <==> p in cfg.rollingMeanPeriods {
    }
  }

  lemma PlainKeys(hasSecondary: bool, cfg: Config)
    requires cfg.Valid()
    ensures var keys := FeatureKeys(hasSecondary, cfg);
            && Value in keys && ValueChangePct in keys && DispersionOf in keys
            && (BandUpper in keys <==> cfg.deviationBandsEnabled)
            && (BandMiddle in keys <==> cfg.deviationBandsEnabled)
            && (BandLower in keys <==> cfg.deviationBandsEnabled)
            && (SecondaryAvg in keys <==> hasSecondary)
            && TrendConvergence !in keys && TrendSignal !in keys && TrendHist !in keys
  {
  }

  lemma EntryIs(primary: seq<real>, secondary: seq<real>, cfg: Config, sqrt: real -> real, f: Feature)
    requires cfg.Valid() && primary != [] && f in AllFeatures(primary, secondary, cfg, sqrt)
    ensures f.ExpAvgOf? || f.MomentumOf? ==> f.period >= 1
    ensures AllFeatures(primary, secondary, cfg, sqrt)[f] == FeatureValue(f, primary, secondary, cfg, sqrt)
  {
    hide FeatureValue;
  }

  /** The means, the newest value and its change, on the series the map was computed from. */
  ghost predicate MeansOfValues(m: Features, primary: seq<real>, secondary: seq<real>, cfg: Config)
    requires primary != []
  {
    && (Value in m ==> m[Value] == primary[|primary| - 1])
    && (forall p :: RollingMeanOf(p) in m && 0 < p <= |primary| ==>
          m[RollingMeanOf(p)] * p as real == Sum(Last(primary, p)))
    && (SecondaryAvg in m && 0 < cfg.secondaryAvgPeriod <= |secondary| ==>
          m[SecondaryAvg] * cfg.secondaryAvgPeriod as real == Sum(Last(secondary, cfg.secondaryAvgPeriod)))
    && (ValueChangePct in m && |primary| >= 2 && primary[|primary| - 2] != 0.0 ==>
          m[ValueChangePct] * primary[|primary| - 2] == 100.0 * (primary[|primary| - 1] - primary[|primary| - 2]))
  }

  /** The deviation, and the bands two deviations around their mean. */
  ghost predicate MeansOfSpread(m: Features, primary: seq<real>, cfg: Config) {
    && (DispersionOf in m && 0 < cfg.dispersionPeriod <= |primary| ==>
          Deviates(m[DispersionOf], Last(primary, cfg.dispersionPeriod)))
    && (BandUpper in m && BandMiddle in m && BandLower in m && 0 < cfg.deviationBandsPeriod <= |primary| ==>
          var window := Last(primary, cfg.deviationBandsPeriod);
          && m[BandMiddle] == Sum(window) / |window| as real
          && m[BandUpper] - m[BandMiddle] == m[BandMiddle] - m[BandLower]
          && Deviates((m[BandUpper] - m[BandMiddle]) / 2.0, window))
  }

  /** The oscillator: the share of the rises in all movement. */
  ghost predicate MeansOfMomentum(m: Features, primary: seq<real>) {
    forall p :: MomentumOf(p) in m ==> p >= 1 && OscillatorIs(primary, p, m[MomentumOf(p)])
  }

  /** The exponential averages. */
  ghost predicate MeansOfAverages(m: Features, primary: seq<real>) {
    forall p :: ExpAvgOf(p) in m ==> p >= 1 && m[ExpAvgOf(p)] == Sum(Weighted(primary, Smoothing(p)))
  }

  lemma ValuesMean(primary: seq<real>, secondary: seq<real>, cfg: Config, sqrt: real -> real)
    requires cfg.Valid() && primary != []
    ensures MeansOfValues(AllFeatures(primary, secondary, cfg, sqrt), primary, secondary, cfg)
  {
    hide AllFeatures, RollingMean, Momentum, Dispersion, ValueChange, DeviationBands, ExpAvg;
    var m := AllFeatures(primary, secondary, cfg, sqrt);
    if Value in m { EntryIs(primary, secondary, cfg, sqrt, Value); }
    forall p | RollingMeanOf(p) in m && 0 < p <= |primary|
      ensures m[RollingMeanOf(p)] * p as real == Sum(Last(primary, p))
    {
      EntryIs(primary, secondary, cfg, sqrt, RollingMeanOf(p));
      MeanIs(primary, p);
    }
    if SecondaryAvg in m {
      EntryIs(primary, secondary, cfg, sqrt, SecondaryAvg);
      MeanIs(secondary, cfg.secondaryAvgPeriod);
    }
    if ValueChangePct in m {
      EntryIs(primary, secondary, cfg, sqrt, ValueChangePct);
      ValueChangeIs(primary);
    }
  }

  lemma MeanOfWindow(values: seq<real>, period: int)
    requires 0 < period <= |values|
    ensures RollingMean(values, period) == Sum(Last(values, period)) / |Last(values, period)| as real
  {
  }

  /** d is the population deviation of the window. */
  predicate Deviates(d: real, window: seq<real>)
    requires window != []
  {
    d >= 0.0 && d * d * |window| as real == SquaredDistances(window, Sum(window) / |window| as real)
  }

  lemma DispersionDeviates(values: seq<real>, period: int, sqrt: real -> real)
    requires IsSqrt(sqrt) && 0 < period <= |values|
    ensures Deviates(Dispersion(values, period, sqrt), Last(values, period))
  {
    hide Dispersion, RollingMean, SquaredDistances, Sum;
    DispersionIs(values, period, sqrt);
    MeanOfWindow(values, period);
  }

  lemma SpreadMeans(primary: seq<real>, secondary: seq<real>, cfg: Config, sqrt: real -> real)
    requires cfg.Valid() && primary != [] && IsSqrt(sqrt)
    ensures MeansOfSpread(AllFeatures(primary, secondary, cfg, sqrt), primary, cfg)
  {
    hide AllFeatures, RollingMean, Momentum, Dispersion, ValueChange, DeviationBands, ExpAvg, Deviates, Sum, IsSqrt;
    var m := AllFeatures(primary, secondary, cfg, sqrt);
    if DispersionOf in m && 0 < cfg.dispersionPeriod <= |primary| {
      EntryIs(primary, secondary, cfg, sqrt, DispersionOf);
      DispersionDeviates(primary, cfg.dispersionPeriod, sqrt);
    }
    if BandUpper in m && BandMiddle in m && BandLower in m && 0 < cfg.deviationBandsPeriod <= |primary| {
      EntryIs(primary, secondary, cfg, sqrt, BandUpper);
      EntryIs(primary, secondary, cfg, sqrt, BandMiddle);
      EntryIs(primary, secondary, cfg, sqrt, BandLower);
      BandsAre(primary, cfg.deviationBandsPeriod, sqrt);
      DispersionDeviates(primary, cfg.deviationBandsPeriod, sqrt);
      MeanOfWindow(primary, cfg.deviationBandsPeriod);
      HalfOfDouble(Dispersion(primary, cfg.deviationBandsPeriod, sqrt));
    }
  }

  lemma HalfOfDouble(x: real)
    ensures 2.0 * x / 2.0 == x
  {
  }

  lemma MomentumMeans(primary: seq<real>, secondary: seq<real>, cfg: Config, sqrt: real -> real)
    requires cfg.Valid() && primary != []
    ensures MeansOfMomentum(AllFeatures(primary, secondary, cfg, sqrt), primary)
  {
    hide AllFeatures, RollingMean, Momentum, Dispersion, ValueChange, DeviationBands, ExpAvg, Rises, Falls, Sum;
    var m := AllFeatures(primary, secondary, cfg, sqrt);
    forall p | MomentumOf(p) in m ensures p >= 1 && OscillatorIs(primary, p, m[MomentumOf(p)]) {
      EntryIs(primary, secondary, cfg, sqrt, MomentumOf(p));
      MomentumIs(primary, p);
    }
  }

  lemma AveragesMean(primary: seq<real>, secondary: seq<real>, cfg: Config, sqrt: real -> real)
    requires cfg.Valid() && primary != []
    ensures MeansOfAverages(AllFeatures(primary, secondary, cfg, sqrt), primary)
  {
    hide AllFeatures, RollingMean, Momentum, Dispersion, ValueChange, DeviationBands, Ema, Weighted, Sum, Smoothing;
    var m := AllFeatures(primary, secondary, cfg, sqrt);
    forall p | ExpAvgOf(p) in m ensures p >= 1 && m[ExpAvgOf(p)] == Sum(Weighted(primary, Smoothing(p))) {
      EntryIs(primary, secondary, cfg, sqrt, ExpAvgOf(p));
      EmaIsWeighted(primary, Smoothing(p));
    }
  }
}
