/** What the stream operator emits for an event after any run of earlier ones, stated about the output
    itself. */
module StreamOutputs {
  import opened Series
  import opened Indicators
  import opened IndicatorMeaning
  import opened FeatureFunction

  lemma StepIsRun(events: seq<Event>, e: Event, cfg: Config, sqrt: real -> real)
    requires cfg.Valid()
    ensures var (next, out) := Step(Run(events, cfg), e, cfg, sqrt);
            && next == Run(events + [e], cfg)
            && (out.None? <==> !Accepted(e))
            && (out.Some? ==> out.value.epochMillis == e.epochMillis.value
                              && out.value.features == Emitted(Run(events + [e], cfg), cfg, sqrt))
  {
    hide Advance, Emitted;
    assert (events + [e])[..|events|] == events;
  }

  lemma HistoryHolds(events: seq<Event>, e: Event)
    requires Accepted(e)
    ensures Primaries(events + [e]) == Primaries(events) + [e.primary.value]
    ensures Secondaries(events + [e]) ==
            if e.secondary.Some? then Secondaries(events) + [e.secondary.value] else Secondaries(events)
  {
    assert (events + [e])[..|events|] == events;
  }

  /** After any run, an event gives an output exactly when it has a primary value, a symbol and a
      readable time; the output carries the event's time. */
  lemma OutputExactly(events: seq<Event>, e: Event, cfg: Config, sqrt: real -> real)
    requires cfg.Valid()
    ensures var (next, out) := Step(Run(events, cfg), e, cfg, sqrt);
            && next == Run(events + [e], cfg)
            && (out.Some? <==> e.primary.Some? && e.hasSymbol && e.epochMillis.Some?)
            && (out.Some? ==> Some(out.value.epochMillis) == e.epochMillis)
            && (out.None? ==> next == Run(events, cfg))
  {
    hide Run, Advance, Emitted;
    StepIsRun(events, e, cfg, sqrt);
  }

  /** The map that comes out when an event is accepted. */
  function OutputMap(events: seq<Event>, e: Event, cfg: Config, sqrt: real -> real): Features
    requires cfg.Valid() && Accepted(e)
  {
    StepIsRun(events, e, cfg, sqrt);
    Step(Run(events, cfg), e, cfg, sqrt).1.value.features
  }

  lemma OutputIsEmitted(events: seq<Event>, e: Event, cfg: Config, sqrt: real -> real)
    requires cfg.Valid() && Accepted(e)
    ensures OutputMap(events, e, cfg, sqrt) == Emitted(Run(events + [e], cfg), cfg, sqrt)
    ensures Primaries(events + [e]) != []
  {
    hide Step, Run, Emitted;
    StepIsRun(events, e, cfg, sqrt);
    HistoryHolds(events, e);
  }

  /** The output's map against the history that includes the event: the keys of the configuration, equal
      values under every key but the averages, and averages within the decayed range. */
  lemma OutputRefinesHistory(events: seq<Event>, e: Event, cfg: Config, sqrt: real -> real, lo: real, hi: real)
    requires cfg.Valid() && cfg.Fits() && Accepted(e)
    requires var h := Primaries(events + [e]); forall i :: 0 <= i < |h| ==> lo <= h[i] <= hi
    ensures var m := OutputMap(events, e, cfg, sqrt);
            var full := AllFeatures(Primaries(events + [e]), Secondaries(events + [e]), cfg, sqrt);
            && m.Keys == full.Keys + (if TrendOn(cfg) then TREND_KEYS else {})
            && (forall f :: f in full && !f.ExpAvgOf? ==> m[f] == full[f])
            && (forall f :: f in full && f.ExpAvgOf? ==>
                  f.period >= 1
                  && WithinDecay(full[f], m[f], f.period, cfg.windowSize, hi - lo))
  {
    hide Run, OutputMap, Emitted, AllFeatures, WithinDecay, Primaries, Secondaries;
    OutputIsEmitted(events, e, cfg, sqrt);
    EmissionRefinesHistory(events + [e], cfg, sqrt, lo, hi);
  }

  /** And the output's trend triple, within its slack of the untruncated MACD line. */
  lemma OutputTrendRefinesHistory(events: seq<Event>, e: Event, cfg: Config, sqrt: real -> real, lo: real, hi: real)
    requires cfg.Valid() && TrendOn(cfg) && Accepted(e)
    requires var h := Primaries(events + [e]); forall i :: 0 <= i < |h| ==> lo <= h[i] <= hi
    ensures var m, line := OutputMap(events, e, cfg, sqrt), FullMacdLine(Primaries(events + [e]), cfg);
            && line != [] && TREND_KEYS <= m.Keys
            && Abs(line[|line| - 1] - m[TrendConvergence]) <= ConvergenceSlack(cfg, hi - lo)
            && Abs(ExpAvg(line, cfg.macdSignalPeriod) - m[TrendSignal])
               <= ConvergenceSlack(cfg, hi - lo)
                + Pow(1.0 - Smoothing(cfg.macdSignalPeriod), cfg.windowSize) * (2.0 * (hi - lo))
            && m[TrendHist] == m[TrendConvergence] - m[TrendSignal]
  {
    hide Run, OutputMap, Emitted, Smoothing, Abs, ConvergenceSlack, ExpAvg, Primaries;
    OutputIsEmitted(events, e, cfg, sqrt);
    TrendRefinesHistory(events + [e], cfg, sqrt, lo, hi);
  }

  /** Which keys it holds, and what they are of the whole history: means, change, deviation, bands and
      oscillator. */
  lemma OutputMeans(events: seq<Event>, e: Event, cfg: Config, sqrt: real -> real)
    requires cfg.Valid() && cfg.Fits() && Accepted(e) && IsSqrt(sqrt)
    ensures Primaries(events + [e]) != []
    ensures var m := OutputMap(events, e, cfg, sqrt);
            var h, g := Primaries(events + [e]), Secondaries(events + [e]);
            && Value in m && m[Value] == e.primary.value
            && (forall p :: RollingMeanOf(p) in m <==> p in cfg.rollingMeanPeriods)
            && (forall p :: ExpAvgOf(p) in m <==> p in cfg.expAvgPeriods)
            && (forall p :: MomentumOf(p) in m <==> p == cfg.momentumPeriod)
            && (BandUpper in m <==> cfg.deviationBandsEnabled) && (SecondaryAvg in m <==> g != [])
            && (TrendConvergence in m <==> TrendOn(cfg))
            && MeansOfValues(m, h, g, cfg) && MeansOfSpread(m, h, cfg) && MeansOfMomentum(m, h)
  {
    hide Run, OutputMap, AllFeatures, WithinDecay, ExpAvg, MeansOfValues, MeansOfSpread, MeansOfMomentum;
    HistoryHolds(events, e);
    var h, g := Primaries(events + [e]), Secondaries(events + [e]);
    var lo, hi := Bounds(h);
    OutputRefinesHistory(events, e, cfg, sqrt, lo, hi);
    var m, full := OutputMap(events, e, cfg, sqrt), AllFeatures(h, g, cfg, sqrt);
    KeysAre(h, g, cfg, sqrt);
    ValuesMean(h, g, cfg, sqrt);
    SpreadMeans(h, g, cfg, sqrt);
    MomentumMeans(h, g, cfg, sqrt);
    EntryIs(h, g, cfg, sqrt, Value);
    SameMeans(m, full, h, g, cfg);
  }

  /** Some bounds of a series. */
  lemma {:induction false} Bounds(s: seq<real>) returns (lo: real, hi: real)
    ensures forall i :: 0 <= i < |s| ==> lo <= s[i] <= hi
  {
    lo, hi := 0.0, 0.0;
    if s != [] {
      var n := |s| - 1;
      lo, hi := Bounds(s[..n]);
      assert forall i :: 0 <= i < n ==> s[..n][i] == s[i];
      lo, hi := if s[n] < lo then s[n] else lo, if s[n] > hi then s[n] else hi;
    }
  }

  /** The meanings look at keys of the full map only. */
  lemma SameMeans(m: Features, full: Features, h: seq<real>, g: seq<real>, cfg: Config)
    requires h != [] && full.Keys <= m.Keys && m.Keys <= full.Keys + TREND_KEYS
    requires forall f :: f in full && !f.ExpAvgOf? ==> m[f] == full[f]
    requires MeansOfValues(full, h, g, cfg) && MeansOfSpread(full, h, cfg) && MeansOfMomentum(full, h)
    ensures MeansOfValues(m, h, g, cfg) && MeansOfSpread(m, h, cfg) && MeansOfMomentum(m, h)
  {
    hide Sum, Deviates, OscillatorIs;
  }

  /** The averages and the trend triple, exactly, on the stored window: the last windowSize values. */
  lemma OutputAverages(events: seq<Event>, e: Event, cfg: Config, sqrt: real -> real)
    requires cfg.Valid() && Accepted(e) && cfg.windowSize >= 1
    ensures var m := OutputMap(events, e, cfg, sqrt);
            var stored := Tail(Primaries(events + [e]), cfg.windowSize);
            && MeansOfAverages(m, stored)
            && (TrendOn(cfg) ==>
                  && TrendConvergence in m
                  && var fast, slow := cfg.expAvgPeriods[0], cfg.expAvgPeriods[1];
                     m[TrendConvergence] ==
                       if |stored| < slow then 0.0
                       else Sum(Weighted(stored, Smoothing(fast))) - Sum(Weighted(stored, Smoothing(slow))))
  {
    hide Run, OutputMap, AllFeatures, Ema, Weighted, Sum, Smoothing, Primaries, Secondaries;
    OutputIsEmitted(events, e, cfg, sqrt);
    WindowsAreTails(events + [e], cfg);
    var w := Run(events + [e], cfg);
    AveragesMean(w.primary, w.secondary, cfg, sqrt);
    if TrendOn(cfg) {
      EmaIsWeighted(w.primary, Smoothing(cfg.expAvgPeriods[0]));
      EmaIsWeighted(w.primary, Smoothing(cfg.expAvgPeriods[1]));
    }
  }
}
