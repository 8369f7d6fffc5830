/** The keyed stream operator of FeatureFunction.java: three bounded windows per key,
    updated on every accepted event.

    `Step` is the state update and output of one event; the class runs it in place.
    The laws relate the bounded windows to the full history of a key. */
module FeatureFunction {
  import opened Series
  import opened Indicators

  /** One decoded record of a key. A missing or null field is None. */
  datatype Event = Event(primary: Option<real>, secondary: Option<real>, hasSymbol: bool, epochMillis: Option<int>)

  /** The stored lists of one key. */
  datatype Windows = Windows(primary: seq<real>, secondary: seq<real>, macd: seq<real>)

  /** What one event emits on both outputs: the event time and the indicator map. */
  datatype Output = Output(epochMillis: int, features: Features)

  const EMPTY := Windows([], [], [])

  /** Events without a primary value, a symbol or a readable time are skipped. */
  predicate Accepted(e: Event) {
    e.primary.Some? && e.hasSymbol && e.epochMillis.Some?
  }

  predicate TrendOn(cfg: Config) {
    cfg.trendConvergenceEnabled && |cfg.expAvgPeriods| >= 2
  }

  /** The MACD line: fast minus slow average, 0 while shorter than the slow period. */
  function Convergence(values: seq<real>, cfg: Config): real
    requires cfg.Valid() && TrendOn(cfg)
  {
    if |values| < cfg.expAvgPeriods[1] then 0.0
    else ExpAvg(values, cfg.expAvgPeriods[0]) - ExpAvg(values, cfg.expAvgPeriods[1])
  }

  /** The trend triple, given the MACD window that already ends in `convergence`. */
  function WithTrend(features: Features, convergence: real, macd: seq<real>, cfg: Config): Features
    requires cfg.Valid()
  {
    var signal := ExpAvg(macd, cfg.macdSignalPeriod);
    features[TrendConvergence := convergence][TrendSignal := signal][TrendHist := convergence - signal]
  }

  /** The windows after an accepted event. */
  function Advance(w: Windows, e: Event, cfg: Config): Windows
    requires cfg.Valid() && Accepted(e)
  {
    var primary := Tail(w.primary + [e.primary.value], cfg.windowSize);
    var secondary := if e.secondary.Some? then Tail(w.secondary + [e.secondary.value], cfg.windowSize) else w.secondary;
    var macd := if TrendOn(cfg) then Tail(w.macd + [Convergence(primary, cfg)], cfg.windowSize) else w.macd;
    Windows(primary, secondary, macd)
  }

  /** The map emitted from the windows an accepted event leaves. */
  function Emitted(w: Windows, cfg: Config, sqrt: real -> real): Features
    requires cfg.Valid()
  {
    var features := AllFeatures(w.primary, w.secondary, cfg, sqrt);
    if TrendOn(cfg) then WithTrend(features, Convergence(w.primary, cfg), w.macd, cfg) else features
  }

  function Step(w: Windows, e: Event, cfg: Config, sqrt: real -> real): (Windows, Option<Output>)
    requires cfg.Valid()
  {
    if !Accepted(e) then (w, None)
    else
      var next := Advance(w, e, cfg);
      (next, Some(Output(e.epochMillis.value, Emitted(next, cfg, sqrt))))
  }

  /** Keep at most `maxSize` trailing elements, removing from the front one by one. */
  method Trim(values: seq<real>, maxSize: nat) returns (r: seq<real>)
    ensures r == Tail(values, maxSize)
  {
    r := values;
    var excess := |values| - maxSize;
    var i := 0;
    while i < excess
      invariant 0 <= i <= (if excess > 0 then excess else 0)
      invariant r == values[i..]
    {
      r := r[1..];
      i := i + 1;
    }
  }

  class FeatureFunction {
    const config: Config
    var primaryValueHistory: seq<real>
    var secondaryValueHistory: seq<real>
    var macdHistory: seq<real>

    constructor (config: Config)
      ensures this.config == config && Stored() == EMPTY
    {
      this.config := config;
      primaryValueHistory, secondaryValueHistory, macdHistory := [], [], [];
    }

    ghost function Stored(): Windows
      reads this
    {
      Windows(primaryValueHistory, secondaryValueHistory, macdHistory)
    }

    method ProcessElement(e: Event, sqrt: real -> real) returns (out: Option<Output>)
      requires config.Valid()
      modifies this
      ensures (Stored(), out) == Step(old(Stored()), e, config, sqrt)
    {
      hide AllFeatures, ExpAvg;
      if e.primary.None? || !e.hasSymbol || e.epochMillis.None? {
        return None;
      }
      var primaryValues := Trim(primaryValueHistory + [e.primary.value], config.windowSize);
      primaryValueHistory := primaryValues;
      var secondaryValues := secondaryValueHistory;
      if e.secondary.Some? {
        secondaryValues := Trim(secondaryValues + [e.secondary.value], config.windowSize);
        secondaryValueHistory := secondaryValues;
      }
      var features := ComputeAll(primaryValues, secondaryValues, config, sqrt);
      if config.trendConvergenceEnabled {
        features := ComputeTrend(primaryValues, features);
      }
      return Some(Output(e.epochMillis.value, features));
    }

    /** Appends the convergence to the MACD window and derives the signal line and histogram. */
    method ComputeTrend(primaryValues: seq<real>, features: Features) returns (r: Features)
      requires config.Valid()
      modifies this`macdHistory
      ensures !TrendOn(config) && config.trendConvergenceEnabled ==> r == features && macdHistory == old(macdHistory)
      ensures TrendOn(config) ==>
                && macdHistory == Tail(old(macdHistory) + [Convergence(primaryValues, config)], config.windowSize)
                && r == WithTrend(features, Convergence(primaryValues, config), macdHistory, config)
    {
      hide ExpAvg, Smoothing;
      if |config.expAvgPeriods| < 2 {
        return features;
      }
      var fast, slow := config.expAvgPeriods[0], config.expAvgPeriods[1];
      var convergence := 0.0;
      if |primaryValues| >= slow {
        var a := ComputeExpAvg(primaryValues, fast);
        var b := ComputeExpAvg(primaryValues, slow);
        convergence := a - b;
      }
      macdHistory := Trim(macdHistory + [convergence], config.windowSize);
      var signal := ComputeExpAvg(macdHistory, config.macdSignalPeriod);
      r := features[TrendConvergence := convergence][TrendSignal := signal][TrendHist := convergence - signal];
    }
  }

  // ----- whole runs of one key -----

  /** The windows after a sequence of events. */
  function Run(events: seq<Event>, cfg: Config): Windows
    requires cfg.Valid()
  {
    if events == [] then EMPTY
    else
      var w, e := Run(events[..|events| - 1], cfg), events[|events| - 1];
      if Accepted(e) then Advance(w, e, cfg) else w
  }

  /** The full primary history: the values of the accepted events, in order. */
  function Primaries(events: seq<Event>): seq<real> {
    if events == [] then []
    else
      var init, e := Primaries(events[..|events| - 1]), events[|events| - 1];
      if Accepted(e) then init + [e.primary.value] else init
  }

  function Secondaries(events: seq<Event>): seq<real> {
    if events == [] then []
    else
      var init, e := Secondaries(events[..|events| - 1]), events[|events| - 1];
      if Accepted(e) && e.secondary.Some? then init + [e.secondary.value] else init
  }

  /** The MACD line the operator sees: one entry per value, each computed from the window that
      ended there. */
  function MacdLine(primaries: seq<real>, cfg: Config): seq<real>
    requires cfg.Valid() && TrendOn(cfg)
  {
    if primaries == [] then []
    else MacdLine(primaries[..|primaries| - 1], cfg) + [Convergence(Tail(primaries, cfg.windowSize), cfg)]
  }

  /** In every reachable state each stored list is the last windowSize entries of its full history. */
  lemma {:induction false} WindowsAreTails(events: seq<Event>, cfg: Config)
    requires cfg.Valid()
    ensures Run(events, cfg).primary == Tail(Primaries(events), cfg.windowSize)
    ensures Run(events, cfg).secondary == Tail(Secondaries(events), cfg.windowSize)
    ensures TrendOn(cfg) ==> Run(events, cfg).macd == Tail(MacdLine(Primaries(events), cfg), cfg.windowSize)
  {
    hide Convergence, Tail;
    if events == [] {
      EmptyTail(cfg.windowSize);
    } else {
      var before, e, n := events[..|events| - 1], events[|events| - 1], cfg.windowSize;
      WindowsAreTails(before, cfg);
      if Accepted(e) {
        TailAppend(Primaries(before), e.primary.value, n);
        if e.secondary.Some? { TailAppend(Secondaries(before), e.secondary.value, n); }
        var all := Primaries(events);
        assert all[..|all| - 1] == Primaries(before);
        if TrendOn(cfg) {
          TailAppend(MacdLine(Primaries(before), cfg), Convergence(Tail(all, n), cfg), n);
        }
      }
    }
  }

  lemma EmptyTail(n: nat)
    ensures Tail<real>([], n) == []
  {
  }

  const TREND_KEYS: set<Feature> := {TrendConvergence, TrendSignal, TrendHist}

  /** What is emitted after any run equals the indicators of the full history: exactly, except for
      the exponential averages, which stay within the decayed range of the history. The trend
      triple is the subject of TrendRefinesHistory. */
  lemma EmissionRefinesHistory(events: seq<Event>, cfg: Config, sqrt: real -> real, lo: real, hi: real)
    requires cfg.Valid() && cfg.Fits()
    requires Primaries(events) != []
    requires forall i :: 0 <= i < |Primaries(events)| ==> lo <= Primaries(events)[i] <= hi
    ensures var stored := Emitted(Run(events, cfg), cfg, sqrt);
            var full := AllFeatures(Primaries(events), Secondaries(events), cfg, sqrt);
            && stored.Keys == full.Keys + (if TrendOn(cfg) then TREND_KEYS else {})
            && (forall f :: f in full && !f.ExpAvgOf? ==> stored[f] == full[f])
            && (forall f :: f in full && f.ExpAvgOf? ==>
                  f.period >= 1
                  && WithinDecay(full[f], stored[f], f.period, cfg.windowSize, hi - lo))
  {
    hide AllFeatures, Tail, Run, Primaries, Secondaries, WithinDecay, ExpAvg;
    WindowsAreTails(events, cfg);
    AllFeaturesRefine(Primaries(events), Secondaries(events), cfg, sqrt, lo, hi);
    NoTrendKeys(Primaries(events), Secondaries(events), cfg, sqrt);
  }

  lemma NoTrendKeys(primary: seq<real>, secondary: seq<real>, cfg: Config, sqrt: real -> real)
    requires cfg.Valid()
    ensures AllFeatures(primary, secondary, cfg, sqrt).Keys !! TREND_KEYS
  {
  }

  /** After any run the emitted convergence is the newest entry of the line of convergences over the
      stored windows, and the signal strays from the average over that whole line by at most its decayed range. */
  lemma SignalTruncation(events: seq<Event>, cfg: Config, sqrt: real -> real, lo: real, hi: real)
    requires cfg.Valid() && TrendOn(cfg) && cfg.windowSize >= 1
    requires Primaries(events) != []
    requires var line := MacdLine(Primaries(events), cfg); forall i :: 0 <= i < |line| ==> lo <= line[i] <= hi
    ensures var line := MacdLine(Primaries(events), cfg);
            var stored := Emitted(Run(events, cfg), cfg, sqrt);
            && line != [] && TREND_KEYS <= stored.Keys
            && stored[TrendConvergence] == line[|line| - 1]
            && stored[TrendHist] == stored[TrendConvergence] - stored[TrendSignal]
            && Abs(ExpAvg(line, cfg.macdSignalPeriod) - stored[TrendSignal])
               <= Pow(1.0 - Smoothing(cfg.macdSignalPeriod), cfg.windowSize) * (hi - lo)
  {
    hide AllFeatures, Tail, Run, Primaries, Secondaries, Pow, Smoothing, ExpAvg, Convergence;
    WindowsAreTails(events, cfg);
    EmaTruncation(MacdLine(Primaries(events), cfg), cfg.windowSize, cfg.macdSignalPeriod, lo, hi);
  }

  /** How far truncating the primary window can move one convergence of values that span `range`:
      by the two averages' decayed ranges, or anywhere once the slow period exceeds the window. */
  function ConvergenceSlack(cfg: Config, range: real): real
    requires cfg.Valid() && TrendOn(cfg)
  {
    if cfg.expAvgPeriods[1] > cfg.windowSize then range
    else
      Pow(1.0 - Smoothing(cfg.expAvgPeriods[0]), cfg.windowSize) * range
      + Pow(1.0 - Smoothing(cfg.expAvgPeriods[1]), cfg.windowSize) * range
  }

  /** The stored convergence strays from the full-history one by at most that slack. */
  lemma ConvergenceTruncation(history: seq<real>, cfg: Config, lo: real, hi: real)
    requires cfg.Valid() && TrendOn(cfg) && history != []
    requires forall i :: 0 <= i < |history| ==> lo <= history[i] <= hi
    ensures Abs(Convergence(history, cfg) - Convergence(Tail(history, cfg.windowSize), cfg))
        <= ConvergenceSlack(cfg, hi - lo)
  {
    hide ExpAvg, Pow, Smoothing;
    var w := cfg.windowSize;
    assert lo <= history[0] <= hi;
    if cfg.expAvgPeriods[1] > w {
      ConvergenceRange(history, cfg, lo, hi);
    } else {
      EmaTruncation(history, w, cfg.expAvgPeriods[0], lo, hi);
      EmaTruncation(history, w, cfg.expAvgPeriods[1], lo, hi);
    }
  }

  /** The MACD line over a whole primary history, nothing truncated. */
  function FullMacdLine(primaries: seq<real>, cfg: Config): (line: seq<real>)
    requires cfg.Valid() && TrendOn(cfg)
    ensures |line| == |primaries|
  {
    if primaries == [] then []
    else FullMacdLine(primaries[..|primaries| - 1], cfg) + [Convergence(primaries, cfg)]
  }

  lemma {:induction false} LinesClose(history: seq<real>, cfg: Config, lo: real, hi: real)
    requires cfg.Valid() && TrendOn(cfg)
    requires forall i :: 0 <= i < |history| ==> lo <= history[i] <= hi
    ensures |MacdLine(history, cfg)| == |history|
    ensures forall i :: 0 <= i < |history| ==>
              Abs(FullMacdLine(history, cfg)[i] - MacdLine(history, cfg)[i]) <= ConvergenceSlack(cfg, hi - lo)
  {
    hide Convergence, Tail, Abs, ConvergenceSlack;
    if history != [] {
      LinesClose(history[..|history| - 1], cfg, lo, hi);
      ConvergenceTruncation(history, cfg, lo, hi);
    }
  }

  /** A convergence of values in [lo, hi] is a difference of two values in there. */
  lemma ConvergenceRange(values: seq<real>, cfg: Config, lo: real, hi: real)
    requires cfg.Valid() && TrendOn(cfg) && lo <= hi
    requires forall i :: 0 <= i < |values| ==> lo <= values[i] <= hi
    ensures -(hi - lo) <= Convergence(values, cfg) <= hi - lo
  {
    hide Ema, Smoothing;
    if values != [] {
      EmaWithin(values, Smoothing(cfg.expAvgPeriods[0]), lo, hi);
      EmaWithin(values, Smoothing(cfg.expAvgPeriods[1]), lo, hi);
    }
  }

  lemma {:induction false} LineRange(history: seq<real>, cfg: Config, lo: real, hi: real)
    requires cfg.Valid() && TrendOn(cfg) && lo <= hi
    requires forall i :: 0 <= i < |history| ==> lo <= history[i] <= hi
    ensures forall i :: 0 <= i < |MacdLine(history, cfg)| ==> -(hi - lo) <= MacdLine(history, cfg)[i] <= hi - lo
    ensures forall i :: 0 <= i < |history| ==> -(hi - lo) <= FullMacdLine(history, cfg)[i] <= hi - lo
  {
    hide Convergence;
    if history != [] {
      LineRange(history[..|history| - 1], cfg, lo, hi);
      ConvergenceRange(Tail(history, cfg.windowSize), cfg, lo, hi);
      ConvergenceRange(history, cfg, lo, hi);
    }
  }

  /** Averages of series that stay within d of each other stay within d of each other. */
  lemma {:induction false} EmaClose(a: seq<real>, b: seq<real>, k: real, d: real)
    requires |a| == |b| && a != [] && 0.0 <= k <= 1.0
    requires forall i :: 0 <= i < |a| ==> Abs(a[i] - b[i]) <= d
    ensures Abs(Ema(a, k) - Ema(b, k)) <= d
  {
    hide Ema;
    var n := |a| - 1;
    assert Abs(a[n] - b[n]) <= d;
    if n == 0 {
      EmaOne(a, k);
      EmaOne(b, k);
    } else {
      var p, q := a[..n], b[..n];
      forall i | 0 <= i < n ensures Abs(p[i] - q[i]) <= d {
        assert Abs(a[i] - b[i]) <= d;
      }
      EmaClose(p, q, k, d);
      EmaStep(a, k);
      EmaStep(b, k);
      SmoothWithin(a[n] - b[n], Ema(p, k) - Ema(q, k), k, -d, d);
      SmoothDifference(a[n], b[n], Ema(p, k), Ema(q, k), k);
    }
  }

  lemma SmoothDifference(x: real, y: real, a: real, b: real, k: real)
    ensures (x - y) * k + (a - b) * (1.0 - k) == (x * k + a * (1.0 - k)) - (y * k + b * (1.0 - k))
  {
  }

  /** After any run the emitted trend triple against the MACD line of the full, untruncated history:
      the convergence strays from its newest entry by at most the slack of one convergence, the signal
      from its average by that much and the decayed range of the line, and the histogram is their
      difference. */
  lemma TrendRefinesHistory(events: seq<Event>, cfg: Config, sqrt: real -> real, lo: real, hi: real)
    requires cfg.Valid() && TrendOn(cfg) && Primaries(events) != []
    requires forall i :: 0 <= i < |Primaries(events)| ==> lo <= Primaries(events)[i] <= hi
    ensures var full, stored := FullMacdLine(Primaries(events), cfg), Emitted(Run(events, cfg), cfg, sqrt);
            && TREND_KEYS <= stored.Keys
            && Abs(full[|full| - 1] - stored[TrendConvergence]) <= ConvergenceSlack(cfg, hi - lo)
            && Abs(ExpAvg(full, cfg.macdSignalPeriod) - stored[TrendSignal])
               <= ConvergenceSlack(cfg, hi - lo)
                + Pow(1.0 - Smoothing(cfg.macdSignalPeriod), cfg.windowSize) * (2.0 * (hi - lo))
            && stored[TrendHist] == stored[TrendConvergence] - stored[TrendSignal]
  {
    hide AllFeatures, Tail, Run, Primaries, Secondaries, Pow, Smoothing, Convergence, ConvergenceSlack, Emitted,
         MacdLine, FullMacdLine, Ema, Abs;
    var history := Primaries(events);
    var full, line, range := FullMacdLine(history, cfg), MacdLine(history, cfg), hi - lo;
    assert lo <= history[0] <= hi;
    LinesClose(history, cfg, lo, hi);
    LineRange(history, cfg, lo, hi);
    var n := |history| - 1;
    assert Abs(full[n] - line[n]) <= ConvergenceSlack(cfg, range);
    if cfg.windowSize >= 1 {
      SignalTruncation(events, cfg, sqrt, -range, range);
      assert range - -range == 2.0 * range;
      var signal := Emitted(Run(events, cfg), cfg, sqrt)[TrendSignal];
      EmaClose(full, line, Smoothing(cfg.macdSignalPeriod), ConvergenceSlack(cfg, range));
      AbsTriangle(ExpAvg(full, cfg.macdSignalPeriod), ExpAvg(line, cfg.macdSignalPeriod), signal,
                  ConvergenceSlack(cfg, range),
                  Pow(1.0 - Smoothing(cfg.macdSignalPeriod), cfg.windowSize) * (2.0 * range));
    } else {
      NothingStored(events, cfg, sqrt);
      EmptyWindow(full, cfg, range);
    }
  }

  /** With no stored window at all, the average of the full line is within its own range of 0. */
  lemma EmptyWindow(full: seq<real>, cfg: Config, range: real)
    requires cfg.Valid() && TrendOn(cfg) && cfg.windowSize == 0 && full != [] && range >= 0.0
    requires forall i :: 0 <= i < |full| ==> -range <= full[i] <= range
    ensures Abs(full[|full| - 1]) <= ConvergenceSlack(cfg, range)
    ensures Abs(ExpAvg(full, cfg.macdSignalPeriod))
            <= ConvergenceSlack(cfg, range) + Pow(1.0 - Smoothing(cfg.macdSignalPeriod), cfg.windowSize) * (2.0 * range)
  {
    hide Ema, Smoothing;
    EmaWithin(full, Smoothing(cfg.macdSignalPeriod), -range, range);
  }

  lemma NothingStored(events: seq<Event>, cfg: Config, sqrt: real -> real)
    requires cfg.Valid() && TrendOn(cfg) && cfg.windowSize == 0
    ensures var stored := Emitted(Run(events, cfg), cfg, sqrt);
            TREND_KEYS <= stored.Keys && stored[TrendConvergence] == stored[TrendSignal] == stored[TrendHist] == 0.0
  {
    hide AllFeatures, Run;
    WindowsAreTails(events, cfg);
  }

  lemma AbsTriangle(a: real, b: real, c: real, x: real, y: real)
    requires Abs(a - b) <= x && Abs(b - c) <= y
    ensures Abs(a - c) <= x + y
  {
  }

  // ----- when the trend says nothing -----

  /** Both averages run over a window too short for the slow one, over one value, or alike. */
  predicate TrendIsMute(cfg: Config)
    requires cfg.Valid() && TrendOn(cfg)
  {
    cfg.expAvgPeriods[1] > cfg.windowSize || cfg.expAvgPeriods[0] == cfg.expAvgPeriods[1] || cfg.windowSize <= 1
  }

  /** The emitted triple is zero. */
  predicate Mute(events: seq<Event>, cfg: Config, sqrt: real -> real)
    requires cfg.Valid() && TrendOn(cfg)
  {
    var stored := Emitted(Run(events, cfg), cfg, sqrt);
    stored[TrendConvergence] == 0.0 && stored[TrendSignal] == 0.0 && stored[TrendHist] == 0.0
  }

  lemma MuteConvergence(history: seq<real>, cfg: Config)
    requires cfg.Valid() && TrendOn(cfg) && TrendIsMute(cfg)
    ensures Convergence(Tail(history, cfg.windowSize), cfg) == 0.0
  {
    hide Smoothing;
  }

  lemma {:induction false} MuteLine(history: seq<real>, cfg: Config)
    requires cfg.Valid() && TrendOn(cfg) && TrendIsMute(cfg)
    ensures forall i :: 0 <= i < |MacdLine(history, cfg)| ==> MacdLine(history, cfg)[i] == 0.0
  {
    hide Convergence, Tail;
    if history != [] {
      MuteLine(history[..|history| - 1], cfg);
      MuteConvergence(history, cfg);
    }
  }

  lemma MuteRun(events: seq<Event>, cfg: Config, sqrt: real -> real)
    requires cfg.Valid() && TrendOn(cfg) && TrendIsMute(cfg)
    ensures Mute(events, cfg, sqrt)
  {
    hide AllFeatures, Run, Primaries, Secondaries, Convergence, Ema, Smoothing;
    WindowsAreTails(events, cfg);
    MuteLine(Primaries(events), cfg);
    MuteConvergence(Primaries(events), cfg);
    var macd := Run(events, cfg).macd;
    if macd != [] { EmaWithin(macd, Smoothing(cfg.macdSignalPeriod), 0.0, 0.0); }
  }

  /** One value of 1 followed by zeros. */
  function Impulse(n: nat): seq<real> {
    [1.0] + seq(n, _ => 0.0)
  }

  function Arriving(values: seq<real>): (events: seq<Event>)
    ensures |events| == |values| && forall i :: 0 <= i < |events| ==> Accepted(events[i])
  {
    seq(|values|, i requires 0 <= i < |values| => Event(Some(values[i]), None, true, Some(i)))
  }

  lemma {:induction false} ArrivingPrimaries(values: seq<real>)
    ensures Primaries(Arriving(values)) == values
  {
    if values != [] {
      var init := values[..|values| - 1];
      ArrivingPrimaries(init);
      assert Arriving(values)[..|values| - 1] == Arriving(init);
      assert values == init + [values[|values| - 1]];
    }
  }

  lemma {:induction false} EmaOfImpulse(n: nat, k: real)
    ensures Ema(Impulse(n), k) == Pow(1.0 - k, n)
  {
    hide Ema, Pow;
    if n == 0 {
      EmaOne(Impulse(0), k);
      assert Pow(1.0 - k, 0) == 1.0 by { PowZero(1.0 - k); }
    } else {
      assert Impulse(n)[..n] == Impulse(n - 1);
      EmaOfImpulse(n - 1, k);
      EmaStep(Impulse(n), k);
      PowStep(1.0 - k, n);
    }
  }

  lemma PowZero(b: real)
    ensures Pow(b, 0) == 1.0
  {
  }

  lemma {:induction false} PowStrict(a: real, b: real, n: nat)
    requires 0.0 <= a < b && n >= 1
    ensures 0.0 <= Pow(a, n) < Pow(b, n)
  {
    hide Pow;
    PowStep(a, n);
    PowStep(b, n);
    if n > 1 {
      PowStrict(a, b, n - 1);
      ProductStrict(a, b, Pow(a, n - 1), Pow(b, n - 1));
    }
  }

  lemma ProductStrict(a: real, b: real, p: real, q: real)
    requires 0.0 <= a < b && 0.0 <= p < q
    ensures 0.0 <= a * p < b * q
  {
    MulMono(0.0, a, p);
    MulMono(p, q, a);
    MulMonoStrict(a, b, q);
  }

  lemma SmoothingStrict(p: int, q: int)
    requires 1 <= p < q
    ensures Smoothing(p) > Smoothing(q)
  {
    InverseStrict(p as real + 1.0, q as real + 1.0);
  }

  lemma InverseStrict(a: real, b: real)
    requires 0.0 < a < b
    ensures 2.0 / a > 2.0 / b
  {
    var x, y := 2.0 / a, 2.0 / b;
    DivideBack(2.0, a);
    DivideBack(2.0, b);
    PositiveFactor(y, b, 2.0);
    MulMonoStrict(a, b, y);
    PositiveFactor(x - y, a, 2.0 - y * a);
  }

  lemma PositiveFactor(d: real, a: real, p: real)
    requires a > 0.0 && d * a == p && p > 0.0
    ensures d > 0.0
  {
    if d < 0.0 { MulMono(d, 0.0, a); }
  }

  lemma LoudConvergence(cfg: Config, n: nat)
    requires cfg.Valid() && TrendOn(cfg) && cfg.expAvgPeriods[0] != cfg.expAvgPeriods[1]
    requires n >= 1 && n + 1 >= cfg.expAvgPeriods[1]
    ensures Convergence(Impulse(n), cfg) != 0.0
  {
    hide Ema, Pow, Smoothing;
    var fast, slow := cfg.expAvgPeriods[0], cfg.expAvgPeriods[1];
    EmaOfImpulse(n, Smoothing(fast));
    EmaOfImpulse(n, Smoothing(slow));
    if fast < slow {
      SmoothingStrict(fast, slow);
      PowStrict(1.0 - Smoothing(fast), 1.0 - Smoothing(slow), n);
    } else {
      SmoothingStrict(slow, fast);
      PowStrict(1.0 - Smoothing(slow), 1.0 - Smoothing(fast), n);
    }
  }

  /** The trend triple is zero after every run exactly when the slow period exceeds the window, the
      two periods are the same, or the window holds at most one value. */
  lemma TrendIsMuteExactly(cfg: Config, sqrt: real -> real)
    requires cfg.Valid() && TrendOn(cfg)
    ensures (forall events :: Mute(events, cfg, sqrt)) <==> TrendIsMute(cfg)
  {
    hide Mute, Convergence, Emitted;
    if TrendIsMute(cfg) {
      forall events ensures Mute(events, cfg, sqrt) {
        MuteRun(events, cfg, sqrt);
      }
    } else {
      var n := if cfg.expAvgPeriods[1] > 2 then cfg.expAvgPeriods[1] - 1 else 1;
      var values := Impulse(n);
      LoudConvergence(cfg, n);
      ArrivingPrimaries(values);
      WindowsAreTails(Arriving(values), cfg);
      assert Tail(values, cfg.windowSize) == values;
      EmitsConvergence(Arriving(values), cfg, sqrt);
    }
  }

  lemma EmitsConvergence(events: seq<Event>, cfg: Config, sqrt: real -> real)
    requires cfg.Valid() && TrendOn(cfg)
    ensures Emitted(Run(events, cfg), cfg, sqrt)[TrendConvergence] == Convergence(Run(events, cfg).primary, cfg)
    ensures Mute(events, cfg, sqrt) ==> Convergence(Run(events, cfg).primary, cfg) == 0.0
  {
    hide AllFeatures, Convergence, Run;
  }
}
