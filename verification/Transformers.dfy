/** The transformer loops of technical.py and temporal.py, driven by the job's configuration
    (features.py): each adds named columns to a copied frame. */
module Transformers {
  import opened Series
  import opened Frames

  datatype DataFrame = DataFrame(rows: seq<Row>, cols: map<Column, seq<Cell>>)

  datatype TechnicalConfig = TechnicalConfig(
    valueColumn: string,
    rollingMean: seq<nat>,
    expAvg: seq<nat>,
    std: seq<nat>,
    min: seq<nat>,
    max: seq<nat>,
    median: seq<nat>,
    roc: seq<nat>,
    zscore: seq<nat>,
    percentileRank: seq<nat>)

  datatype Config = Config(
    symbols: seq<string>,
    dataColumns: seq<string>,
    technical: Option<TechnicalConfig>,
    primaryColumn: string,
    dispersionWindows: seq<nat>,
    timeFeaturesEnabled: bool,
    lagColumns: seq<Column>,
    lagPeriods: seq<nat>,
    returnColumn: string,
    returnPeriods: seq<nat>,
    targetColumn: string,
    targetHorizons: seq<nat>)

  const TIME_FIELDS := ["hour_of_day", "day_of_week", "is_weekend", "is_active_hours", "day_of_month",
                        "month", "hour_sin", "hour_cos", "dow_sin", "dow_cos"]

  /** The configured value column, or the first numeric one when it is absent. */
  function ResolveColumn(preferred: string, dataColumns: seq<string>): Option<string> {
    if preferred in dataColumns then Some(preferred)
    else if dataColumns != [] then Some(dataColumns[0])
    else None
  }

  /** A frame with some columns computed from its rows added. */
  function WithColumns(df: DataFrame, cs: set<Column>, lib: Lib): DataFrame {
    df.(cols := df.cols + Computed(df.rows, cs, lib))
  }

  function Computed(rows: seq<Row>, cs: set<Column>, lib: Lib): map<Column, seq<Cell>> {
    map c | c in cs :: ColumnOf(c, rows, lib)
  }

  /** The columns one period loop names. */
  datatype Family =
    | RollingFamily(stat: Stat, col: string)
    | EwmFamily(col: string)
    | ZScoreFamily(col: string)
    | ReturnsStdFamily(col: string)
    | RangeFamily(col: string)
    | ChangeFamily(how: Scale, col: string)
    | TargetReturnFamily(col: string)
    | TargetValueFamily(col: string)
    | TargetDirectionFamily(col: string)
  {
    function Named(period: nat): Column {
      match this
      case RollingFamily(stat, col) => Rolling(stat, col, period)
      case EwmFamily(col) => Ewm(col, period)
      case ZScoreFamily(col) => ZScore(col, period)
      case ReturnsStdFamily(col) => ReturnsStd(col, period)
      case RangeFamily(col) => Range(col, period)
      case ChangeFamily(how, col) => Change(how, col, period)
      case TargetReturnFamily(col) => TargetReturn(col, period)
      case TargetValueFamily(col) => TargetValue(col, period)
      case TargetDirectionFamily(col) => TargetDirection(col, period)
    }
  }

  function Each(family: Family, periods: seq<nat>): set<Column> {
    set p | p in periods :: family.Named(p)
  }

  function TechnicalColumns(t: TechnicalConfig, dataColumns: seq<string>): set<Column> {
    match ResolveColumn(t.valueColumn, dataColumns)
    case None => {}
    case Some(v) =>
      Each(RollingFamily(Mean, v), t.rollingMean) + Each(EwmFamily(v), t.expAvg)
      + Each(RollingFamily(Std, v), t.std) + Each(RollingFamily(Min, v), t.min)
      + Each(RollingFamily(Max, v), t.max) + Each(RollingFamily(Median, v), t.median)
      + Each(ChangeFamily(Percent, v), t.roc) + Each(ZScoreFamily(v), t.zscore)
      + Each(RollingFamily(PctRank, v), t.percentileRank)
  }

  function LongWindows(windows: seq<nat>): seq<nat> {
    if windows == [] then []
    else LongWindows(windows[..|windows| - 1])
         + if windows[|windows| - 1] <= 1 then [] else [windows[|windows| - 1]]
  }

  /** Windows of one row or less are skipped. */
  function DispersionColumns(preferred: string, windows: seq<nat>, dataColumns: seq<string>): set<Column> {
    match ResolveColumn(preferred, dataColumns)
    case None => {}
    case Some(v) => Each(ReturnsStdFamily(v), LongWindows(windows)) + Each(RangeFamily(v), LongWindows(windows))
  }

  /** Lags of the listed columns that the frame holds; columns are listed by name in the source and
      by what they are here. */
  function LagColumns(columns: seq<Column>, lags: seq<nat>, present: set<Column>): set<Column> {
    set c, k | c in columns && c in present && k in lags :: Lag(c, k)
  }

  function Available(columns: seq<Column>, present: set<Column>): (kept: seq<Column>)
    ensures forall c :: c in kept <==> c in columns && c in present
  {
    if columns == [] then []
    else
      var before := Available(columns[..|columns| - 1], present);
      if columns[|columns| - 1] in present then before + [columns[|columns| - 1]] else before
  }

  function ReturnColumns(col: string, periods: seq<nat>): set<Column> {
    Each(ChangeFamily(Simple, col), periods) + Each(ChangeFamily(Log, col), periods)
  }

  function TargetColumns(col: string, horizons: seq<nat>): set<Column> {
    Each(TargetReturnFamily(col), horizons) + Each(TargetValueFamily(col), horizons)
    + Each(TargetDirectionFamily(col), horizons)
  }

  function TimeColumns(fields: seq<string>): set<Column> {
    set f | f in fields :: Time(f)
  }

  function RawColumns(dataColumns: seq<string>): set<Column> {
    set c | c in dataColumns :: Raw(c)
  }

  /** The columns computed before any lag is taken. */
  function EarlyColumns(cfg: Config): set<Column> {
    (match cfg.technical case None => {} case Some(t) => TechnicalColumns(t, cfg.dataColumns))
    + DispersionColumns(cfg.primaryColumn, cfg.dispersionWindows, cfg.dataColumns)
    + (if cfg.timeFeaturesEnabled then TimeColumns(TIME_FIELDS) else {})
  }

  /** Every column the job computes, besides the raw ones. */
  function AllColumns(cfg: Config): set<Column> {
    EarlyColumns(cfg)
    + LagColumns(cfg.lagColumns, cfg.lagPeriods, RawColumns(cfg.dataColumns) + EarlyColumns(cfg))
    + ReturnColumns(cfg.returnColumn, cfg.returnPeriods)
    + TargetColumns(cfg.targetColumn, cfg.targetHorizons)
  }

  lemma UpdateRight<K, V>(a: map<K, V>, b: map<K, V>, k: K, v: V)
    ensures (a + b)[k := v] == a + b[k := v]
  {
  }

  lemma OneMoreComputed(rows: seq<Row>, cs: set<Column>, c: Column, lib: Lib)
    ensures Computed(rows, cs, lib)[c := ColumnOf(c, rows, lib)] == Computed(rows, cs + {c}, lib)
  {
    hide ColumnOf;
  }

  lemma AddColumn(df: DataFrame, cs: set<Column>, c: Column, lib: Lib)
    ensures var before := WithColumns(df, cs, lib);
            before.(cols := before.cols[c := ColumnOf(c, df.rows, lib)]) == WithColumns(df, cs + {c}, lib)
  {
    hide ColumnOf, Computed;
    UpdateRight(df.cols, Computed(df.rows, cs, lib), c, ColumnOf(c, df.rows, lib));
    OneMoreComputed(df.rows, cs, c, lib);
  }

  lemma ComputedUnion(rows: seq<Row>, a: set<Column>, b: set<Column>, lib: Lib)
    ensures Computed(rows, a, lib) + Computed(rows, b, lib) == Computed(rows, a + b, lib)
  {
    hide ColumnOf;
  }

  lemma MergeAssociates<K, V>(a: map<K, V>, b: map<K, V>, c: map<K, V>)
    ensures a + b + c == a + (b + c)
  {
  }

  lemma AddTwice(df: DataFrame, a: set<Column>, b: set<Column>, lib: Lib)
    ensures WithColumns(WithColumns(df, a, lib), b, lib) == WithColumns(df, a + b, lib)
  {
    hide ColumnOf, Computed;
    ComputedUnion(df.rows, a, b, lib);
    MergeAssociates(df.cols, Computed(df.rows, a, lib), Computed(df.rows, b, lib));
  }

  /** One period loop: `for period in periods: result[name] = ...`. */
  method AddEach(df: DataFrame, family: Family, periods: seq<nat>, lib: Lib) returns (result: DataFrame)
    ensures result == WithColumns(df, Each(family, periods), lib)
  {
    hide ColumnOf, WithColumns;
    result := df;
    NoColumns(df, lib);
    assert Each(family, periods[..0]) == {};
    for i := 0 to |periods|
      invariant result == WithColumns(df, Each(family, periods[..i]), lib)
    {
      assert Each(family, periods[..i + 1]) == Each(family, periods[..i]) + {family.Named(periods[i])};
      AddColumn(df, Each(family, periods[..i]), family.Named(periods[i]), lib);
      RowsKept(df, Each(family, periods[..i]), lib);
      var name := family.Named(periods[i]);
      result := result.(cols := result.cols[name := ColumnOf(name, result.rows, lib)]);
    }
    assert periods[..|periods|] == periods;
  }

  lemma NoColumns(df: DataFrame, lib: Lib)
    ensures WithColumns(df, {}, lib) == df
  {
  }

  lemma RowsKept(df: DataFrame, cs: set<Column>, lib: Lib)
    ensures WithColumns(df, cs, lib).rows == df.rows
  {
  }

  method ComputeTechnicalIndicators(df: DataFrame, t: TechnicalConfig, dataColumns: seq<string>, lib: Lib)
    returns (result: DataFrame)
    ensures result == WithColumns(df, TechnicalColumns(t, dataColumns), lib)
  {
    hide WithColumns, Each;
    result := df;
    match ResolveColumn(t.valueColumn, dataColumns) {
      case None => NoColumns(df, lib);
      case Some(v) =>
        result := AddEach(result, RollingFamily(Mean, v), t.rollingMean, lib);
        ghost var cs := Each(RollingFamily(Mean, v), t.rollingMean);
        cs, result := AddMore(df, cs, result, EwmFamily(v), t.expAvg, lib);
        cs, result := AddMore(df, cs, result, RollingFamily(Std, v), t.std, lib);
        cs, result := AddMore(df, cs, result, RollingFamily(Min, v), t.min, lib);
        cs, result := AddMore(df, cs, result, RollingFamily(Max, v), t.max, lib);
        cs, result := AddMore(df, cs, result, RollingFamily(Median, v), t.median, lib);
        cs, result := AddMore(df, cs, result, ChangeFamily(Percent, v), t.roc, lib);
        cs, result := AddMore(df, cs, result, ZScoreFamily(v), t.zscore, lib);
        cs, result := AddMore(df, cs, result, RollingFamily(PctRank, v), t.percentileRank, lib);
    }
  }

  /** A further period loop over a frame that already gained the columns `cs`. */
  method AddMore(ghost df: DataFrame, ghost cs: set<Column>, now: DataFrame, family: Family, periods: seq<nat>,
                 lib: Lib)
    returns (ghost all: set<Column>, result: DataFrame)
    requires now == WithColumns(df, cs, lib)
    ensures all == cs + Each(family, periods)
    ensures result == WithColumns(df, all, lib)
  {
    hide ColumnOf;
    result := AddEach(now, family, periods, lib);
    all := cs + Each(family, periods);
    AddTwice(df, cs, Each(family, periods), lib);
  }

  lemma EachEmpty(family: Family)
    ensures Each(family, []) == {}
  {
  }

  lemma EachLongGrow(family: Family, windows: seq<nat>, i: nat)
    requires i < |windows|
    ensures Each(family, LongWindows(windows[..i + 1])) == Each(family, LongWindows(windows[..i]))
              + if windows[i] <= 1 then {} else {family.Named(windows[i])}
  {
    assert windows[..i + 1][..i] == windows[..i];
  }

  method ComputeDispersionFeatures(df: DataFrame, preferred: string, windows: seq<nat>, dataColumns: seq<string>,
                                   lib: Lib)
    returns (result: DataFrame)
    ensures result == WithColumns(df, DispersionColumns(preferred, windows, dataColumns), lib)
  {
    hide WithColumns, ColumnOf, Each;
    result := df;
    NoColumns(df, lib);
    match ResolveColumn(preferred, dataColumns) {
      case None =>
      case Some(v) =>
        ghost var cs := {};
        EachEmpty(ReturnsStdFamily(v));
        EachEmpty(RangeFamily(v));
        for i := 0 to |windows|
          invariant cs
              == Each(ReturnsStdFamily(v), LongWindows(windows[..i])) + Each(RangeFamily(v), LongWindows(windows[..i]))
          invariant result == WithColumns(df, cs, lib)
        {
          var window := windows[i];
          EachLongGrow(ReturnsStdFamily(v), windows, i);
          EachLongGrow(RangeFamily(v), windows, i);
          if window <= 1 {
            continue;
          }
          RowsKept(df, cs, lib);
          AddColumn(df, cs, ReturnsStd(v, window), lib);
          var deviation := ColumnOf(ReturnsStd(v, window), result.rows, lib);
          result := result.(cols := result.cols[ReturnsStd(v, window) := deviation]);
          RowsKept(df, cs + {ReturnsStd(v, window)}, lib);
          AddColumn(df, cs + {ReturnsStd(v, window)}, Range(v, window), lib);
          result := result.(cols := result.cols[Range(v, window) := ColumnOf(Range(v, window), result.rows, lib)]);
          cs := cs + {ReturnsStd(v, window)} + {Range(v, window)};
        }
        assert windows[..|windows|] == windows;
    }
  }

  method ComputeTimeFeatures(df: DataFrame, lib: Lib) returns (result: DataFrame)
    ensures result == WithColumns(df, TimeColumns(TIME_FIELDS), lib)
  {
    hide WithColumns, ColumnOf;
    result := df;
    NoColumns(df, lib);
    assert TimeColumns(TIME_FIELDS[..0]) == {};
    for i := 0 to |TIME_FIELDS|
      invariant result == WithColumns(df, TimeColumns(TIME_FIELDS[..i]), lib)
    {
      ghost var done := TimeColumns(TIME_FIELDS[..i]);
      var c := Time(TIME_FIELDS[i]);
      RowsKept(df, done, lib);
      AddColumn(df, done, c, lib);
      assert TimeColumns(TIME_FIELDS[..i + 1]) == done + {c};
      result := result.(cols := result.cols[c := ColumnOf(c, result.rows, lib)]);
    }
    assert TIME_FIELDS[..|TIME_FIELDS|] == TIME_FIELDS;
  }

  /** Every column of the frame is the one its name says, over the frame's rows. */
  ghost predicate Honest(df: DataFrame, lib: Lib) {
    forall c :: c in df.cols ==> df.cols[c] == ColumnOf(c, df.rows, lib)
  }

  lemma StaysHonest(df: DataFrame, cs: set<Column>, lib: Lib)
    requires Honest(df, lib)
    ensures Honest(WithColumns(df, cs, lib), lib) && WithColumns(df, cs, lib).cols.Keys == df.cols.Keys + cs
  {
    hide ColumnOf;
  }

  lemma LagColumnsGrow(columns: seq<Column>, lags: seq<nat>, present: set<Column>, i: nat)
    requires i < |columns|
    ensures LagColumns(columns[..i + 1], lags, present) == LagColumns(columns[..i], lags, present)
              + if columns[i] in present then LagColumns([columns[i]], lags, present) else {}
  {
  }

  lemma LagsGrow(col: Column, lags: seq<nat>, present: set<Column>, i: nat)
    requires col in present && i < |lags|
    ensures LagColumns([col], lags[..i + 1], present) == LagColumns([col], lags[..i], present) + {Lag(col, lags[i])}
  {
  }

  /** The inner loop: all lags of one column of the frame. */
  method AddLags(df: DataFrame, ghost cs: set<Column>, now: DataFrame, col: Column, lags: seq<nat>, lib: Lib)
    returns (result: DataFrame)
    requires Honest(df, lib) && col in df.cols && now == WithColumns(df, cs, lib)
    ensures result == WithColumns(df, cs + LagColumns([col], lags, df.cols.Keys), lib)
  {
    hide WithColumns, LagColumns;
    ghost var present := df.cols.Keys;
    ghost var added := cs;
    result := now;
    NoLags(col, present);
    for i := 0 to |lags|
      invariant added == cs + LagColumns([col], lags[..i], present)
      invariant result == WithColumns(df, added, lib)
    {
      LagsGrow(col, lags, present, i);
      AddColumn(df, added, Lag(col, lags[i]), lib);
      result := result.(cols := result.cols[Lag(col, lags[i]) := Shift(df.cols[col], lags[i])]);
      added := added + {Lag(col, lags[i])};
    }
    assert lags[..|lags|] == lags;
  }

  lemma NoLags(col: Column, present: set<Column>)
    ensures LagColumns([col], [], present) == {} && forall lags :: LagColumns([], lags, present) == {}
  {
  }

  method ComputeLagFeatures(df: DataFrame, columns: seq<Column>, lags: seq<nat>, lib: Lib) returns (result: DataFrame)
    requires Honest(df, lib)
    ensures result == WithColumns(df, LagColumns(columns, lags, df.cols.Keys), lib)
  {
    hide WithColumns, ColumnOf, LagColumns, Honest;
    result := df;
    NoColumns(df, lib);
    ghost var cs := {};
    assert columns[..0] == [] by { assert |columns[..0]| == 0; }
    NoLags(Raw(""), df.cols.Keys);
    for i := 0 to |columns|
      invariant cs == LagColumns(columns[..i], lags, df.cols.Keys)
      invariant result == WithColumns(df, cs, lib)
    {
      LagColumnsGrow(columns, lags, df.cols.Keys, i);
      if columns[i] !in df.cols {
        continue;
      }
      result := AddLags(df, cs, result, columns[i], lags, lib);
      cs := cs + LagColumns([columns[i]], lags, df.cols.Keys);
    }
    assert columns[..|columns|] == columns;
  }

  method ComputeReturnFeatures(df: DataFrame, col: string, periods: seq<nat>, lib: Lib) returns (result: DataFrame)
    ensures result == WithColumns(df, ReturnColumns(col, periods), lib)
  {
    hide WithColumns, Each;
    result := AddEach(df, ChangeFamily(Simple, col), periods, lib);
    ghost var cs := Each(ChangeFamily(Simple, col), periods);
    cs, result := AddMore(df, cs, result, ChangeFamily(Log, col), periods, lib);
  }

  method ComputeTargetFeatures(df: DataFrame, col: string, horizons: seq<nat>, lib: Lib) returns (result: DataFrame)
    ensures result == WithColumns(df, TargetColumns(col, horizons), lib)
  {
    hide WithColumns, Each;
    result := AddEach(df, TargetReturnFamily(col), horizons, lib);
    ghost var cs := Each(TargetReturnFamily(col), horizons);
    cs, result := AddMore(df, cs, result, TargetValueFamily(col), horizons, lib);
    cs, result := AddMore(df, cs, result, TargetDirectionFamily(col), horizons, lib);
  }

  /** The transformers that run before the lags. */
  method ComputeEarlyFeatures(df: DataFrame, cfg: Config, lib: Lib) returns (result: DataFrame)
    ensures result == WithColumns(df, EarlyColumns(cfg), lib)
  {
    hide WithColumns, TechnicalColumns, DispersionColumns;
    result := df;
    NoColumns(df, lib);
    ghost var cs: set<Column>, more: set<Column> := {}, {};
    if cfg.technical.Some? {
      result := ComputeTechnicalIndicators(result, cfg.technical.value, cfg.dataColumns, lib);
      cs := TechnicalColumns(cfg.technical.value, cfg.dataColumns);
    }
    more := DispersionColumns(cfg.primaryColumn, cfg.dispersionWindows, cfg.dataColumns);
    result := ComputeDispersionFeatures(result, cfg.primaryColumn, cfg.dispersionWindows, cfg.dataColumns, lib);
    AddTwice(df, cs, more, lib);
    cs := cs + more;
    if cfg.timeFeaturesEnabled {
      result := ComputeTimeFeatures(result, lib);
      more := TimeColumns(TIME_FIELDS);
      AddTwice(df, cs, more, lib);
      cs := cs + more;
    }
    assert cs == EarlyColumns(cfg);
  }

  /** All transformers in the job's order, each on the frame the previous one returned. */
  method ComputeAllFeatures(df: DataFrame, cfg: Config, lib: Lib) returns (result: DataFrame)
    requires Honest(df, lib) && df.cols.Keys == RawColumns(cfg.dataColumns)
    ensures result == WithColumns(df, AllColumns(cfg), lib)
  {
    hide WithColumns, EarlyColumns, LagColumns, ReturnColumns, TargetColumns, Honest;
    result := ComputeEarlyFeatures(df, cfg, lib);
    ghost var cs := EarlyColumns(cfg);
    StaysHonest(df, cs, lib);
    ghost var present := result.cols.Keys;
    var available := Available(cfg.lagColumns, result.cols.Keys);
    ghost var lagged := LagColumns(cfg.lagColumns, cfg.lagPeriods, present);
    SameLags(available, cfg.lagColumns, cfg.lagPeriods, present);
    if available != [] {
      result := ComputeLagFeatures(result, available, cfg.lagPeriods, lib);
    } else {
      NoLags(Raw(""), present);
      NoColumns(result, lib);
    }
    AddTwice(df, cs, lagged, lib);
    cs := cs + lagged;
    result := ComputeReturnFeatures(result, cfg.returnColumn, cfg.returnPeriods, lib);
    AddTwice(df, cs, ReturnColumns(cfg.returnColumn, cfg.returnPeriods), lib);
    cs := cs + ReturnColumns(cfg.returnColumn, cfg.returnPeriods);
    result := ComputeTargetFeatures(result, cfg.targetColumn, cfg.targetHorizons, lib);
    AddTwice(df, cs, TargetColumns(cfg.targetColumn, cfg.targetHorizons), lib);
    cs := cs + TargetColumns(cfg.targetColumn, cfg.targetHorizons);
    assert cs == AllColumns(cfg);
  }

  lemma SameLags(available: seq<Column>, columns: seq<Column>, lags: seq<nat>, present: set<Column>)
    requires forall c :: c in available <==> c in columns && c in present
    ensures LagColumns(available, lags, present) == LagColumns(columns, lags, present)
  {
  }
}
