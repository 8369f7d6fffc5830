/** Which columns the batch job computes and writes for a configuration, column by column. */
module JobColumns {
  import opened Series
  import opened Frames
  import opened Transformers
  import opened Backfill

  /** The value column in use: the preferred one when the data has it, else the first. */
  predicate InUse(preferred: string, dataColumns: seq<string>, col: string) {
    if preferred in dataColumns then col == preferred else dataColumns != [] && col == dataColumns[0]
  }

  lemma ResolvedIsInUse(preferred: string, dataColumns: seq<string>, col: string)
    ensures ResolveColumn(preferred, dataColumns) == Some(col) <==> InUse(preferred, dataColumns, col)
  {
  }

  lemma {:induction false} LongWindowsAre(windows: seq<nat>, w: nat)
    ensures w in LongWindows(windows) <==> w in windows && w >= 2
  {
    if windows != [] {
      LongWindowsAre(windows[..|windows| - 1], w);
      assert windows == windows[..|windows| - 1] + [windows[|windows| - 1]];
    }
  }

  /** The periods configured for a rolling statistic. */
  function PeriodsOf(t: TechnicalConfig, stat: Stat): seq<nat> {
    match stat
    case Mean => t.rollingMean
    case Std => t.std
    case Min => t.min
    case Max => t.max
    case Median => t.median
    case PctRank => t.percentileRank
  }

  lemma EachIs(family: Family, periods: seq<nat>, c: Column)
    ensures c in Each(family, periods) <==> exists p :: p in periods && c == family.Named(p)
  {
  }

  /** The technical columns: one per configured statistic and period, of the value column in use. */
  lemma TechnicalColumnsAre(t: TechnicalConfig, dataColumns: seq<string>, c: Column)
    ensures c in TechnicalColumns(t, dataColumns) <==>
            match c
            case Rolling(stat, col, p) => InUse(t.valueColumn, dataColumns, col) && p in PeriodsOf(t, stat)
            case Ewm(col, p) => InUse(t.valueColumn, dataColumns, col) && p in t.expAvg
            case ZScore(col, p) => InUse(t.valueColumn, dataColumns, col) && p in t.zscore
            case Change(how, col, p) => how.Percent? && InUse(t.valueColumn, dataColumns, col) && p in t.roc
            case _ => false
  {
    hide Each;
    match ResolveColumn(t.valueColumn, dataColumns)
    case None =>
    case Some(v) =>
      EachIs(RollingFamily(Mean, v), t.rollingMean, c);
      EachIs(EwmFamily(v), t.expAvg, c);
      EachIs(RollingFamily(Std, v), t.std, c);
      EachIs(RollingFamily(Min, v), t.min, c);
      EachIs(RollingFamily(Max, v), t.max, c);
      EachIs(RollingFamily(Median, v), t.median, c);
      EachIs(ChangeFamily(Percent, v), t.roc, c);
      EachIs(ZScoreFamily(v), t.zscore, c);
      EachIs(RollingFamily(PctRank, v), t.percentileRank, c);
  }

  lemma DispersionColumnsAre(preferred: string, windows: seq<nat>, dataColumns: seq<string>, c: Column)
    ensures c in DispersionColumns(preferred, windows, dataColumns) <==>
            match c
            case ReturnsStd(col, w) => InUse(preferred, dataColumns, col) && w in windows && w >= 2
            case Range(col, w) => InUse(preferred, dataColumns, col) && w in windows && w >= 2
            case _ => false
  {
    hide Each, LongWindows;
    forall w ensures w in LongWindows(windows) <==> w in windows && w >= 2 {
      LongWindowsAre(windows, w);
    }
    match ResolveColumn(preferred, dataColumns)
    case None =>
    case Some(v) =>
      EachIs(ReturnsStdFamily(v), LongWindows(windows), c);
      EachIs(RangeFamily(v), LongWindows(windows), c);
  }

  lemma ReturnColumnsAre(col: string, periods: seq<nat>, c: Column)
    ensures c in ReturnColumns(col, periods) <==> c.Change? && !c.how.Percent? && c.col == col && c.periods in periods
  {
    hide Each;
    EachIs(ChangeFamily(Simple, col), periods, c);
    EachIs(ChangeFamily(Log, col), periods, c);
  }

  lemma TargetColumnsAre(col: string, horizons: seq<nat>, c: Column)
    ensures c in TargetColumns(col, horizons) <==>
            (c.TargetReturn? || c.TargetValue? || c.TargetDirection?) && c.col == col && c.horizon in horizons
  {
    hide Each;
    EachIs(TargetReturnFamily(col), horizons, c);
    EachIs(TargetValueFamily(col), horizons, c);
    EachIs(TargetDirectionFamily(col), horizons, c);
  }

  /** The columns of the frame before any lag: raw, technical, dispersion and time columns. */
  predicate BeforeLags(cfg: Config, c: Column) {
    match c
    case Raw(col) => col in cfg.dataColumns
    case Time(field) =>
      cfg.timeFeaturesEnabled
      && field in {"hour_of_day", "day_of_week", "is_weekend", "is_active_hours", "day_of_month",
                   "month", "hour_sin", "hour_cos", "dow_sin", "dow_cos"}
    case ReturnsStd(col, w) => InUse(cfg.primaryColumn, cfg.dataColumns, col) && w in cfg.dispersionWindows && w >= 2
    case Range(col, w) => InUse(cfg.primaryColumn, cfg.dataColumns, col) && w in cfg.dispersionWindows && w >= 2
    case Rolling(stat, col, p) =>
      cfg.technical.Some? && InUse(cfg.technical.value.valueColumn, cfg.dataColumns, col)
      && p in PeriodsOf(cfg.technical.value, stat)
    case Ewm(col, p) =>
      cfg.technical.Some? && InUse(cfg.technical.value.valueColumn, cfg.dataColumns, col)
      && p in cfg.technical.value.expAvg
    case ZScore(col, p) =>
      cfg.technical.Some? && InUse(cfg.technical.value.valueColumn, cfg.dataColumns, col)
      && p in cfg.technical.value.zscore
    case Change(how, col, p) =>
      how.Percent? && cfg.technical.Some? && InUse(cfg.technical.value.valueColumn, cfg.dataColumns, col)
      && p in cfg.technical.value.roc
    case _ => false
  }

  /** And of the finished frame: those, lags of them, returns and targets. */
  predicate InFrame(cfg: Config, c: Column) {
    || BeforeLags(cfg, c)
    || (c.Lag? && BeforeLags(cfg, c.of) && c.of in cfg.lagColumns && c.periods in cfg.lagPeriods)
    || (c.Change? && !c.how.Percent? && c.col == cfg.returnColumn && c.periods in cfg.returnPeriods)
    || ((c.TargetReturn? || c.TargetValue? || c.TargetDirection?) && c.col == cfg.targetColumn
        && c.horizon in cfg.targetHorizons)
  }

  lemma EarlyColumnsAre(cfg: Config, c: Column)
    ensures c in RawColumns(cfg.dataColumns) + EarlyColumns(cfg) <==> BeforeLags(cfg, c)
  {
    hide TechnicalColumns, DispersionColumns;
    if cfg.technical.Some? { TechnicalColumnsAre(cfg.technical.value, cfg.dataColumns, c); }
    DispersionColumnsAre(cfg.primaryColumn, cfg.dispersionWindows, cfg.dataColumns, c);
  }

  /** The finished frame holds exactly these columns. */
  lemma ComputedColumnsAre(cfg: Config, c: Column)
    ensures c in RawColumns(cfg.dataColumns) + AllColumns(cfg) <==> InFrame(cfg, c)
  {
    hide EarlyColumns, ReturnColumns, TargetColumns, BeforeLags;
    EarlyColumnsAre(cfg, c);
    if c.Lag? { EarlyColumnsAre(cfg, c.of); }
    LagsAre(cfg.lagColumns, cfg.lagPeriods, RawColumns(cfg.dataColumns) + EarlyColumns(cfg), c);
    ReturnColumnsAre(cfg.returnColumn, cfg.returnPeriods, c);
    TargetColumnsAre(cfg.targetColumn, cfg.targetHorizons, c);
  }

  lemma LagsAre(columns: seq<Column>, lags: seq<nat>, present: set<Column>, c: Column)
    ensures c in LagColumns(columns, lags, present) <==>
            c.Lag? && c.of in columns && c.of in present && c.periods in lags
  {
  }

  /** Each holds the column's cells over the frame's rows. */
  lemma FrameHolds(df: DataFrame, cfg: Config, lib: Lib, c: Column)
    requires Honest(df, lib) && df.cols.Keys == RawColumns(cfg.dataColumns)
    ensures var result := WithColumns(df, AllColumns(cfg), lib);
            && (c in result.cols <==> InFrame(cfg, c)) && result.rows == df.rows
            && (c in result.cols ==> result.cols[c] == ColumnOf(c, df.rows, lib))
  {
    hide AllColumns, ColumnOf, InFrame;
    ComputedColumnsAre(cfg, c);
  }

  /** The written columns are those of the frame that the destination declares. */
  lemma WrittenColumnsAre(cfg: Config, declared: set<Column>, c: Column)
    ensures c in WriteColumns(cfg, declared) <==> c in declared && InFrame(cfg, c)
  {
    hide AllColumns, InFrame;
    ComputedColumnsAre(cfg, c);
  }
}
