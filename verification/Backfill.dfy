/** The batch feature job (features.py) and the chunked backfill that drives it (backfill.py).

    Times are integer microseconds, as Python's datetime keeps them. */
module Backfill {
  import opened Series
  import opened Frames
  import opened Tiling
  import opened Transformers

  const SECOND := 1_000_000
  const DAY := 86_400 * SECOND
  const LOOKBACK := 7 * DAY

  /** strftime drops the sub-second part of a query bound. */
  function Trunc(t: int): (r: int) {
    t - t % SECOND
  }

  datatype FeatureRow = FeatureRow(symbol: string, ts: int, cells: map<Column, Cell>)

  // ----- what one run writes -----

  predicate Sorted(raw: seq<Row>) {
    forall i, j :: 0 <= i <= j < |raw| ==> raw[i].ts <= raw[j].ts
  }

  /** The rows a time-range query returns, in time order. */
  function Select(raw: seq<Row>, from: int, to: int): seq<Row> {
    if raw == [] then []
    else
      var last := raw[|raw| - 1];
      Select(raw[..|raw| - 1], from, to) + if from <= last.ts <= to then [last] else []
  }

  /** How many rows are earlier than t. */
  function Earlier(raw: seq<Row>, t: int): (n: nat)
    ensures n <= |raw|
  {
    if raw == [] then 0 else Earlier(raw[..|raw| - 1], t) + if raw[|raw| - 1].ts < t then 1 else 0
  }

  /** The loaded frame of a window is raw[Lo..Hi]. */
  function Lo(raw: seq<Row>, w: Window): (n: nat)
    ensures n <= |raw|
  {
    Earlier(raw, Trunc(w.start - LOOKBACK))
  }

  function Hi(raw: seq<Row>, w: Window): (n: nat)
    ensures Lo(raw, w) <= n <= |raw|
  {
    var h := Earlier(raw, Trunc(w.end) + 1);
    if h < Lo(raw, w) then Lo(raw, w) else h
  }

  /** A row's own time lets a run over the window write it. */
  predicate InWindow(w: Window, t: int) {
    w.start <= t <= Trunc(w.end)
  }

  predicate Complete(cells: map<Column, Cell>) {
    forall c :: c in cells ==> !cells[c].NaN?
  }

  /** What a run over the window writes for raw row g: nothing when the row is outside or a
      written column is NaN there. */
  function RowAt(raw: seq<Row>, symbol: string, cols: set<Column>, lib: Lib, w: Window, g: nat): Option<FeatureRow>
    requires g < |raw|
  {
    if !InWindow(w, raw[g].ts) || !(Lo(raw, w) <= g < Hi(raw, w)) then None
    else
      var frame := raw[Lo(raw, w)..Hi(raw, w)];
      var cells := map c | c in cols :: ColumnOf(c, frame, lib)[g - Lo(raw, w)];
      if Complete(cells) then Some(FeatureRow(symbol, raw[g].ts, cells)) else None
  }

  /** The rows a run over the window writes for the first n raw rows of a symbol. */
  function Output(raw: seq<Row>, symbol: string, cols: set<Column>, lib: Lib, w: Window, n: nat): seq<FeatureRow>
    requires n <= |raw|
  {
    if n == 0 then []
    else
      Output(raw, symbol, cols, lib, w, n - 1)
      + AsSeq(RowAt(raw, symbol, cols, lib, w, n - 1))
  }

  function AsSeq<T>(o: Option<T>): seq<T> {
    if o.Some? then [o.value] else []
  }

  type Table = map<string, seq<Row>>

  function RawOf(table: Table, symbol: string): seq<Row> {
    if symbol in table then table[symbol] else []
  }

  /** The columns written: computed or raw ones that the destination table declares. */
  function WriteColumns(cfg: Config, declared: set<Column>): set<Column> {
    (AllColumns(cfg) + RawColumns(cfg.dataColumns)) * declared
  }

  /** A run over one window: symbol after symbol; a symbol that raises is skipped. */
  function RunOutput(table: Table, symbols: seq<string>, cols: set<Column>, lib: Lib, w: Window,
                     fails: (string, Window) -> bool): seq<FeatureRow>
  {
    if symbols == [] then []
    else
      var s := symbols[|symbols| - 1];
      RunOutput(table, symbols[..|symbols| - 1], cols, lib, w, fails)
      + if fails(s, w) then [] else Output(RawOf(table, s), s, cols, lib, w, |RawOf(table, s)|)
  }

  /** What goes wrong: symbols that raise inside their own handler, and how many symbols a run gets
      through when an exception leaves the run itself. */
  datatype Faults = Faults(fails: (string, Window) -> bool, stops: Window -> Option<nat>)
  {
    ghost predicate None() {
      (forall s: string, w: Window :: !fails(s, w)) && forall w: Window :: stops(w).None?
    }
  }

  /** The symbols a run gets through. */
  function Reached(symbols: seq<string>, stop: Option<nat>): seq<string> {
    if stop.Some? && stop.value < |symbols| then symbols[..stop.value] else symbols
  }

  function ChunkOutput(table: Table, symbols: seq<string>, cols: set<Column>, lib: Lib, w: Window,
                       faults: Faults): seq<FeatureRow>
  {
    RunOutput(table, Reached(symbols, faults.stops(w)), cols, lib, w, faults.fails)
  }

  /** The chunk loop: one run per window, whether or not an earlier one raised. */
  function BackfillOutput(table: Table, symbols: seq<string>, cols: set<Column>, lib: Lib, ws: seq<Window>,
                          faults: Faults): seq<FeatureRow>
  {
    if ws == [] then []
    else ChunkOutput(table, symbols, cols, lib, ws[0], faults)
         + BackfillOutput(table, symbols, cols, lib, ws[1..], faults)
  }

  /** How many chunks run to their end. */
  function Finished(ws: seq<Window>, faults: Faults): nat {
    if ws == [] then 0 else (if faults.stops(ws[0]).None? then 1 else 0) + Finished(ws[1..], faults)
  }

  // ----- the jobs -----

  /** The warehouse: raw tables to read, one feature table to append to. */
  class ClickHouse {
    const raw: Table
    const declared: set<Column>
    var features: seq<FeatureRow>

    constructor (raw: Table, declared: set<Column>)
      ensures this.raw == raw && this.declared == declared && features == []
    {
      this.raw, this.declared, features := raw, declared, [];
    }
  }

  ghost predicate AllSorted(table: Table) {
    forall s :: s in table ==> Sorted(table[s])
  }

  /** The time filter and the NaN filter over the computed frame. */
  method RowsToWrite(df: DataFrame, symbol: string, cols: set<Column>, lib: Lib, w: Window, ghost raw: seq<Row>)
    returns (out: seq<FeatureRow>)
    requires Sorted(raw) && df.rows == raw[Lo(raw, w)..Hi(raw, w)]
    requires forall c :: c in cols ==> c in df.cols && df.cols[c] == ColumnOf(c, df.rows, lib)
    ensures out == Output(raw, symbol, cols, lib, w, |raw|)
  {
    hide Lo, Hi, ColumnOf, RowAt;
    ghost var lo := Lo(raw, w);
    out := [];
    NothingBefore(raw, symbol, cols, lib, w, lo);
    for j := 0 to |df.rows|
      invariant out == Output(raw, symbol, cols, lib, w, lo + j)
    {
      LoadedRow(raw, symbol, cols, lib, w, j);
      if w.start <= df.rows[j].ts <= w.end {
        var cells := map c | c in cols :: df.cols[c][j];
        assert cells == map c | c in cols :: ColumnOf(c, df.rows, lib)[j];
        if Complete(cells) {
          out := out + [FeatureRow(symbol, df.rows[j].ts, cells)];
        }
      }
    }
    NothingAfter(raw, symbol, cols, lib, w, |raw|);
  }

  class FeatureEngineeringJob {
    const config: Config
    const server: ClickHouse
    var client: ClickHouse?

    constructor (config: Config, server: ClickHouse)
      ensures this.config == config && this.server == server && client == null
    {
      this.config, this.server, client := config, server, null;
    }

    method Connect()
      modifies this`client
      ensures client == server
    {
      client := server;
    }

    method Close()
      modifies this`client
      ensures client == null
    {
      client := null;
    }

    method Run(w: Window, lib: Lib, faults: Faults) returns (raised: bool)
      requires client == null || client == server
      requires AllSorted(server.raw)
      modifies this`client, server`features
      ensures client == server && raised == faults.stops(w).Some?
      ensures server.features == old(server.features)
                + ChunkOutput(server.raw, config.symbols, WriteColumns(config, server.declared), lib, w, faults)
    {
      hide Output, WriteColumns;
      if client == null {
        Connect();
      }
      var symbols, stop := config.symbols, faults.stops(w);
      for i := 0 to |symbols|
        invariant client == server
        invariant stop.Some? ==> i <= stop.value
        invariant server.features == old(server.features)
                    + RunOutput(server.raw, symbols[..i], WriteColumns(config, server.declared), lib, w, faults.fails)
      {
        assert symbols[..i + 1][..i] == symbols[..i];
        if stop == Some(i) {
          return true;
        }
        if !faults.fails(symbols[i], w) {
          ProcessSymbol(symbols[i], w, lib);
        }
      }
      assert symbols[..|symbols|] == symbols;
      raised := stop.Some?;
    }

    method ProcessSymbol(symbol: string, w: Window, lib: Lib)
      requires client == server
      requires AllSorted(server.raw)
      modifies server`features
      ensures server.features == old(server.features)
                + Output(RawOf(server.raw, symbol), symbol, WriteColumns(config, server.declared), lib, w,
                         |RawOf(server.raw, symbol)|)
    {
      hide Output, WriteColumns, AllColumns, Lo, Hi;
      ghost var raw := RawOf(server.raw, symbol);
      var cols := WriteColumns(config, server.declared);
      var rows := LoadRawData(symbol, w.start - LOOKBACK, w.end);
      LoadedFrame(raw, w);
      var df := DataFrame(rows, map c | c in RawColumns(config.dataColumns) :: ColumnOf(c, rows, lib));
      df := ComputeAllFeatures(df, config, lib);
      CellsOfRow(rows, config, server.declared, lib);
      var out := RowsToWrite(df, symbol, cols, lib, w, raw);
      server.features := server.features + out;
    }

    /** The raw query: the symbol's rows from the first at or after the truncated start to the last
        at or before the truncated end, with none left out in between. */
    method LoadRawData(symbol: string, start: int, end: int) returns (rows: seq<Row>)
      requires client == server
      requires AllSorted(server.raw)
      ensures var raw := RawOf(server.raw, symbol);
              && rows == Cut(raw, Earlier(raw, Trunc(start)), Earlier(raw, Trunc(end) + 1))
              && forall row :: row in rows <==> row in raw && Trunc(start) <= row.ts <= Trunc(end)
    {
      ghost var raw := RawOf(server.raw, symbol);
      rows := Select(RawOf(server.raw, symbol), Trunc(start), Trunc(end));
      SelectIsSlice(raw, Trunc(start), Trunc(end));
      forall row ensures row in rows <==> row in raw && Trunc(start) <= row.ts <= Trunc(end) {
        SelectHolds(raw, Trunc(start), Trunc(end), row);
      }
    }
  }

  class BackfillJob {
    const featureJob: FeatureEngineeringJob

    constructor (config: Config, server: ClickHouse)
      ensures fresh(featureJob) && featureJob.config == config && featureJob.server == server
      ensures featureJob.client == null
    {
      featureJob := new FeatureEngineeringJob(config, server);
    }

    method Run(start: int, end: int, chunkDays: int, lib: Lib, faults: Faults) returns (totalChunks: nat)
      requires chunkDays > 0
      requires AllSorted(featureJob.server.raw)
      modifies featureJob`client, featureJob.server`features
      ensures totalChunks == Finished(Windows(start, end, chunkDays * DAY), faults)
      ensures featureJob.client == null
      ensures featureJob.server.features == old(featureJob.server.features)
                + BackfillOutput(featureJob.server.raw, featureJob.config.symbols,
                                 WriteColumns(featureJob.config, featureJob.server.declared), lib,
                                 Windows(start, end, chunkDays * DAY), faults)
    {
      hide ChunkOutput, WriteColumns;
      featureJob.Connect();
      var current, delta := start, chunkDays * DAY;
      totalChunks := 0;
      ghost var server := featureJob.server;
      ghost var cols := WriteColumns(featureJob.config, server.declared);
      ghost var all, done: nat := Windows(start, end, delta), 0;
      assert all[done..] == all;
      while current < end
        invariant featureJob.client == server
        invariant done <= |all| && all[done..] == Windows(current, end, delta)
        invariant totalChunks + Finished(all[done..], faults) == Finished(all, faults)
        invariant old(server.features) + BackfillOutput(server.raw, featureJob.config.symbols, cols, lib, all, faults)
               == server.features
                   + BackfillOutput(server.raw, featureJob.config.symbols, cols, lib, all[done..], faults)
        decreases end - current
      {
        var currentEnd := NextEnd(current, end, delta);
        assert all[done..][1..] == all[done + 1..];
        var raised := featureJob.Run(Window(current, currentEnd), lib, faults);
        if !raised {
          totalChunks := totalChunks + 1;
        }
        done := done + 1;
        current := currentEnd;
      }
      featureJob.Close();
    }
  }

  // ----- the loaded frame -----

  lemma {:induction false} EarlierIsPosition(raw: seq<Row>, t: int, i: nat)
    requires Sorted(raw) && i < |raw|
    ensures i < Earlier(raw, t) <==> raw[i].ts < t
  {
    var n := |raw| - 1;
    if raw[n].ts < t {
      AllEarlier(raw, t);
    } else if i < n {
      EarlierIsPosition(raw[..n], t, i);
    }
  }

  lemma {:induction false} AllEarlier(raw: seq<Row>, t: int)
    requires forall i :: 0 <= i < |raw| ==> raw[i].ts < t
    ensures Earlier(raw, t) == |raw|
  {
    if raw != [] { AllEarlier(raw[..|raw| - 1], t); }
  }

  lemma {:induction false} EarlierMonotone(raw: seq<Row>, s: int, t: int)
    requires s <= t
    ensures Earlier(raw, s) <= Earlier(raw, t)
  {
    if raw != [] { EarlierMonotone(raw[..|raw| - 1], s, t); }
  }

  lemma TruncBounds(t: int)
    ensures Trunc(t) <= t < Trunc(t) + SECOND
  {
  }

  function Cut(raw: seq<Row>, lo: nat, h: nat): seq<Row>
    requires lo <= |raw| && h <= |raw|
  {
    raw[lo..if h < lo then lo else h]
  }

  lemma CutShorter(raw: seq<Row>, lo: nat, h: nat)
    requires lo < |raw| && h < |raw|
    ensures Cut(raw, lo, h) == Cut(raw[..|raw| - 1], lo, h)
  {
  }

  lemma CutToEnd(raw: seq<Row>, lo: nat)
    requires lo < |raw|
    ensures Cut(raw, lo, |raw|) == Cut(raw[..|raw| - 1], lo, |raw| - 1) + [raw[|raw| - 1]]
  {
  }

  /** On a sorted table a range query is a contiguous cut. */
  lemma {:induction false} SelectIsSlice(raw: seq<Row>, from: int, to: int)
    requires Sorted(raw)
    ensures Select(raw, from, to) == Cut(raw, Earlier(raw, from), Earlier(raw, to + 1))
  {
    hide Cut;
    if raw == [] {
      EmptyCut(raw, 0);
    } else {
      var n := |raw| - 1;
      var init, last := raw[..n], raw[n];
      SelectIsSlice(init, from, to);
      var lo, h := Earlier(init, from), Earlier(init, to + 1);
      if last.ts < from {
        AllEarlier(raw, from);
        AllEarlier(init, from);
        EmptyCut(raw, Earlier(raw, to + 1));
        EmptyCut(init, h);
      } else if last.ts <= to {
        AllEarlier(raw, to + 1);
        AllEarlier(init, to + 1);
        CutToEnd(raw, lo);
      } else {
        CutShorter(raw, lo, h);
      }
    }
  }

  lemma EmptyCut(raw: seq<Row>, h: nat)
    requires h <= |raw|
    ensures Cut(raw, |raw|, h) == []
  {
  }

  lemma {:induction false} SelectHolds(raw: seq<Row>, from: int, to: int, row: Row)
    ensures row in Select(raw, from, to) <==> row in raw && from <= row.ts <= to
  {
    if raw != [] {
      SelectHolds(raw[..|raw| - 1], from, to, row);
      assert raw == raw[..|raw| - 1] + [raw[|raw| - 1]];
    }
  }

  lemma InWindowIsLoaded(raw: seq<Row>, w: Window, g: nat)
    requires Sorted(raw) && g < |raw| && InWindow(w, raw[g].ts)
    ensures Lo(raw, w) <= g < Hi(raw, w)
  {
    EarlierIsPosition(raw, Trunc(w.start - LOOKBACK), g);
    EarlierIsPosition(raw, Trunc(w.end) + 1, g);
  }

  lemma {:induction false} NothingBefore(raw: seq<Row>, symbol: string, cols: set<Column>, lib: Lib, w: Window, n: nat)
    requires n <= Lo(raw, w)
    ensures Output(raw, symbol, cols, lib, w, n) == []
  {
    if n > 0 { NothingBefore(raw, symbol, cols, lib, w, n - 1); }
  }

  lemma {:induction false} NothingAfter(raw: seq<Row>, symbol: string, cols: set<Column>, lib: Lib, w: Window, n: nat)
    requires Hi(raw, w) <= n <= |raw|
    ensures Output(raw, symbol, cols, lib, w, n) == Output(raw, symbol, cols, lib, w, Hi(raw, w))
  {
    if n > Hi(raw, w) { NothingAfter(raw, symbol, cols, lib, w, n - 1); }
  }

  /** For a loaded row the written row is decided by the plain time filter and the NaN filter. */
  lemma LoadedRow(raw: seq<Row>, symbol: string, cols: set<Column>, lib: Lib, w: Window, j: nat)
    requires Sorted(raw) && Lo(raw, w) + j < Hi(raw, w)
    ensures var g := Lo(raw, w) + j;
            var cells := map c | c in cols :: ColumnOf(c, raw[Lo(raw, w)..Hi(raw, w)], lib)[j];
            RowAt(raw, symbol, cols, lib, w, g)
            == if w.start <= raw[g].ts <= w.end && Complete(cells) then Some(FeatureRow(symbol, raw[g].ts, cells))
                else None
  {
    hide ColumnOf;
    EarlierIsPosition(raw, Trunc(w.end) + 1, Lo(raw, w) + j);
  }

  /** The rows loaded for a window are the frame over which its cells are computed. */
  lemma LoadedFrame(raw: seq<Row>, w: Window)
    requires Sorted(raw)
    ensures Cut(raw, Earlier(raw, Trunc(w.start - LOOKBACK)), Earlier(raw, Trunc(w.end) + 1))
        == raw[Lo(raw, w)..Hi(raw, w)]
  {
    hide Earlier, Trunc;
  }

  /** The frame the job computed holds, under every written column, that column of its rows. */
  lemma CellsOfRow(rows: seq<Row>, cfg: Config, declared: set<Column>, lib: Lib)
    ensures var base := DataFrame(rows, map c | c in RawColumns(cfg.dataColumns) :: ColumnOf(c, rows, lib));
            var df := WithColumns(base, AllColumns(cfg), lib);
            && df.rows == rows
            && forall c :: c in WriteColumns(cfg, declared) ==> c in df.cols && df.cols[c] == ColumnOf(c, rows, lib)
  {
    hide AllColumns, ColumnOf;
  }
}
