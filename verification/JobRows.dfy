/** Which rows the batch job writes, row by row: the loaded frame, the time filter and the
    missing-value filter, symbol after symbol and chunk after chunk. */
module JobRows {
  import opened Series
  import opened Frames
  import opened Tiling
  import opened Backfill

  /** A query bound as the warehouse sees it: whole seconds. */
  function WholeSeconds(t: int): int {
    t - t % 1_000_000
  }

  /** The rows a run over the window loads, seven days of history included. */
  predicate Loaded(w: Window, t: int) {
    WholeSeconds(w.start - 604_800_000_000) <= t <= WholeSeconds(w.end)
  }

  /** The loaded rows are the cut from lo to h. */
  predicate FrameIs(raw: seq<Row>, w: Window, lo: nat, h: nat) {
    && lo <= h <= |raw|
    && forall g :: 0 <= g < |raw| ==> (lo <= g < h <==> Loaded(w, raw[g].ts))
  }

  /** Raw row g is written as `out`: its own symbol and time, and under each column its cell over the
      loaded frame. */
  predicate WrittenAs(raw: seq<Row>, symbol: string, cols: set<Column>, lib: Lib, lo: nat, h: nat, g: nat,
                      out: FeatureRow)
    requires lo <= g < h <= |raw|
  {
    && out.symbol == symbol && out.ts == raw[g].ts && out.cells.Keys == cols
    && forall c :: c in cols ==> out.cells[c] == ColumnOf(c, raw[lo..h], lib)[g - lo]
  }

  /** A row is due when it lies in the window and none of its cells is missing. */
  predicate Due(raw: seq<Row>, cols: set<Column>, lib: Lib, w: Window, lo: nat, h: nat, g: nat)
    requires lo <= g < h <= |raw|
  {
    && w.start <= raw[g].ts <= w.end
    && forall c :: c in cols ==> !ColumnOf(c, raw[lo..h], lib)[g - lo].NaN?
  }

  lemma LoadedIsFrame(raw: seq<Row>, w: Window)
    requires Sorted(raw)
    ensures FrameIs(raw, w, Lo(raw, w), Hi(raw, w))
  {
    hide Earlier;
    forall g | 0 <= g < |raw| ensures Lo(raw, w) <= g < Hi(raw, w) <==> Loaded(w, raw[g].ts) {
      EarlierIsPosition(raw, Trunc(w.start - LOOKBACK), g);
      EarlierIsPosition(raw, Trunc(w.end) + 1, g);
    }
  }

  /** A run writes exactly the due rows of a symbol, each once and in table order: `at` gives the raw
      row behind every written one. */
  lemma {:induction false} WrittenRowsAre(raw: seq<Row>, symbol: string, cols: set<Column>, lib: Lib, w: Window, n: nat)
    returns (at: seq<nat>)
    requires Sorted(raw) && n <= |raw|
    ensures var lo, h, out := Lo(raw, w), Hi(raw, w), Output(raw, symbol, cols, lib, w, n);
            && FrameIs(raw, w, lo, h) && |at| == |out|
            && (forall k, l :: 0 <= k < l < |at| ==> at[k] < at[l])
            && (forall k :: 0 <= k < |at| ==>
                  && lo <= at[k] < h && at[k] < n && Due(raw, cols, lib, w, lo, h, at[k])
                  && WrittenAs(raw, symbol, cols, lib, lo, h, at[k], out[k]))
            && (forall g :: 0 <= g < n && lo <= g < h && Due(raw, cols, lib, w, lo, h, g) ==> g in at)
  {
    hide Lo, Hi, ColumnOf, RowAt, Due, WrittenAs, FrameIs;
    LoadedIsFrame(raw, w);
    at := [];
    if n > 0 {
      var before := WrittenRowsAre(raw, symbol, cols, lib, w, n - 1);
      OneRow(raw, symbol, cols, lib, w, n - 1);
      at := before + if RowAt(raw, symbol, cols, lib, w, n - 1).Some? then [n - 1] else [];
    }
  }

  lemma OneRow(raw: seq<Row>, symbol: string, cols: set<Column>, lib: Lib, w: Window, g: nat)
    requires Sorted(raw) && g < |raw|
    ensures var lo, h, row := Lo(raw, w), Hi(raw, w), RowAt(raw, symbol, cols, lib, w, g);
            && (row.Some? <==> lo <= g < h && Due(raw, cols, lib, w, lo, h, g))
            && (row.Some? ==> WrittenAs(raw, symbol, cols, lib, lo, h, g, row.value))
  {
    hide Earlier, ColumnOf;
    var lo, h := Lo(raw, w), Hi(raw, w);
    if lo <= g < h {
      LoadedRow(raw, symbol, cols, lib, w, g - lo);
      var cells := map c | c in cols :: ColumnOf(c, raw[lo..h], lib)[g - lo];
      assert Complete(cells) <==> forall c :: c in cols ==> !cells[c].NaN?;
    }
  }

  /** What a symbol adds: nothing when it raises. */
  function PartOf(table: Table, symbol: string, cols: set<Column>, lib: Lib, w: Window,
                  fails: (string, Window) -> bool): seq<FeatureRow>
  {
    var raw := if symbol in table then table[symbol] else [];
    if fails(symbol, w) then [] else Output(raw, symbol, cols, lib, w, |raw|)
  }

  /** A run writes symbol after symbol. */
  lemma {:induction false} SymbolsInOrder(table: Table, symbols: seq<string>, cols: set<Column>, lib: Lib, w: Window,
                                          fails: (string, Window) -> bool)
    returns (parts: seq<seq<FeatureRow>>)
    ensures |parts| == |symbols| && RunOutput(table, symbols, cols, lib, w, fails) == Flatten(parts)
    ensures forall i :: 0 <= i < |symbols| ==> parts[i] == PartOf(table, symbols[i], cols, lib, w, fails)
  {
    hide PartOf, Flatten, Output;
    parts := [];
    if symbols == [] {
      FlattenNone<FeatureRow>();
    } else {
      var n := |symbols| - 1;
      var before := SymbolsInOrder(table, symbols[..n], cols, lib, w, fails);
      var last := PartOf(table, symbols[n], cols, lib, w, fails);
      RunStep(table, symbols, cols, lib, w, fails);
      FlattenConcat(before, [last]);
      FlattenOne(last);
      parts := before + [last];
    }
  }

  lemma RunStep(table: Table, symbols: seq<string>, cols: set<Column>, lib: Lib, w: Window,
                fails: (string, Window) -> bool)
    requires symbols != []
    ensures var n := |symbols| - 1;
            RunOutput(table, symbols, cols, lib, w, fails)
            == RunOutput(table, symbols[..n], cols, lib, w, fails) + PartOf(table, symbols[n], cols, lib, w, fails)
  {
    hide Output;
  }

  /** The backfill writes chunk after chunk, each over the symbols reached before it stops. */
  lemma {:induction false} ChunksInOrder(table: Table, symbols: seq<string>, cols: set<Column>, lib: Lib,
                                         ws: seq<Window>, faults: Faults)
    returns (parts: seq<seq<FeatureRow>>)
    ensures |parts| == |ws| && BackfillOutput(table, symbols, cols, lib, ws, faults) == Flatten(parts)
    ensures forall i :: 0 <= i < |ws| ==>
              var stop := faults.stops(ws[i]);
              var reached := if stop.None? || stop.value >= |symbols| then symbols else symbols[..stop.value];
              parts[i] == RunOutput(table, reached, cols, lib, ws[i], faults.fails)
  {
    hide RunOutput;
    parts := [];
    if ws != [] {
      var rest := ChunksInOrder(table, symbols, cols, lib, ws[1..], faults);
      parts := [ChunkOutput(table, symbols, cols, lib, ws[0], faults)] + rest;
      assert parts[1..] == rest;
    }
  }
}
