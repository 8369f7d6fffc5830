/** Which columns a chunked backfill computes as one run does, whatever the table holds, and which
    tables it writes as one run does, whatever the columns. */
module ChunkExactness {
  import opened Series
  import opened Frames
  import opened Tiling
  import opened Transformers
  import opened Backfill
  import opened ChunkEquivalence

  function NoFaults(): Faults {
    Faults((s: string, w: Window) => false, (w: Window) => Option.None)
  }

  /** A row of a single column. */
  function OneCell(symbol: string, ts: int, c: Column, cell: Cell): FeatureRow {
    FeatureRow(symbol, ts, map[c := cell])
  }

  /** Chunked backfill writes what one run writes, rows on interior boundaries twice and so on. */
  ghost predicate Agrees(table: Table, symbols: seq<string>, cols: set<Column>, lib: Lib, start: int, end: int,
                         step: int)
    requires step > 0
  {
    forall r: FeatureRow ::
      multiset(BackfillOutput(table, symbols, cols, lib, Windows(start, end, step), NoFaults()))[r]
      == Multiplicity(start, end, step, r.ts)
         * multiset(RunOutput(table, symbols, cols, lib, Window(start, end), NoFaults().fails))[r]
  }

  // ----- where written rows come from -----

  lemma {:induction false} OutputFrom(raw: seq<Row>, symbol: string, cols: set<Column>, lib: Lib, w: Window, n: nat,
                                      r: FeatureRow)
    requires n <= |raw|
    ensures r in Output(raw, symbol, cols, lib, w, n)
        <==> exists g: nat :: g < n && RowAt(raw, symbol, cols, lib, w, g) == Some(r)
  {
    hide RowAt;
    if n > 0 { OutputFrom(raw, symbol, cols, lib, w, n - 1, r); }
  }

  lemma OneSymbol(raw: seq<Row>, symbol: string, cols: set<Column>, lib: Lib, w: Window)
    ensures RunOutput(map[symbol := raw], [symbol], cols, lib, w, NoFaults().fails)
        == Output(raw, symbol, cols, lib, w, |raw|)
  {
    hide Output;
    assert [symbol][..0] == [];
    assert RunOutput(map[symbol := raw], [], cols, lib, w, NoFaults().fails) == [];
  }

  lemma {:induction false} NotWritten(table: Table, symbols: seq<string>, cols: set<Column>, lib: Lib,
                                      ws: seq<Window>, r: FeatureRow)
    requires forall i :: 0 <= i < |ws| ==> r !in RunOutput(table, symbols, cols, lib, ws[i], NoFaults().fails)
    ensures r !in BackfillOutput(table, symbols, cols, lib, ws, NoFaults())
  {
    hide RunOutput;
    if ws != [] {
      assert ChunkOutput(table, symbols, cols, lib, ws[0], NoFaults())
          == RunOutput(table, symbols, cols, lib, ws[0], NoFaults().fails);
      NotWritten(table, symbols, cols, lib, ws[1..], r);
    }
  }

  /** Every chunk but the first starts where the first ends or later. */
  lemma LaterChunks(start: int, end: int, step: int, i: nat)
    requires step > 0 && start + step < end && i < |Windows(start, end, step)|
    ensures Windows(start, end, step)[0] == Window(start, start + step)
    ensures i > 0 ==> Windows(start, end, step)[i].start >= start + step
  {
    var e := NextEnd(start, end, step);
    WindowsAreChunks(e, end, step, e);
    if i > 0 { assert Windows(start, end, step)[i] == Windows(e, end, step)[i - 1]; }
  }

  /** A row one run writes inside the range and no chunk does shows that they disagree. */
  lemma Disagree(raw: seq<Row>, symbol: string, cols: set<Column>, lib: Lib, start: int, end: int, step: int,
                 r: FeatureRow, g: nat)
    requires step > 0 && step % SECOND == 0 && start % SECOND == 0 && start < end
    requires g < |raw| && RowAt(raw, symbol, cols, lib, Window(start, end), g) == Some(r)
    requires forall i, k :: 0 <= i < |Windows(start, end, step)| && 0 <= k < |raw| ==>
               RowAt(raw, symbol, cols, lib, Windows(start, end, step)[i], k) != Some(r)
    ensures !Agrees(map[symbol := raw], [symbol], cols, lib, start, end, step)
  {
    hide RowAt, Output, RunOutput, BackfillOutput, Multiplicity, Windows, Agrees;
    var table, ws := map[symbol := raw], Windows(start, end, step);
    OutputFrom(raw, symbol, cols, lib, Window(start, end), |raw|, r);
    OneSymbol(raw, symbol, cols, lib, Window(start, end));
    forall i | 0 <= i < |ws| ensures r !in RunOutput(table, [symbol], cols, lib, ws[i], NoFaults().fails) {
      OneSymbol(raw, symbol, cols, lib, ws[i]);
      OutputFrom(raw, symbol, cols, lib, ws[i], |raw|, r);
    }
    NotWritten(table, [symbol], cols, lib, ws, r);
    var whole := multiset(RunOutput(table, [symbol], cols, lib, Window(start, end), NoFaults().fails));
    assert whole[r] >= 1 && multiset(BackfillOutput(table, [symbol], cols, lib, ws, NoFaults()))[r] == 0;
    WrittenSomewhere(start, end, step, r.ts);
    AtLeastOne(Multiplicity(start, end, step, r.ts), whole[r]);
    DifferAt(table, [symbol], cols, lib, start, end, step, r);
  }

  lemma WrittenSomewhere(start: int, end: int, step: int, t: int)
    requires step > 0 && step % SECOND == 0 && start % SECOND == 0 && start < end
    ensures Multiplicity(start, end, step, t) >= 1
  {
    hide Interior, InGap;
    NoGapOnWholeSeconds(start, end, step, t);
  }

  lemma AtLeastOne(a: nat, b: nat)
    requires a >= 1 && b >= 1
    ensures a * b >= 1
  {
  }

  lemma DifferAt(table: Table, symbols: seq<string>, cols: set<Column>, lib: Lib, start: int, end: int, step: int,
                 r: FeatureRow)
    requires step > 0
    requires multiset(BackfillOutput(table, symbols, cols, lib, Windows(start, end, step), NoFaults()))[r]
             != Multiplicity(start, end, step, r.ts)
                * multiset(RunOutput(table, symbols, cols, lib, Window(start, end), NoFaults().fails))[r]
    ensures !Agrees(table, symbols, cols, lib, start, end, step)
  {
    hide BackfillOutput, RunOutput, Multiplicity, Windows;
  }

  /** What a run writes of a single column for a row its frame raw[lo..hi] holds. */
  lemma SingleRow(raw: seq<Row>, c: Column, lib: Lib, w: Window, g: nat, lo: nat, hi: nat)
    requires g < |raw| && InWindow(w, raw[g].ts) && lo == Lo(raw, w) <= g < hi == Hi(raw, w)
    ensures var cell := ColumnOf(c, raw[lo..hi], lib)[g - lo];
            RowAt(raw, "a", {c}, lib, w, g) == if cell.NaN? then None else Some(OneCell("a", raw[g].ts, c, cell))
  {
    hide ColumnOf, Lo, Hi;
    var cols: set<Column> := {c};
    var cells := map k | k in cols :: ColumnOf(k, raw[lo..hi], lib)[g - lo];
    assert cells == map[c := ColumnOf(c, raw[lo..hi], lib)[g - lo]];
    assert Complete(cells) <==> !cells[c].NaN?;
  }

  // ----- columns that read ahead -----

  /** A value of 1 up to row `lag` and of 2 after it, up to row `horizon`; the second ones come later. */
  function Rising(col: string, lag: nat, horizon: nat, first: int, later: int): (raw: seq<Row>)
    requires lag < horizon
    ensures |raw| == horizon + 1
  {
    seq(horizon + 1, i requires 0 <= i <= horizon =>
      if i <= lag then Row(first, map[col := 1.0]) else Row(later, map[col := 2.0]))
  }

  predicate IsTarget(c: Column) {
    c.TargetReturn? || c.TargetValue? || c.TargetDirection?
  }

  /** With all rows there the lagged target of the first row is known, without the second ones missing. */
  lemma RisingTarget(c: Column, lib: Lib, first: int, later: int)
    requires Ahead(c) > 0
    ensures IsTarget(Inner(c)) && Inner(c).horizon == Ahead(c) + Delay(c)
    ensures var raw := Rising(Inner(c).col, Delay(c), Inner(c).horizon, first, later);
            var cell := ColumnOf(c, raw, lib)[Delay(c)];
            && cell.Num? && cell != Missing(Inner(c))
            && ColumnOf(c, raw[..Delay(c) + 1], lib)[Delay(c)] == Missing(Inner(c))
            && AllMissing(ColumnOf(c, raw[..Delay(c) + 1], lib), Delay(c))
  {
    hide ColumnOf, Rising;
    InnerIsTarget(c);
    var d, lag, h := Inner(c), Delay(c), Inner(c).horizon;
    var raw := Rising(d.col, lag, h, first, later);
    LagsAdd(c, raw, lib, lag);
    LagsAdd(c, raw[..lag + 1], lib, lag);
    RisingCell(d, lib, lag, first, later);
    NoLookAhead(d, raw, lag + 1, lib, 0);
    var part := ColumnOf(c, raw[..lag + 1], lib);
    forall k | 0 <= k < lag ensures part[k].NaN? {
      LagsAdd(c, raw[..lag + 1], lib, k);
    }
  }

  predicate AllMissing(s: seq<Cell>, n: nat)
    requires n <= |s|
  {
    forall k :: 0 <= k < n ==> s[k].NaN?
  }

  lemma RisingCell(d: Column, lib: Lib, lag: nat, first: int, later: int)
    requires IsTarget(d) && lag < d.horizon
    ensures var cell := ColumnOf(d, Rising(d.col, lag, d.horizon, first, later), lib)[0];
            cell.Num? && cell != Missing(d)
  {
    hide ColumnOf;
    var raw, h := Rising(d.col, lag, d.horizon, first, later), d.horizon;
    TargetReadsTwoRows(raw, d.col, h, lib, 0);
    assert Values(raw, d.col)[0] == Num(1.0) && Values(raw, d.col)[h] == Num(2.0);
  }

  /** The first chunk ends before the rows a target of its last rows reads. */
  lemma TargetsDisagree(c: Column, lib: Lib, start: int, end: int, step: int)
    requires Ahead(c) > 0
    requires step >= DAY && step % SECOND == 0 && start % SECOND == 0 && start + step < Trunc(end)
    ensures IsTarget(Inner(c)) && Inner(c).horizon > Delay(c)
    ensures var e := start + step;
            var raw := Rising(Inner(c).col, Delay(c), Inner(c).horizon, e - SECOND, e + SECOND);
            Sorted(raw) && !Agrees(map["a" := raw], ["a"], {c}, lib, start, end, step)
  {
    hide ColumnOf, Trunc, RowAt, Lo, Hi, InWindow, Rising, AllMissing, Agrees, Windows;
    var e, lag, whole := start + step, Delay(c), Window(start, end);
    TruncBounds(end);
    RisingTarget(c, lib, e - SECOND, e + SECOND);
    var raw := Rising(Inner(c).col, lag, Inner(c).horizon, e - SECOND, e + SECOND);
    RisingShape(Inner(c).col, lag, Inner(c).horizon, e - SECOND, e + SECOND);
    RisingLoads(raw, lag, start, e, end);
    assert raw[0..|raw|] == raw;
    SingleRow(raw, c, lib, whole, lag, 0, |raw|);
    var r := OneCell("a", e - SECOND, c, ColumnOf(c, raw, lib)[lag]);
    RiseUnwritten(raw, c, lib, start, end, step, r, lag);
    Disagree(raw, "a", {c}, lib, start, end, step, r, lag);
  }

  lemma RisingShape(col: string, lag: nat, horizon: nat, first: int, later: int)
    requires lag < horizon && first < later
    ensures var raw := Rising(col, lag, horizon, first, later);
            Sorted(raw) && forall i :: 0 <= i < |raw| ==> raw[i].ts == if i <= lag then first else later
  {
  }

  lemma RiseUnwritten(raw: seq<Row>, c: Column, lib: Lib, start: int, end: int, step: int, r: FeatureRow, lag: nat)
    requires step > 0 && start + step < end && lag < |raw|
    requires var w := Window(start, start + step);
             Lo(raw, w) == 0 && Hi(raw, w) == lag + 1 && forall i :: 0 <= i <= lag ==> InWindow(w, raw[i].ts)
    requires r.ts < start + step && forall i :: lag < i < |raw| ==> raw[i].ts != r.ts
    requires var part := ColumnOf(c, raw[..lag + 1], lib);
             AllMissing(part, lag) && c in r.cells && r.cells[c] != part[lag]
    ensures forall i, k :: 0 <= i < |Windows(start, end, step)| && 0 <= k < |raw| ==>
              RowAt(raw, "a", {c}, lib, Windows(start, end, step)[i], k) != Some(r)
  {
    hide ColumnOf, RowAt, Lo, Hi, InWindow, AllMissing, Windows;
    var ws := Windows(start, end, step);
    forall i, k | 0 <= i < |ws| && 0 <= k < |raw| ensures RowAt(raw, "a", {c}, lib, ws[i], k) != Some(r) {
      LaterChunks(start, end, step, i);
      if i > 0 {
        LaterMisses(raw, c, lib, ws[i], k, r, start + step);
      } else {
        FirstMisses(raw, c, lib, ws[0], k, r, lag);
      }
    }
  }

  lemma LaterMisses(raw: seq<Row>, c: Column, lib: Lib, w: Window, k: nat, r: FeatureRow, e: int)
    requires k < |raw| && r.ts < e <= w.start
    ensures RowAt(raw, "a", {c}, lib, w, k) != Some(r)
  {
    hide RowAt;
    RowAtTime(raw, "a", {c}, lib, w, k);
  }

  lemma FirstMisses(raw: seq<Row>, c: Column, lib: Lib, w: Window, k: nat, r: FeatureRow, lag: nat)
    requires k < |raw| && lag < |raw| && Lo(raw, w) == 0 && Hi(raw, w) == lag + 1
    requires forall i :: 0 <= i <= lag ==> InWindow(w, raw[i].ts)
    requires forall i :: lag < i < |raw| ==> raw[i].ts != r.ts
    requires var part := ColumnOf(c, raw[..lag + 1], lib);
             AllMissing(part, lag) && c in r.cells && r.cells[c] != part[lag]
    ensures RowAt(raw, "a", {c}, lib, w, k) != Some(r)
  {
    hide RowAt, ColumnOf, Lo, Hi, InWindow;
    RowAtTime(raw, "a", {c}, lib, w, k);
    if k <= lag {
      SingleRow(raw, c, lib, w, k, 0, lag + 1);
      assert raw[0..lag + 1] == raw[..lag + 1];
    }
  }

  /** One run loads every row, its first chunk those up to row `lag`. */
  lemma RisingLoads(raw: seq<Row>, lag: nat, start: int, e: int, end: int)
    requires lag + 1 < |raw| && start % SECOND == 0 && e % SECOND == 0 && start < e < Trunc(end)
    requires forall i :: 0 <= i < |raw| ==> raw[i].ts == if i <= lag then e - SECOND else e + SECOND
    ensures Lo(raw, Window(start, end)) == 0 && Hi(raw, Window(start, end)) == |raw|
    ensures Lo(raw, Window(start, e)) == 0 && Hi(raw, Window(start, e)) == lag + 1
    ensures forall i :: 0 <= i <= lag ==>
              InWindow(Window(start, end), raw[i].ts) && InWindow(Window(start, e), raw[i].ts)
  {
    hide Earlier;
    var n := |raw| - 1;
    TruncBounds(end);
    TruncBounds(start - LOOKBACK);
    WholeSecond(e);
    WholeApart(start, e);
    WholeApart(e, Trunc(end));
    EarlierIsPosition(raw, Trunc(start - LOOKBACK), 0);
    EarlierIsPosition(raw, Trunc(end) + 1, n);
    EarlierIsPosition(raw, Trunc(e) + 1, lag);
    EarlierIsPosition(raw, Trunc(e) + 1, lag + 1);
  }

  /** Different whole seconds are a second apart. */
  lemma WholeApart(a: int, b: int)
    requires a % SECOND == 0 && b % SECOND == 0 && a < b
    ensures a + SECOND <= b
  {
    var p, q := a / SECOND, b / SECOND;
    assert a == p * SECOND && b == q * SECOND;
  }

  // ----- exponential weights -----

  /** A value of 1 at the first row, then 0: `lag` rows later and one more after those. */
  function Falling(col: string, lag: nat, first: int, middle: int, last: int): (raw: seq<Row>)
    ensures |raw| == lag + 2
  {
    seq(lag + 2, i requires 0 <= i < lag + 2 =>
      if i == 0 then Row(first, map[col := 1.0]) else Row(if i <= lag then middle else last, map[col := 0.0]))
  }

  /** The lagged average at the last row remembers the first row if the frame holds it. */
  lemma FallingEwm(c: Column, lib: Lib, first: int, middle: int, last: int)
    requires Inner(c).Ewm? && Inner(c).span > 1
    ensures var raw, n := Falling(Inner(c).col, Delay(c), first, middle, last), Delay(c) + 1;
            && ColumnOf(c, raw, lib)[n] != Num(0.0) && !ColumnOf(c, raw, lib)[n].NaN?
            && ColumnOf(c, raw[1..], lib)[n - 1] == Num(0.0)
  {
    hide ColumnOf;
    var d, n := Inner(c), Delay(c) + 1;
    var raw := Falling(d.col, Delay(c), first, middle, last);
    LagsAdd(c, raw, lib, n);
    LagsAdd(c, raw[1..], lib, n - 1);
    EwmSurvivesCut(raw, d.col, d.span, lib, 1, 1);
    EwmFirst(raw, d.col, d.span, lib);
    EwmFirst(raw[1..], d.col, d.span, lib);
    EwmNumber(raw, d.col, d.span, lib, 1);
  }

  lemma EwmNumber(rows: seq<Row>, col: string, span: nat, lib: Lib, i: nat)
    requires span >= 1 && i < |rows|
    ensures ColumnOf(Ewm(col, span), rows, lib)[i].Num?
  {
    hide EwmSums, Decay, Values;
    EwmDenominator(Values(rows, col), Decay(span), i);
  }

  /** No later chunk loads the row that only the whole run's look-back reaches. */
  lemma WeightsDisagree(c: Column, lib: Lib, start: int, end: int, step: int)
    requires Inner(c).Ewm? && Inner(c).span > 1
    requires step >= DAY && step % SECOND == 0 && start % SECOND == 0 && start + step < Trunc(end)
    ensures var e := start + step;
            var raw := Falling(Inner(c).col, Delay(c), e - LOOKBACK - SECOND, e - SECOND, e + SECOND);
            Sorted(raw) && !Agrees(map["a" := raw], ["a"], {c}, lib, start, end, step)
  {
    hide ColumnOf, Trunc, RowAt, Lo, Hi, Earlier, InWindow, Falling, Agrees, Windows;
    var e, n, whole := start + step, Delay(c) + 1, Window(start, end);
    TruncBounds(end);
    FallingEwm(c, lib, e - LOOKBACK - SECOND, e - SECOND, e + SECOND);
    var raw := Falling(Inner(c).col, Delay(c), e - LOOKBACK - SECOND, e - SECOND, e + SECOND);
    FallingShape(Inner(c).col, Delay(c), e - LOOKBACK - SECOND, e - SECOND, e + SECOND);
    WholeLoads(raw, n, start, e, end);
    assert raw[0..|raw|] == raw;
    SingleRow(raw, c, lib, whole, n, 0, |raw|);
    var r := OneCell("a", e + SECOND, c, ColumnOf(c, raw, lib)[n]);
    FallUnwritten(raw, c, lib, start, end, step, r, n);
    Disagree(raw, "a", {c}, lib, start, end, step, r, n);
  }

  lemma FallingShape(col: string, lag: nat, first: int, middle: int, last: int)
    requires first < middle < last
    ensures var raw := Falling(col, lag, first, middle, last);
            && Sorted(raw) && raw[0].ts == first && raw[lag + 1].ts == last && raw[1].ts >= middle
            && forall i :: 0 <= i <= lag ==> raw[i].ts != last
  {
  }

  lemma FallUnwritten(raw: seq<Row>, c: Column, lib: Lib, start: int, end: int, step: int, r: FeatureRow, n: nat)
    requires step > 0 && (start + step) % SECOND == 0 && start + step < end
    requires var e := start + step;
             && |raw| == n + 1 && n >= 1 && Sorted(raw) && raw[0].ts == e - LOOKBACK - SECOND
             && raw[n].ts == e + SECOND == r.ts && raw[1].ts >= e - SECOND
             && forall i :: 0 <= i < n ==> raw[i].ts != e + SECOND
    requires c in r.cells && r.cells[c] != ColumnOf(c, raw[1..], lib)[n - 1]
    ensures forall i, k :: 0 <= i < |Windows(start, end, step)| && 0 <= k < |raw| ==>
              RowAt(raw, "a", {c}, lib, Windows(start, end, step)[i], k) != Some(r)
  {
    hide ColumnOf, RowAt, Windows, Sorted;
    var ws := Windows(start, end, step);
    forall i, k | 0 <= i < |ws| && 0 <= k < |raw| ensures RowAt(raw, "a", {c}, lib, ws[i], k) != Some(r) {
      LaterChunks(start, end, step, i);
      if i == 0 {
        EndsBefore(raw, c, lib, ws[0], k, r);
      } else {
        ChunkForgets(raw, c, lib, ws[i], n, k, r, start + step);
      }
    }
  }

  lemma EndsBefore(raw: seq<Row>, c: Column, lib: Lib, w: Window, k: nat, r: FeatureRow)
    requires k < |raw| && w.end < r.ts
    ensures RowAt(raw, "a", {c}, lib, w, k) != Some(r)
  {
    hide RowAt;
    TruncBounds(w.end);
    RowAtTime(raw, "a", {c}, lib, w, k);
  }

  lemma ChunkForgets(raw: seq<Row>, c: Column, lib: Lib, w: Window, n: nat, k: nat, r: FeatureRow, e: int)
    requires |raw| == n + 1 && n >= 1 && k < |raw| && e % SECOND == 0 && w.start >= e && Sorted(raw)
    requires raw[0].ts == e - LOOKBACK - SECOND && raw[n].ts == e + SECOND && raw[1].ts >= e - SECOND
    requires forall i :: 0 <= i < n ==> raw[i].ts != e + SECOND
    requires r.ts == e + SECOND && c in r.cells && r.cells[c] != ColumnOf(c, raw[1..], lib)[n - 1]
    ensures RowAt(raw, "a", {c}, lib, w, k) != Some(r)
  {
    hide RowAt, ColumnOf, Lo, Hi, InWindow, Earlier;
    RowAtTime(raw, "a", {c}, lib, w, k);
    if k == n && InWindow(w, e + SECOND) {
      ChunkLoads(raw, n, w, e);
      assert raw[1..|raw|] == raw[1..];
      SingleRow(raw, c, lib, w, n, 1, |raw|);
    }
  }

  lemma WholeLoads(raw: seq<Row>, n: nat, start: int, e: int, end: int)
    requires |raw| == n + 1 && start % SECOND == 0 && e % SECOND == 0 && start + DAY <= e < Trunc(end) && Sorted(raw)
    requires raw[0].ts == e - LOOKBACK - SECOND && raw[n].ts == e + SECOND
    ensures Lo(raw, Window(start, end)) == 0 && Hi(raw, Window(start, end)) == |raw|
    ensures InWindow(Window(start, end), e + SECOND)
  {
    hide Earlier;
    TruncBounds(end);
    TruncBounds(start - LOOKBACK);
    WholeApart(e, Trunc(end));
    EarlierIsPosition(raw, Trunc(start - LOOKBACK), 0);
    EarlierIsPosition(raw, Trunc(end) + 1, n);
  }

  lemma ChunkLoads(raw: seq<Row>, n: nat, w: Window, e: int)
    requires |raw| == n + 1 && n >= 1 && e % SECOND == 0 && w.start >= e && Sorted(raw) && InWindow(w, e + SECOND)
    requires raw[0].ts == e - LOOKBACK - SECOND && raw[n].ts == e + SECOND && raw[1].ts >= e - SECOND
    ensures Lo(raw, w) == 1 && Hi(raw, w) == |raw|
  {
    hide Earlier;
    TruncBounds(w.start - LOOKBACK);
    TruncBounds(w.end);
    EarlierIsPosition(raw, Trunc(w.start - LOOKBACK), 0);
    EarlierIsPosition(raw, Trunc(w.start - LOOKBACK), 1);
    EarlierIsPosition(raw, Trunc(w.end) + 1, n);
  }

  // ----- the exact condition on a column -----

  /** Over a range that reaches a whole second past its first chunk, a column is written by the
      chunked backfill as by one run, for every table whose windows fit the lookback, exactly when
      it is trailing: no target ahead of its row, no exponential weights of a span above 1, and no lag
      of such that leaves it so. */
  lemma ChunkSafeExactly(c: Column, lib: Lib, start: int, end: int, chunkDays: int)
    requires Inner(c).Ewm? ==> Inner(c).span >= 1
    requires chunkDays > 0 && start % SECOND == 0 && start + chunkDays * DAY < Trunc(end)
    ensures chunkDays * DAY > 0
    ensures (forall table: Table, symbols: seq<string> | Suited(table, {c}, Window(start, end)) ::
               Agrees(table, symbols, {c}, lib, start, end, chunkDays * DAY))
            <==> Trailing(c)
  {
    hide BackfillOutput, RunOutput, Interior, Trunc, SpanFits, Agrees;
    WholeDays(chunkDays);
    AtLeastADay(chunkDays);
    TruncBounds(end);
    var step, whole := chunkDays * DAY, Window(start, end);
    var e := start + step;
    LagReads(c);
    if Trailing(c) {
      forall table: Table, symbols: seq<string> | Suited(table, {c}, whole)
        ensures Agrees(table, symbols, {c}, lib, start, end, step)
      {
        TrailingAgrees(table, symbols, c, lib, start, end, chunkDays);
      }
    } else if Ahead(c) > 0 {
      TargetsDisagree(c, lib, start, end, step);
      var raw := Rising(Inner(c).col, Delay(c), Inner(c).horizon, e - SECOND, e + SECOND);
      RisingFits(c, whole, e - SECOND, e + SECOND);
      assert Suited(map["a" := raw], {c}, whole);
    } else {
      WeightsDisagree(c, lib, start, end, step);
      var raw := Falling(Inner(c).col, Delay(c), e - LOOKBACK - SECOND, e - SECOND, e + SECOND);
      FallingFits(c, whole, e);
      assert Suited(map["a" := raw], {c}, whole);
    }
  }

  lemma AtLeastADay(days: int)
    requires days > 0
    ensures days * DAY >= DAY
  {
  }

  lemma TrailingAgrees(table: Table, symbols: seq<string>, c: Column, lib: Lib, start: int, end: int, chunkDays: int)
    requires chunkDays > 0 && start % SECOND == 0 && start < end
    requires Trailing(c) && Suited(table, {c}, Window(start, end))
    ensures chunkDays * DAY > 0
    ensures Agrees(table, symbols, {c}, lib, start, end, chunkDays * DAY)
  {
    hide BackfillOutput, RunOutput, Multiplicity, SpanFits;
    WholeDays(chunkDays);
    forall r: FeatureRow
      ensures multiset(BackfillOutput(table, symbols, {c}, lib, Windows(start, end, chunkDays * DAY), NoFaults()))[r]
           == Multiplicity(start, end, chunkDays * DAY, r.ts)
              * multiset(RunOutput(table, symbols, {c}, lib, Window(start, end), NoFaults().fails))[r]
    {
      ChunkedExactly(table, symbols, {c}, lib, start, end, chunkDays, NoFaults(), r);
    }
  }

  lemma RisingFits(c: Column, whole: Window, first: int, later: int)
    requires Ahead(c) > 0 && first <= later <= first + LOOKBACK
    ensures IsTarget(Inner(c)) && Inner(c).horizon > Delay(c)
    ensures SpanFits(Rising(Inner(c).col, Delay(c), Inner(c).horizon, first, later), c, whole)
  {
    InnerIsTarget(c);
  }

  lemma FallingFits(c: Column, whole: Window, e: int)
    requires Inner(c).Ewm?
    ensures SpanFits(Falling(Inner(c).col, Delay(c), e - LOOKBACK - SECOND, e - SECOND, e + SECOND), c, whole)
  {
    LagReads(c);
  }

  // ----- the exact condition on a table -----

  predicate StrictlySorted(raw: seq<Row>) {
    forall i, j :: 0 <= i < j < |raw| ==> raw[i].ts < raw[j].ts
  }

  predicate Distinct(symbols: seq<string>) {
    forall i, j :: 0 <= i < j < |symbols| ==> symbols[i] != symbols[j]
  }

  /** One run drops the row, or the chunk's frame holds what each written cell reads, cells that read
      as missing anyway aside. */
  predicate WrittenAlike(raw: seq<Row>, symbol: string, cols: set<Column>, lib: Lib, w: Window, whole: Window, g: nat)
    requires g < |raw|
  {
    var all := RowAt(raw, symbol, cols, lib, whole, g);
    all.Some? ==>
      && all.value.cells.Keys == cols
      && forall c :: c in cols ==> Held(raw, c, w, g) || all.value.cells[c] == Missing(c)
  }

  /** So it is for every row of every chunk. */
  predicate AllWrittenAlike(table: Table, symbols: seq<string>, cols: set<Column>, lib: Lib, ws: seq<Window>,
                            whole: Window)
  {
    forall i, s, g ::
      0 <= i < |ws| && s in symbols && 0 <= g < |RawOf(table, s)| && InWindow(ws[i], RawOf(table, s)[g].ts) ==>
      WrittenAlike(RawOf(table, s), s, cols, lib, ws[i], whole, g)
  }

  /** Any set of finite columns: chunks and one run agree when the chunks hold what the run's rows read. */
  lemma AlikeAgrees(table: Table, symbols: seq<string>, cols: set<Column>, lib: Lib, start: int, end: int, step: int)
    requires step > 0 && step % SECOND == 0 && AllSorted(table) && forall c :: c in cols ==> Finite(c)
    requires AllWrittenAlike(table, symbols, cols, lib, Windows(start, end, step), Window(start, end))
    ensures Agrees(table, symbols, cols, lib, start, end, step)
  {
    hide BackfillOutput, RunOutput, Multiplicity, RowAt, InWindow, Held, Finite;
    var ws, whole := Windows(start, end, step), Window(start, end);
    WindowsAreChunks(start, end, step, start);
    forall i, s | 0 <= i < |ws| && s in symbols ensures SameRows(RawOf(table, s), s, cols, lib, ws[i], whole) {
      var raw := RawOf(table, s);
      forall g | 0 <= g < |raw| && InWindow(ws[i], raw[g].ts)
        ensures RowAt(raw, s, cols, lib, ws[i], g) == RowAt(raw, s, cols, lib, whole, g)
      {
        assert WrittenAlike(raw, s, cols, lib, ws[i], whole, g);
        ChunkRowDiffersExactly(raw, s, cols, lib, ws[i], whole, g);
      }
    }
    forall r: FeatureRow
      ensures multiset(BackfillOutput(table, symbols, cols, lib, ws, NoFaults()))[r]
           == Multiplicity(start, end, step, r.ts)
               * multiset(RunOutput(table, symbols, cols, lib, whole, NoFaults().fails))[r]
    {
      AlikeChunks(table, symbols, cols, lib, start, end, step, NoFaults(), r);
    }
  }

  /** Without ties a symbol's row is written at most once by a run. */
  lemma {:induction false} OutputOnce(raw: seq<Row>, symbol: string, cols: set<Column>, lib: Lib, w: Window, n: nat,
                                      r: FeatureRow, g: nat)
    requires StrictlySorted(raw) && n <= |raw| && g < |raw| && raw[g].ts == r.ts
    ensures multiset(Output(raw, symbol, cols, lib, w, n))[r]
         == if g < n && RowAt(raw, symbol, cols, lib, w, g) == Some(r) then 1 else 0
  {
    hide RowAt, AsSeq;
    if n > 0 {
      OutputOnce(raw, symbol, cols, lib, w, n - 1, r, g);
      CountAppend(Output(raw, symbol, cols, lib, w, n - 1), RowAt(raw, symbol, cols, lib, w, n - 1), r);
      RowAtTime(raw, symbol, cols, lib, w, n - 1);
    }
  }

  lemma OtherSymbol(raw: seq<Row>, symbol: string, cols: set<Column>, lib: Lib, w: Window, r: FeatureRow)
    requires r.symbol != symbol
    ensures r !in Output(raw, symbol, cols, lib, w, |raw|)
  {
    hide RowAt;
    OutputFrom(raw, symbol, cols, lib, w, |raw|, r);
    forall g: nat | g < |raw| ensures RowAt(raw, symbol, cols, lib, w, g) != Some(r) {
      RowAtTime(raw, symbol, cols, lib, w, g);
    }
  }

  lemma {:induction false} RunOnce(table: Table, symbols: seq<string>, cols: set<Column>, lib: Lib, w: Window,
                                   r: FeatureRow, g: nat)
    requires Distinct(symbols) && StrictlySorted(RawOf(table, r.symbol))
    requires g < |RawOf(table, r.symbol)| && RawOf(table, r.symbol)[g].ts == r.ts
    ensures multiset(RunOutput(table, symbols, cols, lib, w, NoFaults().fails))[r]
         == if r.symbol in symbols && RowAt(RawOf(table, r.symbol), r.symbol, cols, lib, w, g) == Some(r) then 1 else 0
  {
    hide RowAt, Output;
    if symbols != [] {
      var before, s := symbols[..|symbols| - 1], symbols[|symbols| - 1];
      RunOnce(table, before, cols, lib, w, r, g);
      assert symbols == before + [s];
      if s == r.symbol {
        assert s !in before;
        OutputOnce(RawOf(table, s), s, cols, lib, w, |RawOf(table, s)|, r, g);
      } else {
        OtherSymbol(RawOf(table, s), s, cols, lib, w, r);
      }
    }
  }

  /** So the chunks write it at most once for each that holds its time, and less often if one of them
      does not. */
  lemma {:induction false} ChunksBelow(table: Table, symbols: seq<string>, cols: set<Column>, lib: Lib,
                                       ws: seq<Window>, r: FeatureRow, g: nat)
    requires Distinct(symbols) && StrictlySorted(RawOf(table, r.symbol))
    requires g < |RawOf(table, r.symbol)| && RawOf(table, r.symbol)[g].ts == r.ts
    ensures multiset(BackfillOutput(table, symbols, cols, lib, ws, NoFaults()))[r] <= Copies(ws, r.ts)
    ensures (exists i ::
               0 <= i < |ws| && InWindow(ws[i], r.ts)
               && RowAt(RawOf(table, r.symbol), r.symbol, cols, lib, ws[i], g) != Some(r)) ==>
              multiset(BackfillOutput(table, symbols, cols, lib, ws, NoFaults()))[r] < Copies(ws, r.ts)
  {
    hide RowAt, RunOutput, InWindow;
    if ws != [] {
      ChunksBelow(table, symbols, cols, lib, ws[1..], r, g);
      RunOnce(table, symbols, cols, lib, ws[0], r, g);
      RowAtTime(RawOf(table, r.symbol), r.symbol, cols, lib, ws[0], g);
      assert ChunkOutput(table, symbols, cols, lib, ws[0], NoFaults())
          == RunOutput(table, symbols, cols, lib, ws[0], NoFaults().fails);
      var raw := RawOf(table, r.symbol);
      if exists i :: 0 < i < |ws| && InWindow(ws[i], r.ts) && RowAt(raw, r.symbol, cols, lib, ws[i], g) != Some(r) {
        var i :| 0 < i < |ws| && InWindow(ws[i], r.ts) && RowAt(raw, r.symbol, cols, lib, ws[i], g) != Some(r);
        assert ws[1..][i - 1] == ws[i];
      }
    }
  }

  /** A row that some chunk does not write as one run does shows that they disagree. */
  lemma UnalikeDisagrees(table: Table, symbols: seq<string>, cols: set<Column>, lib: Lib, start: int, end: int,
                         step: int, i: nat, s: string, g: nat)
    requires step > 0 && step % SECOND == 0 && AllSorted(table) && forall c :: c in cols ==> Finite(c)
    requires Distinct(symbols) && s in symbols && StrictlySorted(RawOf(table, s)) && g < |RawOf(table, s)|
    requires var ws := Windows(start, end, step);
             && i < |ws| && InWindow(ws[i], RawOf(table, s)[g].ts)
             && !WrittenAlike(RawOf(table, s), s, cols, lib, ws[i], Window(start, end), g)
    ensures !Agrees(table, symbols, cols, lib, start, end, step)
  {
    hide BackfillOutput, RunOutput, RowAt, Held, Finite, Interior, InGap, Agrees;
    var ws, whole, raw := Windows(start, end, step), Window(start, end), RawOf(table, s);
    WindowsAreChunks(start, end, step, start);
    ChunkRowDiffersExactly(raw, s, cols, lib, ws[i], whole, g);
    var r := RowAt(raw, s, cols, lib, whole, g).value;
    RowAtTime(raw, s, cols, lib, whole, g);
    RunOnce(table, symbols, cols, lib, whole, r, g);
    ChunksBelow(table, symbols, cols, lib, ws, r, g);
    CopiesExactly(start, end, step, r.ts);
    assert multiset(BackfillOutput(table, symbols, cols, lib, ws, NoFaults()))[r] < Copies(ws, r.ts);
    DifferAt(table, symbols, cols, lib, start, end, step, r);
  }

  /** For any set of finite columns and any table without ties, the chunked backfill writes what one run
      over the range does exactly when each chunk's frame holds what the run's rows in it read. */
  lemma AgreesExactly(table: Table, symbols: seq<string>, cols: set<Column>, lib: Lib, start: int, end: int, step: int)
    requires step > 0 && step % SECOND == 0 && forall c :: c in cols ==> Finite(c)
    requires Distinct(symbols) && forall s :: s in table ==> StrictlySorted(table[s])
    ensures Agrees(table, symbols, cols, lib, start, end, step)
            <==> AllWrittenAlike(table, symbols, cols, lib, Windows(start, end, step), Window(start, end))
  {
    hide Agrees, WrittenAlike, Finite, InWindow;
    var ws, whole := Windows(start, end, step), Window(start, end);
    if AllWrittenAlike(table, symbols, cols, lib, ws, whole) {
      AlikeAgrees(table, symbols, cols, lib, start, end, step);
    } else {
      var i, s, g :| 0 <= i < |ws| && s in symbols && 0 <= g < |RawOf(table, s)|
          && InWindow(ws[i], RawOf(table, s)[g].ts)
                     && !WrittenAlike(RawOf(table, s), s, cols, lib, ws[i], whole, g);
      UnalikeDisagrees(table, symbols, cols, lib, start, end, step, i, s, g);
    }
  }
}
