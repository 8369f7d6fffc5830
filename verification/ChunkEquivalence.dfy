/** Chunked backfill against one big run: which rows, which values, and how many copies. */
module ChunkEquivalence {
  import opened Series
  import opened Frames
  import opened Tiling
  import opened Transformers
  import opened Backfill

  // ----- values: what a row's cells are in a chunk -----

  /** For the rows of the range, the rows a column reads before its own row span no more than the
      lookback. */
  predicate SpanFits(raw: seq<Row>, c: Column, whole: Window) {
    forall g :: Back(c) <= g < |raw| && InWindow(whole, raw[g].ts) ==> raw[g].ts - raw[g - Back(c)].ts <= LOOKBACK
  }

  predicate Trailing(c: Column) {
    Finite(c) && Ahead(c) == 0
  }

  /** `w` is one chunk of the range of `whole`. */
  predicate ChunkOf(w: Window, whole: Window) {
    whole.start <= w.start <= w.end <= whole.end
  }

  lemma TruncMonotone(a: int, b: int)
    requires a <= b
    ensures Trunc(a) <= Trunc(b)
  {
    var qa, qb := a / SECOND, b / SECOND;
    assert a == SECOND * qa + a % SECOND && b == SECOND * qb + b % SECOND;
    assert qa <= qb;
  }

  lemma ChunkLoadsLess(raw: seq<Row>, w: Window, whole: Window)
    requires ChunkOf(w, whole)
    ensures Lo(raw, whole) <= Lo(raw, w)
  {
    TruncMonotone(whole.start - LOOKBACK, w.start - LOOKBACK);
    EarlierMonotone(raw, Trunc(whole.start - LOOKBACK), Trunc(w.start - LOOKBACK));
  }

  lemma ChunkWindow(w: Window, whole: Window, t: int)
    requires ChunkOf(w, whole) && InWindow(w, t)
    ensures InWindow(whole, t)
  {
    TruncMonotone(w.end, whole.end);
  }

  /** A trailing column whose window fits the lookback has the same cell in the chunk's frame as
      in the whole run's. */
  lemma SameCell(raw: seq<Row>, c: Column, lib: Lib, w: Window, whole: Window, g: nat)
    requires Sorted(raw) && ChunkOf(w, whole) && g < |raw| && InWindow(w, raw[g].ts)
    requires Trailing(c) && SpanFits(raw, c, whole)
    ensures Lo(raw, w) <= g < Hi(raw, w) && Lo(raw, whole) <= g < Hi(raw, whole)
    ensures ColumnOf(c, raw[Lo(raw, w)..Hi(raw, w)], lib)[g - Lo(raw, w)]
         == ColumnOf(c, raw[Lo(raw, whole)..Hi(raw, whole)], lib)[g - Lo(raw, whole)]
  {
    hide ColumnOf, Lo, Hi, Trunc;
    ChunkWindow(w, whole, raw[g].ts);
    InWindowIsLoaded(raw, w, g);
    InWindowIsLoaded(raw, whole, g);
    ChunkLoadsLess(raw, w, whole);
    CellOnCut(c, raw, Lo(raw, w), Hi(raw, w), lib, g);
    CellOnCut(c, raw, Lo(raw, whole), Hi(raw, whole), lib, g);
    if g - Back(c) >= Lo(raw, whole) {
      WindowLoaded(raw, c, w, whole, g);
    }
  }

  lemma WindowLoaded(raw: seq<Row>, c: Column, w: Window, whole: Window, g: nat)
    requires Sorted(raw) && Back(c) <= g < |raw| && InWindow(w, raw[g].ts) && InWindow(whole, raw[g].ts)
    requires SpanFits(raw, c, whole)
    ensures g - Back(c) >= Lo(raw, w)
  {
    hide Back;
    TruncBounds(w.start - LOOKBACK);
    EarlierIsPosition(raw, Trunc(w.start - LOOKBACK), g - Back(c));
  }

  /** The chunk writes each row of its range as the whole run does. */
  predicate SameRows(raw: seq<Row>, symbol: string, cols: set<Column>, lib: Lib, w: Window, whole: Window) {
    forall g :: 0 <= g < |raw| && InWindow(w, raw[g].ts) ==>
      RowAt(raw, symbol, cols, lib, w, g) == RowAt(raw, symbol, cols, lib, whole, g)
  }

  /** So the written row is the same. */
  lemma SameRow(raw: seq<Row>, symbol: string, cols: set<Column>, lib: Lib, w: Window, whole: Window, g: nat)
    requires Sorted(raw) && ChunkOf(w, whole) && g < |raw| && InWindow(w, raw[g].ts)
    requires forall c :: c in cols ==> Trailing(c) && SpanFits(raw, c, whole)
    ensures RowAt(raw, symbol, cols, lib, w, g) == RowAt(raw, symbol, cols, lib, whole, g)
  {
    hide ColumnOf, Lo, Hi, Back, Trunc, SpanFits;
    ChunkWindow(w, whole, raw[g].ts);
    InWindowIsLoaded(raw, w, g);
    InWindowIsLoaded(raw, whole, g);
    var lo, a := Lo(raw, w), raw[Lo(raw, w)..Hi(raw, w)];
    var lo', b := Lo(raw, whole), raw[Lo(raw, whole)..Hi(raw, whole)];
    forall c | c in cols ensures ColumnOf(c, a, lib)[g - lo] == ColumnOf(c, b, lib)[g - lo'] {
      SameCell(raw, c, lib, w, whole, g);
    }
    assert (map c | c in cols :: ColumnOf(c, a, lib)[g - lo]) == (map c | c in cols :: ColumnOf(c, b, lib)[g - lo']);
  }

  /** The run's frame holds every row the column reads for row g. */
  predicate Held(raw: seq<Row>, c: Column, w: Window, g: nat) {
    Lo(raw, w) <= g - Back(c) && g + Ahead(c) < Hi(raw, w)
  }

  /** The cell a run over the window computes for row g: the whole table's, or a missing one. */
  function HeldCell(raw: seq<Row>, c: Column, lib: Lib, w: Window, g: nat): Cell
    requires g < |raw|
  {
    if Held(raw, c, w, g) then ColumnOf(c, raw, lib)[g] else Missing(c)
  }

  /** With no condition on the windows of the columns or on the rows they read ahead: what a run
      writes for a row of its range is decided cell by cell by which rows its frame holds. */
  lemma ChunkRowExactly(raw: seq<Row>, symbol: string, cols: set<Column>, lib: Lib, w: Window, g: nat)
    requires Sorted(raw) && g < |raw| && InWindow(w, raw[g].ts)
    requires forall c :: c in cols ==> Finite(c)
    ensures var cells := map c | c in cols :: HeldCell(raw, c, lib, w, g);
            RowAt(raw, symbol, cols, lib, w, g) == if Complete(cells) then Some(FeatureRow(symbol, raw[g].ts, cells))
                else None
  {
    hide ColumnOf, Lo, Hi, Trunc;
    InWindowIsLoaded(raw, w, g);
    var frame := raw[Lo(raw, w)..Hi(raw, w)];
    forall c | c in cols ensures ColumnOf(c, frame, lib)[g - Lo(raw, w)] == HeldCell(raw, c, lib, w, g) {
      CellOnCut(c, raw, Lo(raw, w), Hi(raw, w), lib, g);
    }
    assert (map c | c in cols :: ColumnOf(c, frame, lib)[g - Lo(raw, w)])
        == map c | c in cols :: HeldCell(raw, c, lib, w, g);
  }

  /** With trailing columns alone: a chunk drops exactly the rows of which some window starts before
      its loaded frame, and writes every other row of its range as the whole table would have it. */
  lemma TrailingRowExactly(raw: seq<Row>, symbol: string, cols: set<Column>, lib: Lib, w: Window, g: nat)
    requires Sorted(raw) && g < |raw| && InWindow(w, raw[g].ts)
    requires forall c :: c in cols ==> Trailing(c)
    ensures var cells := map c | c in cols :: ColumnOf(c, raw, lib)[g];
            RowAt(raw, symbol, cols, lib, w, g)
            == if (exists c :: c in cols && g - Back(c) < Lo(raw, w)) || !Complete(cells) then None
               else Some(FeatureRow(symbol, raw[g].ts, cells))
  {
    hide ColumnOf, Lo, Hi, Trunc, RowAt;
    ChunkRowExactly(raw, symbol, cols, lib, w, g);
    InWindowIsLoaded(raw, w, g);
    var held := map c | c in cols :: HeldCell(raw, c, lib, w, g);
    if exists c :: c in cols && g - Back(c) < Lo(raw, w) {
      var c :| c in cols && g - Back(c) < Lo(raw, w);
      assert held[c].NaN?;
    } else {
      assert held == map c | c in cols :: ColumnOf(c, raw, lib)[g];
    }
  }

  /** A chunk's frame holds no more than the whole run's. */
  lemma HeldByWhole(raw: seq<Row>, c: Column, w: Window, whole: Window, g: nat)
    requires Sorted(raw) && ChunkOf(w, whole) && g < |raw| && InWindow(w, raw[g].ts) && Held(raw, c, w, g)
    ensures Held(raw, c, whole, g)
  {
    hide Back, Ahead, Earlier;
    ChunkLoadsLess(raw, w, whole);
    InWindowIsLoaded(raw, w, g);
    TruncMonotone(w.end, whole.end);
    EarlierMonotone(raw, Trunc(w.end) + 1, Trunc(whole.end) + 1);
  }

  /** A chunk writes a row of its range as the whole run does exactly when the whole run drops it or
      the chunk's frame holds what each written cell reads, cells that read as missing anyway aside.
      Otherwise the chunk drops the row, unless it cuts off direction targets alone, which then
      read 0. */
  lemma ChunkRowDiffersExactly(raw: seq<Row>, symbol: string, cols: set<Column>, lib: Lib, w: Window, whole: Window,
                               g: nat)
    requires Sorted(raw) && ChunkOf(w, whole) && g < |raw| && InWindow(w, raw[g].ts)
    requires forall c :: c in cols ==> Finite(c)
    ensures var mine, all := RowAt(raw, symbol, cols, lib, w, g), RowAt(raw, symbol, cols, lib, whole, g);
            && (all.Some? ==> all.value.cells.Keys == cols)
            && (mine == all
                <==> all.None? || forall c :: c in cols ==> Held(raw, c, w, g) || all.value.cells[c] == Missing(c))
            && (mine != all ==> (mine.None? <==> exists c :: c in cols && !Held(raw, c, w, g) && !c.TargetDirection?))
  {
    hide ColumnOf, Lo, Hi, Trunc, RowAt, Held;
    ChunkWindow(w, whole, raw[g].ts);
    ChunkRowExactly(raw, symbol, cols, lib, w, g);
    ChunkRowExactly(raw, symbol, cols, lib, whole, g);
    var a, b := map c | c in cols :: HeldCell(raw, c, lib, w, g), map c | c in cols :: HeldCell(raw, c, lib, whole, g);
    forall c | c in cols ensures a[c] == if Held(raw, c, w, g) then b[c] else Missing(c) {
      if Held(raw, c, w, g) { HeldByWhole(raw, c, w, whole, g); }
    }
    forall c | c in cols && c.TargetDirection? ensures !b[c].NaN? {
      DirectionAt(raw, c.col, c.horizon, lib, g);
    }
    CellsDiffer(cols, a, b, set c | c in cols && Held(raw, c, w, g));
  }

  /** Two cell maps, one of which misses the cells outside `held`. */
  lemma CellsDiffer(cols: set<Column>, mine: map<Column, Cell>, all: map<Column, Cell>, held: set<Column>)
    requires mine.Keys == all.Keys == cols
    requires forall c :: c in cols ==> mine[c] == if c in held then all[c] else Missing(c)
    requires forall c :: c in cols && c.TargetDirection? ==> !all[c].NaN?
    ensures !Complete(all) ==> !Complete(mine)
    ensures Complete(all) ==> (mine == all <==> forall c :: c in cols ==> c in held || all[c] == Missing(c))
    ensures Complete(all) && mine != all ==>
              (!Complete(mine) <==> exists c :: c in cols && c !in held && !c.TargetDirection?)
  {
    if Complete(all) {
      if forall c :: c in cols ==> c in held || all[c] == Missing(c) {
        assert mine == all;
      }
    }
  }

  /** A target column makes a chunk drop every row whose target lies beyond the chunk's frame,
      and the direction target there reads 0 whatever the value does next. */
  lemma TargetsEndWithTheChunk(raw: seq<Row>, symbol: string, cols: set<Column>, lib: Lib, w: Window, col: string,
                               h: nat, g: nat)
    requires Sorted(raw) && g < |raw| && InWindow(w, raw[g].ts) && g + h >= Hi(raw, w)
    ensures TargetReturn(col, h) in cols || TargetValue(col, h) in cols ==> RowAt(raw, symbol, cols, lib, w, g).None?
    ensures TargetDirection(col, h) in cols && RowAt(raw, symbol, cols, lib, w, g).Some? ==>
              RowAt(raw, symbol, cols, lib, w, g).value.cells[TargetDirection(col, h)] == Num(0.0)
  {
    hide ColumnOf, Lo, Hi, Trunc;
    InWindowIsLoaded(raw, w, g);
    var frame := raw[Lo(raw, w)..Hi(raw, w)];
    var cells := map c | c in cols :: ColumnOf(c, frame, lib)[g - Lo(raw, w)];
    CellOnCut(TargetReturn(col, h), raw, Lo(raw, w), Hi(raw, w), lib, g);
    CellOnCut(TargetValue(col, h), raw, Lo(raw, w), Hi(raw, w), lib, g);
    CellOnCut(TargetDirection(col, h), raw, Lo(raw, w), Hi(raw, w), lib, g);
    if TargetReturn(col, h) in cols { assert cells[TargetReturn(col, h)].NaN?; }
    if TargetValue(col, h) in cols { assert cells[TargetValue(col, h)].NaN?; }
  }

  // ----- copies: how often a row is written -----

  lemma RowAtTime(raw: seq<Row>, symbol: string, cols: set<Column>, lib: Lib, w: Window, g: nat)
    requires g < |raw|
    ensures RowAt(raw, symbol, cols, lib, w, g).Some? ==>
              var r := RowAt(raw, symbol, cols, lib, w, g).value;
              r.ts == raw[g].ts && r.symbol == symbol && InWindow(w, r.ts)
  {
    hide ColumnOf, Lo, Hi, Trunc;
  }

  lemma CountAppend<T>(s: seq<T>, o: Option<T>, x: T)
    ensures multiset(s + AsSeq(o))[x] == multiset(s)[x] + if o == Some(x) then 1 else 0
  {
  }

  /** One chunk writes a row as often as the whole run does when the row's time is in the chunk,
      and never otherwise. */
  lemma {:induction false} OutputCopies(raw: seq<Row>, symbol: string, cols: set<Column>, lib: Lib, w: Window,
                                        whole: Window, n: nat, r: FeatureRow)
    requires n <= |raw| && SameRows(raw, symbol, cols, lib, w, whole)
    ensures multiset(Output(raw, symbol, cols, lib, w, n))[r]
         == if InWindow(w, r.ts) then multiset(Output(raw, symbol, cols, lib, whole, n))[r] else 0
  {
    hide RowAt, InWindow, AsSeq;
    if n > 0 {
      OutputCopies(raw, symbol, cols, lib, w, whole, n - 1, r);
      CountAppend(Output(raw, symbol, cols, lib, w, n - 1), RowAt(raw, symbol, cols, lib, w, n - 1), r);
      CountAppend(Output(raw, symbol, cols, lib, whole, n - 1), RowAt(raw, symbol, cols, lib, whole, n - 1), r);
      RowAtTime(raw, symbol, cols, lib, w, n - 1);
      RowAtTime(raw, symbol, cols, lib, whole, n - 1);
    }
  }

  /** Tables in time order whose rows in the range span no more than the lookback. */
  ghost predicate Suited(table: Table, cols: set<Column>, whole: Window) {
    && AllSorted(table)
    && (forall s, c :: s in table && c in cols ==> SpanFits(table[s], c, whole))
  }

  /** And every written column is trailing. */
  ghost predicate AllFit(table: Table, cols: set<Column>, whole: Window) {
    Suited(table, cols, whole) && forall c :: c in cols ==> Trailing(c)
  }

  /** Under that condition every chunk writes its rows as the whole run does. */
  lemma FittingRows(table: Table, symbol: string, cols: set<Column>, lib: Lib, w: Window, whole: Window)
    requires AllFit(table, cols, whole) && ChunkOf(w, whole)
    ensures SameRows(RawOf(table, symbol), symbol, cols, lib, w, whole)
  {
    hide RowAt, SpanFits, Trailing, InWindow;
    var raw := RawOf(table, symbol);
    forall c | c in cols ensures Trailing(c) && SpanFits(raw, c, whole) {
      if symbol !in table { EmptyFits(c, whole); }
    }
    forall g | 0 <= g < |raw| && InWindow(w, raw[g].ts)
      ensures RowAt(raw, symbol, cols, lib, w, g) == RowAt(raw, symbol, cols, lib, whole, g)
    {
      SameRow(raw, symbol, cols, lib, w, whole, g);
    }
  }

  lemma {:induction false} RunCopies(table: Table, symbols: seq<string>, cols: set<Column>, lib: Lib, w: Window,
                                     whole: Window, fails: (string, Window) -> bool, r: FeatureRow)
    requires forall s :: s in symbols ==> SameRows(RawOf(table, s), s, cols, lib, w, whole)
    requires forall s: string, v: Window :: !fails(s, v)
    ensures multiset(RunOutput(table, symbols, cols, lib, w, fails))[r]
         == if InWindow(w, r.ts) then multiset(RunOutput(table, symbols, cols, lib, whole, fails))[r] else 0
  {
    hide Output, InWindow, SameRows;
    if symbols != [] {
      var s := symbols[|symbols| - 1];
      var raw := RawOf(table, s);
      RunCopies(table, symbols[..|symbols| - 1], cols, lib, w, whole, fails, r);
      OutputCopies(raw, s, cols, lib, w, whole, |raw|, r);
    }
  }

  lemma EmptyFits(c: Column, whole: Window)
    ensures SpanFits([], c, whole)
  {
  }

  /** How many windows hold t, as the job reads them: both ends inclusive, the end truncated. */
  function Copies(ws: seq<Window>, t: int): nat {
    if ws == [] then 0 else (if InWindow(ws[0], t) then 1 else 0) + Copies(ws[1..], t)
  }

  lemma {:induction false} BackfillCopies(table: Table, symbols: seq<string>, cols: set<Column>, lib: Lib,
                                          ws: seq<Window>, whole: Window, faults: Faults, r: FeatureRow)
    requires forall i, s :: 0 <= i < |ws| && s in symbols ==> SameRows(RawOf(table, s), s, cols, lib, ws[i], whole)
    requires faults.None()
    ensures multiset(BackfillOutput(table, symbols, cols, lib, ws, faults))[r]
         == Copies(ws, r.ts) * multiset(RunOutput(table, symbols, cols, lib, whole, faults.fails))[r]
  {
    hide RunOutput, InWindow, SameRows;
    if ws != [] {
      RunCopies(table, symbols, cols, lib, ws[0], whole, faults.fails, r);
      BackfillCopies(table, symbols, cols, lib, ws[1..], whole, faults, r);
      OneMoreCopy(Copies(ws[1..], r.ts), multiset(RunOutput(table, symbols, cols, lib, whole, faults.fails))[r]);
    }
  }

  lemma OneMoreCopy(k: nat, m: nat)
    ensures (1 + k) * m == m + k * m
  {
  }

  /** t is where one chunk ends and the next begins. */
  predicate Interior(start: int, end: int, step: int, t: int)
    requires step > 0
    decreases end - start
  {
    start < end &&
    var e := NextEnd(start, end, step);
    e < end && (t == e || Interior(e, end, step, t))
  }

  /** t falls in the sub-second gap before a chunk boundary, which no chunk's query reaches. */
  predicate InGap(start: int, end: int, step: int, t: int)
    requires step > 0
    decreases end - start
  {
    start < end &&
    var e := NextEnd(start, end, step);
    e < end && (Trunc(e) < t < e || InGap(e, end, step, t))
  }

  lemma {:induction false} InteriorAfter(start: int, end: int, step: int, t: int)
    requires step > 0
    ensures Interior(start, end, step, t) ==> start < t < end
    decreases end - start
  {
    if start < end { InteriorAfter(NextEnd(start, end, step), end, step, t); }
  }

  /** Chunk boundaries all share the start's sub-second part. */
  lemma {:induction false} InteriorFraction(start: int, end: int, step: int, t: int)
    requires step > 0 && step % SECOND == 0
    ensures Interior(start, end, step, t) ==> t % SECOND == start % SECOND
    decreases end - start
  {
    if start < end {
      var e := NextEnd(start, end, step);
      InteriorFraction(e, end, step, t);
      if e < end { AddWholeSeconds(start, step); }
    }
  }

  lemma AddWholeSeconds(t: int, step: int)
    requires step % SECOND == 0
    ensures (t + step) % SECOND == t % SECOND
    ensures Trunc(t + step) == Trunc(t) + step
  {
    var q, r := step / SECOND, t / SECOND;
    assert step == q * SECOND;
    assert t + step == (q + r) * SECOND + t % SECOND;
  }

  lemma {:induction false} GapAfter(start: int, end: int, step: int, t: int)
    requires step > 0 && step % SECOND == 0
    ensures InGap(start, end, step, t) ==> t > start
    decreases end - start
  {
    if start < end {
      var e := NextEnd(start, end, step);
      GapAfter(e, end, step, t);
      if e < end {
        AddWholeSeconds(start, step);
        TruncBounds(start);
        AtLeastASecond(step);
      }
    }
  }

  lemma AtLeastASecond(step: int)
    requires step > 0 && step % SECOND == 0
    ensures step >= SECOND
  {
  }

  /** How often the chunks hold an instant of the range: twice on a boundary that is a whole
      second, never in the gap before one that is not, and once anywhere else. */
  lemma {:induction false} CopiesExactly(start: int, end: int, step: int, t: int)
    requires step > 0 && step % SECOND == 0 && start < end
    requires start <= t <= Trunc(end)
    ensures Copies(Windows(start, end, step), t)
         == if InGap(start, end, step, t) then 0
            else if Interior(start, end, step, t) && t % SECOND == 0 then 2
            else 1
    decreases end - start
  {
    hide Trunc;
    var e := NextEnd(start, end, step);
    var ws := Windows(start, end, step);
    assert ws[0] == Window(start, e) && ws[1..] == Windows(e, end, step);
    TruncBounds(e);
    InteriorAfter(e, end, step, t);
    if e == end {
      assert ws[1..] == [];
    } else {
      GapAfter(e, end, step, t);
      WholeSecond(e);
      if t >= e {
        CopiesExactly(e, end, step, t);
        if t > e { assert !InWindow(ws[0], t); }
      } else {
        NoneBefore(e, end, step, t);
      }
    }
  }

  lemma WholeSecond(t: int)
    ensures Trunc(t) == t <==> t % SECOND == 0
  {
  }

  lemma {:induction false} NoneBefore(start: int, end: int, step: int, t: int)
    requires step > 0 && t < start
    ensures Copies(Windows(start, end, step), t) == 0
    decreases end - start
  {
    if start < end {
      var e := NextEnd(start, end, step);
      assert Windows(start, end, step)[1..] == Windows(e, end, step);
      NoneBefore(e, end, step, t);
    }
  }

  lemma {:induction false} NoGapOnWholeSeconds(start: int, end: int, step: int, t: int)
    requires step > 0 && step % SECOND == 0 && start % SECOND == 0
    ensures !InGap(start, end, step, t)
    decreases end - start
  {
    if start < end {
      var e := NextEnd(start, end, step);
      if e < end {
        AddWholeSeconds(start, step);
        WholeSecond(e);
        NoGapOnWholeSeconds(e, end, step, t);
      }
    }
  }

  lemma {:induction false} WindowsAreChunks(start: int, end: int, step: int, from: int)
    requires step > 0 && from <= start
    ensures forall i :: 0 <= i < |Windows(start, end, step)| ==>
              ChunkOf(Windows(start, end, step)[i], Window(from, end))
    decreases end - start
  {
    if start < end {
      var e := NextEnd(start, end, step);
      WindowsAreChunks(e, end, step, from);
      var ws := Windows(start, end, step);
      forall i | 0 <= i < |ws| ensures ChunkOf(ws[i], Window(from, end)) {
        if i > 0 { assert ws[i] == Windows(e, end, step)[i - 1]; }
      }
    }
  }

  lemma WholeDays(days: int)
    requires days > 0
    ensures days * DAY > 0 && (days * DAY) % SECOND == 0
  {
    assert days * DAY == (days * 86_400) * SECOND;
  }

  // ----- rows outside the range -----

  lemma {:induction false} OutputInRange(raw: seq<Row>, symbol: string, cols: set<Column>, lib: Lib, w: Window,
                                         n: nat, r: FeatureRow)
    requires n <= |raw| && r in Output(raw, symbol, cols, lib, w, n)
    ensures InWindow(w, r.ts)
  {
    hide RowAt, InWindow;
    RowAtTime(raw, symbol, cols, lib, w, n - 1);
    if r in Output(raw, symbol, cols, lib, w, n - 1) {
      OutputInRange(raw, symbol, cols, lib, w, n - 1, r);
    }
  }

  lemma {:induction false} RunInRange(table: Table, symbols: seq<string>, cols: set<Column>, lib: Lib, w: Window,
                                      fails: (string, Window) -> bool, r: FeatureRow)
    requires r in RunOutput(table, symbols, cols, lib, w, fails)
    ensures InWindow(w, r.ts)
  {
    hide Output, InWindow;
    var s := symbols[|symbols| - 1];
    if r in RunOutput(table, symbols[..|symbols| - 1], cols, lib, w, fails) {
      RunInRange(table, symbols[..|symbols| - 1], cols, lib, w, fails, r);
    } else {
      OutputInRange(RawOf(table, s), s, cols, lib, w, |RawOf(table, s)|, r);
    }
  }

  // ----- the theorem -----

  /** How many times a chunked backfill writes a row for each time one run over the range does: never
      on an empty range or in the sub-second gap before a chunk boundary, twice on a boundary that is a
      whole second, once anywhere else. */
  function Multiplicity(start: int, end: int, step: int, t: int): nat
    requires step > 0
  {
    if start >= end || InGap(start, end, step, t) then 0
    else if Interior(start, end, step, t) && t % SECOND == 0 then 2
    else 1
  }

  /** Chunks that write their rows as one run does, together write each row so many times. */
  lemma AlikeChunks(table: Table, symbols: seq<string>, cols: set<Column>, lib: Lib, start: int, end: int, step: int,
                    faults: Faults, r: FeatureRow)
    requires step > 0 && step % SECOND == 0 && faults.None()
    requires forall i, s :: 0 <= i < |Windows(start, end, step)| && s in symbols ==>
               SameRows(RawOf(table, s), s, cols, lib, Windows(start, end, step)[i], Window(start, end))
    ensures multiset(BackfillOutput(table, symbols, cols, lib, Windows(start, end, step), faults))[r]
         == Multiplicity(start, end, step, r.ts)
            * multiset(RunOutput(table, symbols, cols, lib, Window(start, end), faults.fails))[r]
  {
    hide BackfillOutput, RunOutput, SameRows, Interior, InGap;
    var whole, ws := Window(start, end), Windows(start, end, step);
    BackfillCopies(table, symbols, cols, lib, ws, whole, faults, r);
    if start < end && r in RunOutput(table, symbols, cols, lib, whole, faults.fails) {
      RunInRange(table, symbols, cols, lib, whole, faults.fails, r);
      CopiesExactly(start, end, step, r.ts);
    }
  }

  /** Chunked backfill writes exactly the rows and values of one run over the range, each once,
      except that a row on an interior chunk boundary is written twice and an empty range gives none.
      This holds for an error-free run that starts on a whole second and writes only trailing columns
      whose windows fit the seven-day lookback. */
  lemma ChunkedEqualsWhole(table: Table, symbols: seq<string>, cols: set<Column>, lib: Lib,
                           start: int, end: int, chunkDays: int, faults: Faults, r: FeatureRow)
    requires chunkDays > 0 && start % SECOND == 0
    requires AllFit(table, cols, Window(start, end)) && faults.None()
    ensures chunkDays * DAY > 0
    ensures multiset(BackfillOutput(table, symbols, cols, lib, Windows(start, end, chunkDays * DAY), faults))[r]
         == (if start >= end then 0 else if Interior(start, end, chunkDays * DAY, r.ts) then 2 else 1)
            * multiset(RunOutput(table, symbols, cols, lib, Window(start, end), faults.fails))[r]
  {
    hide BackfillOutput, RunOutput, AllFit, Copies;
    WholeDays(chunkDays);
    var step := chunkDays * DAY;
    NoGapOnWholeSeconds(start, end, step, r.ts);
    ChunkedExactly(table, symbols, cols, lib, start, end, chunkDays, faults, r);
    InteriorFraction(start, end, step, r.ts);
  }

  /** Without the whole-second start: a row in the sub-second gap before a chunk boundary is lost,
      and a row on such a boundary is written once. */
  lemma ChunkedExactly(table: Table, symbols: seq<string>, cols: set<Column>, lib: Lib,
                       start: int, end: int, chunkDays: int, faults: Faults, r: FeatureRow)
    requires chunkDays > 0
    requires AllFit(table, cols, Window(start, end)) && faults.None()
    ensures chunkDays * DAY > 0
    ensures multiset(BackfillOutput(table, symbols, cols, lib, Windows(start, end, chunkDays * DAY), faults))[r]
         == Multiplicity(start, end, chunkDays * DAY, r.ts)
            * multiset(RunOutput(table, symbols, cols, lib, Window(start, end), faults.fails))[r]
  {
    hide BackfillOutput, RunOutput, AllFit, Multiplicity, SameRows;
    WholeDays(chunkDays);
    var step, whole := chunkDays * DAY, Window(start, end);
    var ws := Windows(start, end, step);
    WindowsAreChunks(start, end, step, start);
    forall i, s | 0 <= i < |ws| && s in symbols ensures SameRows(RawOf(table, s), s, cols, lib, ws[i], whole) {
      FittingRows(table, s, cols, lib, ws[i], whole);
    }
    AlikeChunks(table, symbols, cols, lib, start, end, step, faults, r);
  }
}
