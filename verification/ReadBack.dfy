/** What the trainer reads of a chunked backfill (trainer/src/main.py): the stored rows of one symbol
    ordered by time, and what the copies of boundary rows do to its examples. */
module ReadBack {
  import opened Series
  import opened Frames
  import opened Tiling
  import opened Backfill
  import opened ChunkEquivalence
  import T = Trainer

  /** SELECT * ... WHERE symbol = ... ORDER BY timestamp, copies included. */
  ghost predicate ReadsBack(back: seq<FeatureRow>, stored: seq<FeatureRow>, symbol: string) {
    && (forall i, j :: 0 <= i < j < |back| ==> back[i].ts <= back[j].ts)
    && (forall r: FeatureRow :: multiset(back)[r] == if r.symbol == symbol then multiset(stored)[r] else 0)
  }

  /** The table the trainer prepares: named columns of the rows. */
  function TableOf(back: seq<FeatureRow>, schema: T.Schema): T.Table
    requires schema.Valid()
    requires forall i, c :: 0 <= i < |back| && c in schema.names ==> schema.columns[c] in back[i].cells
  {
    var data := map c | c in schema.names ::
                  seq(|back|, i requires 0 <= i < |back| => back[i].cells[schema.columns[c]]);
    T.Table(schema.names, schema.numeric, data, |back|)
  }

  // ----- the stored rows -----

  /** Stored rows hold every written column, none missing. */
  predicate Whole(r: FeatureRow, cols: set<Column>) {
    r.cells.Keys == cols && Complete(r.cells)
  }

  lemma RowIsWhole(raw: seq<Row>, symbol: string, cols: set<Column>, lib: Lib, w: Window, g: nat)
    requires g < |raw| && RowAt(raw, symbol, cols, lib, w, g).Some?
    ensures Whole(RowAt(raw, symbol, cols, lib, w, g).value, cols)
  {
    hide ColumnOf, Lo, Hi;
  }

  lemma {:induction false} OutputIsWhole(raw: seq<Row>, symbol: string, cols: set<Column>, lib: Lib, w: Window,
                                         n: nat, r: FeatureRow)
    requires n <= |raw| && r in Output(raw, symbol, cols, lib, w, n)
    ensures Whole(r, cols)
  {
    hide RowAt, Whole;
    if r in Output(raw, symbol, cols, lib, w, n - 1) {
      OutputIsWhole(raw, symbol, cols, lib, w, n - 1, r);
    } else {
      RowIsWhole(raw, symbol, cols, lib, w, n - 1);
    }
  }

  lemma {:induction false} RunIsWhole(table: Table, symbols: seq<string>, cols: set<Column>, lib: Lib, w: Window,
                                      fails: (string, Window) -> bool, r: FeatureRow)
    requires r in RunOutput(table, symbols, cols, lib, w, fails)
    ensures Whole(r, cols)
  {
    hide Output, Whole;
    var before, s := symbols[..|symbols| - 1], symbols[|symbols| - 1];
    if r in RunOutput(table, before, cols, lib, w, fails) {
      RunIsWhole(table, before, cols, lib, w, fails, r);
    } else {
      OutputIsWhole(RawOf(table, s), s, cols, lib, w, |RawOf(table, s)|, r);
    }
  }

  lemma {:induction false} BackfillIsWhole(table: Table, symbols: seq<string>, cols: set<Column>, lib: Lib,
                                           ws: seq<Window>, faults: Faults, r: FeatureRow)
    requires r in BackfillOutput(table, symbols, cols, lib, ws, faults)
    ensures Whole(r, cols)
  {
    hide RunOutput, Whole;
    if r in ChunkOutput(table, symbols, cols, lib, ws[0], faults) {
      RunIsWhole(table, Reached(symbols, faults.stops(ws[0])), cols, lib, ws[0], faults.fails, r);
    } else {
      BackfillIsWhole(table, symbols, cols, lib, ws[1..], faults, r);
    }
  }

  // ----- copies are neighbours -----

  lemma {:induction false} TwoPlaces<X>(s: seq<X>, x: X) returns (i: nat, j: nat)
    requires multiset(s)[x] >= 2
    ensures i < j < |s| && s[i] == x == s[j]
  {
    var n := |s| - 1;
    assert s == s[..n] + [s[n]];
    if s[n] == x {
      assert x in multiset(s[..n]);
      j := n;
      i :| i < n && s[..n][i] == x;
    } else {
      i, j := TwoPlaces(s[..n], x);
    }
  }

  /** A row stored twice is followed, on reading back, by a row of the same instant. */
  lemma CopiesAreNeighbours(back: seq<FeatureRow>, stored: seq<FeatureRow>, r: FeatureRow) returns (i: nat)
    requires ReadsBack(back, stored, r.symbol) && multiset(stored)[r] >= 2
    ensures i + 1 < |back| && back[i] == r && back[i + 1].ts == r.ts
  {
    var j;
    i, j := TwoPlaces(back, r);
    assert back[i].ts <= back[i + 1].ts <= back[j].ts by {
      if i + 1 < j { assert back[i + 1].ts <= back[j].ts; }
    }
  }

  // ----- the example of a copied row -----

  lemma {:induction false} RowHasExample(t: T.Table, s: T.Settings, n: nat, i: nat) returns (k: nat)
    requires t.Valid() && n <= t.length && s.target in t.names && i < n && i + 1 < t.length
    requires !t.data[s.target][i + 1].NaN?
    ensures k < |T.SampleRows(t, s, n)| && T.SampleRows(t, s, n)[k] == i
  {
    if i == n - 1 {
      k := |T.SampleRows(t, s, n)| - 1;
    } else {
      k := RowHasExample(t, s, n - 1, i);
    }
  }

  lemma TableIsValid(back: seq<FeatureRow>, schema: T.Schema)
    requires schema.Valid()
    requires forall i, c :: 0 <= i < |back| && c in schema.names ==> schema.columns[c] in back[i].cells
    ensures TableOf(back, schema).Valid()
  {
  }

  lemma StoredIsRead(back: seq<FeatureRow>, stored: seq<FeatureRow>, symbol: string, i: nat)
    requires ReadsBack(back, stored, symbol) && i < |back|
    ensures back[i] in stored
  {
    assert back[i] in multiset(back);
    assert back[i] in multiset(stored);
  }

  /** A chunked backfill hands the trainer, for every row of the run on an interior chunk boundary, an
      example of that row whose target is of the row's own instant instead of the next one's: the row's
      own value, when the symbol has no other row at that instant. */
  lemma BoundaryRowTargetsItself(table: Table, symbols: seq<string>, cols: set<Column>, lib: Lib, start: int, end: int,
                                 chunkDays: int, faults: Faults, r: FeatureRow, back: seq<FeatureRow>,
                                 schema: T.Schema, s: T.Settings)
    returns (i: nat, k: nat)
    requires chunkDays > 0 && chunkDays * DAY > 0 && start % SECOND == 0 && start < end
    requires AllFit(table, cols, Window(start, end)) && faults.None()
    requires r in RunOutput(table, symbols, cols, lib, Window(start, end), faults.fails)
    requires Interior(start, end, chunkDays * DAY, r.ts)
    requires ReadsBack(back, BackfillOutput(table, symbols, cols, lib, Windows(start, end, chunkDays * DAY), faults),
                       r.symbol)
    requires schema.Valid() && s.target in schema.names && forall c :: c in schema.names ==> schema.columns[c] in cols
    ensures forall i, c :: 0 <= i < |back| && c in schema.names ==> schema.columns[c] in back[i].cells
    ensures var t, y := TableOf(back, schema), schema.columns[s.target];
            && t.Valid() && i + 1 < |back| && back[i] == r && back[i + 1].ts == r.ts
            && k < |T.Samples(t, s, |back|)| == |T.SampleRows(t, s, |back|)| && T.SampleRows(t, s, |back|)[k] == i
            && T.Samples(t, s, |back|)[k].target == back[i + 1].cells[y]
            && ((forall x :: x in back && x.ts == r.ts ==> x == r) ==> T.Samples(t, s, |back|)[k].target == r.cells[y])
  {
    hide BackfillOutput, RunOutput, AllFit, Interior, T.Samples, T.SampleRows, T.FeatureColumns, T.CleanRow;
    var ws := Windows(start, end, chunkDays * DAY);
    var stored := BackfillOutput(table, symbols, cols, lib, ws, faults);
    ChunkedEqualsWhole(table, symbols, cols, lib, start, end, chunkDays, faults, r);
    assert multiset(stored)[r] >= 2;
    forall j | 0 <= j < |back| ensures Whole(back[j], cols) {
      StoredIsRead(back, stored, r.symbol, j);
      BackfillIsWhole(table, symbols, cols, lib, ws, faults, back[j]);
    }
    i := CopiesAreNeighbours(back, stored, r);
    TableIsValid(back, schema);
    var t := TableOf(back, schema);
    assert back[i + 1] in back;
    k := RowHasExample(t, s, |back|, i);
    T.SamplesPairNextRow(t, s, |back|);
  }
}
