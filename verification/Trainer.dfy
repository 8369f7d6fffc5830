/** Training-data preparation of trainer.py: cleaned feature rows paired with the next row's
    target, split by time. */
module Trainer {
  import opened Series
  import opened Frames

  /** A numeric table: named columns of equal length, in a fixed order. */
  datatype Table = Table(names: seq<string>, numeric: set<string>, data: map<string, seq<Cell>>, length: nat) {
    predicate Valid() {
      forall c :: c in names ==> c in data && |data[c]| == length
    }
  }

  datatype Settings = Settings(explicit: seq<string>, exclude: set<string>, target: string)

  /** One training example. */
  datatype Sample = Sample(features: seq<real>, target: Cell)

  datatype Split = Split(train: seq<Sample>, test: seq<Sample>)

  function KeepNames(names: seq<string>, keep: set<string>): seq<string> {
    if names == [] then []
    else KeepNames(names[..|names| - 1], keep) + if names[|names| - 1] in keep then [names[|names| - 1]] else []
  }

  /** The explicit list when there is one, else every numeric column not excluded. */
  function FeatureColumns(t: Table, s: Settings): seq<string> {
    if s.explicit != [] then KeepNames(s.explicit, set c | c in t.names)
    else KeepNames(t.names, t.numeric - s.exclude - {s.target})
  }

  lemma {:induction false} KeptNamesAreKept(names: seq<string>, keep: set<string>)
    ensures forall c :: c in KeepNames(names, keep) ==> c in keep && c in names
  {
    if names != [] { KeptNamesAreKept(names[..|names| - 1], keep); }
  }

  lemma FeatureColumnsExist(t: Table, s: Settings)
    ensures forall c :: c in FeatureColumns(t, s) ==> c in t.names
  {
    if s.explicit != [] { KeptNamesAreKept(s.explicit, set c | c in t.names); }
    else { KeptNamesAreKept(t.names, t.numeric - s.exclude - {s.target}); }
  }

  /** ffill(): the latest cell up to row i that is not NaN. */
  function Filled(s: seq<Cell>, i: nat): Cell
    requires i < |s|
  {
    if !s[i].NaN? || i == 0 then s[i] else Filled(s, i - 1)
  }

  /** ffill().fillna(0), with infinities replaced by 0 afterwards. */
  function Clean(s: seq<Cell>, i: nat): real
    requires i < |s|
  {
    var c := Filled(s, i);
    if c.Num? then c.r else 0.0
  }

  // ----- the three passes -----

  /** ffill(): a NaN takes the cell before it. */
  function ForwardFill(s: seq<Cell>): (r: seq<Cell>)
    ensures |r| == |s|
  {
    if s == [] then []
    else
      var before, last := ForwardFill(s[..|s| - 1]), s[|s| - 1];
      before + [if last.NaN? && before != [] then before[|before| - 1] else last]
  }

  /** fillna(x) */
  function FillNaN(s: seq<Cell>, x: real): (r: seq<Cell>)
    ensures |r| == |s|
  {
    seq(|s|, i requires 0 <= i < |s| => if s[i].NaN? then Num(x) else s[i])
  }

  /** replace([inf, -inf], x) */
  function ReplaceInfinite(s: seq<Cell>, x: real): (r: seq<Cell>)
    ensures |r| == |s|
  {
    seq(|s|, i requires 0 <= i < |s| => if s[i].PosInf? || s[i].NegInf? then Num(x) else s[i])
  }

  lemma {:induction false} ForwardFillIsLatest(s: seq<Cell>, i: nat)
    requires i < |s|
    ensures ForwardFill(s)[i] == Filled(s, i)
  {
    if i < |s| - 1 {
      ForwardFillIsLatest(s[..|s| - 1], i);
      FilledPrefix(s, |s| - 1, i);
    } else if i > 0 {
      ForwardFillIsLatest(s[..i], i - 1);
      FilledPrefix(s, i, i - 1);
    }
  }

  lemma {:induction false} FilledPrefix(s: seq<Cell>, n: nat, i: nat)
    requires i < n <= |s|
    ensures Filled(s[..n], i) == Filled(s, i)
  {
    if i > 0 { FilledPrefix(s, n, i - 1); }
  }

  /** The three passes leave in each row the latest number up to it, or 0. */
  lemma PassesClean(s: seq<Cell>, i: nat)
    requires i < |s|
    ensures ReplaceInfinite(FillNaN(ForwardFill(s), 0.0), 0.0)[i] == Num(Clean(s, i))
  {
    ForwardFillIsLatest(s, i);
  }

  function CleanRow(t: Table, columns: seq<string>, i: nat): seq<real>
    requires t.Valid() && i < t.length && forall c :: c in columns ==> c in t.names
  {
    seq(|columns|, k requires 0 <= k < |columns| => assert columns[k] in columns; Clean(t.data[columns[k]], i))
  }

  /** The examples among the first n rows: each row whose next target is known, in row order. */
  function Samples(t: Table, s: Settings, n: nat): seq<Sample>
    requires t.Valid() && n <= t.length && s.target in t.names
  {
    if n == 0 then []
    else
      FeatureColumnsExist(t, s);
      var y := Shift(t.data[s.target], 0 - 1)[n - 1];
      Samples(t, s, n - 1) + if y.NaN? then [] else [Sample(CleanRow(t, FeatureColumns(t, s), n - 1), y)]
  }

  /** Rows behind the examples, in the same order. */
  function SampleRows(t: Table, s: Settings, n: nat): seq<nat>
    requires t.Valid() && n <= t.length && s.target in t.names
  {
    if n == 0 then []
    else SampleRows(t, s, n - 1) + if Shift(t.data[s.target], 0 - 1)[n - 1].NaN? then [] else [n - 1]
  }

  /** train_test_split(test_size=0.2, shuffle=False): the last fifth, rounded up, is the test set;
      an empty training set is an error. */
  function SplitInOrder(samples: seq<Sample>): Option<Split> {
    var test := (|samples| + 4) / 5;
    var train := |samples| - test;
    if train <= 0 then None else Some(Split(samples[..train], samples[train..]))
  }

  class Trainer {
    const df: Table
    const settings: Settings
    var featureCols: seq<string>

    constructor (df: Table, settings: Settings)
      ensures this.df == df && this.settings == settings && featureCols == []
    {
      this.df, this.settings, featureCols := df, settings, [];
    }

    method CleanFeatures() returns (features: seq<seq<real>>)
      requires df.Valid()
      modifies this
      ensures featureCols == FeatureColumns(df, settings)
      ensures forall c :: c in featureCols ==> c in df.names
      ensures |features| == df.length && forall i :: 0 <= i < df.length ==> features[i] == CleanRow(df, featureCols, i)
    {
      hide Clean, Filled, ForwardFill, FillNaN, ReplaceInfinite;
      featureCols := FeatureColumns(df, settings);
      FeatureColumnsExist(df, settings);
      var cols, n := featureCols, df.length;
      var filled := map c | c in cols :: ForwardFill(df.data[c]);
      var known := map c | c in cols :: FillNaN(filled[c], 0.0);
      var finite := map c | c in cols :: ReplaceInfinite(known[c], 0.0);
      forall c, i | c in cols && 0 <= i < n ensures finite[c][i] == Num(Clean(df.data[c], i)) {
        PassesClean(df.data[c], i);
      }
      features :=
        seq(n, i requires 0 <= i < n && forall c :: c in cols ==> c in finite && i < |finite[c]| && finite[c][i].Num? =>
          seq(|cols|, k requires 0 <= k < |cols| => assert cols[k] in cols; finite[cols[k]][i].r));
    }

    method PrepareRegressionData() returns (r: Option<Split>)
      requires df.Valid() && settings.target in df.names
      modifies this
      ensures featureCols == FeatureColumns(df, settings)
      ensures r == SplitInOrder(Samples(df, settings, df.length))
    {
      var features := CleanFeatures();
      var targets := Shift(df.data[settings.target], 0 - 1);
      var kept := [];
      for i := 0 to df.length
        invariant kept == Samples(df, settings, i)
      {
        if !targets[i].NaN? {
          kept := kept + [Sample(features[i], targets[i])];
        }
      }
      r := SplitInOrder(kept);
    }
  }

  // ----- what the pairs are -----

  /** Example k comes from row i = SampleRows[k]: its features are that row's cleaned cells and its
      target is the value one row later. The rows strictly increase. */
  lemma {:induction false} SamplesPairNextRow(t: Table, s: Settings, n: nat)
    requires t.Valid() && n <= t.length && s.target in t.names
    ensures |SampleRows(t, s, n)| == |Samples(t, s, n)|
    ensures forall c :: c in FeatureColumns(t, s) ==> c in t.names
    ensures forall k :: 0 <= k < |Samples(t, s, n)| ==>
              var i := SampleRows(t, s, n)[k];
              && i < n && i + 1 < t.length
              && Samples(t, s, n)[k] == Sample(CleanRow(t, FeatureColumns(t, s), i), t.data[s.target][i + 1])
    ensures forall j, k :: 0 <= j < k < |SampleRows(t, s, n)| ==> SampleRows(t, s, n)[j] < SampleRows(t, s, n)[k]
  {
    hide CleanRow, FeatureColumns;
    FeatureColumnsExist(t, s);
    if n > 0 { SamplesPairNextRow(t, s, n - 1); }
  }

  /** Every validation row lies after every training row, and the split loses nothing. */
  lemma ValidationFollowsTraining(t: Table, s: Settings)
    requires t.Valid() && s.target in t.names
    requires SplitInOrder(Samples(t, s, t.length)).Some?
    ensures var split := SplitInOrder(Samples(t, s, t.length)).value;
            var rows := SampleRows(t, s, t.length);
            && split.train + split.test == Samples(t, s, t.length)
            && |rows| == |split.train| + |split.test| && 0 < |split.test| <= |split.train|
            && forall j, k :: 0 <= j < |split.train| <= k < |rows| ==> rows[j] < rows[k]
  {
    hide Samples, SampleRows, CleanRow, FeatureColumns;
    SamplesPairNextRow(t, s, t.length);
  }

  // ----- no look-ahead -----

  function Prefix(t: Table, n: nat): Table
    requires t.Valid() && n <= t.length
  {
    t.(data := map c | c in t.data && |t.data[c]| == t.length :: t.data[c][..n], length := n)
  }

  /** Preparing a prefix of the table gives a prefix of the examples: no example reads a row later
      than its target's. */
  lemma {:induction false} SamplesOfPrefix(t: Table, s: Settings, n: nat, m: nat)
    requires t.Valid() && m < n <= t.length && s.target in t.names
    ensures Prefix(t, n).Valid()
    ensures Samples(Prefix(t, n), s, m) == Samples(t, s, m)
  {
    var p := Prefix(t, n);
    if m > 0 {
      SamplesOfPrefix(t, s, n, m - 1);
      FeatureColumnsExist(t, s);
      var columns := FeatureColumns(t, s);
      SameRowInPrefix(t, columns, n, m - 1);
      assert p.data[s.target] == t.data[s.target][..n];
    }
  }

  lemma SameRowInPrefix(t: Table, columns: seq<string>, n: nat, i: nat)
    requires t.Valid() && i < n <= t.length && forall c :: c in columns ==> c in t.names
    ensures Prefix(t, n).Valid()
    ensures CleanRow(Prefix(t, n), columns, i) == CleanRow(t, columns, i)
  {
    forall k | 0 <= k < |columns|
      ensures CleanRow(Prefix(t, n), columns, i)[k] == CleanRow(t, columns, i)[k]
    {
      assert columns[k] in columns;
      FilledPrefix(t.data[columns[k]], n, i);
    }
  }

  lemma {:induction false} SamplesGrow(t: Table, s: Settings, m: nat, n: nat)
    requires t.Valid() && m <= n <= t.length && s.target in t.names
    ensures Samples(t, s, m) <= Samples(t, s, n)
  {
    if m < n { SamplesGrow(t, s, m, n - 1); }
  }

  /** The last row of any table has no next target, so it yields no example. */
  lemma LastRowDropped(t: Table, s: Settings)
    requires t.Valid() && t.length > 0 && s.target in t.names
    ensures Samples(t, s, t.length) == Samples(t, s, t.length - 1)
  {
  }

  lemma PrefixValid(t: Table, n: nat)
    requires t.Valid() && n <= t.length
    ensures Prefix(t, n).Valid()
  {
  }

  /** Rows added to the table later change no earlier row's features, nor any earlier example. With
      n = i + 1 this says that the features of row i read the table up to row i only. */
  lemma TrainingIgnoresTheFuture(t: Table, s: Settings, n: nat)
    requires t.Valid() && n <= t.length && s.target in t.names
    ensures Prefix(t, n).Valid() && FeatureColumns(Prefix(t, n), s) == FeatureColumns(t, s)
    ensures forall c :: c in FeatureColumns(t, s) ==> c in t.names
    ensures forall i :: 0 <= i < n ==>
              CleanRow(Prefix(t, n), FeatureColumns(t, s), i) == CleanRow(t, FeatureColumns(t, s), i)
    ensures Samples(Prefix(t, n), s, n) <= Samples(t, s, t.length)
  {
    hide CleanRow;
    PrefixValid(t, n);
    FeatureColumnsExist(t, s);
    forall i | 0 <= i < n
      ensures CleanRow(Prefix(t, n), FeatureColumns(t, s), i) == CleanRow(t, FeatureColumns(t, s), i)
    {
      SameRowInPrefix(t, FeatureColumns(t, s), n, i);
    }
    if n > 0 {
      SamplesOfPrefix(t, s, n, n - 1);
      LastRowDropped(Prefix(t, n), s);
      SamplesGrow(t, s, n - 1, t.length);
    }
  }

  // ----- end to end: raw rows to training examples -----

  /** A feature table's columns in order: which are numeric and how each is computed. */
  datatype Schema = Schema(names: seq<string>, numeric: set<string>, columns: map<string, Column>) {
    predicate Valid() {
      forall c :: c in names ==> c in columns
    }
  }

  /** The feature table of some raw rows: each named column computed over them. */
  function FeatureTable(rows: seq<Row>, schema: Schema, lib: Lib): Table
    requires schema.Valid()
  {
    Table(schema.names, schema.numeric, map c | c in schema.names :: ColumnOf(schema.columns[c], rows, lib), |rows|)
  }

  /** The columns the trainer takes as features. */
  function Selected(schema: Schema, s: Settings): seq<string> {
    FeatureColumns(Table(schema.names, schema.numeric, map[], 0), s)
  }

  lemma SelectedExist(schema: Schema, s: Settings)
    ensures forall c :: c in Selected(schema, s) ==> c in schema.names
  {
    FeatureColumnsExist(Table(schema.names, schema.numeric, map[], 0), s);
  }

  /** The cleaned features of row i, computed from the given raw rows. */
  function RowFeatures(rows: seq<Row>, schema: Schema, lib: Lib, s: Settings, i: nat): seq<real>
    requires schema.Valid() && i < |rows|
  {
    SelectedExist(schema, s);
    CleanRow(FeatureTable(rows, schema, lib), Selected(schema, s), i)
  }

  /** No feature column reads a later row; columns that are not features may. */
  predicate SelectsNoTarget(schema: Schema, s: Settings)
    requires schema.Valid()
  {
    SelectedExist(schema, s);
    forall c :: c in Selected(schema, s) ==> Ahead(schema.columns[c]) == 0
  }

  lemma {:induction false} FilledSame(a: seq<Cell>, b: seq<Cell>, i: nat)
    requires i < |a| && i < |b| && forall j :: 0 <= j <= i ==> a[j] == b[j]
    ensures Filled(a, i) == Filled(b, i)
  {
    if i > 0 { FilledSame(a, b, i - 1); }
  }

  /** The features of row i need no raw row after it. */
  lemma FeaturesReadNoLaterRow(rows: seq<Row>, schema: Schema, lib: Lib, s: Settings, i: nat)
    requires schema.Valid() && SelectsNoTarget(schema, s) && i < |rows|
    ensures RowFeatures(rows[..i + 1], schema, lib, s, i) == RowFeatures(rows, schema, lib, s, i)
  {
    hide ColumnOf, Selected, Filled;
    SelectedExist(schema, s);
    var cols := Selected(schema, s);
    forall k | 0 <= k < |cols|
      ensures RowFeatures(rows[..i + 1], schema, lib, s, i)[k] == RowFeatures(rows, schema, lib, s, i)[k]
    {
      assert cols[k] in cols;
      var c := schema.columns[cols[k]];
      forall j | 0 <= j <= i ensures ColumnOf(c, rows[..i + 1], lib)[j] == ColumnOf(c, rows, lib)[j] {
        NoLookAhead(c, rows, i + 1, lib, j);
      }
      FilledSame(ColumnOf(c, rows[..i + 1], lib), ColumnOf(c, rows, lib), i);
    }
  }

  // ----- a feature that reads ahead shows it -----

  /** A value that counts up from 1. */
  function Counting(col: string, n: nat): seq<Row> {
    seq(n, k requires 0 <= k < n => Row(k, map[col := k as real + 1.0]))
  }

  lemma CountingTarget(c: Column, lib: Lib)
    requires (c.TargetReturn? || c.TargetValue? || c.TargetDirection?) && c.horizon > 0
    ensures var cell := ColumnOf(c, Counting(c.col, c.horizon + 1), lib)[0]; cell.Num? && cell.r != 0.0
  {
    var rows, h := Counting(c.col, c.horizon + 1), c.horizon;
    TargetReadsTwoRows(rows, c.col, h, lib, 0);
    assert Values(rows, c.col)[0] == Num(1.0) && Values(rows, c.col)[h] == Num(h as real + 1.0);
    assert (h as real + 1.0) / 1.0 == h as real + 1.0;
  }

  lemma {:induction false} NothingToFill(s: seq<Cell>, i: nat)
    requires i < |s| && forall j :: 0 <= j < i ==> s[j].NaN?
    ensures Filled(s, i) == s[i]
  {
    if i > 0 && s[i].NaN? { NothingToFill(s, i - 1); }
  }

  /** Just the rows such a column needs to have one target. */
  function Witness(c: Column): (rows: seq<Row>)
    requires Ahead(c) > 0
    ensures |rows| == Ahead(c) + Delay(c) + 1
  {
    InnerIsTarget(c);
    Counting(Inner(c).col, Ahead(c) + Delay(c) + 1)
  }

  /** On counted rows a column that reads ahead has a different clean value once they are all there. */
  lemma ReadAheadShows(c: Column, lib: Lib)
    requires Ahead(c) > 0
    ensures var rows, i := Witness(c), Delay(c);
            Clean(ColumnOf(c, rows[..i + 1], lib), i) != Clean(ColumnOf(c, rows, lib), i)
  {
    hide ColumnOf, Filled, Counting;
    InnerIsTarget(c);
    var d, i := Inner(c), Delay(c);
    var rows := Witness(c);
    assert rows == Counting(d.col, d.horizon + 1);
    var all, part := ColumnOf(c, rows, lib), ColumnOf(c, rows[..i + 1], lib);
    forall j | 0 <= j < i ensures all[j].NaN? {
      LagsAdd(c, rows, lib, j);
    }
    forall j | 0 <= j < i ensures part[j].NaN? {
      LagsAdd(c, rows[..i + 1], lib, j);
    }
    LagsAdd(c, rows, lib, i);
    LagsAdd(c, rows[..i + 1], lib, i);
    NothingToFill(all, i);
    NothingToFill(part, i);
    CountingTarget(d, lib);
    NoLookAhead(d, rows, i + 1, lib, 0);
  }

  /** The features of row i are the same before and after later rows arrive. */
  predicate Settled(rows: seq<Row>, schema: Schema, lib: Lib, s: Settings, i: nat)
    requires schema.Valid() && i < |rows|
  {
    RowFeatures(rows[..i + 1], schema, lib, s, i) == RowFeatures(rows, schema, lib, s, i)
  }

  /** The features of every row are the same before and after later rows arrive, whatever the rows,
      exactly when no column the trainer selects reads ahead. */
  lemma NoLookAheadExactly(schema: Schema, lib: Lib, s: Settings)
    requires schema.Valid()
    ensures (forall rows: seq<Row>, i: nat | i < |rows| :: Settled(rows, schema, lib, s, i))
        <==> SelectsNoTarget(schema, s)
  {
    hide ColumnOf, Selected, Clean, Counting;
    SelectedExist(schema, s);
    if SelectsNoTarget(schema, s) {
      forall rows: seq<Row>, i: nat | i < |rows| ensures Settled(rows, schema, lib, s, i) {
        FeaturesReadNoLaterRow(rows, schema, lib, s, i);
      }
    } else {
      var cols := Selected(schema, s);
      var name :| name in cols && Ahead(schema.columns[name]) > 0;
      var k :| 0 <= k < |cols| && cols[k] == name;
      var c := schema.columns[name];
      var rows, i := Witness(c), Delay(c);
      ReadAheadShows(c, lib);
      assert RowFeatures(rows[..i + 1], schema, lib, s, i)[k] != RowFeatures(rows, schema, lib, s, i)[k];
      assert !Settled(rows, schema, lib, s, i);
    }
  }

  /** A selected next-step target of the value to predict is the answer itself, in every example. */
  lemma LeakedAnswer(rows: seq<Row>, schema: Schema, lib: Lib, s: Settings, v: string, p: nat, k: nat)
    requires schema.Valid() && s.target in schema.names && schema.columns[s.target] == Raw(v)
    requires p < |Selected(schema, s)| && Selected(schema, s)[p] in schema.names
    requires schema.columns[Selected(schema, s)[p]] == TargetValue(v, 1)
    requires k < |Samples(FeatureTable(rows, schema, lib), s, |rows|)|
    ensures var example := Samples(FeatureTable(rows, schema, lib), s, |rows|)[k];
            p < |example.features| && example.target == Num(example.features[p])
  {
    hide Samples;
    var t := FeatureTable(rows, schema, lib);
    SamplesPairNextRow(t, s, |rows|);
    SamplesHaveTargets(t, s, |rows|, k);
    var i := SampleRows(t, s, |rows|)[k];
    TargetReadsTwoRows(rows, v, 1, lib, i);
    assert Filled(ColumnOf(TargetValue(v, 1), rows, lib), i) == ColumnOf(TargetValue(v, 1), rows, lib)[i];
  }

  lemma {:induction false} SamplesHaveTargets(t: Table, s: Settings, n: nat, k: nat)
    requires t.Valid() && n <= t.length && s.target in t.names && k < |Samples(t, s, n)|
    ensures !Samples(t, s, n)[k].target.NaN?
  {
    hide CleanRow, FeatureColumns;
    if k < |Samples(t, s, n - 1)| { SamplesHaveTargets(t, s, n - 1, k); }
  }

  /** No look-ahead from raw rows to training examples: the features of an example are those of its
      row i computed from the raw rows up to i, and its target is the target column's next cell,
      which needs the rows up to i + 1 unless that column itself reads further. Other columns of the
      table may read ahead. */
  lemma NoLookAheadEndToEnd(rows: seq<Row>, schema: Schema, lib: Lib, s: Settings, k: nat)
    requires schema.Valid() && s.target in schema.names && SelectsNoTarget(schema, s)
    requires k < |Samples(FeatureTable(rows, schema, lib), s, |rows|)|
    ensures var t, y := FeatureTable(rows, schema, lib), schema.columns[s.target];
            && k < |SampleRows(t, s, |rows|)|
            && var i := SampleRows(t, s, |rows|)[k];
            && i + 1 < |rows|
            && Samples(t, s, |rows|)[k]
                == Sample(RowFeatures(rows[..i + 1], schema, lib, s, i), ColumnOf(y, rows, lib)[i + 1])
            && (Ahead(y) == 0 ==> ColumnOf(y, rows, lib)[i + 1] == ColumnOf(y, rows[..i + 2], lib)[i + 1])
  {
    hide ColumnOf, Samples, CleanRow, FeatureColumns;
    var t := FeatureTable(rows, schema, lib);
    SamplesPairNextRow(t, s, |rows|);
    var i := SampleRows(t, s, |rows|)[k];
    assert FeatureColumns(t, s) == Selected(schema, s) by { SameSelection(rows, schema, lib, s); }
    FeaturesReadNoLaterRow(rows, schema, lib, s, i);
    NoLookAhead(schema.columns[s.target], rows, i + 2, lib, i + 1);
  }

  lemma SameSelection(rows: seq<Row>, schema: Schema, lib: Lib, s: Settings)
    requires schema.Valid()
    ensures FeatureColumns(FeatureTable(rows, schema, lib), s) == Selected(schema, s)
  {
    hide ColumnOf;
  }

  /** So later raw rows change no earlier example. */
  lemma EarlierExamplesStay(rows: seq<Row>, schema: Schema, lib: Lib, s: Settings, n: nat)
    requires schema.Valid() && s.target in schema.names && SelectsNoTarget(schema, s)
    requires Ahead(schema.columns[s.target]) == 0 && n <= |rows|
    ensures Samples(FeatureTable(rows[..n], schema, lib), s, n) <= Samples(FeatureTable(rows, schema, lib), s, |rows|)
  {
    hide FeatureTable, Samples, SelectsNoTarget, Ahead;
    var early, late := FeatureTable(rows[..n], schema, lib), FeatureTable(rows, schema, lib);
    TableValid(rows[..n], schema, lib);
    TableValid(rows, schema, lib);
    if n == 0 {
      NoSamples(early, s);
    } else {
      LastRowDropped(early, s);
      SameExamples(rows, schema, lib, s, n, n - 1);
      SamplesGrow(late, s, n - 1, |rows|);
    }
  }

  lemma TableValid(rows: seq<Row>, schema: Schema, lib: Lib)
    requires schema.Valid()
    ensures var t := FeatureTable(rows, schema, lib); t.Valid() && t.length == |rows| && t.names == schema.names
  {
    hide ColumnOf;
  }

  lemma NoSamples(t: Table, s: Settings)
    requires t.Valid() && s.target in t.names
    ensures Samples(t, s, 0) == []
  {
  }

  lemma {:induction false} SameExamples(rows: seq<Row>, schema: Schema, lib: Lib, s: Settings, n: nat, m: nat)
    requires schema.Valid() && s.target in schema.names && SelectsNoTarget(schema, s)
    requires Ahead(schema.columns[s.target]) == 0 && m < n <= |rows|
    ensures Samples(FeatureTable(rows[..n], schema, lib), s, m) == Samples(FeatureTable(rows, schema, lib), s, m)
  {
    hide ColumnOf, FeatureColumns, CleanRow;
    if m > 0 {
      SameExamples(rows, schema, lib, s, n, m - 1);
      SameSelection(rows, schema, lib, s);
      SameSelection(rows[..n], schema, lib, s);
      assert rows[..n][..m] == rows[..m];
      FeaturesReadNoLaterRow(rows, schema, lib, s, m - 1);
      FeaturesReadNoLaterRow(rows[..n], schema, lib, s, m - 1);
      NoLookAhead(schema.columns[s.target], rows, n, lib, m);
    }
  }

  // ----- columns, filling and split, spelled out -----

  /** Keeping names is keeping each on its own, in order. */
  lemma {:induction false} KeepNamesConcat(a: seq<string>, b: seq<string>, keep: set<string>)
    ensures KeepNames(a + b, keep) == KeepNames(a, keep) + KeepNames(b, keep)
  {
    if b == [] {
      assert a + b == a;
    } else {
      assert (a + b)[..|a + b| - 1] == a + b[..|b| - 1];
      KeepNamesConcat(a, b[..|b| - 1], keep);
    }
  }

  lemma {:induction false} KeepNamesHolds(names: seq<string>, keep: set<string>, c: string)
    ensures c in KeepNames(names, keep) <==> c in names && c in keep
  {
    if names != [] {
      KeepNamesHolds(names[..|names| - 1], keep, c);
      assert names == names[..|names| - 1] + [names[|names| - 1]];
    }
  }

  /** The features: the explicitly listed columns that exist, or else every numeric column that is
      neither excluded nor the target. */
  lemma FeatureColumnsAre(t: Table, s: Settings, c: string)
    ensures c in FeatureColumns(t, s) <==>
            if s.explicit != [] then c in s.explicit && c in t.names
            else c in t.names && c in t.numeric && c !in s.exclude && c != s.target
  {
    var present := set x | x in t.names;
    KeepNamesHolds(s.explicit, present, c);
    KeepNamesHolds(t.names, t.numeric - s.exclude - {s.target}, c);
  }

  /** A clean cell is the latest known one up to its row, 0 when there is none or it is infinite. */
  lemma {:induction false} CleanIsLatest(s: seq<Cell>, i: nat)
    requires i < |s|
    ensures (forall j :: 0 <= j <= i ==> s[j].NaN?) ==> Clean(s, i) == 0.0
    ensures forall j :: 0 <= j <= i && !s[j].NaN? && (forall k :: j < k <= i ==> s[k].NaN?) ==>
              Clean(s, i) == if s[j].Num? then s[j].r else 0.0
  {
    if s[i].NaN? && i > 0 { CleanIsLatest(s, i - 1); }
  }

  /** The split: a fifth of the examples, rounded up, at the end for validation; too few to leave any
      for training is an error. */
  lemma SplitIsAFifth(samples: seq<Sample>)
    ensures SplitInOrder(samples).None? <==> |samples| <= 1
    ensures SplitInOrder(samples).Some? ==>
              var split := SplitInOrder(samples).value;
              split.train + split.test == samples && 5 * (|split.test| - 1) < |samples| <= 5 * |split.test|
  {
  }
}
