/** Column arithmetic of the batch job: the pandas series operations its transformers compose,
    the columns they build, and how far each column looks.

    A series is a sequence of cells, one per row of a frame sorted by time. */
module Frames {
  import opened Series

  datatype Cell = NaN | Num(r: real) | PosInf | NegInf

  /** One raw record of a symbol. Raw columns are never null. */
  datatype Row = Row(ts: int, data: map<string, real>)

  /** What the statistics need from the numeric library. */
  datatype Lib = Lib(sqrt: real -> real, ln: real -> Cell, median: seq<real> -> Cell, clock: (string, int) -> Cell)

  datatype Stat = Mean | Std | Min | Max | Median | PctRank
  datatype Scale = Simple | Percent | Log

  /** The columns of technical.py and temporal.py. A lag may be taken of any column the frame holds. */
  datatype Column =
    | Raw(col: string)
    | Time(field: string)
    | Rolling(stat: Stat, col: string, window: nat)
    | ZScore(col: string, window: nat)
    | ReturnsStd(col: string, window: nat)
    | Range(col: string, window: nat)
    | Ewm(col: string, span: nat)
    | Change(how: Scale, col: string, periods: nat)
    | Lag(of: Column, periods: nat)
    | TargetReturn(col: string, horizon: nat)
    | TargetValue(col: string, horizon: nat)
    | TargetDirection(col: string, horizon: nat)

  // ----- cell arithmetic -----

  function Divide(x: real, y: real): Cell {
    if y != 0.0 then Num(x / y)
    else if x == 0.0 then NaN
    else if x > 0.0 then PosInf else NegInf
  }

  /** x / y - 1 on cells. */
  function Ratio(x: Cell, y: Cell): Cell {
    if !x.Num? || !y.Num? then NaN
    else
      var q := Divide(x.r, y.r);
      if q.Num? then Num(q.r - 1.0) else q
  }

  function TimesHundred(x: Cell): Cell {
    if x.Num? then Num(x.r * 100.0) else x
  }

  /** The logarithm of x / y: undefined below zero, minus infinity at zero. */
  function LogRatio(x: Cell, y: Cell, lib: Lib): Cell {
    if !x.Num? || !y.Num? then NaN
    else
      var q := Divide(x.r, y.r);
      match q
      case Num(v) => if v > 0.0 then lib.ln(v) else if v == 0.0 then NegInf else NaN
      case PosInf => PosInf
      case _ => NaN
  }

  /** (x - m) / s with a zero divisor replaced by NaN. */
  function Standardise(x: Cell, m: Cell, s: Cell): Cell {
    if x.Num? && m.Num? && s.Num? && s.r != 0.0 then Num((x.r - m.r) / s.r) else NaN
  }

  function IsUp(x: Cell): Cell {
    if x.PosInf? || (x.Num? && x.r > 0.0) then Num(1.0) else Num(0.0)
  }

  // ----- statistics of one complete window -----

  function MinOf(s: seq<real>): real
    requires s != []
  {
    if |s| == 1 then s[0]
    else var m := MinOf(s[1..]); if s[0] < m then s[0] else m
  }

  function MaxOf(s: seq<real>): real
    requires s != []
  {
    if |s| == 1 then s[0]
    else var m := MaxOf(s[1..]); if s[0] > m then s[0] else m
  }

  /** Sample standard deviation; undefined for a single value. */
  function SampleStd(s: seq<real>, sqrt: real -> real): Cell {
    if |s| <= 1 then NaN
    else
      var n := |s| as real;
      Num(sqrt(SquaredDistances(s, Sum(s) / n) / (n - 1.0)))
  }

  function CountBelow(s: seq<real>, x: real): nat {
    if s == [] then 0 else CountBelow(s[1..], x) + if s[0] < x then 1 else 0
  }

  function CountEqual(s: seq<real>, x: real): nat {
    if s == [] then 0 else CountEqual(s[1..], x) + if s[0] == x then 1 else 0
  }

  function Aggregate(stat: Stat, s: seq<real>, lib: Lib): Cell {
    if s == [] then NaN
    else
      match stat
      case Mean => Num(Sum(s) / |s| as real)
      case Std => SampleStd(s, lib.sqrt)
      case Min => Num(MinOf(s))
      case Max => Num(MaxOf(s))
      case Median => lib.median(s)
      case PctRank =>
        var x := s[|s| - 1];
        Num((CountBelow(s, x) as real + (CountEqual(s, x) as real + 1.0) / 2.0) / |s| as real)
  }

  // ----- series operations -----

  predicate AllNumbers(s: seq<Cell>) {
    forall i :: 0 <= i < |s| ==> s[i].Num?
  }

  function Numbers(s: seq<Cell>): seq<real>
    requires AllNumbers(s)
  {
    seq(|s|, i requires 0 <= i < |s| => s[i].r)
  }

  function Values(rows: seq<Row>, col: string): (s: seq<Cell>)
    ensures |s| == |rows|
  {
    seq(|rows|, i requires 0 <= i < |rows| => if col in rows[i].data then Num(rows[i].data[col]) else NaN)
  }

  /** shift(k): row i reads row i - k, and NaN where there is none; k may be negative. */
  function Shift(s: seq<Cell>, k: int): (r: seq<Cell>)
    ensures |r| == |s|
  {
    seq(|s|, i => if 0 <= i - k < |s| then s[i - k] else NaN)
  }

  function PctChange(s: seq<Cell>, periods: nat): (r: seq<Cell>)
    ensures |r| == |s|
  {
    var earlier := Shift(s, periods);
    seq(|s|, i requires 0 <= i < |s| => Ratio(s[i], earlier[i]))
  }

  /** rolling(window).agg(): NaN until the window is full, and where it holds a non-number. */
  function RollingOf(stat: Stat, s: seq<Cell>, window: nat, lib: Lib): (r: seq<Cell>)
    ensures |r| == |s|
  {
    seq(|s|, i requires 0 <= i < |s| => RollingAt(stat, s, window, lib, i))
  }

  function RollingAt(stat: Stat, s: seq<Cell>, window: nat, lib: Lib, i: nat): Cell
    requires i < |s|
  {
    if i + 1 < window || !AllNumbers(s[i + 1 - window..i + 1]) then NaN
    else Aggregate(stat, Numbers(s[i + 1 - window..i + 1]), lib)
  }

  /** The weighted sum of values and the sum of weights behind an exponentially weighted mean. */
  datatype Weighted = Weighted(num: real, den: real)

  /** Weighted sums behind ewm(span).mean(), with weight (1 - alpha) per step back. */
  function EwmSums(s: seq<Cell>, q: real, i: nat): Weighted
    requires i < |s|
  {
    var x := if s[i].Num? then s[i].r else 0.0;
    if i == 0 then Weighted(x, 1.0)
    else EwmStep(x, EwmSums(s, q, i - 1), q)
  }

  function EwmStep(x: real, before: Weighted, q: real): Weighted {
    Weighted(x + q * before.num, 1.0 + q * before.den)
  }

  /** How much weight ewm(span) keeps per step: 1 - 2 / (span + 1). */
  function Decay(span: nat): (q: real)
    ensures span >= 1 ==> 0.0 <= q < 1.0
    ensures q == 0.0 <==> span == 1
  {
    1.0 - 2.0 / (span as real + 1.0)
  }

  function EwmOf(s: seq<Cell>, span: nat): (r: seq<Cell>)
    ensures |r| == |s|
  {
    seq(|s|, i requires 0 <= i < |s| => var w := EwmSums(s, Decay(span), i); Divide(w.num, w.den))
  }

  /** A whole column over a frame. */
  function ColumnOf(c: Column, rows: seq<Row>, lib: Lib): (r: seq<Cell>)
    ensures |r| == |rows|
  {
    Build(c, rows, lib)
  }

  function Build(c: Column, rows: seq<Row>, lib: Lib): (r: seq<Cell>)
    ensures |r| == |rows|
  {
    match c
    case Raw(col) => Values(rows, col)
    case Time(field) => seq(|rows|, i requires 0 <= i < |rows| => lib.clock(field, rows[i].ts))
    case Rolling(stat, col, w) => RollingOf(stat, Values(rows, col), w, lib)
    case ZScore(col, w) =>
      var s := Values(rows, col);
      var mean, std := RollingOf(Mean, s, w, lib), RollingOf(Std, s, w, lib);
      seq(|rows|, i requires 0 <= i < |rows| => Standardise(s[i], mean[i], std[i]))
    case ReturnsStd(col, w) => RollingOf(Std, PctChange(Values(rows, col), 1), w, lib)
    case Range(col, w) =>
      var s := Values(rows, col);
      var hi, lo := RollingOf(Max, s, w, lib), RollingOf(Min, s, w, lib);
      seq(|rows|, i requires 0 <= i < |rows| => Standardise(hi[i], lo[i], s[i]))
    case Ewm(col, span) => EwmOf(Values(rows, col), span)
    case Change(how, col, p) =>
      var s := Values(rows, col);
      (match how
       case Simple => PctChange(s, p)
       case Percent => var r := PctChange(s, p); seq(|rows|, i requires 0 <= i < |rows| => TimesHundred(r[i]))
       case Log => var e := Shift(s, p); seq(|rows|, i requires 0 <= i < |rows| => LogRatio(s[i], e[i], lib)))
    case Lag(of, k) => Shift(Build(of, rows, lib), k)
    case TargetReturn(col, h) => Shift(PctChange(Values(rows, col), h), 0 - h)
    case TargetValue(col, h) => Shift(Values(rows, col), 0 - h)
    case TargetDirection(col, h) =>
      var r := Shift(PctChange(Values(rows, col), h), 0 - h);
      seq(|rows|, i requires 0 <= i < |rows| => IsUp(r[i]))
  }

  // ----- how far a column looks -----

  /** Rows before the current one that a column reads. */
  function Back(c: Column): nat {
    match c
    case Rolling(_, _, w) => if w == 0 then 0 else w - 1
    case ZScore(_, w) => if w == 0 then 0 else w - 1
    case Range(_, w) => if w == 0 then 0 else w - 1
    case ReturnsStd(_, w) => if w == 0 then 0 else w
    case Change(_, _, p) => p
    case Lag(of, k) => Back(of) + k
    case _ => 0
  }

  /** Rows after the current one that a column reads. */
  function Ahead(c: Column): nat {
    match c
    case TargetReturn(_, h) => h
    case TargetValue(_, h) => h
    case TargetDirection(_, h) => h
    case Lag(of, k) => if Ahead(of) <= k then 0 else Ahead(of) - k
    case _ => 0
  }

  /** How many rows a column lags behind what it is finally taken from. */
  function Delay(c: Column): nat {
    match c
    case Lag(of, k) => Delay(of) + k
    case _ => 0
  }

  function Inner(c: Column): Column {
    match c
    case Lag(of, _) => Inner(of)
    case _ => c
  }

  /** Columns that read a fixed number of rows: all but exponentially weighted ones of a span above 1,
      lags of those, and lags too short for the target they are taken of. */
  predicate Finite(c: Column) {
    && (Inner(c).Ewm? ==> Inner(c).span == 1)
    && (c.Lag? ==> Ahead(Inner(c)) <= Delay(c))
  }

  /** What a lag reads: its delay added to, or taken from, what its source reads. */
  lemma {:induction false} LagReads(c: Column)
    ensures !Inner(c).Lag? && Back(c) == Back(Inner(c)) + Delay(c)
    ensures Ahead(c) == if Ahead(Inner(c)) <= Delay(c) then 0 else Ahead(Inner(c)) - Delay(c)
    ensures !c.Lag? ==> Inner(c) == c && Delay(c) == 0
  {
    if c.Lag? { LagReads(c.of); }
  }

  /** The cell of a row whose window leaves the frame: NaN, but 0 for the direction target. */
  function Missing(c: Column): Cell {
    if c.TargetDirection? then Num(0.0) else NaN
  }

  // ----- two frames, one cut out of the other -----

  /** `part`, a series over rows lo.. of the frame of `whole`, agrees with it wherever `back` rows
      before and `ahead` rows after are inside the part; outside it is NaN. */
  ghost predicate Local(part: seq<Cell>, whole: seq<Cell>, lo: nat, back: nat, ahead: nat) {
    && lo + |part| <= |whole|
    && forall j {:trigger part[j]} :: 0 <= j < |part| ==>
         part[j] == if back <= j < |part| - ahead then whole[lo + j] else NaN
  }

  lemma ValuesLocal(rows: seq<Row>, lo: nat, hi: nat, col: string)
    requires lo <= hi <= |rows|
    ensures Local(Values(rows[lo..hi], col), Values(rows, col), lo, 0, 0)
  {
  }

  lemma ShiftBackLocal(part: seq<Cell>, whole: seq<Cell>, lo: nat, back: nat, k: nat)
    requires Local(part, whole, lo, back, 0)
    ensures Local(Shift(part, k), Shift(whole, k), lo, back + k, 0)
  {
  }

  lemma ShiftAheadLocal(part: seq<Cell>, whole: seq<Cell>, lo: nat, back: nat, h: nat)
    requires Local(part, whole, lo, back, 0) && back <= h
    ensures Local(Shift(part, 0 - h), Shift(whole, 0 - h), lo, 0, h)
  {
    var p, w := Shift(part, 0 - h), Shift(whole, 0 - h);
    forall j | 0 <= j < |p| ensures p[j] == if j < |p| - h then w[lo + j] else NaN {
      if j < |p| - h {
        assert part[j + h] == whole[lo + j + h];
      }
    }
  }

  lemma PctChangeLocal(part: seq<Cell>, whole: seq<Cell>, lo: nat, p: nat)
    requires Local(part, whole, lo, 0, 0)
    ensures Local(PctChange(part, p), PctChange(whole, p), lo, p, 0)
  {
    hide Ratio;
    ShiftBackLocal(part, whole, lo, 0, p);
    var e, f := Shift(part, p), Shift(whole, p);
    forall j | 0 <= j < |part| ensures PctChange(part, p)[j] == if p <= j then PctChange(whole, p)[lo + j] else NaN {
      assert part[j] == whole[lo + j];
      assert e[j] == if p <= j then f[lo + j] else NaN;
      RatioNaN(part[j]);
    }
  }

  lemma RatioNaN(x: Cell)
    ensures Ratio(x, NaN) == NaN
  {
  }

  lemma RollingLocal(stat: Stat, part: seq<Cell>, whole: seq<Cell>, lo: nat, back: nat, w: nat, lib: Lib)
    requires Local(part, whole, lo, back, 0)
    ensures Local(RollingOf(stat, part, w, lib), RollingOf(stat, whole, w, lib), lo,
                  if w == 0 then 0 else back + w - 1, 0)
  {
    hide Aggregate;
    var p, q := RollingOf(stat, part, w, lib), RollingOf(stat, whole, w, lib);
    var need := if w == 0 then 0 else back + w - 1;
    forall j | 0 <= j < |p| ensures p[j] == if need <= j then q[lo + j] else NaN {
      if j + 1 >= w {
        var a, b := part[j + 1 - w..j + 1], whole[lo + j + 1 - w..lo + j + 1];
        if need <= j {
          forall k | 0 <= k < w ensures a[k] == b[k] {
            assert a[k] == part[j + 1 - w + k];
          }
          assert a == b;
        } else {
          assert a[0] == part[j + 1 - w] == NaN;
          assert !AllNumbers(a);
        }
      }
    }
  }

  /** The two series behind a change column, read at one row. */
  lemma ChangePartsLocal(rows: seq<Row>, lo: nat, hi: nat, col: string, p: nat, g: nat)
    requires lo <= g < hi <= |rows|
    ensures var part, whole := Values(rows[lo..hi], col), Values(rows, col);
            && part[g - lo] == whole[g]
            && PctChange(part, p)[g - lo] == (if g - p < lo then NaN else PctChange(whole, p)[g])
            && Shift(part, p)[g - lo] == (if g - p < lo then NaN else Shift(whole, p)[g])
  {
    hide Values, PctChange, Shift;
    var part, whole := Values(rows[lo..hi], col), Values(rows, col);
    ValuesLocal(rows, lo, hi, col);
    PctChangeLocal(part, whole, lo, p);
    ShiftBackLocal(part, whole, lo, 0, p);
    var j := g - lo;
    assert part[j] == whole[lo + j];
    assert PctChange(part, p)[j] == if p <= j then PctChange(whole, p)[lo + j] else NaN;
    assert Shift(part, p)[j] == if p <= j then Shift(whole, p)[lo + j] else NaN;
  }

  lemma ChangeLocal(how: Scale, rows: seq<Row>, lo: nat, hi: nat, col: string, p: nat, lib: Lib, g: nat)
    requires lo <= g < hi <= |rows|
    ensures ColumnOf(Change(how, col, p), rows[lo..hi], lib)[g - lo]
         == if g - p < lo then NaN else ColumnOf(Change(how, col, p), rows, lib)[g]
  {
    hide Divide, Values, PctChange, Shift;
    ChangePartsLocal(rows, lo, hi, col, p, g);
  }

  lemma RollingPairLocal(a: Stat, b: Stat, rows: seq<Row>, lo: nat, hi: nat, col: string, w: nat, lib: Lib, g: nat)
    requires lo <= g < hi <= |rows|
    ensures var part, whole := Values(rows[lo..hi], col), Values(rows, col);
            var need := if w == 0 then 0 else w - 1;
            && part[g - lo] == whole[g]
            && RollingOf(a, part, w, lib)[g - lo] == (if g - need < lo then NaN else RollingOf(a, whole, w, lib)[g])
            && RollingOf(b, part, w, lib)[g - lo] == (if g - need < lo then NaN else RollingOf(b, whole, w, lib)[g])
  {
    hide RollingOf, Values;
    var part, whole := Values(rows[lo..hi], col), Values(rows, col);
    ValuesLocal(rows, lo, hi, col);
    RollingLocal(a, part, whole, lo, 0, w, lib);
    RollingLocal(b, part, whole, lo, 0, w, lib);
    var j := g - lo;
    assert RollingOf(a, part, w, lib)[j] == RollingOf(a, part, w, lib)[g - lo];
    assert RollingOf(b, part, w, lib)[j] == RollingOf(b, part, w, lib)[g - lo];
    assert part[j] == whole[lo + j];
  }

  lemma TargetReturnLocal(rows: seq<Row>, lo: nat, hi: nat, col: string, h: nat, lib: Lib, g: nat)
    requires lo <= g < hi <= |rows|
    ensures ColumnOf(TargetReturn(col, h), rows[lo..hi], lib)[g - lo]
         == if g + h >= hi then NaN else ColumnOf(TargetReturn(col, h), rows, lib)[g]
  {
    hide PctChange, Shift, Values;
    var part, whole := Values(rows[lo..hi], col), Values(rows, col);
    ValuesLocal(rows, lo, hi, col);
    PctChangeLocal(part, whole, lo, h);
    ShiftAheadLocal(PctChange(part, h), PctChange(whole, h), lo, h, h);
    var r, q := ColumnOf(TargetReturn(col, h), rows[lo..hi], lib), ColumnOf(TargetReturn(col, h), rows, lib);
    assert r[g - lo] == if g - lo < |r| - h then q[lo + (g - lo)] else NaN;
  }

  lemma TargetValueLocal(rows: seq<Row>, lo: nat, hi: nat, col: string, h: nat, lib: Lib, g: nat)
    requires lo <= g < hi <= |rows|
    ensures ColumnOf(TargetValue(col, h), rows[lo..hi], lib)[g - lo]
         == if g + h >= hi then NaN else ColumnOf(TargetValue(col, h), rows, lib)[g]
  {
    hide Shift, Values;
    ValuesLocal(rows, lo, hi, col);
    ShiftAheadLocal(Values(rows[lo..hi], col), Values(rows, col), lo, 0, h);
    var v, u := ColumnOf(TargetValue(col, h), rows[lo..hi], lib), ColumnOf(TargetValue(col, h), rows, lib);
    assert v[g - lo] == if g - lo < |v| - h then u[lo + (g - lo)] else NaN;
  }

  lemma ReturnsStdLocal(rows: seq<Row>, lo: nat, hi: nat, col: string, w: nat, lib: Lib, g: nat)
    requires lo <= g < hi <= |rows|
    ensures ColumnOf(ReturnsStd(col, w), rows[lo..hi], lib)[g - lo]
         == if g - Back(ReturnsStd(col, w)) < lo then NaN else ColumnOf(ReturnsStd(col, w), rows, lib)[g]
  {
    var part, whole := Values(rows[lo..hi], col), Values(rows, col);
    ValuesLocal(rows, lo, hi, col);
    PctChangeLocal(part, whole, lo, 1);
    RollingLocal(Std, PctChange(part, 1), PctChange(whole, 1), lo, 1, w, lib);
    var r, q := ColumnOf(ReturnsStd(col, w), rows[lo..hi], lib), ColumnOf(ReturnsStd(col, w), rows, lib);
    assert r[g - lo] == if Back(ReturnsStd(col, w)) <= g - lo then q[lo + (g - lo)] else NaN;
  }

  lemma LagAt(of: Column, rows: seq<Row>, k: nat, lib: Lib, i: nat)
    requires i < |rows|
    ensures ColumnOf(Lag(of, k), rows, lib)[i] == if i < k then NaN else ColumnOf(of, rows, lib)[i - k]
  {
  }

  lemma {:induction false} LagsAdd(c: Column, rows: seq<Row>, lib: Lib, j: nat)
    requires j < |rows|
    ensures ColumnOf(c, rows, lib)[j] == if j < Delay(c) then NaN else ColumnOf(Inner(c), rows, lib)[j - Delay(c)]
  {
    hide ColumnOf;
    if c.Lag? {
      LagAt(c.of, rows, c.periods, lib, j);
      if c.periods <= j { LagsAdd(c.of, rows, lib, j - c.periods); }
    }
  }

  lemma {:induction false} InnerIsTarget(c: Column)
    requires Ahead(c) > 0
    ensures Inner(c).TargetReturn? || Inner(c).TargetValue? || Inner(c).TargetDirection?
    ensures Inner(c).horizon == Ahead(Inner(c)) == Ahead(c) + Delay(c)
  {
    if c.Lag? { InnerIsTarget(c.of); }
  }

  /** With span 1 a weighted column is its own input, so a cut changes nothing. */
  lemma EwmOnCut(rows: seq<Row>, lo: nat, hi: nat, col: string, lib: Lib, g: nat)
    requires lo <= g < hi <= |rows|
    ensures ColumnOf(Ewm(col, 1), rows[lo..hi], lib)[g - lo] == ColumnOf(Ewm(col, 1), rows, lib)[g]
  {
    hide ColumnOf;
    EwmNoLookAhead(rows, hi, col, 1, lib, g);
    if lo > 0 {
      EwmSurvivesCut(rows[..hi], col, 1, lib, lo, g);
      assert rows[..hi][lo..] == rows[lo..hi];
    } else {
      assert rows[..hi] == rows[lo..hi];
    }
  }

  /** Columns that apply one formula per row to the values and to rolling statistics of them. */
  lemma PlainOnCut(c: Column, rows: seq<Row>, lo: nat, hi: nat, lib: Lib, g: nat)
    requires c.Raw? || c.Time? || c.Rolling? || c.ZScore? || c.Range?
    requires lo <= g < hi <= |rows|
    ensures ColumnOf(c, rows[lo..hi], lib)[g - lo] == if g - Back(c) < lo then NaN else ColumnOf(c, rows, lib)[g]
  {
    hide RollingOf, Values, Divide;
    match c
    case Raw(col) => RollingPairLocal(Mean, Mean, rows, lo, hi, col, 0, lib, g);
    case Time(_) =>
    case Rolling(stat, col, w) => RollingPairLocal(stat, stat, rows, lo, hi, col, w, lib, g);
    case ZScore(col, w) => RollingPairLocal(Mean, Std, rows, lo, hi, col, w, lib, g);
    case Range(col, w) => RollingPairLocal(Max, Min, rows, lo, hi, col, w, lib, g);
  }

  lemma DirectionAt(rows: seq<Row>, col: string, h: nat, lib: Lib, i: nat)
    requires i < |rows|
    ensures ColumnOf(TargetDirection(col, h), rows, lib)[i] == IsUp(ColumnOf(TargetReturn(col, h), rows, lib)[i])
  {
  }

  /** Computed on any contiguous cut of the rows, a finite column's cell is the one of the whole
      frame when the cut holds the rows it reads, and is missing otherwise. */
  lemma {:induction false} CellOnCut(c: Column, rows: seq<Row>, lo: nat, hi: nat, lib: Lib, g: nat)
    requires Finite(c) && lo <= g < hi <= |rows|
    ensures ColumnOf(c, rows[lo..hi], lib)[g - lo]
         == if g - Back(c) < lo || g + Ahead(c) >= hi then Missing(c) else ColumnOf(c, rows, lib)[g]
    decreases if c.Lag? then 1 else 0
  {
    hide ColumnOf;
    match c
    case ReturnsStd(col, w) => ReturnsStdLocal(rows, lo, hi, col, w, lib, g);
    case Change(how, col, p) => ChangeLocal(how, rows, lo, hi, col, p, lib, g);
    case Ewm(col, _) => EwmOnCut(rows, lo, hi, col, lib, g);
    case Lag(_, _) =>
      LagReads(c);
      LagsAdd(c, rows[lo..hi], lib, g - lo);
      LagsAdd(c, rows, lib, g);
      if lo <= g - Delay(c) { CellOnCut(Inner(c), rows, lo, hi, lib, g - Delay(c)); }
    case TargetReturn(col, h) => TargetReturnLocal(rows, lo, hi, col, h, lib, g);
    case TargetValue(col, h) => TargetValueLocal(rows, lo, hi, col, h, lib, g);
    case TargetDirection(col, h) =>
      TargetReturnLocal(rows, lo, hi, col, h, lib, g);
      DirectionAt(rows[lo..hi], col, h, lib, g - lo);
      DirectionAt(rows, col, h, lib, g);
    case _ => PlainOnCut(c, rows, lo, hi, lib, g);
  }

  // ----- no look-ahead -----

  lemma {:induction false} EwmPrefix(rows: seq<Row>, n: nat, col: string, q: real, i: nat)
    requires i < n <= |rows|
    ensures EwmSums(Values(rows[..n], col), q, i) == EwmSums(Values(rows, col), q, i)
  {
    if i > 0 { EwmPrefix(rows, n, col, q, i - 1); }
  }

  lemma EwmNoLookAhead(rows: seq<Row>, n: nat, col: string, span: nat, lib: Lib, i: nat)
    requires i < n <= |rows|
    ensures ColumnOf(Ewm(col, span), rows[..n], lib)[i] == ColumnOf(Ewm(col, span), rows, lib)[i]
  {
    hide Values, EwmSums, Decay;
    EwmPrefix(rows, n, col, Decay(span), i);
  }

  /** No column but a target, or a lag short of one, reads a later row: computed on any prefix of the
      rows, a cell is the whole frame's as soon as the prefix holds the rows it reads ahead, and
      missing, or a lag of something missing, before. */
  lemma {:induction false} NoLookAhead(c: Column, rows: seq<Row>, n: nat, lib: Lib, i: nat)
    requires i < n <= |rows|
    ensures i + Ahead(c) < n ==> ColumnOf(c, rows[..n], lib)[i] == ColumnOf(c, rows, lib)[i]
    ensures i + Ahead(c) >= n && !c.Lag? ==> ColumnOf(c, rows[..n], lib)[i] == Missing(c)
  {
    hide ColumnOf;
    if c.Lag? {
      LagAt(c.of, rows[..n], c.periods, lib, i);
      LagAt(c.of, rows, c.periods, lib, i);
      if c.periods <= i { NoLookAhead(c.of, rows, n, lib, i - c.periods); }
    } else if c.Ewm? {
      EwmNoLookAhead(rows, n, c.col, c.span, lib, i);
    } else {
      CellOnCut(c, rows, 0, n, lib, i);
      CellOnCut(c, rows, 0, |rows|, lib, i);
      assert rows[0..|rows|] == rows && rows[0..n] == rows[..n];
    }
  }

  lemma PctChangeAt(s: seq<Cell>, p: nat, i: nat)
    requires i < |s|
    ensures PctChange(s, p)[i] == if i >= p then Ratio(s[i], s[i - p]) else NaN
  {
    hide Ratio;
    RatioNaN(s[i]);
  }

  /** A target at row i is a function of the values at rows i and i + horizon alone. */
  lemma TargetReadsTwoRows(rows: seq<Row>, col: string, h: nat, lib: Lib, i: nat)
    requires i < |rows|
    ensures var s := Values(rows, col);
            var future := if i + h < |rows| then Ratio(s[i + h], s[i]) else NaN;
            && ColumnOf(TargetReturn(col, h), rows, lib)[i] == future
            && ColumnOf(TargetValue(col, h), rows, lib)[i] == (if i + h < |rows| then s[i + h] else NaN)
            && ColumnOf(TargetDirection(col, h), rows, lib)[i] == IsUp(future)
  {
    hide Ratio, Values, PctChange;
    var s := Values(rows, col);
    if i + h < |rows| { PctChangeAt(s, h, i + h); }
  }

  // ----- the exponentially weighted column -----

  lemma {:induction false} EwmDenominator(s: seq<Cell>, q: real, i: nat)
    requires i < |s| && q >= 0.0
    ensures EwmSums(s, q, i).den >= 1.0
  {
    if i > 0 {
      EwmDenominator(s, q, i - 1);
      MulMono(0.0, EwmSums(s, q, i - 1).den, q);
    }
  }

  /** Cutting off the first `cut` rows removes their decayed sums. */
  lemma {:induction false} EwmCut(s: seq<Cell>, q: real, cut: nat, i: nat)
    requires 0 < cut <= i < |s|
    ensures EwmSums(s, q, i)
         == Decayed(EwmSums(s[cut..], q, i - cut), Pow(q, i - cut + 1), EwmSums(s, q, cut - 1))
  {
    hide Pow, EwmStep, Decayed;
    var x := if s[i].Num? then s[i].r else 0.0;
    var head := EwmSums(s, q, cut - 1);
    if i == cut {
      FirstDecay(x, head, q);
    } else {
      EwmCut(s, q, cut, i - 1);
      NextDecay(x, EwmSums(s[cut..], q, i - 1 - cut), head, q, i - cut);
    }
  }

  function Decayed(part: Weighted, p: real, head: Weighted): Weighted {
    Weighted(part.num + p * head.num, part.den + p * head.den)
  }

  lemma FirstDecay(x: real, head: Weighted, q: real)
    ensures EwmStep(x, head, q) == Decayed(Weighted(x, 1.0), Pow(q, 1), head)
  {
    hide Pow;
    PowStep(q, 1);
    StepIsDecay(x, head, q);
  }

  lemma StepIsDecay(x: real, head: Weighted, q: real)
    ensures EwmStep(x, head, q) == Decayed(Weighted(x, 1.0), q, head)
  {
  }

  lemma NextDecay(x: real, part: Weighted, head: Weighted, q: real, n: nat)
    requires n >= 1
    ensures EwmStep(x, Decayed(part, Pow(q, n), head), q) == Decayed(EwmStep(x, part, q), Pow(q, n + 1), head)
  {
    hide Pow, Decayed, EwmStep;
    PowStep(q, n + 1);
    assert Pow(q, n + 1) == q * Pow(q, n);
    DecayTwice(x, part, head, q, Pow(q, n), Pow(q, n + 1));
  }

  lemma Distribute(x: real, q: real, a: real, p: real, h: real, r: real)
    requires r == q * p
    ensures x + q * (a + p * h) == (x + q * a) + r * h
  {
    assert q * (a + p * h) == q * a + q * (p * h);
    assert q * (p * h) == (q * p) * h;
  }

  lemma DecayTwice(x: real, part: Weighted, head: Weighted, q: real, p: real, r: real)
    requires r == q * p
    ensures EwmStep(x, Decayed(part, p, head), q) == Decayed(EwmStep(x, part, q), r, head)
  {
    Distribute(x, q, part.num, p, head.num, r);
    Distribute(1.0, q, part.den, p, head.den, r);
  }

  lemma {:induction false} PowPositive(q: real, n: nat)
    requires q > 0.0
    ensures Pow(q, n) > 0.0
  {
    if n > 0 {
      PowPositive(q, n - 1);
      ProductPositive(q, Pow(q, n - 1));
    }
  }

  lemma CrossEqual(a: real, b: real, c: real, d: real)
    requires b > 0.0 && d > 0.0
    ensures a / b == c / d <==> a * d == c * b
  {
    DivideBack(a, b);
    DivideBack(c, d);
    var x, y := a / b, c / d;
    assert a * d == (x * b) * d == x * (b * d);
    assert c * b == (y * d) * b == y * (b * d);
    ProductPositive(b, d);
    if x != y {
      NonZeroProduct(x - y, b * d);
      assert (x - y) * (b * d) == x * (b * d) - y * (b * d);
    }
  }

  /** Mixing a share p of one average into another leaves it unchanged exactly when the share is
      zero or the averages were equal. */
  lemma MixUnchanged(a: real, b: real, h0: real, h1: real, p: real)
    requires b > 0.0 && h1 > 0.0 && p >= 0.0
    ensures b + p * h1 > 0.0
    ensures (a + p * h0) / (b + p * h1) == a / b <==> p == 0.0 || h0 / h1 == a / b
  {
    MulMono(0.0, p, h1);
    var d := b + p * h1;
    CrossEqual(a + p * h0, d, a, b);
    CrossEqual(h0, h1, a, b);
    var u, v := h0 * b, a * h1;
    assert (a + p * h0) * b == a * b + p * u;
    assert a * d == a * b + p * v;
    assert p * (u - v) == p * u - p * v;
    if p != 0.0 && u != v { NonZeroProduct(p, u - v); }
    if u == v { assert p * u == p * v; }
  }

  lemma ValuesCut(rows: seq<Row>, col: string, cut: nat)
    requires cut <= |rows|
    ensures Values(rows, col)[cut..] == Values(rows[cut..], col)
  {
  }

  /** An exponentially weighted cell survives a cut of the rows before it exactly when the span is
      1, or the average of the dropped rows happens to equal the cell. */
  lemma EwmSurvivesCut(rows: seq<Row>, col: string, span: nat, lib: Lib, cut: nat, i: nat)
    requires span >= 1 && 0 < cut <= i < |rows|
    ensures ColumnOf(Ewm(col, span), rows[cut..], lib)[i - cut] == ColumnOf(Ewm(col, span), rows, lib)[i]
            <==> span == 1
                 || ColumnOf(Ewm(col, span), rows, lib)[cut - 1] == ColumnOf(Ewm(col, span), rows[cut..], lib)[i - cut]
  {
    hide EwmSums, Pow, Decay, Values;
    var s, q := Values(rows, col), Decay(span);
    ValuesCut(rows, col, cut);
    var part, p, head := EwmSums(s[cut..], q, i - cut), Pow(q, i - cut + 1), EwmSums(s, q, cut - 1);
    EwmCut(s, q, cut, i);
    EwmDenominator(s[cut..], q, i - cut);
    EwmDenominator(s, q, cut - 1);
    PowBounds(q, i - cut + 1);
    if q == 0.0 { PowStep(q, i - cut + 1); } else { PowPositive(q, i - cut + 1); }
    MixUnchanged(part.num, part.den, head.num, head.den, p);
  }

  /** Every weighted cell survives every cut exactly when the span is 1. */
  lemma EwmSurvivesExactly(col: string, span: nat, lib: Lib)
    requires span >= 1
    ensures (forall rows: seq<Row>, cut: nat, i: nat | cut <= i < |rows| ::
               ColumnOf(Ewm(col, span), rows[cut..], lib)[i - cut] == ColumnOf(Ewm(col, span), rows, lib)[i])
            <==> span == 1
  {
    hide ColumnOf;
    if span == 1 {
      forall rows: seq<Row>, cut: nat, i: nat | cut <= i < |rows|
        ensures ColumnOf(Ewm(col, span), rows[cut..], lib)[i - cut] == ColumnOf(Ewm(col, span), rows, lib)[i]
      {
        assert rows[cut..] == rows[cut..|rows|];
        EwmOnCut(rows, cut, |rows|, col, lib, i);
      }
    } else {
      var rows := [Row(0, map[col := 1.0]), Row(1, map[col := 0.0])];
      EwmSurvivesCut(rows, col, span, lib, 1, 1);
      EwmFirst(rows, col, span, lib);
      EwmFirst(rows[1..], col, span, lib);
      assert ColumnOf(Ewm(col, span), rows[1..], lib)[1 - 1] != ColumnOf(Ewm(col, span), rows, lib)[1];
    }
  }

  lemma EwmFirst(rows: seq<Row>, col: string, span: nat, lib: Lib)
    requires span >= 1 && rows != [] && col in rows[0].data
    ensures ColumnOf(Ewm(col, span), rows, lib)[0] == Num(rows[0].data[col])
  {
    hide Decay;
  }
}
