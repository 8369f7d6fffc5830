/** What each column of the batch job is a number of, stated on the raw rows. */
module FrameMeaning {
  import opened Series
  import opened Frames

  /** The rows from `from` up to `to` hold the column. */
  predicate Has(rows: seq<Row>, col: string, from: int, to: int) {
    0 <= from && to <= |rows| && forall j :: from <= j < to ==> col in rows[j].data
  }

  /** The values of the w rows that end at row i. */
  function Window(rows: seq<Row>, col: string, i: nat, w: nat): (s: seq<real>)
    requires Has(rows, col, i + 1 - w, i + 1)
    ensures |s| == w
  {
    seq(w, j requires 0 <= j < w => rows[i + 1 - w + j].data[col])
  }

  lemma RawCell(rows: seq<Row>, col: string, lib: Lib, i: nat)
    requires i < |rows|
    ensures ColumnOf(Raw(col), rows, lib)[i] == if col in rows[i].data then Num(rows[i].data[col]) else NaN
  {
  }

  lemma TimeCell(rows: seq<Row>, field: string, lib: Lib, i: nat)
    requires i < |rows|
    ensures ColumnOf(Time(field), rows, lib)[i] == lib.clock(field, rows[i].ts)
  {
  }

  // ----- one window -----

  lemma WindowNumbers(rows: seq<Row>, col: string, i: nat, w: nat)
    requires i < |rows| && w <= i + 1
    ensures var part := Values(rows, col)[i + 1 - w..i + 1];
            && (AllNumbers(part) <==> Has(rows, col, i + 1 - w, i + 1))
            && (AllNumbers(part) ==> Numbers(part) == Window(rows, col, i, w))
  {
    var part := Values(rows, col)[i + 1 - w..i + 1];
    if AllNumbers(part) {
      forall j | i + 1 - w <= j < i + 1 ensures col in rows[j].data {
        assert part[j - (i + 1 - w)].Num?;
      }
    }
  }

  /** A rolling statistic is the statistic of the window's values, missing while the window is not
      full or a row lacks the value. */
  lemma RollingCell(stat: Stat, rows: seq<Row>, col: string, w: nat, lib: Lib, i: nat)
    requires i < |rows| && w >= 1
    ensures RollingOf(stat, Values(rows, col), w, lib)[i] ==
            if Has(rows, col, i + 1 - w, i + 1) then Aggregate(stat, Window(rows, col, i, w), lib) else NaN
  {
    hide Aggregate;
    if i + 1 >= w { WindowNumbers(rows, col, i, w); }
  }

  // ----- the statistics -----

  /** m is the least value of the series. */
  predicate IsLeast(m: real, s: seq<real>) {
    m in s && forall x :: x in s ==> m <= x
  }

  predicate IsGreatest(m: real, s: seq<real>) {
    m in s && forall x :: x in s ==> x <= m
  }

  /** d is the sample deviation of the series, with divisor |s| - 1. */
  predicate IsSampleDeviation(d: real, s: seq<real>)
    requires |s| >= 2
  {
    && d >= 0.0
    && d * d * (|s| as real - 1.0) == SquaredDistances(s, Sum(s) / |s| as real)
    && (d == 0.0 <==> Constant(s))
  }

  lemma {:induction false} MinIsLeast(s: seq<real>)
    requires s != []
    ensures IsLeast(MinOf(s), s)
  {
    if |s| > 1 {
      MinIsLeast(s[1..]);
      assert s == [s[0]] + s[1..];
    }
  }

  lemma {:induction false} MaxIsGreatest(s: seq<real>)
    requires s != []
    ensures IsGreatest(MaxOf(s), s)
  {
    if |s| > 1 {
      MaxIsGreatest(s[1..]);
      assert s == [s[0]] + s[1..];
    }
  }

  lemma MeanOfAll(s: seq<real>, lib: Lib)
    requires s != []
    ensures var cell := Aggregate(Mean, s, lib);
            && cell.Num? && cell.r * |s| as real == Sum(s)
            && forall lo, hi :: IsLeast(lo, s) && IsGreatest(hi, s) ==> lo <= cell.r <= hi
  {
    hide Sum;
    var m := Sum(s) / |s| as real;
    DivideBack(Sum(s), |s| as real);
    forall lo, hi | IsLeast(lo, s) && IsGreatest(hi, s) ensures lo <= m <= hi {
      MeanBetween(s, m, lo, hi);
    }
  }

  lemma MeanBetween(s: seq<real>, m: real, lo: real, hi: real)
    requires s != [] && m * |s| as real == Sum(s) && IsLeast(lo, s) && IsGreatest(hi, s)
    ensures lo <= m <= hi
  {
    hide Sum;
    forall k | 0 <= k < |s| ensures lo <= s[k] <= hi {
      assert s[k] in s;
    }
    SumBounds(s, lo, hi);
    Between(lo, m, hi, |s| as real);
  }

  lemma Between(lo: real, m: real, hi: real, n: real)
    requires n > 0.0 && lo * n <= m * n <= hi * n
    ensures lo <= m <= hi
  {
    PositiveSide(m - lo, n);
    PositiveSide(hi - m, n);
  }

  lemma PositiveSide(d: real, n: real)
    requires n > 0.0 && d * n >= 0.0
    ensures d >= 0.0
  {
    if d < 0.0 { ProductPositive(0.0 - d, n); }
  }

  lemma StdOf(s: seq<real>, lib: Lib)
    requires IsSqrt(lib.sqrt) && s != []
    ensures |s| == 1 ==> Aggregate(Std, s, lib).NaN?
    ensures |s| >= 2 ==> Aggregate(Std, s, lib).Num? && IsSampleDeviation(Aggregate(Std, s, lib).r, s)
  {
    hide SquaredDistances, Sum;
    if |s| >= 2 {
      var n := |s| as real;
      var q := SquaredDistances(s, Sum(s) / n);
      QuotientVanishes(q, n - 1.0);
      RootFacts(lib.sqrt, q / (n - 1.0));
      RootVanishes(lib.sqrt, q / (n - 1.0));
      DivideBack(q, n - 1.0);
      SpreadVanishes(s);
    }
  }

  /** The positions of values below, or equal to, x. */
  function Below(s: seq<real>, x: real): set<nat> {
    set j: nat | j < |s| && s[j] < x
  }

  function Ties(s: seq<real>, x: real): set<nat> {
    set j: nat | j < |s| && s[j] == x
  }

  lemma {:induction false} CountsArePositions(s: seq<real>, x: real)
    ensures CountBelow(s, x) == |Below(s, x)| && CountEqual(s, x) == |Ties(s, x)|
  {
    if s != [] {
      var rest := s[1..];
      CountsArePositions(rest, x);
      Shifted(s, x);
    }
  }

  function Up(p: set<nat>): set<nat> {
    set j | j in p :: j + 1
  }

  lemma {:induction false} UpSize(p: set<nat>)
    ensures |Up(p)| == |p|
  {
    if p != {} {
      var j :| j in p;
      UpSize(p - {j});
      forall k: nat ensures k in Up(p) <==> k in Up(p - {j}) + {j + 1} {
        InUp(p, k);
        InUp(p - {j}, k);
      }
      assert Up(p) == Up(p - {j}) + {j + 1};
      InUp(p - {j}, j + 1);
    }
  }

  lemma Shifted(s: seq<real>, x: real)
    requires s != []
    ensures |Below(s, x)| == |Below(s[1..], x)| + if s[0] < x then 1 else 0
    ensures |Ties(s, x)| == |Ties(s[1..], x)| + if s[0] == x then 1 else 0
  {
    UpSize(Below(s[1..], x));
    UpSize(Ties(s[1..], x));
    ShiftedSets(s, x);
  }

  lemma InUp(p: set<nat>, j: nat)
    ensures j in Up(p) <==> j > 0 && j - 1 in p
  {
    if j > 0 && j - 1 in p { assert (j - 1) + 1 in Up(p); }
  }

  lemma ShiftedSets(s: seq<real>, x: real)
    requires s != []
    ensures Below(s, x) == Up(Below(s[1..], x)) + (if s[0] < x then {0} else {})
    ensures Ties(s, x) == Up(Ties(s[1..], x)) + (if s[0] == x then {0} else {})
    ensures 0 !in Up(Below(s[1..], x)) && 0 !in Up(Ties(s[1..], x))
  {
    hide Up;
    InUp(Below(s[1..], x), 0);
    InUp(Ties(s[1..], x), 0);
    forall j: nat ensures j in Below(s, x) <==> j in Up(Below(s[1..], x)) + (if s[0] < x then {0} else {}) {
      InUp(Below(s[1..], x), j);
    }
    forall j: nat ensures j in Ties(s, x) <==> j in Up(Ties(s[1..], x)) + (if s[0] == x then {0} else {}) {
      InUp(Ties(s[1..], x), j);
    }
  }

  /** The percentile rank of the newest value: the values below it and half of its ties, itself
      included, over the window. */
  lemma RankOf(s: seq<real>, lib: Lib)
    requires s != []
    ensures var cell, x := Aggregate(PctRank, s, lib), s[|s| - 1];
            && cell.Num? && 0.0 < cell.r <= 1.0
            && cell.r * |s| as real == |Below(s, x)| as real + (|Ties(s, x)| as real + 1.0) / 2.0
  {
    hide Below, Ties;
    var x := s[|s| - 1];
    CountsArePositions(s, x);
    RankFits(s);
    var below, ties, n := |Below(s, x)|, |Ties(s, x)|, |s|;
    RankShare(below, ties, n);
  }

  lemma RankFits(s: seq<real>)
    requires s != []
    ensures var x := s[|s| - 1]; |Ties(s, x)| >= 1 && |Below(s, x)| + |Ties(s, x)| <= |s|
  {
    var x := s[|s| - 1];
    assert |s| - 1 in Ties(s, x);
    assert |Ties(s, x)| >= 1 by { assert Ties(s, x) != {}; }
    assert Below(s, x) !! Ties(s, x);
    Positions(Below(s, x) + Ties(s, x), |s|);
    assert |Below(s, x) + Ties(s, x)| == |Below(s, x)| + |Ties(s, x)|;
  }

  lemma RankShare(below: nat, ties: nat, n: nat)
    requires ties >= 1 && below + ties <= n
    ensures var top := below as real + (ties as real + 1.0) / 2.0;
            0.0 < top / n as real <= 1.0 && top / n as real * n as real == top
  {
    var top := below as real + (ties as real + 1.0) / 2.0;
    assert 0.0 < top <= n as real;
    ShareBounds(top, n as real);
    DivideBack(top, n as real);
  }

  lemma {:induction false} Positions(p: set<nat>, n: nat)
    requires forall j :: j in p ==> j < n
    ensures |p| <= n
  {
    if n == 0 {
      assert p == {};
    } else {
      Positions(p - {n - 1}, n - 1);
    }
  }

  lemma ShareBounds(a: real, n: real)
    requires 0.0 < a <= n
    ensures 0.0 < a / n <= 1.0
  {
    var q := a / n;
    DivideBack(a, n);
    assert 0.0 * n == 0.0 && 1.0 * n == n;
    Between(0.0, q, 1.0, n);
    QuotientVanishes(a, n);
  }

  // ----- the columns -----

  /** rolling_min, rolling_max, rolling_mean, rolling_std, rolling_median and pctrank of the w values
      that end at row i; missing while there are not so many. */
  lemma RollingColumn(rows: seq<Row>, col: string, w: nat, lib: Lib, i: nat)
    requires i < |rows| && w >= 1 && IsSqrt(lib.sqrt) && Has(rows, col, i + 1 - w, i + 1)
    ensures var s := Window(rows, col, i, w);
            var min, max := ColumnOf(Rolling(Min, col, w), rows, lib)[i], ColumnOf(Rolling(Max, col, w), rows, lib)[i];
            var mean, std := ColumnOf(Rolling(Mean, col, w), rows, lib)[i], ColumnOf(Rolling(Std, col, w), rows,
                                                            lib)[i];
            && min.Num? && IsLeast(min.r, s) && max.Num? && IsGreatest(max.r, s)
            && mean.Num? && mean.r * w as real == Sum(s) && min.r <= mean.r <= max.r
            && (if w == 1 then std.NaN? else std.Num? && IsSampleDeviation(std.r, s))
            && ColumnOf(Rolling(Median, col, w), rows, lib)[i] == lib.median(s)
  {
    hide ColumnOf, Aggregate, SquaredDistances, Sum, IsSampleDeviation, IsSqrt;
    var s := Window(rows, col, i, w);
    forall stat ensures ColumnOf(Rolling(stat, col, w), rows, lib)[i] == Aggregate(stat, s, lib) {
      StatColumn(stat, rows, col, w, lib, i);
    }
    Extremes(s, lib);
    MeanOfAll(s, lib);
    StdOf(s, lib);
  }

  lemma Extremes(s: seq<real>, lib: Lib)
    requires s != []
    ensures var min, max := Aggregate(Min, s, lib), Aggregate(Max, s, lib);
            min.Num? && IsLeast(min.r, s) && max.Num? && IsGreatest(max.r, s)
    ensures Aggregate(Median, s, lib) == lib.median(s)
  {
    MinIsLeast(s);
    MaxIsGreatest(s);
  }

  lemma StatColumn(stat: Stat, rows: seq<Row>, col: string, w: nat, lib: Lib, i: nat)
    requires i < |rows| && w >= 1
    ensures ColumnOf(Rolling(stat, col, w), rows, lib)[i] ==
            if Has(rows, col, i + 1 - w, i + 1) then Aggregate(stat, Window(rows, col, i, w), lib) else NaN
  {
    hide RollingOf, Values, Aggregate;
    RollingCell(stat, rows, col, w, lib, i);
  }

  /** While there are not so many values every rolling statistic is missing. */
  lemma RollingMissing(stat: Stat, rows: seq<Row>, col: string, w: nat, lib: Lib, i: nat)
    requires i < |rows| && w >= 1 && !Has(rows, col, i + 1 - w, i + 1)
    ensures ColumnOf(Rolling(stat, col, w), rows, lib)[i].NaN?
  {
    hide ColumnOf, Aggregate;
    StatColumn(stat, rows, col, w, lib, i);
  }

  lemma RankColumn(rows: seq<Row>, col: string, w: nat, lib: Lib, i: nat)
    requires i < |rows| && w >= 1 && Has(rows, col, i + 1 - w, i + 1)
    ensures var cell, s, x := ColumnOf(Rolling(PctRank, col, w), rows, lib)[i], Window(rows, col, i,
                                                            w), rows[i].data[col];
            && cell.Num? && 0.0 < cell.r <= 1.0
            && cell.r * w as real == |Below(s, x)| as real + (|Ties(s, x)| as real + 1.0) / 2.0
  {
    hide ColumnOf, Aggregate, Below, Ties;
    StatColumn(PctRank, rows, col, w, lib, i);
    RankOf(Window(rows, col, i, w), lib);
  }

  /** The z-score: how many deviations the value lies above the mean; missing when all are equal. */
  lemma ZScoreColumn(rows: seq<Row>, col: string, w: nat, lib: Lib, i: nat)
    requires i < |rows| && w >= 2 && IsSqrt(lib.sqrt) && Has(rows, col, i + 1 - w, i + 1)
    ensures var z, s, x := ColumnOf(ZScore(col, w), rows, lib)[i], Window(rows, col, i, w), rows[i].data[col];
            var mean := Sum(s) / w as real;
            && (z.NaN? <==> Constant(s))
            && (!Constant(s) ==>
                  && z.Num? && (exists d :: d > 0.0 && IsSampleDeviation(d, s) && z.r * d == x - mean)
                  && (z.r > 0.0 <==> x > mean) && (z.r < 0.0 <==> x < mean))
  {
    hide RollingOf, SampleStd, SquaredDistances, Sum, Constant;
    var s, x := Window(rows, col, i, w), rows[i].data[col];
    RollingCell(Mean, rows, col, w, lib, i);
    RollingCell(Std, rows, col, w, lib, i);
    StdOf(s, lib);
    assert Values(rows, col)[i] == Num(x);
    var mean, d := Sum(s) / w as real, Aggregate(Std, s, lib).r;
    if !Constant(s) {
      assert d > 0.0;
      DivideBack(x - mean, d);
      SameSign((x - mean) / d, d);
    }
  }

  lemma SameSign(q: real, d: real)
    requires d > 0.0
    ensures (q > 0.0 <==> q * d > 0.0) && (q < 0.0 <==> q * d < 0.0)
  {
    if q > 0.0 { ProductPositive(q, d); }
    if q < 0.0 { ProductPositive(0.0 - q, d); }
  }

  /** The range relative to the newest value: never negative on positive values, and zero exactly when
      all are equal. */
  lemma RangeColumn(rows: seq<Row>, col: string, w: nat, lib: Lib, i: nat)
    requires i < |rows| && w >= 1 && Has(rows, col, i + 1 - w, i + 1)
    ensures var cell, s, x := ColumnOf(Range(col, w), rows, lib)[i], Window(rows, col, i, w), rows[i].data[col];
            && (cell.NaN? <==> x == 0.0)
            && (x != 0.0 ==>
                  && cell.Num?
                  && exists lo, hi :: IsLeast(lo, s) && IsGreatest(hi, s) && cell.r * x == hi - lo)
            && (x > 0.0 ==> cell.r >= 0.0 && (cell.r == 0.0 <==> Constant(s)))
  {
    hide RollingOf, MinOf, MaxOf, Constant;
    var s, x := Window(rows, col, i, w), rows[i].data[col];
    RollingCell(Max, rows, col, w, lib, i);
    RollingCell(Min, rows, col, w, lib, i);
    MinIsLeast(s);
    MaxIsGreatest(s);
    assert Values(rows, col)[i] == Num(x);
    var lo, hi := MinOf(s), MaxOf(s);
    LeastIsGreatest(s, lo, hi);
    if x != 0.0 {
      ProductBack(hi - lo, x, (hi - lo) / x);
      assert IsLeast(lo, s) && IsGreatest(hi, s);
      if x > 0.0 { QuotientVanishes(hi - lo, x); }
    }
  }

  lemma LeastIsGreatest(s: seq<real>, lo: real, hi: real)
    requires IsLeast(lo, s) && IsGreatest(hi, s)
    ensures lo <= hi && (hi - lo == 0.0 <==> Constant(s))
  {
    if hi == lo {
      forall i, j | 0 <= i < j < |s| ensures s[i] == s[j] {
        assert s[i] in s && s[j] in s;
      }
    }
  }

  // ----- changes -----

  /** A change against p rows earlier: q times the earlier value is the difference, 100 times that in
      percent; the logarithm is of the quotient. A zero earlier value gives an infinity or nothing. */
  lemma ChangeColumn(rows: seq<Row>, col: string, p: nat, lib: Lib, i: nat)
    requires i < |rows|
    ensures var simple, pct := ColumnOf(Change(Simple, col, p), rows, lib)[i], ColumnOf(Change(Percent, col, p), rows,
                                                            lib)[i];
            var log := ColumnOf(Change(Log, col, p), rows, lib)[i];
            && (!(p <= i && col in rows[i].data && col in rows[i - p].data) ==> simple.NaN? && pct.NaN? && log.NaN?)
            && (p <= i && col in rows[i].data && col in rows[i - p].data ==>
                  var x, e := rows[i].data[col], rows[i - p].data[col];
                  && (e != 0.0 ==>
                        && simple.Num? && simple.r * e == x - e && pct.Num? && pct.r * e == 100.0 * (x - e)
                        && log == (if x / e > 0.0 then lib.ln(x / e) else if x == 0.0 then NegInf else NaN))
                  && (e == 0.0 ==> simple == pct == if x == 0.0 then NaN else if x > 0.0 then PosInf else NegInf))
  {
    hide Ratio, Values, PctChange, TimesHundred, LogRatio;
    ChangeCells(rows, col, p, lib, i);
    PctChangeAt(Values(rows, col), p, i);
    RawCell(rows, col, lib, i);
    if p <= i { RawCell(rows, col, lib, i - p); }
    if p <= i && col in rows[i].data && col in rows[i - p].data {
      RatioCases(rows[i].data[col], rows[i - p].data[col], lib);
    } else {
      NoRatio(lib);
    }
  }

  lemma ChangeCells(rows: seq<Row>, col: string, p: nat, lib: Lib, i: nat)
    requires i < |rows|
    ensures var s := Values(rows, col);
            && ColumnOf(Change(Simple, col, p), rows, lib)[i] == PctChange(s, p)[i]
            && ColumnOf(Change(Percent, col, p), rows, lib)[i] == TimesHundred(PctChange(s, p)[i])
            && ColumnOf(Change(Log, col, p), rows, lib)[i] == LogRatio(s[i], if p <= i then s[i - p] else NaN, lib)
            && ColumnOf(Raw(col), rows, lib) == s
  {
    hide Ratio, Values, PctChange, TimesHundred, LogRatio;
  }

  lemma RatioCases(x: real, e: real, lib: Lib)
    ensures var q := Ratio(Num(x), Num(e));
            && (e != 0.0 ==>
                  && q.Num? && q.r * e == x - e && TimesHundred(q).Num? && TimesHundred(q).r * e == 100.0 * (x - e)
                  && LogRatio(Num(x), Num(e), lib) ==
                     (if x / e > 0.0 then lib.ln(x / e) else if x == 0.0 then NegInf else NaN))
            && (e == 0.0 ==>
                  q == TimesHundred(q) == if x == 0.0 then NaN else if x > 0.0 then PosInf else NegInf)
  {
    if e != 0.0 { ChangeOf(x, e); }
  }

  lemma NoRatio(lib: Lib)
    ensures forall x :: Ratio(x, NaN).NaN? && Ratio(NaN, x).NaN?
    ensures forall x :: LogRatio(x, NaN, lib).NaN? && LogRatio(NaN, x, lib).NaN?
    ensures TimesHundred(NaN).NaN?
  {
  }

  lemma ChangeOf(x: real, e: real)
    requires e != 0.0
    ensures (x / e - 1.0) * e == x - e
    ensures ((x / e - 1.0) * 100.0) * e == 100.0 * (x - e)
    ensures x / e == 0.0 <==> x == 0.0
  {
    var q := x / e;
    ProductBack(x, e, q);
    assert (q - 1.0) * e == q * e - e;
    assert ((q - 1.0) * 100.0) * e == 100.0 * ((q - 1.0) * e);
    if q != 0.0 { NonZeroProduct(q, e); }
  }

  /** A target: the change from row i to the row `h` later, that row's value, and 1 for a rise and 0
      for anything else; nothing ahead means nothing known. */
  lemma TargetColumn(rows: seq<Row>, col: string, h: nat, lib: Lib, i: nat)
    requires i + h < |rows| && col in rows[i].data && col in rows[i + h].data
    ensures var x, y := rows[i].data[col], rows[i + h].data[col];
            var change := ColumnOf(TargetReturn(col, h), rows, lib)[i];
            var dir := ColumnOf(TargetDirection(col, h), rows, lib)[i];
            && ColumnOf(TargetValue(col, h), rows, lib)[i] == Num(y)
            && (x != 0.0 ==> change.Num? && change.r * x == y - x)
            && (x > 0.0 ==> dir == Num(if y > x then 1.0 else 0.0))
  {
    hide ColumnOf, Ratio;
    var x, y := rows[i].data[col], rows[i + h].data[col];
    TargetReadsTwoRows(rows, col, h, lib, i);
    if x != 0.0 { RatioOf(y, x); }
  }

  /** With nothing known ahead a target is missing, but the direction reads 0. */
  lemma TargetMissing(rows: seq<Row>, col: string, h: nat, lib: Lib, i: nat)
    requires i < |rows| && (i + h >= |rows| || col !in rows[i + h].data)
    ensures ColumnOf(TargetValue(col, h), rows, lib)[i].NaN? && ColumnOf(TargetReturn(col, h), rows, lib)[i].NaN?
    ensures ColumnOf(TargetDirection(col, h), rows, lib)[i] == Num(0.0)
  {
    hide Ratio;
    TargetReadsTwoRows(rows, col, h, lib, i);
    NoRatio(lib);
  }

  /** A lag is the cell of that many rows earlier, of a raw or a computed column. */
  lemma LagColumn(rows: seq<Row>, of: Column, p: nat, lib: Lib, i: nat)
    requires i < |rows|
    ensures ColumnOf(Lag(of, p), rows, lib)[i] == if p <= i then ColumnOf(of, rows, lib)[i - p] else NaN
  {
  }

  lemma RatioOf(y: real, x: real)
    requires x != 0.0
    ensures var q := Ratio(Num(y), Num(x));
            && q.Num? && q.r * x == y - x && (x > 0.0 ==> (q.r > 0.0 <==> y > x))
  {
    ChangeOf(y, x);
    if x > 0.0 { SameSign(y / x - 1.0, x); }
  }

  // ----- deviation of returns -----

  /** The simple changes from row to row that end at row i. */
  function Changes(rows: seq<Row>, col: string, i: nat, w: nat): (s: seq<real>)
    requires w <= i && Has(rows, col, i - w, i + 1)
    requires forall j :: i - w <= j < i ==> rows[j].data[col] != 0.0
    ensures |s| == w
  {
    seq(w, k requires 0 <= k < w =>
      var j := i + 1 - w + k; rows[j].data[col] / rows[j - 1].data[col] - 1.0)
  }

  /** dispersion_w: the sample deviation of the last w changes. */
  lemma ReturnsStdColumn(rows: seq<Row>, col: string, w: nat, lib: Lib, i: nat)
    requires i < |rows| && 2 <= w <= i && IsSqrt(lib.sqrt) && Has(rows, col, i - w, i + 1)
    requires forall j :: i - w <= j < i ==> rows[j].data[col] != 0.0
    ensures var cell := ColumnOf(ReturnsStd(col, w), rows, lib)[i];
            cell.Num? && IsSampleDeviation(cell.r, Changes(rows, col, i, w))
  {
    hide Aggregate, IsSampleDeviation;
    var changes := PctChange(Values(rows, col), 1);
    var part := changes[i + 1 - w..i + 1];
    forall k | 0 <= k < w ensures part[k] == Num(Changes(rows, col, i, w)[k]) {
      PctChangeAt(Values(rows, col), 1, i + 1 - w + k);
    }
    assert AllNumbers(part) && Numbers(part) == Changes(rows, col, i, w);
    StdOf(Changes(rows, col, i, w), lib);
  }

  // ----- exponential weights -----

  /** The weight each step back multiplies by. */
  lemma DecayIs(span: nat)
    ensures (1.0 - Decay(span)) * (span as real + 1.0) == 2.0
  {
    ProductBack(2.0, span as real + 1.0, 2.0 / (span as real + 1.0));
  }

  /** The values up to row i, each with q to the power of how many rows back it is. */
  function Decayed(rows: seq<Row>, col: string, q: real, i: nat): (s: seq<real>)
    requires Has(rows, col, 0, i + 1)
    ensures |s| == i + 1
  {
    seq(i + 1, j requires 0 <= j <= i => Pow(q, i - j) * rows[j].data[col])
  }

  function Powers(q: real, i: nat): (s: seq<real>)
    ensures |s| == i + 1
  {
    seq(i + 1, j requires 0 <= j <= i => Pow(q, i - j))
  }

  function Times(s: seq<real>, q: real): (r: seq<real>)
    ensures |r| == |s| && forall i :: 0 <= i < |r| ==> r[i] == q * s[i]
  {
    seq(|s|, i requires 0 <= i < |s| => q * s[i])
  }

  lemma {:induction false} SumTimes(s: seq<real>, q: real)
    ensures Sum(Times(s, q)) == q * Sum(s)
  {
    if s != [] {
      var n := |s| - 1;
      SumTimes(s[..n], q);
      var a, b := Times(s, q)[..n], Times(s[..n], q);
      forall i | 0 <= i < n ensures a[i] == b[i] {
        assert s[..n][i] == s[i];
      }
      assert a == b;
      TimesSum(q, Sum(s[..n]), s[n]);
    }
  }

  lemma TimesSum(q: real, a: real, b: real)
    ensures q * (a + b) == q * a + q * b
  {
  }

  lemma {:induction false} EwmSumsAre(rows: seq<Row>, col: string, q: real, i: nat)
    requires i < |rows| && Has(rows, col, 0, i + 1)
    ensures var w := EwmSums(Values(rows, col), q, i);
            w.num == Sum(Decayed(rows, col, q, i)) && w.den == Sum(Powers(q, i))
  {
    hide Sum, Pow;
    var x := rows[i].data[col];
    NoPower(q);
    if i == 0 {
      assert Decayed(rows, col, q, 0) == [x] && Powers(q, 0) == [1.0];
      SumOne(x);
      SumOne(1.0);
    } else {
      EwmSumsAre(rows, col, q, i - 1);
      OneRowMore(rows, col, q, i);
      SumConcat(Times(Decayed(rows, col, q, i - 1), q), [x]);
      SumConcat(Times(Powers(q, i - 1), q), [1.0]);
      SumOne(x);
      SumOne(1.0);
      SumTimes(Decayed(rows, col, q, i - 1), q);
      SumTimes(Powers(q, i - 1), q);
    }
  }

  lemma NoPower(q: real)
    ensures Pow(q, 0) == 1.0
  {
  }

  lemma OneRowMore(rows: seq<Row>, col: string, q: real, i: nat)
    requires 0 < i < |rows| && Has(rows, col, 0, i + 1)
    ensures Decayed(rows, col, q, i) == Times(Decayed(rows, col, q, i - 1), q) + [rows[i].data[col]]
    ensures Powers(q, i) == Times(Powers(q, i - 1), q) + [1.0]
  {
    hide Pow;
    NoPower(q);
    var a, b := Decayed(rows, col, q, i), Times(Decayed(rows, col, q, i - 1), q) + [rows[i].data[col]];
    forall j | 0 <= j < |a| ensures a[j] == b[j] {
      if j < i {
        PowStep(q, i - j);
        Associate(q, Pow(q, i - 1 - j), rows[j].data[col]);
      }
    }
    var c, d := Powers(q, i), Times(Powers(q, i - 1), q) + [1.0];
    forall j | 0 <= j < |c| ensures c[j] == d[j] {
      if j < i { PowStep(q, i - j); }
    }
  }

  lemma Associate(a: real, b: real, c: real)
    ensures (a * b) * c == a * (b * c)
  {
  }

  /** rolling_ema: the average of all values so far, weighted by how many rows back each is. */
  lemma EwmColumn(rows: seq<Row>, col: string, span: nat, lib: Lib, i: nat)
    requires i < |rows| && span >= 1 && Has(rows, col, 0, i + 1)
    ensures var cell, q := ColumnOf(Ewm(col, span), rows, lib)[i], Decay(span);
            cell.Num? && cell.r * Sum(Powers(q, i)) == Sum(Decayed(rows, col, q, i))
  {
    hide Sum, EwmSums, Decay, Values;
    EwmSumsAre(rows, col, Decay(span), i);
    EwmDenominator(Values(rows, col), Decay(span), i);
    var w := EwmSums(Values(rows, col), Decay(span), i);
    DivideBack(w.num, w.den);
  }
}
