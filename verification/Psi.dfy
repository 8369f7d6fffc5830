/** The population stability index of psi.py: quantile bins of the reference sample, two
    histograms over them, and their symmetrised divergence. */
module Psi {
  import opened Series

  // ----- sorting and distinct values -----

  predicate Ascending(s: seq<real>) {
    forall i, j :: 0 <= i <= j < |s| ==> s[i] <= s[j]
  }

  predicate StrictlyAscending(s: seq<real>) {
    forall i, j :: 0 <= i < j < |s| ==> s[i] < s[j]
  }

  function Place(s: seq<real>, x: real): seq<real> {
    if s == [] || x <= s[0] then [x] + s else [s[0]] + Place(s[1..], x)
  }

  function Sort(s: seq<real>): seq<real> {
    if s == [] then [] else Place(Sort(s[1..]), s[0])
  }

  lemma {:induction false} PlaceHolds(s: seq<real>, x: real)
    ensures multiset(Place(s, x)) == multiset(s) + multiset{x}
  {
    if s != [] && x > s[0] {
      PlaceHolds(s[1..], x);
      assert s == [s[0]] + s[1..];
    } else {
      assert Place(s, x) == [x] + s;
    }
  }

  /** A lower bound in front of an ascending series keeps it ascending. */
  lemma AscendingCons(x: real, s: seq<real>)
    requires Ascending(s) && (s == [] || x <= s[0])
    ensures Ascending([x] + s)
  {
  }

  lemma {:induction false} PlaceAscends(s: seq<real>, x: real)
    requires Ascending(s)
    ensures Ascending(Place(s, x))
    ensures Place(s, x) != [] && (Place(s, x)[0] == x || (s != [] && Place(s, x)[0] == s[0]))
  {
    if s != [] && x > s[0] {
      PlaceAscends(s[1..], x);
      AscendingCons(s[0], Place(s[1..], x));
    } else {
      AscendingCons(x, s);
    }
  }

  lemma {:induction false} SortSorts(s: seq<real>)
    ensures Ascending(Sort(s)) && multiset(Sort(s)) == multiset(s) && |Sort(s)| == |s|
  {
    if s != [] {
      SortSorts(s[1..]);
      PlaceHolds(Sort(s[1..]), s[0]);
      PlaceAscends(Sort(s[1..]), s[0]);
      assert s == [s[0]] + s[1..];
      assert |multiset(Sort(s))| == |multiset(s)|;
    }
  }

  /** Neighbouring repeats removed. */
  function Dedup(s: seq<real>): seq<real> {
    if |s| <= 1 then s
    else if s[0] == s[1] then Dedup(s[1..])
    else [s[0]] + Dedup(s[1..])
  }

  /** np.unique: the distinct values in ascending order. */
  function Unique(s: seq<real>): seq<real> {
    Dedup(Sort(s))
  }

  lemma {:induction false} DedupKeeps(s: seq<real>)
    requires Ascending(s)
    ensures StrictlyAscending(Dedup(s))
    ensures s != [] ==> Dedup(s) != [] && Dedup(s)[0] == s[0] && Dedup(s)[|Dedup(s)| - 1] == s[|s| - 1]
  {
    if |s| > 1 {
      DedupKeeps(s[1..]);
      var rest := Dedup(s[1..]);
      if s[0] != s[1] {
        assert s[0] < s[1] == rest[0];
        var d := [s[0]] + rest;
        forall i, j | 0 <= i < j < |d| ensures d[i] < d[j] {
          if i == 0 { assert rest[0] <= rest[j - 1]; } else { assert rest[i - 1] < rest[j - 1]; }
        }
      }
    }
  }

  lemma {:induction false} DedupElements(s: seq<real>, x: real)
    ensures x in Dedup(s) <==> x in s
  {
    if |s| > 1 {
      DedupElements(s[1..], x);
      assert s == [s[0]] + s[1..];
    }
  }

  lemma UniqueElements(s: seq<real>, x: real)
    ensures x in Unique(s) <==> x in s
  {
    SortSorts(s);
    DedupElements(Sort(s), x);
    assert x in Sort(s) <==> x in multiset(Sort(s));
    assert x in s <==> x in multiset(s);
  }

  // ----- quantile breakpoints -----

  /** np.percentile at i / bins of the way, with linear interpolation. */
  function Quantile(sorted: seq<real>, i: nat, bins: nat): real
    requires sorted != [] && i <= bins && bins > 0
  {
    var pos := i * (|sorted| - 1);
    var at := pos / bins;
    QuantileIndex(i, |sorted| - 1, bins);
    if at == |sorted| - 1 then sorted[at]
    else sorted[at] + (sorted[at + 1] - sorted[at]) * ((pos % bins) as real / bins as real)
  }

  lemma QuantileIndex(i: nat, last: nat, bins: nat)
    requires i <= bins && bins > 0
    ensures 0 <= (i * last) / bins <= last
    ensures i == 0 ==> (i * last) / bins == 0 && (i * last) % bins == 0
    ensures i == bins ==> (i * last) / bins == last
  {
    QuotientAtMost(i * last, bins, last) by { assert i * last <= bins * last; }
    if i == bins { QuotientExact(i * last, bins, last); }
    if i == 0 { assert i * last == 0; }
  }

  lemma QuotientAtMost(pos: nat, bins: nat, last: nat)
    requires bins > 0 && pos <= bins * last
    ensures pos / bins <= last
  {
    var q, r := pos / bins, pos % bins;
    assert bins * q + r == pos;
    assert bins * (q - last) <= 0;
    SignOfProduct(bins, q - last);
  }

  lemma SignOfProduct(bins: nat, d: int)
    requires bins > 0 && bins * d <= 0
    ensures d <= 0 && (bins * d < 0 ==> d < 0)
  {
  }

  lemma QuotientExact(pos: nat, bins: nat, last: nat)
    requires bins > 0 && pos == bins * last
    ensures pos / bins == last
  {
    var q, r := pos / bins, pos % bins;
    assert bins * q + r == pos;
    assert bins * (last - q) == r;
    RemainderIsZero(bins, last - q, r);
  }

  lemma RemainderIsZero(bins: nat, d: int, r: int)
    requires bins * d == r && 0 <= r < bins
    ensures d == 0
  {
    assert bins * (d - 1) == r - bins;
    SignOfProduct(bins, d - 1);
    assert bins * (0 - d) == 0 - r;
    SignOfProduct(bins, 0 - d);
  }

  function Quantiles(reference: seq<real>, bins: nat): seq<real>
    requires reference != [] && bins > 0
  {
    SortSorts(reference);
    seq(bins + 1, i requires 0 <= i <= bins => Quantile(Sort(reference), i, bins))
  }

  function Breakpoints(reference: seq<real>, bins: nat): seq<real>
    requires reference != [] && bins > 0
  {
    Unique(Quantiles(reference, bins))
  }

  lemma Interpolate(a: real, b: real, r: nat, bins: nat)
    requires a <= b && r < bins
    ensures a <= a + (b - a) * (r as real / bins as real) <= b
  {
    var f := r as real / bins as real;
    DivideBack(r as real, bins as real);
    assert 0.0 <= f <= 1.0 by { FractionBounds(r as real, bins as real); }
    MulMono(0.0, b - a, f);
    MulMono(f, 1.0, b - a);
  }

  lemma FractionBounds(a: real, b: real)
    requires 0.0 <= a <= b && b > 0.0
    ensures 0.0 <= a / b <= 1.0
  {
  }

  lemma QuantileWithin(sorted: seq<real>, i: nat, bins: nat)
    requires Ascending(sorted) && sorted != [] && i <= bins && bins > 0
    ensures sorted[0] <= Quantile(sorted, i, bins) <= sorted[|sorted| - 1]
    ensures i == 0 ==> Quantile(sorted, i, bins) == sorted[0]
    ensures i == bins ==> Quantile(sorted, i, bins) == sorted[|sorted| - 1]
  {
    var pos := i * (|sorted| - 1);
    var at := pos / bins;
    QuantileIndex(i, |sorted| - 1, bins);
    if at < |sorted| - 1 {
      Interpolate(sorted[at], sorted[at + 1], pos % bins, bins);
      if i == 0 {
        assert (pos % bins) as real / bins as real == 0.0;
      }
    }
  }

  lemma SortedEnds(s: seq<real>, lo: real, hi: real)
    requires s != [] && lo in s && hi in s && forall i :: 0 <= i < |s| ==> lo <= s[i] <= hi
    ensures |Sort(s)| == |s| && Sort(s)[0] == lo && Sort(s)[|s| - 1] == hi
  {
    SortSorts(s);
    var t := Sort(s);
    assert lo in multiset(t) && hi in multiset(t);
    var i :| 0 <= i < |t| && t[i] == lo;
    var j :| 0 <= j < |t| && t[j] == hi;
    assert t[0] in multiset(s) && t[|s| - 1] in multiset(s);
  }

  /** The breakpoints are the quantiles. */
  lemma BreakpointsAreQuantiles(reference: seq<real>, bins: nat, x: real)
    requires reference != [] && bins > 0
    ensures x in Breakpoints(reference, bins) <==> x in Quantiles(reference, bins)
  {
    UniqueElements(Quantiles(reference, bins), x);
  }

  /** The breakpoints strictly increase from the smallest to the largest reference value. */
  lemma BreakpointsSpan(reference: seq<real>, bins: nat)
    requires reference != [] && bins > 0
    ensures var b := Breakpoints(reference, bins);
            && b != [] && StrictlyAscending(b)
            && forall x :: x in reference ==> b[0] <= x <= b[|b| - 1]
  {
    SortSorts(reference);
    var sorted, q := Sort(reference), Quantiles(reference, bins);
    forall i | 0 <= i < |q| ensures sorted[0] <= q[i] <= sorted[|sorted| - 1] {
      QuantileWithin(sorted, i, bins);
    }
    QuantileWithin(sorted, 0, bins);
    QuantileWithin(sorted, bins, bins);
    assert q[0] == sorted[0] && q[bins] == sorted[|sorted| - 1];
    SortedEnds(q, sorted[0], sorted[|sorted| - 1]);
    SortSorts(q);
    DedupKeeps(Sort(q));
    forall x | x in reference ensures sorted[0] <= x <= sorted[|sorted| - 1] {
      assert x in multiset(sorted);
      var i :| 0 <= i < |sorted| && sorted[i] == x;
    }
  }

  // ----- histograms -----

  /** Bin j is half open, except the last, which also holds its upper end. */
  predicate InBin(b: seq<real>, j: nat, x: real)
    requires j + 1 < |b|
  {
    b[j] <= x && (x < b[j + 1] || (j + 2 == |b| && x == b[j + 1]))
  }

  function CountIn(xs: seq<real>, b: seq<real>, j: nat): (n: nat)
    requires j + 1 < |b|
  {
    if xs == [] then 0 else CountIn(xs[..|xs| - 1], b, j) + if InBin(b, j, xs[|xs| - 1]) then 1 else 0
  }

  /** np.histogram over the given edges. */
  function Histogram(xs: seq<real>, b: seq<real>): (h: seq<nat>)
    requires |b| >= 2
    ensures |h| == |b| - 1
  {
    seq(|b| - 1, j requires 0 <= j < |b| - 1 => CountIn(xs, b, j))
  }

  /** The counts of the first k bins together. */
  function Total(xs: seq<real>, b: seq<real>, k: nat): nat
    requires k + 1 <= |b|
  {
    if k == 0 then 0 else Total(xs, b, k - 1) + CountIn(xs, b, k - 1)
  }

  /** How many of the first k bins hold x. */
  function Holding(b: seq<real>, x: real, k: nat): nat
    requires k + 1 <= |b|
  {
    if k == 0 then 0 else Holding(b, x, k - 1) + if InBin(b, k - 1, x) then 1 else 0
  }

  lemma {:induction false} HoldingOnce(b: seq<real>, x: real, k: nat)
    requires StrictlyAscending(b) && k + 1 <= |b| && b != []
    ensures k + 1 < |b| ==> Holding(b, x, k) == if b[0] <= x < b[k] then 1 else 0
    ensures k + 1 == |b| && k > 0 ==> Holding(b, x, k) == if b[0] <= x <= b[k] then 1 else 0
  {
    if k > 0 {
      HoldingOnce(b, x, k - 1);
      assert b[k - 1] < b[k] && (k > 1 ==> b[0] < b[k - 1]);
    }
  }

  lemma {:induction false} TotalAppend(xs: seq<real>, b: seq<real>, k: nat)
    requires xs != [] && k + 1 <= |b|
    ensures Total(xs, b, k) == Total(xs[..|xs| - 1], b, k) + Holding(b, xs[|xs| - 1], k)
  {
    if k > 0 { TotalAppend(xs, b, k - 1); }
  }

  lemma {:induction false} TotalOfNone(b: seq<real>, k: nat)
    requires k + 1 <= |b|
    ensures Total([], b, k) == 0
  {
    if k > 0 { TotalOfNone(b, k - 1); }
  }

  /** How many values lie between the outermost edges. */
  function Within(xs: seq<real>, lo: real, hi: real): (n: nat)
    ensures n <= |xs|
  {
    if xs == [] then 0 else Within(xs[..|xs| - 1], lo, hi) + if lo <= xs[|xs| - 1] <= hi then 1 else 0
  }

  /** Every value between the outermost edges is counted in exactly one bin, no other in any. */
  lemma {:induction false} HistogramTotal(xs: seq<real>, b: seq<real>)
    requires StrictlyAscending(b) && |b| >= 2
    ensures Total(xs, b, |b| - 1) == Within(xs, b[0], b[|b| - 1])
  {
    if xs == [] {
      TotalOfNone(b, |b| - 1);
    } else {
      HistogramTotal(xs[..|xs| - 1], b);
      TotalAppend(xs, b, |b| - 1);
      HoldingOnce(b, xs[|xs| - 1], |b| - 1);
    }
  }

  lemma {:induction false} AllWithin(xs: seq<real>, lo: real, hi: real)
    requires forall i :: 0 <= i < |xs| ==> lo <= xs[i] <= hi
    ensures Within(xs, lo, hi) == |xs|
  {
    if xs != [] { AllWithin(xs[..|xs| - 1], lo, hi); }
  }

  /** The reference bins count every reference value once; the comparison bins count at most the
      comparison values, exactly those inside the reference range. */
  lemma BinCounts(reference: seq<real>, comparison: seq<real>, bins: nat)
    requires reference != [] && bins > 0 && |Breakpoints(reference, bins)| >= 2
    ensures var b := Breakpoints(reference, bins);
            && Total(reference, b, |b| - 1) == |reference|
            && Total(comparison, b, |b| - 1) == Within(comparison, b[0], b[|b| - 1]) <= |comparison|
  {
    hide Breakpoints;
    var b := Breakpoints(reference, bins);
    BreakpointsSpan(reference, bins);
    HistogramTotal(reference, b);
    HistogramTotal(comparison, b);
    forall i | 0 <= i < |reference| ensures b[0] <= reference[i] <= b[|b| - 1] {
      assert reference[i] in reference;
    }
    AllWithin(reference, b[0], b[|b| - 1]);
  }

  // ----- the index -----

  const FLOOR := 0.0000000001

  function Clip(p: real): (c: real)
    ensures FLOOR <= c <= 1.0
  {
    if p < FLOOR then FLOOR else if p > 1.0 then 1.0 else p
  }

  /** The clipped share of each bin. */
  function Shares(counts: seq<nat>, n: nat): (s: seq<real>)
    requires n > 0
    ensures |s| == |counts|
    ensures forall i :: 0 <= i < |s| ==> s[i] >= FLOOR
  {
    seq(|counts|, i requires 0 <= i < |counts| => Clip(counts[i] as real / n as real))
  }

  /** What the index needs of the logarithm: zero at 1 and strictly increasing. */
  ghost predicate IsLog(ln: real -> real) {
    ln(1.0) == 0.0 && forall x, y :: 0.0 < x < y ==> ln(x) < ln(y)
  }

  function Term(c: real, r: real, ln: real -> real): real
    requires r > 0.0
  {
    (c - r) * ln(c / r)
  }

  function Divergence(comp: seq<real>, ref: seq<real>, ln: real -> real): real
    requires |comp| == |ref| && forall i :: 0 <= i < |ref| ==> ref[i] > 0.0
  {
    if ref == [] then 0.0
    else
      var n := |ref| - 1;
      Divergence(comp[..n], ref[..n], ln) + Term(comp[n], ref[n], ln)
  }

  function CalculatePsi(reference: seq<real>, comparison: seq<real>, bins: nat, ln: real -> real): real
    requires bins > 0
  {
    if |reference| < bins || |comparison| < bins then 0.0
    else
      var b := Breakpoints(reference, bins);
      if |b| < 2 then 0.0
      else Divergence(Shares(Histogram(comparison, b), |comparison|), Shares(Histogram(reference, b), |reference|), ln)
  }

  /** A term is non-negative, and zero exactly when the shares agree. */
  lemma TermSign(c: real, r: real, ln: real -> real)
    requires IsLog(ln) && c > 0.0 && r > 0.0
    ensures Term(c, r, ln) >= 0.0
    ensures Term(c, r, ln) == 0.0 <==> c == r
  {
    var q := c / r;
    DivideBack(c, r);
    if c > r {
      QuotientAboveOne(c, r);
      ProductPositive(c - r, ln(q));
    } else if c < r {
      QuotientBelowOne(c, r);
      ProductPositive(r - c, -ln(q));
      assert (r - c) * -ln(q) == (c - r) * ln(q);
    }
  }

  lemma QuotientAboveOne(c: real, r: real)
    requires c > r > 0.0
    ensures c / r > 1.0
  {
    DivideBack(c, r);
    if c / r <= 1.0 { MulMono(c / r, 1.0, r); }
  }

  lemma QuotientBelowOne(c: real, r: real)
    requires 0.0 < c < r
    ensures 0.0 < c / r < 1.0
  {
    DivideBack(c, r);
    if c / r >= 1.0 { MulMono(1.0, c / r, r); }
    if c / r <= 0.0 { MulMono(c / r, 0.0, r); }
  }

  lemma {:induction false} DivergenceSign(comp: seq<real>, ref: seq<real>, ln: real -> real)
    requires IsLog(ln) && |comp| == |ref|
    requires forall i :: 0 <= i < |ref| ==> ref[i] > 0.0 && comp[i] > 0.0
    ensures Divergence(comp, ref, ln) >= 0.0
    ensures Divergence(comp, ref, ln) == 0.0 <==> comp == ref
  {
    hide Term;
    if ref != [] {
      var n := |ref| - 1;
      DivergenceSign(comp[..n], ref[..n], ln);
      TermSign(comp[n], ref[n], ln);
      assert comp == comp[..n] + [comp[n]] && ref == ref[..n] + [ref[n]];
    }
  }

  /** The index is never negative, and past its early exits it is zero exactly when the clipped
      shares agree in every bin. */
  lemma PsiSign(reference: seq<real>, comparison: seq<real>, bins: nat, ln: real -> real)
    requires bins > 0 && IsLog(ln)
    ensures CalculatePsi(reference, comparison, bins, ln) >= 0.0
    ensures |reference| >= bins && |comparison| >= bins && |Breakpoints(reference, bins)| >= 2 ==>
              var b := Breakpoints(reference, bins);
              CalculatePsi(reference, comparison, bins, ln) == 0.0 <==>
                Shares(Histogram(comparison, b), |comparison|) == Shares(Histogram(reference, b), |reference|)
  {
    hide Breakpoints, Histogram, Divergence;
    if |reference| >= bins && |comparison| >= bins && |Breakpoints(reference, bins)| >= 2 {
      var b := Breakpoints(reference, bins);
      DivergenceSign(Shares(Histogram(comparison, b), |comparison|), Shares(Histogram(reference, b), |reference|), ln);
    }
  }

  /** A sample does not drift from itself. */
  lemma NoDriftFromItself(sample: seq<real>, bins: nat, ln: real -> real)
    requires bins > 0 && IsLog(ln)
    ensures CalculatePsi(sample, sample, bins, ln) == 0.0
  {
    hide Breakpoints, Histogram, Divergence;
    PsiSign(sample, sample, bins, ln);
  }

  // ----- the index, spelled out -----

  /** A quantile at `at` values and r / bins of the way to the next: linear interpolation. */
  lemma QuantileIs(sorted: seq<real>, i: nat, bins: nat, at: nat, r: nat)
    requires sorted != [] && i <= bins && r < bins && i * (|sorted| - 1) == at * bins + r
    ensures at < |sorted| && (r == 0 ==> Quantile(sorted, i, bins) == sorted[at])
    ensures r > 0 ==>
              && at + 1 < |sorted|
              && (Quantile(sorted, i, bins) - sorted[at]) * bins as real == (sorted[at + 1] - sorted[at]) * r as real
  {
    var pos := i * (|sorted| - 1);
    QuotientIs(pos, bins, at, r);
    QuantileIndex(i, |sorted| - 1, bins);
    if at < |sorted| - 1 {
      ShareOfStep(sorted[at + 1] - sorted[at], r, bins);
    } else {
      AtTheEnd(i, |sorted| - 1, bins, r);
    }
  }

  lemma QuotientIs(pos: nat, bins: nat, at: nat, r: nat)
    requires r < bins && pos == at * bins + r
    ensures pos / bins == at && pos % bins == r
  {
    var q, m := pos / bins, pos % bins;
    assert bins * q + m == pos;
    assert bins * (q - at) == r - m;
    if q > at { assert bins * (q - at - 1) + bins == r - m; SignOfProduct(bins, q - at - 1); }
    if q < at { assert bins * (q - at + 1) - bins == r - m; SignOfProduct(bins, at - q - 1); }
  }

  lemma AtTheEnd(i: nat, last: nat, bins: nat, r: nat)
    requires i <= bins && i * last == last * bins + r
    ensures r == 0
  {
    assert last * (bins - i) >= 0;
  }

  lemma ShareOfStep(d: real, r: nat, bins: nat)
    requires bins > 0
    ensures d * (r as real / bins as real) * bins as real == d * r as real
  {
    DivideBack(r as real, bins as real);
    var f, n := r as real / bins as real, bins as real;
    assert d * f * n == d * (f * n);
  }

  /** The values at which a sample falls into bin j: at least its lower edge and below its upper one,
      or at the upper edge of the last bin. */
  function Inside(xs: seq<real>, b: seq<real>, j: nat): set<nat>
    requires j + 1 < |b|
  {
    set i | 0 <= i < |xs| && b[j] <= xs[i] && (xs[i] < b[j + 1] || (j == |b| - 2 && xs[i] == b[j + 1]))
  }

  lemma {:induction false} CountIs(xs: seq<real>, b: seq<real>, j: nat)
    requires j + 1 < |b|
    ensures CountIn(xs, b, j) == |Inside(xs, b, j)|
  {
    if xs != [] {
      var n := |xs| - 1;
      CountIs(xs[..n], b, j);
      assert Inside(xs, b, j) == Inside(xs[..n], b, j) + if n in Inside(xs, b, j) then {n} else {};
    }
  }

  /** The share of a bin is its count over the sample size, but at least a ten-billionth. */
  lemma ShareIs(xs: seq<real>, b: seq<real>, j: nat)
    requires xs != [] && j + 1 < |b|
    ensures var count, share := |Inside(xs, b, j)| as real, Shares(Histogram(xs, b), |xs|)[j];
            && share >= 0.0000000001
            && (count >= 0.0000000001 * |xs| as real ==> share * |xs| as real == count)
            && (count < 0.0000000001 * |xs| as real ==> share == 0.0000000001)
  {
    CountIs(xs, b, j);
    assert Histogram(xs, b)[j] == CountIn(xs, b, j);
    InsideFits(xs, b, j);
    ClipIs(CountIn(xs, b, j), |xs|);
  }

  lemma InsideFits(xs: seq<real>, b: seq<real>, j: nat)
    requires j + 1 < |b|
    ensures |Inside(xs, b, j)| <= |xs|
  {
    CountIs(xs, b, j);
    CountFits(xs, b, j);
  }

  lemma {:induction false} CountFits(xs: seq<real>, b: seq<real>, j: nat)
    requires j + 1 < |b|
    ensures CountIn(xs, b, j) <= |xs|
  {
    if xs != [] { CountFits(xs[..|xs| - 1], b, j); }
  }

  lemma ClipIs(count: nat, n: nat)
    requires count <= n && n > 0
    ensures var share := Clip(count as real / n as real);
            && (count as real >= 0.0000000001 * n as real ==> share * n as real == count as real)
            && (count as real < 0.0000000001 * n as real ==> share == 0.0000000001)
  {
    var p, m := count as real / n as real, n as real;
    DivideBack(count as real, m);
    FractionBounds(count as real, m);
    if p < FLOOR { ScaleBelow(p, FLOOR, m); } else { MulMono(FLOOR, p, m); }
  }

  lemma ScaleBelow(a: real, b: real, m: real)
    requires a < b && m > 0.0
    ensures a * m < b * m
  {
  }

  /** One number a bin: the difference of the two shares times the logarithm of their ratio. */
  predicate TermsOf(now: seq<real>, was: seq<real>, ln: real -> real, terms: seq<real>)
    requires |now| == |was| && forall i :: 0 <= i < |was| ==> was[i] > 0.0
  {
    |terms| == |was| && forall j :: 0 <= j < |terms| ==> terms[j] == (now[j] - was[j]) * ln(now[j] / was[j])
  }

  /** Past its early exits the index is the sum, over the bins, of the difference of the two shares
      times the logarithm of their ratio; otherwise it is 0. */
  lemma IndexIs(reference: seq<real>, comparison: seq<real>, bins: nat, ln: real -> real, terms: seq<real>)
    requires bins > 0
    ensures |reference| < bins || |comparison| < bins ==> CalculatePsi(reference, comparison, bins, ln) == 0.0
    ensures |reference| >= bins && |comparison| >= bins ==>
              var b := Breakpoints(reference, bins);
              if |b| < 2 then CalculatePsi(reference, comparison, bins, ln) == 0.0
              else
                var now := Shares(Histogram(comparison, b), |comparison|);
                var was := Shares(Histogram(reference, b), |reference|);
                TermsOf(now, was, ln, terms) ==> CalculatePsi(reference, comparison, bins, ln) == Sum(terms)
  {
    hide Breakpoints, Histogram, Shares, Divergence;
    if |reference| >= bins && |comparison| >= bins {
      var b := Breakpoints(reference, bins);
      if |b| >= 2 {
        var now, was := Shares(Histogram(comparison, b), |comparison|), Shares(Histogram(reference, b), |reference|);
        if TermsOf(now, was, ln, terms) {
          DivergenceIs(now, was, ln, terms);
        }
      }
    }
  }

  lemma {:induction false} DivergenceIs(comp: seq<real>, ref: seq<real>, ln: real -> real, terms: seq<real>)
    requires |comp| == |ref| && forall i :: 0 <= i < |ref| ==> ref[i] > 0.0
    requires TermsOf(comp, ref, ln, terms)
    ensures Divergence(comp, ref, ln) == Sum(terms)
  {
    if ref != [] {
      var n := |ref| - 1;
      DivergenceIs(comp[..n], ref[..n], ln, terms[..n]);
    }
  }

  /** A bin empty in one sample and full in the other always counts as drift. */
  lemma EmptiedBinDrifts(reference: seq<real>, comparison: seq<real>, bins: nat, ln: real -> real, j: nat)
    requires bins > 0 && IsLog(ln) && |reference| >= bins && |comparison| >= bins
    requires j + 1 < |Breakpoints(reference, bins)|
    requires Inside(comparison, Breakpoints(reference, bins), j) == {}
    requires |Inside(reference, Breakpoints(reference, bins), j)| == |reference|
    ensures CalculatePsi(reference, comparison, bins, ln) > 0.0
  {
    hide Breakpoints, Histogram, Shares, CalculatePsi;
    var b := Breakpoints(reference, bins);
    PsiSign(reference, comparison, bins, ln);
    ShareIs(reference, b, j);
    ShareIs(comparison, b, j);
  }
}
