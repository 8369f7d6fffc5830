/** Sums, trailing windows, powers and roots shared by the numeric models.
    Doubles are modelled as ideal reals. */
module Series {

  datatype Option<+T> = None | Some(value: T)

  /** The sum of a series, unrolled from its last element. */
  function Sum(s: seq<real>): (r: real) {
    if s == [] then 0.0 else Sum(s[..|s| - 1]) + s[|s| - 1]
  }

  function Square(x: real): (r: real)
    ensures r >= 0.0
  {
    SquareNonNegative(x);
    x * x
  }

  /** The sum of squared distances of a series from `c`. */
  function SquaredDistances(s: seq<real>, c: real): (r: real)
    ensures r >= 0.0
  {
    if s == [] then 0.0
    else SquaredDistances(s[..|s| - 1], c) + Square(s[|s| - 1] - c)
  }

  /** The last `n` elements, or everything when there are fewer. */
  function Tail<T>(s: seq<T>, n: nat): (r: seq<T>) {
    if |s| <= n then s else s[|s| - n..]
  }

  function Abs(x: real): real {
    if x < 0.0 then -x else x
  }

  function Pow(b: real, n: nat): real {
    if n == 0 then 1.0 else b * Pow(b, n - 1)
  }

  /** What the models need of a square root: a non-negative root of every non-negative number. */
  ghost predicate IsSqrt(f: real -> real) {
    forall x :: x >= 0.0 ==> f(x) >= 0.0 && f(x) * f(x) == x
  }

  /** Trimming after every append keeps the tail of the whole history. */
  lemma TailAppend<T>(history: seq<T>, x: T, n: nat)
    ensures Tail(Tail(history, n) + [x], n) == Tail(history + [x], n)
  {
    if |history| > n && n > 0 {
      assert (history[|history| - n..] + [x])[1..] == (history + [x])[|history| + 1 - n..];
    }
  }

  /** A window no longer than `n` is the same whether it is cut from the history or from its tail. */
  lemma TailWindow<T>(history: seq<T>, n: nat, p: nat)
    requires p <= n && p <= |history|
    ensures p <= |Tail(history, n)|
    ensures var t := Tail(history, n); t[|t| - p..] == history[|history| - p..]
  {
  }

  /** Growing a slice by one element. */
  lemma SliceGrow<T>(s: seq<T>, from: nat, i: nat)
    requires from <= i < |s|
    ensures var g := s[from..i + 1];
            && |g| == i + 1 - from && g[..|g| - 1] == s[from..i] && g[|g| - 1] == s[i]
            && (from < i ==> g[|g| - 2] == s[i - 1])
  {
  }

  // ----- order and products of reals, one fact at a time -----

  lemma MulMono(a: real, b: real, c: real)
    requires a <= b && c >= 0.0
    ensures a * c <= b * c
  {
  }

  lemma MulMonoStrict(a: real, b: real, c: real)
    requires a < b && c > 0.0
    ensures a * c < b * c
  {
    ProductPositive(b - a, c);
  }

  lemma ProductPositive(a: real, b: real)
    requires a > 0.0 && b > 0.0
    ensures a * b > 0.0
  {
  }

  lemma NonZeroProduct(a: real, b: real)
    requires a != 0.0 && b != 0.0
    ensures a * b != 0.0
  {
    if a > 0.0 && b > 0.0 { ProductPositive(a, b); }
    if a < 0.0 && b < 0.0 { ProductPositive(-a, -b); assert (-a) * (-b) == a * b; }
    if a > 0.0 && b < 0.0 { ProductPositive(a, -b); assert a * (-b) == -(a * b); }
    if a < 0.0 && b > 0.0 { ProductPositive(-a, b); assert (-a) * b == -(a * b); }
  }

  lemma ZeroProduct(a: real, b: real, p: real)
    requires a * b == p && p == 0.0
    ensures a == 0.0 || b == 0.0
  {
    if a != 0.0 && b != 0.0 { NonZeroProduct(a, b); }
  }

  lemma SquareMono(a: real, b: real)
    requires 0.0 <= b <= a
    ensures b * b <= a * a
  {
    MulMono(0.0, a - b, a + b);
    assert (a - b) * (a + b) == a * a - b * b;
  }

  lemma SquarePositive(a: real)
    requires a != 0.0
    ensures a * a > 0.0
  {
    if a > 0.0 {
      ProductPositive(a, a);
    } else {
      ProductPositive(-a, -a);
      assert (-a) * (-a) == a * a;
    }
  }

  lemma SquareNonNegative(a: real)
    ensures a * a >= 0.0
  {
    if a != 0.0 { SquarePositive(a); }
  }

  lemma RootFacts(f: real -> real, v: real)
    requires IsSqrt(f) && v >= 0.0
    ensures f(v) >= 0.0 && f(v) * f(v) == v
    ensures v > 0.0 ==> f(v) > 0.0
  {
  }

  lemma DivideBack(a: real, b: real)
    requires b > 0.0
    ensures a / b * b == a
  {
  }

  lemma PowStep(b: real, n: nat)
    requires n >= 1
    ensures Pow(b, n) == b * Pow(b, n - 1)
    ensures n == 1 ==> Pow(b, n) == b
  {
  }

  lemma {:induction false} PowBounds(b: real, n: nat)
    requires 0.0 <= b <= 1.0
    ensures 0.0 <= Pow(b, n) <= 1.0
  {
    if n > 0 {
      PowBounds(b, n - 1);
      var p := Pow(b, n - 1);
      assert 0.0 <= b * p;
      assert b * p <= 1.0 * p;
    }
  }

  /** The sum of a constant series. */
  lemma {:induction false} SumConstant(s: seq<real>, c: real)
    requires forall i :: 0 <= i < |s| ==> s[i] == c
    ensures Sum(s) == c * |s| as real
  {
    if s != [] {
      SumConstant(s[..|s| - 1], c);
      assert c * |s| as real == c * (|s| - 1) as real + c;
    }
  }

  // ----- what the sums are -----

  lemma SumOne(x: real)
    ensures Sum([x]) == x
  {
    assert [x][..0] == [];
  }

  /** Sums add up over any split. */
  lemma {:induction false} SumConcat(a: seq<real>, b: seq<real>)
    ensures Sum(a + b) == Sum(a) + Sum(b)
  {
    if b == [] {
      assert a + b == a;
    } else {
      assert (a + b)[..|a + b| - 1] == a + b[..|b| - 1];
      SumConcat(a, b[..|b| - 1]);
    }
  }

  lemma {:induction false} SumBounds(s: seq<real>, lo: real, hi: real)
    requires forall i :: 0 <= i < |s| ==> lo <= s[i] <= hi
    ensures lo * |s| as real <= Sum(s) <= hi * |s| as real
  {
    if s != [] {
      var n := |s| - 1;
      SumBounds(s[..n], lo, hi);
      assert lo * |s| as real == lo * n as real + lo && hi * |s| as real == hi * n as real + hi;
    }
  }

  /** The squares of the distances, one by one. */
  function SquaresFrom(s: seq<real>, c: real): (q: seq<real>)
    ensures |q| == |s| && forall i :: 0 <= i < |q| ==> q[i] == Square(s[i] - c)
  {
    seq(|s|, i requires 0 <= i < |s| => Square(s[i] - c))
  }

  lemma SquareIs(x: real)
    ensures Square(x) == x * x
  {
  }

  lemma {:induction false} SquaredDistancesSum(s: seq<real>, c: real)
    ensures SquaredDistances(s, c) == Sum(SquaresFrom(s, c))
  {
    if s != [] {
      var n := |s| - 1;
      SquaredDistancesSum(s[..n], c);
      assert SquaresFrom(s, c)[..n] == SquaresFrom(s[..n], c);
    }
  }

  /** A value away from `c` leaves a positive sum. */
  lemma {:induction false} SpreadPositive(s: seq<real>, c: real, i: nat)
    requires i < |s| && s[i] != c
    ensures SquaredDistances(s, c) > 0.0
  {
    if i < |s| - 1 {
      SpreadPositive(s[..|s| - 1], c, i);
    } else {
      PositiveSquare(s[i] - c);
      assert SquaredDistances(s, c) == SquaredDistances(s[..|s| - 1], c) + Square(s[i] - c);
    }
  }

  lemma PositiveSquare(x: real)
    requires x != 0.0
    ensures Square(x) > 0.0
  {
    NonZeroProductOf(x, x, Square(x));
  }

  lemma NonZeroProductOf(a: real, b: real, p: real)
    requires a != 0.0 && b != 0.0 && p == a * b
    ensures p != 0.0
  {
    NonZeroProduct(a, b);
  }

  lemma {:induction false} NoSpread(s: seq<real>, c: real)
    requires forall i :: 0 <= i < |s| ==> s[i] == c
    ensures SquaredDistances(s, c) == 0.0
  {
    if s != [] {
      NoSpread(s[..|s| - 1], c);
      SquareIs(0.0);
    }
  }

  predicate Constant(s: seq<real>) {
    forall i, j :: 0 <= i < j < |s| ==> s[i] == s[j]
  }

  /** The distances from the mean vanish exactly when all values are the same. */
  lemma SpreadVanishes(s: seq<real>)
    requires s != []
    ensures SquaredDistances(s, Sum(s) / |s| as real) == 0.0 <==> Constant(s)
  {
    var mean := Sum(s) / |s| as real;
    if Constant(s) {
      SumConstant(s, s[0]);
      ScaledMean(s[0], |s| as real);
      NoSpread(s, mean);
    } else {
      var i, j :| 0 <= i < j < |s| && s[i] != s[j];
      SpreadPositive(s, mean, if s[i] != mean then i else j);
    }
  }

  lemma ScaledMean(c: real, n: real)
    requires n > 0.0
    ensures c * n / n == c
  {
  }

  /** A root vanishes exactly with what it is taken of. */
  lemma RootVanishes(f: real -> real, v: real)
    requires IsSqrt(f) && v >= 0.0
    ensures f(v) == 0.0 <==> v == 0.0
  {
    RootFacts(f, v);
    if v == 0.0 { ZeroProduct(f(v), f(v), v); }
  }

  lemma QuotientVanishes(a: real, b: real)
    requires b > 0.0 && a >= 0.0
    ensures a / b >= 0.0 && (a / b == 0.0 <==> a == 0.0)
  {
    DivideBack(a, b);
  }

  lemma ProductBack(a: real, b: real, q: real)
    requires b != 0.0 && q == a / b
    ensures q * b == a
  {
  }

  // ----- concatenation -----

  /** A series of series, end to end. */
  function Flatten<R>(batches: seq<seq<R>>): seq<R> {
    if batches == [] then [] else batches[0] + Flatten(batches[1..])
  }

  lemma {:induction false} FlattenLast<R>(batches: seq<seq<R>>)
    requires batches != []
    ensures Flatten(batches) == Flatten(batches[..|batches| - 1]) + batches[|batches| - 1]
  {
    if |batches| == 1 {
      assert batches[1..] == [] && batches[..0] == [];
      assert Flatten<R>([]) == [];
    } else {
      FlattenLast(batches[1..]);
      var init := batches[..|batches| - 1];
      assert init[1..] == batches[1..][..|batches| - 2] && init[0] == batches[0];
    }
  }

  lemma FlattenNone<R>()
    ensures Flatten<R>([]) == []
  {
  }

  lemma FlattenOne<R>(batch: seq<R>)
    ensures Flatten([batch]) == batch
  {
    assert [batch][1..] == [];
    assert batch + [] == batch;
  }

  lemma {:induction false} FlattenConcat<R>(a: seq<seq<R>>, b: seq<seq<R>>)
    ensures Flatten(a + b) == Flatten(a) + Flatten(b)
  {
    if a == [] {
      assert a + b == b;
    } else {
      assert (a + b)[1..] == a[1..] + b;
      FlattenConcat(a[1..], b);
    }
  }
}
