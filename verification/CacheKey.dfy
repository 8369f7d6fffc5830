/** The prediction request, its answer and its cache key (http.rs).

    Doubles are bit patterns, so that they can be printed injectively; requests come from JSON and
    hold finite numbers only. */
module CacheKey {
  import opened Texts

  /** A finite double by its 64 bits: the exponent field is not all ones. */
  type F64 = b: int | 0 <= b < 0x1_0000_0000_0000_0000 && (b / 0x10_0000_0000_0000) % 2048 != 2047 witness 0

  datatype Request = Request(symbol: string, features: seq<F64>)

  datatype Response = Response(symbol: string, prediction: F64, confidence: F64, direction: string, cached: bool)

  /** What the key needs of the debug printer of a number: something is printed, without separators
      or colons, and different numbers show differently. */
  ghost predicate ShowsApart(show: F64 -> string) {
    && (forall x :: show(x) != [] && Without(show(x), ',') && Without(show(x), ':'))
    && (forall x, y :: show(x) == show(y) ==> x == y)
  }

  function Join(features: seq<F64>, show: F64 -> string): string {
    if features == [] then []
    else if |features| == 1 then show(features[0])
    else show(features[0]) + ", " + Join(features[1..], show)
  }

  /** format!("pred:{}:{:?}", symbol, features) */
  function Key(req: Request, show: F64 -> string): string {
    "pred:" + req.symbol + ":" + ("[" + Join(req.features, show) + "]")
  }

  lemma {:induction false} JoinHasNoColon(features: seq<F64>, show: F64 -> string)
    requires ShowsApart(show)
    ensures Without(Join(features, show), ':')
  {
    if |features| > 1 { JoinHasNoColon(features[1..], show); }
  }

  lemma JoinOne(f: seq<F64>, g: seq<F64>, show: F64 -> string)
    requires ShowsApart(show) && |f| == 1 && |g| > 1
    ensures Join(f, show) != Join(g, show)
  {
    var s := Join(g, show);
    assert s[|show(g[0])|] == ',';
    assert Without(Join(f, show), ',');
  }

  /** The printed vector determines the vector. */
  lemma {:induction false} JoinInjective(f: seq<F64>, g: seq<F64>, show: F64 -> string)
    requires ShowsApart(show) && Join(f, show) == Join(g, show)
    ensures f == g
  {
    if f == [] || g == [] {
    } else if |f| == 1 && |g| > 1 {
      JoinOne(f, g, show);
    } else if |g| == 1 && |f| > 1 {
      JoinOne(g, f, show);
    } else if |f| > 1 {
      var x, y := [' '] + Join(f[1..], show), [' '] + Join(g[1..], show);
      assert Join(f, show) == show(f[0]) + [','] + x;
      assert Join(g, show) == show(g[0]) + [','] + y;
      SplitUnique(show(f[0]), x, show(g[0]), y, ',');
      assert x[1..] == Join(f[1..], show) && y[1..] == Join(g[1..], show);
      JoinInjective(f[1..], g[1..], show);
      assert f == [f[0]] + f[1..] && g == [g[0]] + g[1..];
    }
  }

  /** Different requests have different cache keys, even when symbols hold colons. */
  lemma KeyInjective(a: Request, b: Request, show: F64 -> string)
    requires ShowsApart(show) && Key(a, show) == Key(b, show)
    ensures a == b
  {
    var x, y := "[" + Join(a.features, show) + "]", "[" + Join(b.features, show) + "]";
    JoinHasNoColon(a.features, show);
    JoinHasNoColon(b.features, show);
    SplitUnique("pred:" + a.symbol, x, "pred:" + b.symbol, y, ':');
    assert ("pred:" + a.symbol)[5..] == a.symbol && ("pred:" + b.symbol)[5..] == b.symbol;
    assert x[1..|x| - 1] == Join(a.features, show) && y[1..|y| - 1] == Join(b.features, show);
    JoinInjective(a.features, b.features, show);
  }
}
