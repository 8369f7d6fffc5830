/** The streaming validator: key extraction and the combined check (validator/mod.rs), bounds
    (bounds.rs) and the consume loop (main.rs). Messages are modelled after JSON parsing. */
module Validator {
  import opened Series
  import opened Texts
  import opened Bloom

  datatype Value = Text(s: string) | Float(r: real) | Whole(n: int) | Other

  type Object = map<string, Value>

  /** A payload: its bytes and what the JSON parser makes of them. */
  datatype Payload = Payload(bytes: string, parsed: Option<Object>)

  /** The configured bounds, and whether the JSON library's float reading also reads integers. */
  datatype Bounds = Bounds(rangeColumns: seq<string>, rangeMin: real, rangeMax: real, nonnegColumns: seq<string>,
                           readsWhole: bool)

  datatype Verdict = Valid | Invalid | ParseError

  // ----- keys -----

  function TextOr(v: Object, field: string, default: string): string {
    if field in v && v[field].Text? then v[field].s else default
  }

  /** "symbol:timestamp", with "" and "0" for fields that are not strings. */
  function ExtractKey(v: Object): string {
    TextOr(v, "symbol", "") + ":" + TextOr(v, "timestamp", "0")
  }

  /** When symbols hold no colon, equal keys mean equal symbol and timestamp texts. */
  lemma KeyDeterminesFields(v: Object, w: Object)
    requires Without(TextOr(v, "symbol", ""), ':') && Without(TextOr(w, "symbol", ""), ':')
    ensures ExtractKey(v) == ExtractKey(w) <==>
              TextOr(v, "symbol", "") == TextOr(w, "symbol", "")
              && TextOr(v, "timestamp", "0") == TextOr(w, "timestamp", "0")
  {
    hide TextOr;
    if ExtractKey(v) == ExtractKey(w) {
      SplitUnique(TextOr(v, "symbol", ""), TextOr(v, "timestamp", "0"), TextOr(w, "symbol", ""),
                  TextOr(w, "timestamp", "0"), ':');
    }
  }

  /** A record with the given symbol and timestamp texts. */
  function Stamped(symbol: string, timestamp: string): Object {
    map["symbol" := Text(symbol), "timestamp" := Text(timestamp)]
  }

  /** Records of two symbols can share a key exactly when one symbol followed by a colon begins with
      the other followed by a colon, as "a:b" and "a" do. */
  lemma ColonsCollide(a: string, b: string)
    ensures (exists t, u :: ExtractKey(Stamped(a, t)) == ExtractKey(Stamped(b, u)))
        <==> a + ":" <= b + ":" || b + ":" <= a + ":"
  {
    if a + ":" <= b + ":" {
      CollideOneWay(a, b);
    }
    if b + ":" <= a + ":" {
      CollideOneWay(b, a);
    }
    forall t, u | ExtractKey(Stamped(a, t)) == ExtractKey(Stamped(b, u))
      ensures a + ":" <= b + ":" || b + ":" <= a + ":"
    {
      var key := ExtractKey(Stamped(a, t));
      assert key == (a + ":") + t == (b + ":") + u;
      assert a + ":" == key[..|a| + 1] && b + ":" == key[..|b| + 1];
    }
  }

  lemma CollideOneWay(a: string, b: string)
    requires a + ":" <= b + ":"
    ensures exists t, u :: ExtractKey(Stamped(a, t)) == ExtractKey(Stamped(b, u))
    ensures exists t, u :: ExtractKey(Stamped(b, t)) == ExtractKey(Stamped(a, u))
  {
    var t := (b + ":")[|a| + 1..];
    assert (a + ":") + t == b + ":";
    assert ExtractKey(Stamped(a, t)) == (a + ":") + t;
    assert ExtractKey(Stamped(b, "")) == (b + ":") + "";
    assert ExtractKey(Stamped(a, t)) == ExtractKey(Stamped(b, ""));
  }

  /** Timestamps that are not strings all read as "0": records of one symbol then share one key. */
  lemma NumericTimestampsCollide(v: Object, w: Object)
    requires "timestamp" in v && !v["timestamp"].Text? && "timestamp" in w && !w["timestamp"].Text?
    requires TextOr(v, "symbol", "") == TextOr(w, "symbol", "")
    ensures ExtractKey(v) == ExtractKey(w)
  {
  }

  // ----- bounds -----

  /** v.get(field).and_then(as_f64) */
  function AsF64(v: Object, field: string, readsWhole: bool): Option<real> {
    if field !in v then None
    else
      match v[field]
      case Float(r) => Some(r)
      case Whole(n) => if readsWhole then Some(n as real) else None
      case _ => None
  }

  predicate Inside(v: Object, field: string, b: Bounds) {
    var x := AsF64(v, field, b.readsWhole);
    x.Some? ==> b.rangeMin <= x.value <= b.rangeMax
  }

  predicate NonNegative(v: Object, field: string, b: Bounds) {
    var x := AsF64(v, field, b.readsWhole);
    x.Some? ==> x.value >= 0.0
  }

  /** The early-return scans of BoundsChecker.check. */
  function RangeScan(fields: seq<string>, v: Object, b: Bounds): (ok: bool)
    ensures ok <==> forall i :: 0 <= i < |fields| ==> Inside(v, fields[i], b)
  {
    if fields == [] then true
    else if !Inside(v, fields[0], b) then false
    else
      var rest := RangeScan(fields[1..], v, b);
      assert forall i :: 1 <= i < |fields| ==> fields[i] == fields[1..][i - 1];
      rest
  }

  function NonNegScan(fields: seq<string>, v: Object, b: Bounds): (ok: bool)
    ensures ok <==> forall i :: 0 <= i < |fields| ==> NonNegative(v, fields[i], b)
  {
    if fields == [] then true
    else if !NonNegative(v, fields[0], b) then false
    else
      var rest := NonNegScan(fields[1..], v, b);
      assert forall i :: 1 <= i < |fields| ==> fields[i] == fields[1..][i - 1];
      rest
  }

  /** A record passes exactly when every configured column that reads as a number is in bounds. */
  function CheckBounds(b: Bounds, v: Object): (ok: bool)
    ensures ok <==>
      && (forall f :: f in b.rangeColumns ==> Inside(v, f, b))
      && (forall f :: f in b.nonnegColumns ==> NonNegative(v, f, b))
  {
    RangeScan(b.rangeColumns, v, b) && NonNegScan(b.nonnegColumns, v, b)
  }

  /** A record whose configured columns hold integers alone passes whatever they are, for all such
      records, exactly when the library does not read integers as floats or no integer can fail. */
  lemma WholeNumbersEscape(b: Bounds)
    ensures (forall v :: WholeOnly(b, v) ==> CheckBounds(b, v))
            <==> !b.readsWhole || (b.rangeColumns == [] && b.nonnegColumns == [])
  {
    if b.readsWhole && b.nonnegColumns != [] {
      var v := map f | f in b.rangeColumns + b.nonnegColumns :: Whole(-1);
      assert b.nonnegColumns[0] in b.nonnegColumns && b.nonnegColumns[0] in b.rangeColumns + b.nonnegColumns;
      assert !NonNegative(v, b.nonnegColumns[0], b);
      assert WholeOnly(b, v) && !CheckBounds(b, v);
    } else if b.readsWhole && b.rangeColumns != [] {
      var n := b.rangeMax.Floor + 1;
      var v := map f | f in b.rangeColumns + b.nonnegColumns :: Whole(n);
      assert b.rangeColumns[0] in b.rangeColumns && b.rangeColumns[0] in b.rangeColumns + b.nonnegColumns;
      assert !Inside(v, b.rangeColumns[0], b);
      assert WholeOnly(b, v) && !CheckBounds(b, v);
    }
  }

  predicate WholeOnly(b: Bounds, v: Object) {
    forall f :: f in b.rangeColumns + b.nonnegColumns && f in v ==> v[f].Whole?
  }

  // ----- the combined validator -----

  /** Schema first, then dedup, then bounds: a duplicate is one whatever its bounds say, and an
      out-of-bounds record still marks its key as seen. */
  function ValidateStep(schema: Object -> bool, bounds: Bounds, h: Hashing, bits: set<nat>, p: Payload)
    : (Verdict, set<nat>)
  {
    match p.parsed
    case None => (ParseError, bits)
    case Some(v) =>
      if !schema(v) then (Invalid, bits)
      else
        var (isNew, next) := CheckAndSet(h, bits, ExtractKey(v));
        (if isNew && CheckBounds(bounds, v) then Valid else Invalid, next)
  }

  class Validator {
    const schema: Object -> bool
    const dedup: DedupFilter
    const bounds: Bounds

    constructor (schema: Object -> bool, hashing: Hashing, bounds: Bounds)
      requires hashing.Valid()
      ensures this.schema == schema && this.bounds == bounds
      ensures fresh(dedup) && fresh(dedup.bloom) && fresh(dedup.bloom.bits)
      ensures dedup.bloom.Valid() && dedup.bloom.hashing == hashing && dedup.bloom.Set() == {}
    {
      this.schema, this.bounds := schema, bounds;
      dedup := new DedupFilter(hashing);
    }

    method Validate(p: Payload) returns (r: Verdict)
      requires dedup.bloom.Valid()
      modifies dedup.bloom.bits
      ensures (r, dedup.bloom.Set()) == ValidateStep(schema, bounds, dedup.bloom.hashing, old(dedup.bloom.Set()), p)
    {
      if p.parsed.None? {
        return ParseError;
      }
      var v := p.parsed.value;
      if !schema(v) {
        return Invalid;
      }
      var isNew := dedup.Check(ExtractKey(v));
      if !isNew {
        return Invalid;
      }
      if !CheckBounds(bounds, v) {
        return Invalid;
      }
      return Valid;
    }
  }

  /** One item of the consumed stream: a Kafka error, a message without payload, or a payload. */
  datatype Item = KafkaError | Empty | Message(p: Payload)

  function PayloadsOf(items: seq<Item>): seq<Payload> {
    if items == [] then []
    else
      var before := PayloadsOf(items[..|items| - 1]);
      if items[|items| - 1].Message? then before + [items[|items| - 1].p] else before
  }

  /** The bits of the filter after validating some payloads. */
  function BitsOf(schema: Object -> bool, bounds: Bounds, h: Hashing, ps: seq<Payload>): set<nat> {
    if ps == [] then {}
    else ValidateStep(schema, bounds, h, BitsOf(schema, bounds, h, ps[..|ps| - 1]), ps[|ps| - 1]).1
  }

  /** Whether payload i is forwarded. */
  predicate Forwards(schema: Object -> bool, bounds: Bounds, h: Hashing, ps: seq<Payload>, i: nat)
    requires i < |ps|
  {
    ValidateStep(schema, bounds, h, BitsOf(schema, bounds, h, ps[..i]), ps[i]).0.Valid?
  }

  /** The forwarded byte strings, in order. */
  function Forwarded(schema: Object -> bool, bounds: Bounds, h: Hashing, ps: seq<Payload>): seq<string> {
    if ps == [] then []
    else
      var n := |ps| - 1;
      var before := Forwarded(schema, bounds, h, ps[..n]);
      if Forwards(schema, bounds, h, ps, n) then before + [ps[n].bytes] else before
  }

  /** The consume loop: counts payloads and valid ones, forwards the original bytes of valid ones. */
  method ConsumeAndValidate(validator: Validator, stream: seq<Item>)
    returns (count: nat, validCount: nat, sent: seq<string>)
    requires validator.dedup.bloom.Valid() && validator.dedup.bloom.Set() == {}
    modifies validator.dedup.bloom.bits
    ensures count == |PayloadsOf(stream)|
    ensures validCount == |sent|
    ensures sent == Forwarded(validator.schema, validator.bounds, validator.dedup.bloom.hashing, PayloadsOf(stream))
  {
    hide ValidateStep;
    count, validCount, sent := 0, 0, [];
    ghost var schema, bounds, h := validator.schema, validator.bounds, validator.dedup.bloom.hashing;
    for i := 0 to |stream|
      invariant count == |PayloadsOf(stream[..i])| && validCount == |sent|
      invariant validator.dedup.bloom.Set() == BitsOf(schema, bounds, h, PayloadsOf(stream[..i]))
      invariant sent == Forwarded(schema, bounds, h, PayloadsOf(stream[..i]))
    {
      assert stream[..i + 1][..i] == stream[..i];
      match stream[i] {
        case Message(p) =>
          ghost var before, after := PayloadsOf(stream[..i]), PayloadsOf(stream[..i + 1]);
          assert after == before + [p] && after[..|before|] == before;
          count := count + 1;
          var original := p.bytes;
          var verdict := validator.Validate(p);
          if verdict == Valid {
            validCount := validCount + 1;
            sent := sent + [original];
          }
        case KafkaError =>
        case Empty =>
      }
    }
    assert stream[..|stream|] == stream;
  }

  // ----- against an exact validator -----

  /** The keys the filter is asked about: those of schema-valid payloads. */
  function CheckedKeys(schema: Object -> bool, ps: seq<Payload>): seq<string> {
    if ps == [] then []
    else
      var before, p := CheckedKeys(schema, ps[..|ps| - 1]), ps[|ps| - 1];
      if p.parsed.Some? && schema(p.parsed.value) then before + [ExtractKey(p.parsed.value)] else before
  }

  /** What a validator with an exact set of seen keys would forward. */
  predicate ExactForwards(schema: Object -> bool, bounds: Bounds, ps: seq<Payload>, i: nat)
    requires i < |ps|
  {
    && ps[i].parsed.Some?
    && schema(ps[i].parsed.value)
    && ExtractKey(ps[i].parsed.value) !in CheckedKeys(schema, ps[..i])
    && CheckBounds(bounds, ps[i].parsed.value)
  }

  function ExactForwarded(schema: Object -> bool, bounds: Bounds, ps: seq<Payload>): seq<string> {
    if ps == [] then []
    else
      var n := |ps| - 1;
      var before := ExactForwarded(schema, bounds, ps[..n]);
      if ExactForwards(schema, bounds, ps, n) then before + [ps[n].bytes] else before
  }

  predicate Subsequence(a: seq<string>, b: seq<string>) {
    if a == [] then true
    else if b == [] then false
    else if a[|a| - 1] == b[|b| - 1] && Subsequence(a[..|a| - 1], b[..|b| - 1]) then true
    else Subsequence(a, b[..|b| - 1])
  }

  /** The filter's bits come from the checked keys alone. */
  lemma {:induction false} BitsFromKeys(schema: Object -> bool, bounds: Bounds, h: Hashing, ps: seq<Payload>)
    ensures BitsOf(schema, bounds, h, ps) == BitsAfter(h, CheckedKeys(schema, ps))
  {
    hide CheckBounds, ExtractKey, CheckAndSet;
    if ps != [] {
      var n := |ps| - 1;
      BitsFromKeys(schema, bounds, h, ps[..n]);
      var keys := CheckedKeys(schema, ps);
      if ps[n].parsed.Some? && schema(ps[n].parsed.value) {
        assert keys[..|keys| - 1] == CheckedKeys(schema, ps[..n]);
      }
    }
  }

  /** A payload is forwarded exactly when the exact validator forwards it and its key is not a
      false positive of the filter at that moment. */
  lemma ForwardsExactly(schema: Object -> bool, bounds: Bounds, h: Hashing, ps: seq<Payload>, i: nat)
    requires i < |ps|
    ensures Forwards(schema, bounds, h, ps, i) <==>
              ExactForwards(schema, bounds, ps, i)
              && !(h.Bits(ExtractKey(ps[i].parsed.value)) <= BitsAfter(h, CheckedKeys(schema, ps[..i])))
  {
    hide CheckBounds, ExtractKey;
    BitsFromKeys(schema, bounds, h, ps[..i]);
    if ps[i].parsed.Some? && schema(ps[i].parsed.value) {
      var keys, key := CheckedKeys(schema, ps[..i]), ExtractKey(ps[i].parsed.value);
      var all := keys + [key];
      assert all[..|keys|] == keys && all[|keys|] == key;
      BloomRefinesExact(h, all, |keys|);
      assert NewAt(h, all, |keys|) <==> !(h.Bits(key) <= BitsAfter(h, keys));
    }
  }

  lemma {:induction false} SubsequenceOfMore(a: seq<string>, b: seq<string>, x: string)
    requires Subsequence(a, b)
    ensures Subsequence(a, b + [x]) && Subsequence(a + [x], b + [x])
  {
    assert (b + [x])[..|b|] == b && (a + [x])[..|a|] == a;
  }

  /** Over any stream the forwarded bytes are, in order, a subsequence of what the exact validator
      forwards. */
  lemma {:induction false} ForwardedIsSubsequence(schema: Object -> bool, bounds: Bounds, h: Hashing, ps: seq<Payload>)
    ensures Subsequence(Forwarded(schema, bounds, h, ps), ExactForwarded(schema, bounds, ps))
  {
    hide Forwards, ExactForwards, Subsequence;
    if ps == [] {
      EmptySubsequence();
    } else {
      var n := |ps| - 1;
      ForwardedIsSubsequence(schema, bounds, h, ps[..n]);
      ForwardsExactly(schema, bounds, h, ps, n);
      SubsequenceOfMore(Forwarded(schema, bounds, h, ps[..n]), ExactForwarded(schema, bounds, ps[..n]), ps[n].bytes);
    }
  }

  lemma EmptySubsequence()
    ensures Subsequence([], [])
  {
  }

  /** Each key is forwarded at most once over the whole stream. */
  lemma ForwardedAtMostOnce(schema: Object -> bool, bounds: Bounds, h: Hashing, ps: seq<Payload>, i: nat, j: nat)
    requires i < j < |ps| && Forwards(schema, bounds, h, ps, i)
    requires ps[j].parsed.Some? && ExtractKey(ps[j].parsed.value) == ExtractKey(ps[i].parsed.value)
    ensures !Forwards(schema, bounds, h, ps, j)
  {
    hide ExtractKey, CheckBounds;
    ForwardsExactly(schema, bounds, h, ps, i);
    ForwardsExactly(schema, bounds, h, ps, j);
    CheckedKeyStays(schema, ps, i, j);
  }

  lemma {:induction false} CheckedKeyStays(schema: Object -> bool, ps: seq<Payload>, i: nat, j: nat)
    requires i < j <= |ps| && ps[i].parsed.Some? && schema(ps[i].parsed.value)
    ensures ExtractKey(ps[i].parsed.value) in CheckedKeys(schema, ps[..j])
  {
    hide ExtractKey;
    assert ps[..j][..j - 1] == ps[..j - 1];
    if i < j - 1 { CheckedKeyStays(schema, ps, i, j - 1); }
  }

  // ----- keys, bounds and forwarding, spelled out -----

  /** The key text: the symbol, a colon, the timestamp; "" and "0" stand for fields that hold no text. */
  lemma KeyIs(v: Object)
    ensures exists s, t :: ExtractKey(v) == s + ":" + t
              && (if "symbol" in v && v["symbol"].Text? then s == v["symbol"].s else s == "")
              && (if "timestamp" in v && v["timestamp"].Text? then t == v["timestamp"].s else t == "0")
  {
    var s, t := TextOr(v, "symbol", ""), TextOr(v, "timestamp", "0");
    assert ExtractKey(v) == s + ":" + t;
  }

  /** The number the field is read as. */
  predicate ReadsAs(x: Value, r: real, readsWhole: bool) {
    x == Float(r) || (readsWhole && x.Whole? && r == x.n as real)
  }

  /** A record is in bounds exactly when every number in a range column lies between the limits, both
      included, and none in a non-negative column is below zero. */
  lemma BoundsAre(b: Bounds, v: Object)
    ensures CheckBounds(b, v) <==>
            && (forall f, r :: f in b.rangeColumns && f in v && ReadsAs(v[f], r, b.readsWhole) ==>
                  b.rangeMin <= r && r <= b.rangeMax)
            && (forall f, r :: f in b.nonnegColumns && f in v && ReadsAs(v[f], r, b.readsWhole) ==> r >= 0.0)
  {
    forall f
      ensures || AsF64(v, f, b.readsWhole).None?
              || (f in v && ReadsAs(v[f], AsF64(v, f, b.readsWhole).value, b.readsWhole))
    {
    }
    forall f, r | f in v && ReadsAs(v[f], r, b.readsWhole) ensures AsF64(v, f, b.readsWhole) == Some(r) {
    }
  }

  /** An earlier payload passed the schema with the same key. */
  predicate SeenBefore(schema: Object -> bool, ps: seq<Payload>, i: nat, key: string)
    requires i <= |ps|
  {
    exists j :: 0 <= j < i && ps[j].parsed.Some? && schema(ps[j].parsed.value) && ExtractKey(ps[j].parsed.value) == key
  }

  lemma {:induction false} CheckedKeysAre(schema: Object -> bool, ps: seq<Payload>, key: string)
    ensures key in CheckedKeys(schema, ps) <==> SeenBefore(schema, ps, |ps|, key)
  {
    hide ExtractKey;
    if ps != [] {
      var n := |ps| - 1;
      CheckedKeysAre(schema, ps[..n], key);
      assert forall j :: 0 <= j < n ==> ps[..n][j] == ps[j];
    }
  }

  /** What is forwarded: only payloads that parse, pass the schema, are within bounds and whose key no
      earlier schema-valid payload had; and of those every one whose key is no false positive. */
  lemma ForwardedAre(schema: Object -> bool, bounds: Bounds, h: Hashing, ps: seq<Payload>, i: nat)
    requires i < |ps|
    ensures Forwards(schema, bounds, h, ps, i) <==>
            && ps[i].parsed.Some? && schema(ps[i].parsed.value) && CheckBounds(bounds, ps[i].parsed.value)
            && !SeenBefore(schema, ps, i, ExtractKey(ps[i].parsed.value))
            && !(h.Bits(ExtractKey(ps[i].parsed.value)) <= BitsAfter(h, CheckedKeys(schema, ps[..i])))
  {
    hide CheckBounds, ExtractKey;
    ForwardsExactly(schema, bounds, h, ps, i);
    if ps[i].parsed.Some? {
      CheckedKeysAre(schema, ps[..i], ExtractKey(ps[i].parsed.value));
      assert forall j :: 0 <= j < i ==> ps[..i][j] == ps[j];
    }
  }
}
