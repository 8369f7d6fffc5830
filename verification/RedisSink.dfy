/** The online-cache sink of RedisSink.java: the latest indicator map per symbol under a TTL, and
    a per-symbol history trimmed after every write. */
module RedisSink {
  import opened Series
  import opened SortedHistory

  const TTL_SECONDS := 3600
  const HISTORY_LIMIT: nat := 999

  /** A JSON object as it reaches the sink. The fields hold raw JSON; the two routing fields are
      decoded beside them. */
  datatype Record = Record(fields: map<string, string>, symbol: Option<string>, timestamp: Option<int>)

  /** What the JSON parser makes of a value; anything but an object has no symbol. */
  datatype Parsed = Unparseable | NoObject | Object(record: Record)

  datatype Latest = Latest(stored: string, expiresAt: int)

  /** The indicator map alone: the record without its routing fields. */
  function Payload(r: Record): map<string, string> {
    r.fields - {"symbol", "timestamp"}
  }

  /** What a symbol's history holds; a missing key reads as empty. */
  function HistoryOf(history: map<string, SortedSet>, symbol: string): SortedSet {
    if symbol in history then history[symbol] else map[]
  }

  function AddAndTrim(z: SortedSet, score: int, stored: string): SortedSet {
    ZRemRangeByRank(ZAdd(z, score, stored), 0, -(HISTORY_LIMIT + 1))
  }

  /** The history of a symbol after a write, and of every other symbol unchanged. */
  function HistoryAfter(history: map<string, SortedSet>, r: Record, stored: string): map<string, SortedSet> {
    if r.symbol.None? || r.timestamp.None? then history
    else history[r.symbol.value := AddAndTrim(HistoryOf(history, r.symbol.value), r.timestamp.value, stored)]
  }

  /** Removes the two routing fields from the payload, one after the other. */
  method StripRouting(r: Record) returns (payload: map<string, string>)
    ensures payload == Payload(r)
  {
    payload := r.fields;
    payload := payload - {"symbol"};
    payload := payload - {"timestamp"};
  }

  class RedisSinkWriter {
    var latest: map<string, Latest>
    var history: map<string, SortedSet>

    constructor ()
      ensures latest == map[] && history == map[]
    {
      latest, history := map[], map[];
    }

    /** Writes one record; `render` is the JSON writer and `ok` is false when an exception leaves
        the sink. A value without a symbol is skipped. */
    method Write(value: Parsed, render: map<string, string> -> string, now: int) returns (ok: bool)
      modifies this
      ensures ok == !value.Unparseable?
      ensures !value.Object? || value.record.symbol.None? ==> latest == old(latest) && history == old(history)
      ensures value.Object? && value.record.symbol.Some? ==>
                var stored := render(Payload(value.record));
                && latest == old(latest)[value.record.symbol.value := Latest(stored, now + 3600)]
                && history == HistoryAfter(old(history), value.record, stored)
    {
      hide ZAdd, ZRemRangeByRank, Payload;
      if value.Unparseable? {
        return false;
      }
      if value.NoObject? || value.record.symbol.None? {
        return true;
      }
      var parsed := value.record;
      var symbol := parsed.symbol.value;
      var payload := StripRouting(parsed);
      var stored := render(payload);
      latest := latest[symbol := Latest(stored, now + 3600)];
      if parsed.timestamp.Some? {
        var z := ZAdd(HistoryOf(history, symbol), parsed.timestamp.value, stored);
        history := history[symbol := ZRemRangeByRank(z, 0, -1000)];
      }
      return true;
    }
  }

  /** The histories after a run of writes. */
  function Histories(writes: seq<Record>, render: map<string, string> -> string): map<string, SortedSet> {
    if writes == [] then map[]
    else
      var r := writes[|writes| - 1];
      HistoryAfter(Histories(writes[..|writes| - 1], render), r, render(Payload(r)))
  }

  /** The scored payloads a run adds for one symbol, in order. */
  function AddsOf(writes: seq<Record>, render: map<string, string> -> string, symbol: string): seq<Entry> {
    if writes == [] then []
    else
      var before, r := AddsOf(writes[..|writes| - 1], render, symbol), writes[|writes| - 1];
      if r.symbol == Some(symbol) && r.timestamp.Some? then before + [Entry(r.timestamp.value, render(Payload(r)))]
          else before
  }

  lemma HistoryOfAfter(history: map<string, SortedSet>, r: Record, stored: string, symbol: string)
    ensures HistoryOf(HistoryAfter(history, r, stored), symbol)
         == if r.symbol == Some(symbol) && r.timestamp.Some?
            then AddAndTrim(HistoryOf(history, symbol), r.timestamp.value, stored)
            else HistoryOf(history, symbol)
  {
    hide AddAndTrim;
  }

  lemma StoredStep(adds: seq<Entry>, e: Entry)
    ensures Stored(adds + [e], HISTORY_LIMIT) == AddAndTrim(Stored(adds, HISTORY_LIMIT), e.score, e.member)
  {
    hide ZAdd, ZRemRangeByRank;
    assert (adds + [e])[..|adds|] == adds;
  }

  /** Each symbol's history depends on that symbol's writes alone. */
  lemma {:induction false} HistoryOfSymbol(writes: seq<Record>, render: map<string, string> -> string, symbol: string)
    ensures HistoryOf(Histories(writes, render), symbol) == Stored(AddsOf(writes, render, symbol), HISTORY_LIMIT)
  {
    hide AddAndTrim, HistoryAfter, HistoryOf, Payload;
    if writes == [] {
      assert HistoryOf(map[], symbol) == map[] by { NoHistory(symbol); }
    } else {
      var before, r := writes[..|writes| - 1], writes[|writes| - 1];
      HistoryOfSymbol(before, render, symbol);
      HistoryOfAfter(Histories(before, render), r, render(Payload(r)), symbol);
      if r.symbol == Some(symbol) && r.timestamp.Some? {
        StoredStep(AddsOf(before, render, symbol), Entry(r.timestamp.value, render(Payload(r))));
      }
    }
  }

  lemma NoHistory(symbol: string)
    ensures HistoryOf(map[], symbol) == map[]
  {
  }

  /** The history a symbol has after a run is the 999 highest by (score, member) of its writes. */
  predicate HistoryIsTop(writes: seq<Record>, render: map<string, string> -> string, symbol: string) {
    HistoryOf(Histories(writes, render), symbol) == TopK(Written(AddsOf(writes, render, symbol)), HISTORY_LIMIT)
  }

  lemma HistoryIsTopAfter(writes: seq<Record>, render: map<string, string> -> string, symbol: string)
    ensures HistoryIsTop(writes, render, symbol) <==> TopAfter(AddsOf(writes, render, symbol), HISTORY_LIMIT)
  {
    hide Histories, AddsOf, TopK, Stored, Written;
    HistoryOfSymbol(writes, render, symbol);
  }

  lemma {:induction false} TopAfterWrites(writes: seq<Record>, render: map<string, string> -> string, symbol: string)
    ensures (forall n :: 0 <= n <= |writes| ==> HistoryIsTop(writes[..n], render, symbol))
            <==> AlwaysAboveCut(AddsOf(writes, render, symbol), HISTORY_LIMIT)
  {
    hide HistoryIsTop, TopAfter, AlwaysAboveCut, Payload;
    assert writes[..|writes|] == writes;
    HistoryIsTopAfter(writes, render, symbol);
    var adds := AddsOf(writes, render, symbol);
    StoredIsTopKExactly(adds, HISTORY_LIMIT);
    assert adds[..|adds|] == adds;
    if writes != [] {
      var before := writes[..|writes| - 1];
      TopAfterWrites(before, render, symbol);
      StoredIsTopKExactly(AddsOf(before, render, symbol), HISTORY_LIMIT);
      PrefixesBefore(writes, render, symbol);
      var earlier := AddsOf(before, render, symbol);
      assert earlier[..|earlier|] == earlier;
      if adds != earlier {
        assert adds[..|adds| - 1] == earlier;
        PrefixesSplit(adds, HISTORY_LIMIT);
      }
    }
  }

  lemma PrefixesBefore(writes: seq<Record>, render: map<string, string> -> string, symbol: string)
    requires writes != []
    ensures var m := |writes| - 1;
            (forall n :: 0 <= n <= |writes| ==> HistoryIsTop(writes[..n], render, symbol)) <==>
              (forall n :: 0 <= n <= m ==> HistoryIsTop(writes[..m][..n], render, symbol))
                  && HistoryIsTop(writes, render, symbol)
  {
    hide HistoryIsTop;
    var m := |writes| - 1;
    assert writes[..|writes|] == writes;
    forall n | 0 <= n <= m ensures writes[..m][..n] == writes[..n] {
    }
  }

  /** After any run a symbol's history has at most 999 members. It is the 999 highest of its writes
      after every write exactly when no write re-scores a kept payload below one already cut, so in
      particular when no repeated payload comes with a lower timestamp. */
  lemma HistoryIsTopK(writes: seq<Record>, render: map<string, string> -> string, symbol: string)
    ensures symbol in Histories(writes, render) ==> |Histories(writes, render)[symbol]| <= 999
    ensures (forall n :: 0 <= n <= |writes| ==> HistoryIsTop(writes[..n], render, symbol))
            <==> AlwaysAboveCut(AddsOf(writes, render, symbol), HISTORY_LIMIT)
    ensures NeverLowers(AddsOf(writes, render, symbol)) ==> HistoryIsTop(writes, render, symbol)
  {
    hide Histories, AddsOf, TopK, HistoryIsTop, Stored, AlwaysAboveCut, TopAfter, NeverLowers;
    var adds := AddsOf(writes, render, symbol);
    HistoryOfSymbol(writes, render, symbol);
    StoredBound(adds, HISTORY_LIMIT);
    TopAfterWrites(writes, render, symbol);
    if NeverLowers(adds) {
      NeverLowersStaysAbove(adds, HISTORY_LIMIT);
      assert writes[..|writes|] == writes;
    }
  }

  // ----- what is stored -----

  /** The stored map is the record without its symbol and its timestamp, nothing else changed. */
  lemma PayloadIs(r: Record, k: string)
    ensures k in Payload(r) <==> k in r.fields && k != "symbol" && k != "timestamp"
    ensures k in Payload(r) ==> Payload(r)[k] == r.fields[k]
  {
  }

  /** A symbol's history is fed by its own records that carry a number as timestamp, each scored by it. */
  lemma {:induction false} AddsAre(writes: seq<Record>, render: map<string, string> -> string, symbol: string, e: Entry)
    ensures e in AddsOf(writes, render, symbol) <==>
            exists i :: 0 <= i < |writes| && writes[i].symbol == Some(symbol) && writes[i].timestamp == Some(e.score)
                        && e.member == render(Payload(writes[i]))
  {
    hide Payload;
    if writes != [] {
      var n := |writes| - 1;
      AddsAre(writes[..n], render, symbol, e);
      assert forall i :: 0 <= i < n ==> writes[..n][i] == writes[i];
    }
  }
}
