/** What the records handed over by an endpoint loop say: each is one received object, with that
    object's id and values and its own time or the poll's. */
module RestRecords {
  import opened Series
  import opened RestCursor

  /** A received object and the clock when its response was parsed. */
  datatype Arrival = Arrival(o: Object, now: int)

  function Stamped(arr: seq<Object>, now: int): (a: seq<Arrival>)
    ensures |a| == |arr| && forall i :: 0 <= i < |a| ==> a[i] == Arrival(arr[i], now)
  {
    seq(|arr|, i requires 0 <= i < |arr| => Arrival(arr[i], now))
  }

  /** Everything a run receives, response after response. */
  function Arrivals(ticks: seq<Tick>): seq<Arrival> {
    if ticks == [] then []
    else
      var before, t := Arrivals(ticks[..|ticks| - 1]), ticks[|ticks| - 1];
      if t.Response? then before + Stamped(t.arr, t.now) else before
  }

  function ObjectsOf(a: seq<Arrival>): (s: seq<Object>)
    ensures |s| == |a| && forall i :: 0 <= i < |s| ==> s[i] == a[i].o
  {
    seq(|a|, i requires 0 <= i < |a| => a[i].o)
  }

  /** The record is the object's: its id, its values, and its own timestamp or the poll's clock. */
  predicate Carries(r: Record, a: Arrival) {
    r.id == a.o.id && r.values == a.o.values && r.ts == if a.o.ts.Some? then a.o.ts.value else a.now
  }

  /** The positions of the objects handed over: all without a cursor, the kept ones with it. */
  function HandedAt(afterId: bool, objects: seq<Object>): seq<nat> {
    if objects == [] then []
    else
      var n := |objects| - 1;
      var before := HandedAt(afterId, objects[..n]);
      if !afterId || Kept(objects, None, n) then before + [n] else before
  }

  /** The positions increase and are exactly those of the kept objects. */
  lemma {:induction false} HandedAtExactly(afterId: bool, objects: seq<Object>)
    ensures var at := HandedAt(afterId, objects);
            && (forall k :: 0 <= k < |at| ==> at[k] < |objects|)
            && (forall j, k :: 0 <= j < k < |at| ==> at[j] < at[k])
            && (forall i :: 0 <= i < |objects| ==> (i in at <==> !afterId || Kept(objects, None, i)))
  {
    if objects != [] {
      var n := |objects| - 1;
      HandedAtExactly(afterId, objects[..n]);
      forall i | 0 <= i < n ensures Kept(objects, None, i) <==> Kept(objects[..n], None, i) {
        assert forall j :: 0 <= j < n ==> objects[..n][j] == objects[j];
      }
    }
  }

  /** One object after another. */
  function Process(afterId: bool, a: seq<Arrival>): (seq<Record>, EndpointState) {
    if a == [] then ([], START)
    else
      var (records, state) := Process(afterId, a[..|a| - 1]);
      match ObjectToRecord(afterId, a[|a| - 1].o, state, a[|a| - 1].now)
      case None => (records, state)
      case Some((rec, next)) => (records + [rec], next)
  }

  lemma {:induction false} ProcessResponse(afterId: bool, a: seq<Arrival>, arr: seq<Object>, now: int)
    ensures var (records, state) := Process(afterId, a);
            var (more, next) := Parse(afterId, arr, state, now);
            Process(afterId, a + Stamped(arr, now)) == (records + more, next)
  {
    hide ObjectToRecord;
    var all := a + Stamped(arr, now);
    var (records, state) := Process(afterId, a);
    if arr == [] {
      assert all == a && records + [] == records;
    } else {
      var n := |arr| - 1;
      ProcessResponse(afterId, a, arr[..n], now);
      assert all[..|all| - 1] == a + Stamped(arr[..n], now) && all[|all| - 1] == Arrival(arr[n], now);
      var (more, next) := Parse(afterId, arr[..n], state, now);
      assert Process(afterId, all[..|all| - 1]) == (records + more, next);
      match ObjectToRecord(afterId, arr[n], next, now)
      case None =>
      case Some((rec, last)) => assert records + more + [rec] == records + (more + [rec]);
    }
  }

  /** A run is the same as processing everything it received, wherever sends failed. */
  lemma {:induction false} RunIsProcess(afterId: bool, ticks: seq<Tick>)
    ensures (Run(afterId, ticks).handed, Run(afterId, ticks).state) == Process(afterId, Arrivals(ticks))
  {
    hide Parse, Process;
    if ticks == [] {
      ProcessNothing(afterId);
    } else {
      var before, t := ticks[..|ticks| - 1], ticks[|ticks| - 1];
      RunIsProcess(afterId, before);
      if t.Response? { ProcessResponse(afterId, Arrivals(before), t.arr, t.now); }
    }
  }

  lemma ProcessNothing(afterId: bool)
    ensures Process(afterId, []) == ([], START)
  {
  }

  /** The latest timestamp of some records. */
  predicate IsLatest(records: seq<Record>, t: Option<int>) {
    && (t.None? <==> records == [])
    && (t.Some? ==> (forall k :: 0 <= k < |records| ==> records[k].ts <= t.value)
                    && exists k :: 0 <= k < |records| && records[k].ts == t.value)
  }

  lemma LatestGrows(records: seq<Record>, t: Option<int>, r: Record)
    requires IsLatest(records, t)
    ensures IsLatest(records + [r], Some(if t.None? || r.ts > t.value then r.ts else t.value))
  {
    var all := records + [r];
    if t.Some? && r.ts <= t.value {
      var k :| 0 <= k < |records| && records[k].ts == t.value;
      assert all[k].ts == t.value;
    } else {
      assert all[|records|].ts == r.ts;
    }
  }

  lemma {:induction false} ProcessCarries(afterId: bool, a: seq<Arrival>)
    ensures var (records, state) := Process(afterId, a);
            var at := HandedAt(afterId, ObjectsOf(a));
            && |records| == |at|
            && (forall k :: 0 <= k < |at| ==> at[k] < |a| && Carries(records[k], a[at[k]]))
            && (afterId ==> state.cursor == Highest(ObjectsOf(a), None))
            && IsLatest(records, state.lastTime)
  {
    hide Highest, Kept, IsLatest;
    if a == [] {
      assert Highest([], None) == None by { NothingKept(); }
      NothingIsLatest();
    } else {
      var n := |a| - 1;
      ProcessCarries(afterId, a[..n]);
      var objects := ObjectsOf(a);
      assert objects[..n] == ObjectsOf(a[..n]);
      var (records, state) := Process(afterId, a[..n]);
      if afterId {
        KeptIffHighest(objects, None, n);
        HighestStep(objects);
      }
      var ts := if a[n].o.ts.Some? then a[n].o.ts.value else a[n].now;
      LatestGrows(records, state.lastTime, Record(a[n].o.id, ts, a[n].o.values));
    }
  }

  lemma NothingIsLatest()
    ensures IsLatest([], None)
  {
  }

  lemma HighestStep(objects: seq<Object>)
    requires objects != []
    ensures var h, id := Highest(objects[..|objects| - 1], None), objects[|objects| - 1].id;
            Highest(objects, None) == if id.Number? && (h.None? || h.value < id.v) then Some(id.v) else h
  {
  }

  /** Over any run, in order and once each, the records handed over are the received objects that the
      cursor keeps, or without a cursor all of them: same id, same values, the object's own timestamp
      or the clock of its response. The loop's last time is the latest of their timestamps. */
  lemma HandedCarryObjects(afterId: bool, ticks: seq<Tick>)
    ensures var handed, a := Run(afterId, ticks).handed, Arrivals(ticks);
            var at := HandedAt(afterId, ObjectsOf(a));
            && |handed| == |at|
            && (forall k :: 0 <= k < |at| ==> at[k] < |a| && Carries(handed[k], a[at[k]]))
            && (forall j, k :: 0 <= j < k < |at| ==> at[j] < at[k])
            && (forall i :: 0 <= i < |a| ==> (i in at <==> !afterId || Kept(ObjectsOf(a), None, i)))
            && IsLatest(handed, Run(afterId, ticks).state.lastTime)
  {
    hide Process, HandedAt, Kept, IsLatest;
    RunIsProcess(afterId, ticks);
    ProcessCarries(afterId, Arrivals(ticks));
    HandedAtExactly(afterId, ObjectsOf(Arrivals(ticks)));
  }

  /** Without a cursor every received object is handed over exactly once, in order. */
  lemma NoCursorHandsAll(ticks: seq<Tick>)
    ensures var handed, a := Run(false, ticks).handed, Arrivals(ticks);
            |handed| == |a| && forall k :: 0 <= k < |a| ==> Carries(handed[k], a[k])
  {
    hide Carries;
    HandedCarryObjects(false, ticks);
    AllAt(ObjectsOf(Arrivals(ticks)));
  }

  lemma {:induction false} AllAt(objects: seq<Object>)
    ensures |HandedAt(false, objects)| == |objects|
    ensures forall k :: 0 <= k < |objects| ==> HandedAt(false, objects)[k] == k
  {
    if objects != [] { AllAt(objects[..|objects| - 1]); }
  }
}
