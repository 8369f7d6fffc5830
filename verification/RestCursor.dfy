/** Cursor-filtered endpoint polling: rest_source.go's array-of-objects parsing and main.go's
    endpoint loop, for a numeric "after_id" cursor.

    Objects are modelled after JSON decoding; ids are integers. */
module RestCursor {
  import opened Series

  /** The cursor field of an object: missing, present but not a number, or a number. */
  datatype Id = Absent | Unreadable | Number(v: int)

  datatype Object = Object(id: Id, ts: Option<int>, values: map<string, real>)

  datatype Record = Record(id: Id, ts: int, values: map<string, real>)

  datatype EndpointState = EndpointState(cursor: Option<int>, lastTime: Option<int>)

  const START := EndpointState(None, None)

  /** cursorUpdate: skip an id not above the cursor, otherwise advance the cursor to it. */
  function CursorUpdate(id: Id, state: EndpointState): (bool, EndpointState) {
    if !id.Number? then (false, state)
    else if state.cursor.Some? && id.v <= state.cursor.value then (true, state)
    else (false, state.(cursor := Some(id.v)))
  }

  /** objectToRecord: None when the cursor filter skips the object. */
  function ObjectToRecord(afterId: bool, o: Object, state: EndpointState, now: int): Option<(Record, EndpointState)> {
    var (skip, moved) := if afterId then CursorUpdate(o.id, state) else (false, state);
    if skip then None
    else
      var ts := if o.ts.Some? then o.ts.value else now;
      var newer := moved.lastTime.None? || ts > moved.lastTime.value;
      Some((Record(o.id, ts, o.values), if newer then moved.(lastTime := Some(ts)) else moved))
  }

  /** The records and the state a response leaves. */
  function Parse(afterId: bool, arr: seq<Object>, state: EndpointState, now: int): (seq<Record>, EndpointState) {
    if arr == [] then ([], state)
    else
      var (records, mid) := Parse(afterId, arr[..|arr| - 1], state, now);
      match ObjectToRecord(afterId, arr[|arr| - 1], mid, now)
      case None => (records, mid)
      case Some((rec, next)) => (records + [rec], next)
  }

  method ParseArrayOfObjectsResponse(afterId: bool, arr: seq<Object>, state: EndpointState, now: int)
    returns (records: seq<Record>, newState: EndpointState)
    ensures (records, newState) == Parse(afterId, arr, state, now)
  {
    records, newState := [], state;
    for i := 0 to |arr|
      invariant (records, newState) == Parse(afterId, arr[..i], state, now)
    {
      assert arr[..i + 1][..i] == arr[..i];
      match ObjectToRecord(afterId, arr[i], newState, now) {
        case None =>
        case Some((rec, updated)) =>
          records := records + [rec];
          newState := updated;
      }
    }
    assert arr[..|arr|] == arr;
  }

  // ----- the poll loop -----

  /** One tick: the fetch fails, or a response arrives and the send of its records may fail. */
  datatype Tick = FetchError | Response(arr: seq<Object>, now: int, sent: bool)

  /** What the loop has handed to the sender, and what of it was sent. */
  datatype Log = Log(state: EndpointState, handed: seq<Record>, delivered: seq<Record>)

  function AfterTick(afterId: bool, log: Log, t: Tick): Log {
    match t
    case FetchError => log
    case Response(arr, now, sent) =>
      var (records, next) := Parse(afterId, arr, log.state, now);
      Log(next, log.handed + records, if sent then log.delivered + records else log.delivered)
  }

  function Run(afterId: bool, ticks: seq<Tick>): Log {
    if ticks == [] then Log(START, [], [])
    else AfterTick(afterId, Run(afterId, ticks[..|ticks| - 1]), ticks[|ticks| - 1])
  }

  /** The goroutine's variables, with the log of what it handed over. */
  class EndpointLoop {
    const afterId: bool
    var state: EndpointState
    ghost var handed: seq<Record>
    ghost var delivered: seq<Record>

    constructor (afterId: bool)
      ensures this.afterId == afterId && Logged() == Log(START, [], [])
    {
      this.afterId, state, handed, delivered := afterId, START, [], [];
    }

    ghost function Logged(): Log
      reads this
    {
      Log(state, handed, delivered)
    }

    method OnTick(t: Tick)
      modifies this
      ensures Logged() == AfterTick(afterId, old(Logged()), t)
    {
      match t {
        case FetchError => return;
        case Response(arr, now, sent) =>
          var records, newState := ParseArrayOfObjectsResponse(afterId, arr, state, now);
          state := newState;
          if |records| == 0 {
            return;
          }
          handed := handed + records;
          if !sent {
            return;
          }
          delivered := delivered + records;
      }
    }
  }

  // ----- what the filter keeps -----

  /** Object i carries no number, or one above the floor and above every earlier number. */
  predicate Kept(arr: seq<Object>, floor: Option<int>, i: nat)
    requires i < |arr|
  {
    arr[i].id.Number? ==>
      && (floor.Some? ==> floor.value < arr[i].id.v)
      && forall j :: 0 <= j < i && arr[j].id.Number? ==> arr[j].id.v < arr[i].id.v
  }

  /** The ids of the kept objects, in order: without unnumbered objects, the strict
      left-to-right maxima. */
  function KeptIds(arr: seq<Object>, floor: Option<int>): seq<Id> {
    if arr == [] then []
    else KeptIds(arr[..|arr| - 1], floor) + if Kept(arr, floor, |arr| - 1) then [arr[|arr| - 1].id] else []
  }

  function IdsOf(records: seq<Record>): (r: seq<Id>)
    ensures |r| == |records|
  {
    seq(|records|, i requires 0 <= i < |records| => records[i].id)
  }

  /** The highest number seen, starting from the floor. */
  function Highest(arr: seq<Object>, floor: Option<int>): Option<int> {
    if arr == [] then floor
    else
      var h, id := Highest(arr[..|arr| - 1], floor), arr[|arr| - 1].id;
      if id.Number? && (h.None? || h.value < id.v) then Some(id.v) else h
  }

  lemma {:induction false} HighestBounds(arr: seq<Object>, floor: Option<int>)
    ensures floor.Some? ==> Highest(arr, floor).Some? && floor.value <= Highest(arr, floor).value
    ensures forall i :: 0 <= i < |arr| && arr[i].id.Number? ==>
              Highest(arr, floor).Some? && arr[i].id.v <= Highest(arr, floor).value
    ensures Highest(arr, floor) == floor || exists i :: 0 <= i < |arr| && arr[i].id == Number(Highest(arr, floor).value)
  {
    if arr != [] {
      var n := |arr| - 1;
      HighestBounds(arr[..n], floor);
      if Highest(arr, floor) != floor && Highest(arr, floor) == Highest(arr[..n], floor) {
        var i :| 0 <= i < n && arr[..n][i].id == Number(Highest(arr, floor).value);
        assert arr[i].id == Number(Highest(arr, floor).value);
      }
    }
  }

  /** The newest object is kept exactly when it has no number or tops the highest one before it. */
  lemma KeptIffHighest(arr: seq<Object>, floor: Option<int>, n: nat)
    requires n + 1 == |arr|
    ensures var h := Highest(arr[..n], floor);
            Kept(arr, floor, n) <==> !(arr[n].id.Number? && h.Some? && arr[n].id.v <= h.value)
  {
    HighestBounds(arr[..n], floor);
    var h := Highest(arr[..n], floor);
    assert forall j :: 0 <= j < n ==> arr[..n][j] == arr[j];
    if arr[n].id.Number? && h.Some? && h != floor {
      var i :| 0 <= i < n && arr[..n][i].id == Number(h.value);
      assert arr[i].id == Number(h.value);
    }
  }

  /** One response: its records are the kept objects and the cursor ends at the highest number. */
  lemma {:induction false} ParseKeeps(arr: seq<Object>, state: EndpointState, now: int)
    ensures IdsOf(Parse(true, arr, state, now).0) == KeptIds(arr, state.cursor)
    ensures Parse(true, arr, state, now).1.cursor == Highest(arr, state.cursor)
  {
    hide Kept;
    if arr != [] {
      var n := |arr| - 1;
      ParseKeeps(arr[..n], state, now);
      KeptIffHighest(arr, state.cursor, n);
    }
  }

  /** Splitting a stream of objects anywhere does not change what is kept. */
  lemma {:induction false} KeptSplit(a: seq<Object>, b: seq<Object>, floor: Option<int>)
    ensures KeptIds(a + b, floor) == KeptIds(a, floor) + KeptIds(b, Highest(a, floor))
    ensures Highest(a + b, floor) == Highest(b, Highest(a, floor))
  {
    if b == [] {
      assert a + b == a;
    } else {
      var n := |b| - 1;
      var all := a + b;
      assert all[..|all| - 1] == a + b[..n];
      KeptSplit(a, b[..n], floor);
      HighestBounds(a, floor);
      KeptAfterPrefix(a, b, floor);
    }
  }

  lemma KeptAfterPrefix(a: seq<Object>, b: seq<Object>, floor: Option<int>)
    requires b != []
    ensures Kept(a + b, floor, |a| + |b| - 1) <==> Kept(b, Highest(a, floor), |b| - 1)
  {
    var n, h := |b| - 1, Highest(a, floor);
    HighestBounds(a, floor);
    var all, last := a + b, b[n].id;
    assert forall j :: 0 <= j < |a| ==> all[j] == a[j];
    assert forall j :: 0 <= j < |b| ==> all[|a| + j] == b[j];
    if Kept(all, floor, |a| + n) && last.Number? {
      if h.Some? && h != floor {
        var i :| 0 <= i < |a| && a[i].id == Number(h.value);
        assert all[i].id == Number(h.value);
      }
      forall j | 0 <= j < n && b[j].id.Number? ensures b[j].id.v < last.v {
        assert all[|a| + j] == b[j];
      }
    }
  }

  /** All objects of the successful responses, in order of arrival. */
  function Received(ticks: seq<Tick>): seq<Object> {
    if ticks == [] then []
    else
      var t := ticks[|ticks| - 1];
      Received(ticks[..|ticks| - 1]) + if t.Response? then t.arr else []
  }

  lemma IdsOfConcat(a: seq<Record>, b: seq<Record>)
    ensures IdsOf(a + b) == IdsOf(a) + IdsOf(b)
  {
  }

  /** Over any run, with fetch errors and failed sends anywhere, the ids handed to the sender are
      exactly the ones kept from the concatenated responses: a function of the object stream
      alone, whatever its split into responses and whatever failed. */
  lemma {:induction false} HandedAreMaxima(ticks: seq<Tick>)
    ensures IdsOf(Run(true, ticks).handed) == KeptIds(Received(ticks), None)
    ensures Run(true, ticks).state.cursor == Highest(Received(ticks), None)
  {
    hide KeptIds, IdsOf, Highest, Parse;
    if ticks == [] {
      NothingKept();
    } else {
      var before, t := ticks[..|ticks| - 1], ticks[|ticks| - 1];
      HandedAreMaxima(before);
      var log := Run(true, before);
      match t {
        case FetchError => assert Received(before) + [] == Received(before);
        case Response(arr, now, sent) =>
          ParseKeeps(arr, log.state, now);
          KeptSplit(Received(before), arr, None);
          IdsOfConcat(log.handed, Parse(true, arr, log.state, now).0);
      }
    }
  }

  lemma NothingKept()
    ensures KeptIds([], None) == [] == IdsOf([]) && Highest([], None) == None
  {
  }

  lemma SplitDoesNotMatter(ticks: seq<Tick>, others: seq<Tick>)
    requires Received(ticks) == Received(others)
    ensures IdsOf(Run(true, ticks).handed) == IdsOf(Run(true, others).handed)
    ensures Run(true, ticks).state.cursor == Run(true, others).state.cursor
  {
    HandedAreMaxima(ticks);
    HandedAreMaxima(others);
  }

  // ----- consequences -----

  predicate Increasing(ids: seq<Id>) {
    forall i, j :: 0 <= i < j < |ids| && ids[i].Number? && ids[j].Number? ==> ids[i].v < ids[j].v
  }

  lemma {:induction false} KeptBelowHighest(arr: seq<Object>, floor: Option<int>)
    ensures forall i :: 0 <= i < |KeptIds(arr, floor)| && KeptIds(arr, floor)[i].Number? ==>
              exists j :: 0 <= j < |arr| && arr[j].id == KeptIds(arr, floor)[i]
  {
    if arr != [] {
      var n := |arr| - 1;
      KeptBelowHighest(arr[..n], floor);
      var ids := KeptIds(arr, floor);
      forall i | 0 <= i < |ids| && ids[i].Number? ensures exists j :: 0 <= j < |arr| && arr[j].id == ids[i] {
        if i < |KeptIds(arr[..n], floor)| {
          var j :| 0 <= j < n && arr[..n][j].id == KeptIds(arr[..n], floor)[i];
          assert arr[j].id == ids[i];
        } else {
          assert arr[n].id == ids[i];
        }
      }
    }
  }

  lemma {:induction false} KeptIncrease(arr: seq<Object>, floor: Option<int>)
    ensures Increasing(KeptIds(arr, floor))
  {
    if arr != [] {
      var n := |arr| - 1;
      KeptIncrease(arr[..n], floor);
      KeptBelowHighest(arr[..n], floor);
      var init := KeptIds(arr[..n], floor);
      if Kept(arr, floor, n) && arr[n].id.Number? {
        forall i | 0 <= i < |init| && init[i].Number? ensures init[i].v < arr[n].id.v {
          var j :| 0 <= j < n && arr[..n][j].id == init[i];
          assert arr[j].id == init[i];
        }
      }
    }
  }

  /** The ids handed over strictly increase, so none is handed over twice, sent or not. */
  lemma HandedIncrease(ticks: seq<Tick>)
    ensures Increasing(IdsOf(Run(true, ticks).handed))
  {
    HandedAreMaxima(ticks);
    KeptIncrease(Received(ticks), None);
  }

  /** Once handed over, an id is never handed over again, even when its send failed. */
  lemma NeverHandedAgain(ticks: seq<Tick>, t: Tick, i: nat)
    requires t.Response? && i < |Run(true, ticks).handed| && Run(true, ticks).handed[i].id.Number?
    ensures var more := Parse(true, t.arr, Run(true, ticks).state, t.now).0;
            forall k :: 0 <= k < |more| ==> more[k].id != Run(true, ticks).handed[i].id
  {
    hide Parse, Increasing;
    var log := Run(true, ticks);
    var more := Parse(true, t.arr, log.state, t.now).0;
    assert (ticks + [t])[..|ticks|] == ticks;
    assert Run(true, ticks + [t]).handed == log.handed + more;
    HandedIncrease(ticks + [t]);
    DistinctParts(log.handed, more, i);
  }

  lemma DistinctParts(a: seq<Record>, b: seq<Record>, i: nat)
    requires Increasing(IdsOf(a + b)) && i < |a| && a[i].id.Number?
    ensures forall k :: 0 <= k < |b| ==> b[k].id != a[i].id
  {
    var ids := IdsOf(a + b);
    forall k | 0 <= k < |b| ensures b[k].id != a[i].id {
      assert ids[i] == a[i].id && ids[|a| + k] == b[k].id;
    }
  }

  // ----- what failed sends lose -----

  /** The records tick i hands over. */
  function HandedBy(ticks: seq<Tick>, i: nat): seq<Record>
    requires i < |ticks| && ticks[i].Response?
  {
    Parse(true, ticks[i].arr, Run(true, ticks[..i]).state, ticks[i].now).0
  }

  lemma {:induction false} DeliveredNoMore(ticks: seq<Tick>)
    ensures |Run(true, ticks).delivered| <= |Run(true, ticks).handed|
  {
    hide Parse;
    if ticks != [] { DeliveredNoMore(ticks[..|ticks| - 1]); }
  }

  /** Response i was sent, or its filter kept nothing of it. */
  predicate LosesNothing(ticks: seq<Tick>, i: nat)
    requires i < |ticks|
  {
    ticks[i].Response? && !ticks[i].sent ==> KeptIds(ticks[i].arr, Run(true, ticks[..i]).state.cursor) == []
  }

  lemma HandsNothing(arr: seq<Object>, state: EndpointState, now: int)
    ensures Parse(true, arr, state, now).0 == [] <==> KeptIds(arr, state.cursor) == []
  {
    hide Parse, KeptIds;
    ParseKeeps(arr, state, now);
  }

  /** Everything handed over is delivered exactly when every response whose send failed held no object
      above the cursor. */
  lemma {:induction false} NothingLostExactly(ticks: seq<Tick>)
    ensures Run(true, ticks).delivered == Run(true, ticks).handed
        <==> forall i :: 0 <= i < |ticks| ==> LosesNothing(ticks, i)
  {
    hide Parse, KeptIds;
    if ticks != [] {
      var n := |ticks| - 1;
      var before, t := ticks[..n], ticks[n];
      NothingLostExactly(before);
      DeliveredNoMore(before);
      forall i | 0 <= i < n ensures LosesNothing(ticks, i) <==> LosesNothing(before, i) {
        assert before[..i] == ticks[..i];
      }
      assert (forall i :: 0 <= i < |before| ==> LosesNothing(before, i))
          <==> forall i :: 0 <= i < n ==> LosesNothing(ticks, i);
      var log := Run(true, before);
      if t.Response? {
        assert LosesNothing(ticks, n) <==> t.sent || KeptIds(t.arr, log.state.cursor) == [];
        HandsNothing(t.arr, log.state, t.now);
        SameTail(log.delivered, log.handed, Parse(true, t.arr, log.state, t.now).0);
      }
    }
  }

  lemma SameTail(a: seq<Record>, b: seq<Record>, c: seq<Record>)
    requires |a| <= |b|
    ensures a + c == b + c <==> a == b
    ensures a == b + c <==> a == b && c == []
  {
    if a + c == b + c {
      assert |a| == |b|;
      assert a == (a + c)[..|a|] && b == (b + c)[..|b|];
    }
    if a == b + c {
      assert |c| == 0;
    }
    if c == [] {
      assert b + c == b;
    }
  }

  lemma {:induction false} DeliveredWasHanded(ticks: seq<Tick>, r: Record)
    requires r in Run(true, ticks).delivered
    ensures r in Run(true, ticks).handed
  {
    hide Parse;
    var before := ticks[..|ticks| - 1];
    if r in Run(true, before).delivered { DeliveredWasHanded(before, r); }
  }

  /** A numbered id whose send failed is delivered neither before nor ever after. */
  lemma {:induction false} LostForGood(ticks: seq<Tick>, i: nat, k: nat)
    requires i < |ticks| && ticks[i].Response? && !ticks[i].sent
    requires k < |HandedBy(ticks, i)| && HandedBy(ticks, i)[k].id.Number?
    ensures forall r :: r in Run(true, ticks).delivered ==> r.id != HandedBy(ticks, i)[k].id
  {
    hide Parse, Increasing;
    var n := |ticks| - 1;
    var before, t, id := ticks[..n], ticks[n], HandedBy(ticks, i)[k].id;
    var log := Run(true, before);
    HandedIncrease(ticks);
    if t.Response? {
      assert Run(true, ticks).handed == log.handed + HandedBy(ticks, n);
      assert Run(true, ticks).delivered == if t.sent then log.delivered + HandedBy(ticks, n) else log.delivered;
    }
    if i < n {
      assert before[..i] == ticks[..i];
      assert HandedBy(ticks, i) == HandedBy(before, i);
      LostForGood(before, i, k);
      StaysHanded(before, i, k);
      var j :| 0 <= j < |log.handed| && log.handed[j] == HandedBy(before, i)[k];
      if t.Response? { DistinctParts(log.handed, HandedBy(ticks, n), j); }
    } else {
      forall r | r in log.delivered ensures r.id != id {
        DeliveredWasHanded(before, r);
        var j :| 0 <= j < |log.handed| && log.handed[j] == r;
        if r.id.Number? {
          DistinctParts(log.handed, HandedBy(ticks, n), j);
          assert HandedBy(ticks, n)[k].id == id;
        }
      }
    }
  }

  lemma {:induction false} StaysHanded(ticks: seq<Tick>, i: nat, k: nat)
    requires i < |ticks| && ticks[i].Response? && k < |HandedBy(ticks, i)|
    ensures HandedBy(ticks, i)[k] in Run(true, ticks).handed
  {
    hide Parse;
    var n := |ticks| - 1;
    if i < n {
      assert ticks[..n][..i] == ticks[..i];
      StaysHanded(ticks[..n], i, k);
    } else {
      assert Run(true, ticks).handed == Run(true, ticks[..n]).handed + HandedBy(ticks, n);
    }
  }

  /** The numbered ids above a floor, in order of arrival. */
  function Above(arr: seq<Object>, floor: Option<int>): seq<Id> {
    if arr == [] then []
    else
      var id := arr[|arr| - 1].id;
      Above(arr[..|arr| - 1], floor)
      + if id.Number? && (floor.Some? ==> floor.value < id.v) then [id] else []
  }

  predicate AllNumbered(arr: seq<Object>) {
    forall i :: 0 <= i < |arr| ==> arr[i].id.Number?
  }

  /** Completeness: a response is emitted in full, every id above the cursor, exactly when those
      ids arrive in strictly ascending order. */
  lemma {:induction false} CompleteIffAscending(arr: seq<Object>, floor: Option<int>)
    requires AllNumbered(arr)
    ensures KeptIds(arr, floor) == Above(arr, floor) <==> Increasing(Above(arr, floor))
    ensures |KeptIds(arr, floor)| <= |Above(arr, floor)|
  {
    KeptIncrease(arr, floor);
    if arr != [] {
      var n := |arr| - 1;
      var init := arr[..n];
      assert forall j :: 0 <= j < n ==> init[j] == arr[j];
      CompleteIffAscending(init, floor);
      var a, last := Above(init, floor), arr[n].id;
      if Increasing(Above(arr, floor)) {
        IncreasingInit(a, Above(arr, floor));
        if floor.Some? ==> floor.value < last.v {
          forall j | 0 <= j < n ensures arr[j].id.v < last.v {
            if floor.Some? ==> floor.value < arr[j].id.v {
              AboveMembers(init, floor, j);
              var i :| 0 <= i < |a| && a[i] == init[j].id;
              assert Above(arr, floor)[i] == arr[j].id && Above(arr, floor)[|a|] == last;
            }
          }
        }
      }
    }
  }

  lemma IncreasingInit(a: seq<Id>, b: seq<Id>)
    requires a <= b && Increasing(b)
    ensures Increasing(a)
  {
    forall i, j | 0 <= i < j < |a| && a[i].Number? && a[j].Number? ensures a[i].v < a[j].v {
      assert a[i] == b[i] && a[j] == b[j];
    }
  }

  lemma {:induction false} AboveMembers(arr: seq<Object>, floor: Option<int>, j: nat)
    requires AllNumbered(arr) && j < |arr| && (floor.Some? ==> floor.value < arr[j].id.v)
    ensures arr[j].id in Above(arr, floor)
  {
    if j < |arr| - 1 { AboveMembers(arr[..|arr| - 1], floor, j); }
  }

  /** A newest-first response yields at most its first record: every later id is dropped and,
      the cursor being past it, is never asked for again. */
  lemma {:induction false} DescendingKeepsOne(arr: seq<Object>, floor: Option<int>)
    requires AllNumbered(arr) && arr != []
    requires forall i, j :: 0 <= i < j < |arr| ==> arr[i].id.v > arr[j].id.v
    ensures KeptIds(arr, floor) == if floor.Some? && arr[0].id.v <= floor.value then [] else [arr[0].id]
  {
    var n := |arr| - 1;
    if n > 0 {
      DescendingKeepsOne(arr[..n], floor);
      assert !Kept(arr, floor, n) by { assert arr[0].id.v > arr[n].id.v; }
    } else {
      assert arr[..0] == [];
    }
  }
}
