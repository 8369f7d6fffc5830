/** Historical fetching and backfill of the REST collector: range tiling with retries
    (rest_source.go) and batched sending after gap detection (main.go).

    `fetch(w, n)` is what the n-th request for window w answers: its records, or None on an error. */
module RestHistorical {
  import opened Series
  import opened Tiling

  const MAX_RETRIES: nat := 3
  const BATCH_SIZE: nat := 100
  const SECOND := 1_000_000_000

  datatype Source = Source(maxRecords: int, granularity: int)
  {
    /** Nanoseconds per request window. */
    function Step(): int {
      (if maxRecords <= 0 then 300 else maxRecords) * (granularity * SECOND)
    }
  }

  lemma StepPositive(src: Source)
    ensures src.Step() > 0 <==> src.granularity > 0
  {
    var n, g := (if src.maxRecords <= 0 then 300 else src.maxRecords), src.granularity * SECOND;
    if g > 0 { assert n * g >= g; } else { assert n * g <= 0; }
  }

  // ----- one window, with retries -----

  /** The first successful answer among attempts from `attempt` to the last retry. */
  function FirstSuccess<R>(fetch: (Window, nat) -> Option<seq<R>>, w: Window, attempt: nat,
                           maxRetries: nat): Option<seq<R>>
    decreases maxRetries + 1 - attempt
  {
    if attempt > maxRetries then None
    else if fetch(w, attempt).Some? then fetch(w, attempt)
    else FirstSuccess(fetch, w, attempt + 1, maxRetries)
  }

  method FetchChunkWithRetry<R>(fetch: (Window, nat) -> Option<seq<R>>, w: Window, maxRetries: nat)
    returns (r: Option<seq<R>>, fetches: nat)
    ensures r == FirstSuccess(fetch, w, 0, maxRetries)
    ensures 1 <= fetches <= maxRetries + 1
    ensures r.Some? ==> r == fetch(w, fetches - 1) && forall n :: 0 <= n < fetches - 1 ==> fetch(w, n).None?
    ensures r.None? ==> fetches == maxRetries + 1 && forall n :: 0 <= n <= maxRetries ==> fetch(w, n).None?
  {
    var attempt := 0;
    while attempt <= maxRetries
      invariant attempt <= maxRetries + 1
      invariant forall n :: 0 <= n < attempt ==> fetch(w, n).None?
      invariant FirstSuccess(fetch, w, 0, maxRetries) == FirstSuccess(fetch, w, attempt, maxRetries)
    {
      var answer := fetch(w, attempt);
      if answer.Some? {
        return answer, attempt + 1;
      }
      attempt := attempt + 1;
    }
    return None, attempt;
  }

  // ----- the whole range -----

  /** How many leading windows are fetched before one fails for good. */
  function Reached<R>(fetch: (Window, nat) -> Option<seq<R>>, ws: seq<Window>): (k: nat)
    ensures k <= |ws|
    ensures forall i :: 0 <= i < k ==> FirstSuccess(fetch, ws[i], 0, MAX_RETRIES).Some?
    ensures k < |ws| ==> FirstSuccess(fetch, ws[k], 0, MAX_RETRIES).None?
  {
    if ws == [] || FirstSuccess(fetch, ws[0], 0, MAX_RETRIES).None? then 0
    else 1 + Reached(fetch, ws[1..])
  }

  /** The records of the leading windows, in window order. */
  function Collected<R>(fetch: (Window, nat) -> Option<seq<R>>, ws: seq<Window>, k: nat): seq<R>
    requires k <= |ws| && forall i :: 0 <= i < k ==> FirstSuccess(fetch, ws[i], 0, MAX_RETRIES).Some?
  {
    if k == 0 then [] else Collected(fetch, ws, k - 1) + FirstSuccess(fetch, ws[k - 1], 0, MAX_RETRIES).value
  }

  /** Fetches the windows of [start, end) in order, stopping at the first that fails for good. */
  method FetchHistorical<R>(fetch: (Window, nat) -> Option<seq<R>>, src: Source, start: int, end: int)
    returns (allRecords: seq<R>, ok: bool, done: nat, fetches: nat)
    requires src.granularity > 0
    ensures src.Step() > 0
    ensures var ws := Windows(start, end, src.Step());
            && done == Reached(fetch, ws) && ok == (done == |ws|)
            && allRecords == Collected(fetch, ws, done)
            && fetches <= 4 * (if ok then done else done + 1)
  {
    StepPositive(src);
    var step := src.Step();
    ghost var ws := Windows(start, end, step);
    allRecords, done, fetches := [], 0, 0;
    var current := start;
    assert ws[0..] == ws;
    while current < end
      invariant done <= |ws| && ws[done..] == Windows(current, end, step)
      invariant forall i :: 0 <= i < done ==> FirstSuccess(fetch, ws[i], 0, MAX_RETRIES).Some?
      invariant allRecords == Collected(fetch, ws, done)
      invariant fetches <= (MAX_RETRIES + 1) * done
      decreases end - current
    {
      var chunkEnd := NextEnd(current, end, step);
      assert ws[done] == ws[done..][0] == Window(current, chunkEnd);
      assert ws[done + 1..] == ws[done..][1..];
      var answer, n := FetchChunkWithRetry(fetch, Window(current, chunkEnd), MAX_RETRIES);
      fetches := fetches + n;
      if answer.None? {
        ReachedIs(fetch, ws, done);
        return allRecords, false, done, fetches;
      }
      allRecords := allRecords + answer.value;
      current := chunkEnd;
      done := done + 1;
    }
    ReachedIs(fetch, ws, done);
    return allRecords, true, done, fetches;
  }

  lemma ReachedIs<R>(fetch: (Window, nat) -> Option<seq<R>>, ws: seq<Window>, k: nat)
    requires k <= |ws| && forall i :: 0 <= i < k ==> FirstSuccess(fetch, ws[i], 0, MAX_RETRIES).Some?
    requires k < |ws| ==> FirstSuccess(fetch, ws[k], 0, MAX_RETRIES).None?
    ensures Reached(fetch, ws) == k
  {
  }

  lemma {:induction false} WindowsPrefixTiles(ws: seq<Window>, start: int, end: int, step: int, k: nat)
    requires Tiles(ws, start, end, step) && 0 < k <= |ws|
    ensures Tiles(ws[..k], start, ws[k - 1].end, step)
    ensures start < ws[k - 1].end <= end
    decreases |ws| - k
  {
    if k < |ws| {
      WindowsPrefixTiles(ws, start, end, step, k + 1);
      assert ws[k - 1].end == ws[k].start < ws[k].end;
    }
    StartsBefore(ws, start, end, step, k - 1);
  }

  lemma {:induction false} StartsBefore(ws: seq<Window>, start: int, end: int, step: int, i: nat)
    requires Tiles(ws, start, end, step) && i < |ws|
    ensures start <= ws[i].start
  {
    if i > 0 {
      StartsBefore(ws, start, end, step, i - 1);
      assert ws[i - 1].end == ws[i].start;
    }
  }

  /** On success the fetched windows tile [start, end); on failure they tile a prefix of it. */
  lemma FetchedWindowsTile<R>(fetch: (Window, nat) -> Option<seq<R>>, src: Source, start: int, end: int)
    requires src.granularity > 0
    ensures src.Step() > 0
    ensures var ws := Windows(start, end, src.Step());
            var k := Reached(fetch, ws);
            && (k == |ws| ==> Tiles(ws, start, end, src.Step()))
            && (0 < k < |ws| ==> Tiles(ws[..k], start, ws[k].start, src.Step()) && ws[k].start < end)
  {
    StepPositive(src);
    var step := src.Step();
    var ws := Windows(start, end, step);
    WindowsTile(start, end, step);
    var k := Reached(fetch, ws);
    if 0 < k < |ws| {
      WindowsPrefixTiles(ws, start, end, step, k);
      WindowsPrefixTiles(ws, start, end, step, k + 1);
      assert ws[k - 1].end == ws[k].start;
    }
  }

  /** Without a positive granularity the window loop never reaches its end. */
  lemma GranularityMustBePositive(src: Source, start: int, end: int)
    ensures (exists n: nat :: Position(start, end, src.Step(), n) >= end) <==> src.granularity > 0 || start >= end
  {
    StepPositive(src);
    LoopEnds(start, end, src.Step());
  }

  // ----- sending -----

  /** The records cut into batches of 100, the last one possibly shorter. */
  function Batches<R>(records: seq<R>): seq<seq<R>>
    decreases |records|
  {
    if records == [] then []
    else if |records| <= BATCH_SIZE then [records]
    else [records[..BATCH_SIZE]] + Batches(records[BATCH_SIZE..])
  }

  /** Nothing is lost, repeated or reordered, and no batch is empty or longer than 100. */
  lemma {:induction false} BatchesPartition<R>(records: seq<R>)
    ensures Flatten(Batches(records)) == records
    ensures forall b :: b in Batches(records) ==> 1 <= |b| <= 100
    ensures forall i :: 0 <= i < |Batches(records)| - 1 ==> |Batches(records)[i]| == 100
    decreases |records|
  {
    if records == [] {
    } else if |records| <= BATCH_SIZE {
      assert Batches(records)[1..] == [];
    } else {
      BatchesPartition(records[BATCH_SIZE..]);
      assert Batches(records)[1..] == Batches(records[BATCH_SIZE..]);
    }
  }

  /** The indexed batching loop; a failed send is logged and the loop goes on. */
  method SendInBatches<R>(records: seq<R>, send: nat -> bool) returns (handed: seq<seq<R>>, delivered: seq<R>)
    ensures handed == Batches(records)
    ensures delivered == Delivered(Batches(records), send)
  {
    hide Batches, Delivered;
    handed, delivered := [], [];
    NothingDelivered<R>(send);
    NoBatches<R>();
    var i := 0;
    assert records[0..] == records;
    while i < |records|
      invariant 0 <= i <= |records|
      invariant handed + Batches(records[i..]) == Batches(records)
      invariant delivered == Delivered(handed, send)
    {
      var end := i + BATCH_SIZE;
      if end > |records| {
        end := |records|;
      }
      NextBatch(records, i, end);
      DeliverNext(handed, records[i..end], send);
      assert handed + ([records[i..end]] + Batches(records[end..]))
          == handed + [records[i..end]] + Batches(records[end..]);
      if send(|handed|) {
        delivered := delivered + records[i..end];
      }
      handed := handed + [records[i..end]];
      i := end;
    }
    assert records[i..] == [] && handed + [] == handed;
  }

  lemma NextBatch<R>(records: seq<R>, i: nat, end: nat)
    requires i < end <= |records|
    requires end == if i + BATCH_SIZE > |records| then |records| else i + BATCH_SIZE
    ensures Batches(records[i..]) == [records[i..end]] + Batches(records[end..])
  {
    var rest := records[i..];
    assert rest[end - i..] == records[end..];
    assert rest[..end - i] == records[i..end];
    if |rest| <= BATCH_SIZE {
      assert rest == records[i..end];
      assert records[end..] == [];
    }
  }

  lemma NoBatches<R>()
    ensures Batches<R>([]) == []
  {
  }

  lemma NothingDelivered<R>(send: nat -> bool)
    ensures Delivered<R>([], send) == []
  {
  }

  lemma DeliverNext<R>(handed: seq<seq<R>>, batch: seq<R>, send: nat -> bool)
    ensures Delivered(handed + [batch], send) == Delivered(handed, send) + if send(|handed|) then batch else []
  {
    assert (handed + [batch])[..|handed|] == handed;
  }

  /** The records of the batches whose send succeeded, in order. */
  function Delivered<R>(batches: seq<seq<R>>, send: nat -> bool): seq<R> {
    if batches == [] then []
    else
      var n := |batches| - 1;
      Delivered(batches[..n], send) + if send(n) then batches[n] else []
  }

  lemma {:induction false} AllDelivered<R>(batches: seq<seq<R>>, send: nat -> bool)
    requires forall n :: send(n)
    ensures Delivered(batches, send) == Flatten(batches)
  {
    if batches != [] {
      AllDelivered(batches[..|batches| - 1], send);
      FlattenLast(batches);
    }
  }

  // ----- one symbol of the backfill -----

  /** Where the backfill of a symbol starts: one granule before the newest stored record, but never
      before the configured start. */
  function GapStart(defaultStart: int, lastStored: Option<int>, granularity: int): int {
    if lastStored.None? then defaultStart
    else
      var gapStart := lastStored.value - granularity * SECOND;
      if gapStart > defaultStart then gapStart else defaultStart
  }

  /** The start is never before the configured one, and it leaves a hole after the stored data only
      when the configured one does. */
  lemma GapStartOverlaps(defaultStart: int, lastStored: Option<int>, granularity: int)
    requires granularity >= 0
    ensures var s := GapStart(defaultStart, lastStored, granularity);
            && s >= defaultStart && (s > defaultStart ==> lastStored.Some? && s <= lastStored.value)
            && (lastStored.Some? ==> (s <= lastStored.value <==> defaultStart <= lastStored.value))
            && (s > defaultStart ==> s == lastStored.value - granularity * 1_000_000_000)
            && (s == defaultStart && lastStored.Some? ==>
                  lastStored.value - granularity * 1_000_000_000 <= defaultStart)
  {
  }

  method BackfillSymbol<R>(fetch: (Window, nat) -> Option<seq<R>>, send: nat -> bool, src: Source,
                           defaultStart: int, lastStored: Option<int>, end: int)
    returns (handed: seq<seq<R>>, delivered: seq<R>)
    requires src.granularity > 0
    ensures src.Step() > 0
    ensures var ws := Windows(GapStart(defaultStart, lastStored, src.granularity), end, src.Step());
            && handed == (if Reached(fetch, ws) < |ws| then [] else Batches(Collected(fetch, ws, |ws|)))
            && delivered == Delivered(handed, send)
  {
    StepPositive(src);
    var startDate := defaultStart;
    if lastStored.Some? {
      var gapStart := lastStored.value - src.granularity * SECOND;
      if gapStart > defaultStart {
        startDate := gapStart;
      }
    }
    if !(startDate < end) {
      return [], [];
    }
    var records, ok, _, _ := FetchHistorical(fetch, src, startDate, end);
    if !ok {
      return [], [];
    }
    handed, delivered := SendInBatches(records, send);
  }

  /** A backfill whose fetches and sends succeed delivers the records of windows that tile the gap
      exactly once each, in window order. */
  lemma BackfillDeliversOnce<R>(fetch: (Window, nat) -> Option<seq<R>>, send: nat -> bool, src: Source, start: int,
                                end: int)
    requires src.granularity > 0
    requires forall n :: send(n)
    ensures src.Step() > 0
    ensures var ws := Windows(start, end, src.Step());
            Reached(fetch, ws) == |ws| ==>
              && Tiles(ws, start, end, src.Step())
              && Delivered(Batches(Collected(fetch, ws, |ws|)), send) == Collected(fetch, ws, |ws|)
  {
    FetchedWindowsTile(fetch, src, start, end);
    var ws := Windows(start, end, src.Step());
    if Reached(fetch, ws) == |ws| {
      var records := Collected(fetch, ws, |ws|);
      AllDelivered(Batches(records), send);
      BatchesPartition(records);
    }
  }

  // ----- what is collected -----

  /** The answer that counts for window i: the first that came, within four requests. */
  ghost predicate AnswerOf<R>(fetch: (Window, nat) -> Option<seq<R>>, w: Window, records: seq<R>) {
    exists n: nat :: n <= 3 && fetch(w, n) == Some(records) && forall m: nat :: m < n ==> fetch(w, m).None?
  }

  lemma {:induction false} FirstSuccessIs<R>(fetch: (Window, nat) -> Option<seq<R>>, w: Window, attempt: nat)
    requires attempt <= 4 && forall m: nat :: m < attempt ==> fetch(w, m).None?
    ensures FirstSuccess(fetch, w, attempt, MAX_RETRIES).Some? ==>
              AnswerOf(fetch, w, FirstSuccess(fetch, w, attempt, MAX_RETRIES).value)
    decreases 4 - attempt
  {
    if attempt <= 3 {
      if fetch(w, attempt).None? {
        FirstSuccessIs(fetch, w, attempt + 1);
      } else {
        assert fetch(w, attempt) == Some(fetch(w, attempt).value);
      }
    }
  }

  /** What a fetch of the leading windows collects: window after window, the records of the answer that
      counts for it. */
  lemma {:induction false} CollectedInOrder<R>(fetch: (Window, nat) -> Option<seq<R>>, ws: seq<Window>, k: nat)
    returns (answers: seq<seq<R>>)
    requires k <= |ws| && forall i :: 0 <= i < k ==> FirstSuccess(fetch, ws[i], 0, MAX_RETRIES).Some?
    ensures |answers| == k && Collected(fetch, ws, k) == Flatten(answers)
    ensures forall i :: 0 <= i < k ==> AnswerOf(fetch, ws[i], answers[i])
  {
    answers := [];
    if k > 0 {
      var before := CollectedInOrder(fetch, ws, k - 1);
      var last := FirstSuccess(fetch, ws[k - 1], 0, MAX_RETRIES).value;
      FirstSuccessIs(fetch, ws[k - 1], 0);
      answers := before + [last];
      FlattenConcat(before, [last]);
      FlattenOne(last);
    }
  }

  /** A request window spans the configured number of granules, 300 when none is configured. */
  lemma StepIs(src: Source)
    ensures src.maxRecords > 0 ==> src.Step() == src.maxRecords * (src.granularity * 1_000_000_000)
    ensures src.maxRecords <= 0 ==> src.Step() == 300 * (src.granularity * 1_000_000_000)
  {
  }
}
