/** The batching Kafka producer of the WebSocket collector (producer.rs): a select loop over
    incoming records and a flush timer, with delivery resolved by detached tasks.

    Each loop iteration and each task completion is one method call; every accounting invariant
    is part of Valid, so it holds in every reachable state. */
module Producer {
  import opened Health

  type Record = int

  /** What becomes of a drained record before it is in flight. */
  datatype Enqueue = SerializeError | Rejected | Queued

  /** How an in-flight record ends; Cancelled when the producer is dropped first. */
  datatype Delivery = Delivered | DeliveryFailed | Cancelled

  datatype Drained = Drained(record: Record, outcome: Enqueue)

  function RecordsOf(drained: seq<Drained>): seq<Record> {
    if drained == [] then [] else RecordsOf(drained[..|drained| - 1]) + [drained[|drained| - 1].record]
  }

  /** The drained records with one outcome, in drain order. */
  function With(drained: seq<Drained>, outcome: Enqueue): seq<Record> {
    if drained == [] then []
    else
      var d := drained[|drained| - 1];
      With(drained[..|drained| - 1], outcome) + if d.outcome == outcome then [d.record] else []
  }

  function Ending(records: seq<Record>, results: seq<Delivery>, d: Delivery): seq<Record>
    requires |records| == |results|
  {
    if records == [] then []
    else
      var n := |records| - 1;
      Ending(records[..n], results[..n], d) + if results[n] == d then [records[n]] else []
  }

  /** What wakes the loop up, or a detached delivery task. */
  datatype Input =
    | Arrives(record: Record, outcome: nat -> Enqueue, clock: nat -> int)
    | Ticks(outcome: nat -> Enqueue, clock: nat -> int)
    | Resolves(task: nat, results: seq<Delivery>, clock: nat -> int)

  /** The records received during some inputs. */
  function Arrived(inputs: seq<Input>): seq<Record> {
    if inputs == [] then []
    else
      var before := Arrived(inputs[..|inputs| - 1]);
      if inputs[|inputs| - 1].Arrives? then before + [inputs[|inputs| - 1].record] else before
  }

  /** All records of the pending tasks. */
  function InFlight(tasks: seq<seq<Record>>): multiset<Record> {
    if tasks == [] then multiset{} else multiset(tasks[0]) + InFlight(tasks[1..])
  }

  lemma {:induction false} InFlightAppend(tasks: seq<seq<Record>>, t: seq<Record>)
    ensures InFlight(tasks + [t]) == InFlight(tasks) + multiset(t)
  {
    if tasks == [] {
      assert [t][1..] == [];
      assert tasks + [t] == [t];
    } else {
      InFlightAppend(tasks[1..], t);
      assert (tasks + [t])[1..] == tasks[1..] + [t];
    }
  }

  lemma {:induction false} InFlightRemove(tasks: seq<seq<Record>>, i: nat)
    requires i < |tasks|
    ensures InFlight(tasks) == InFlight(tasks[..i] + tasks[i + 1..]) + multiset(tasks[i])
  {
    if i == 0 {
      assert tasks[..0] + tasks[1..] == tasks[1..];
    } else {
      InFlightRemove(tasks[1..], i - 1);
      assert (tasks[..i] + tasks[i + 1..])[1..] == tasks[1..][..i - 1] + tasks[1..][i..];
    }
  }

  lemma EndingStep(records: seq<Record>, results: seq<Delivery>, d: Delivery)
    requires |records| == |results| > 0
    ensures var n := |records| - 1;
            multiset(Ending(records, results, d))
            == multiset(Ending(records[..n], results[..n], d)) + if results[n] == d then multiset{records[n]}
                else multiset{}
  {
  }

  lemma LastStep(records: seq<Record>)
    requires records != []
    ensures multiset(records) == multiset(records[..|records| - 1]) + multiset{records[|records| - 1]}
  {
    assert records == records[..|records| - 1] + [records[|records| - 1]];
  }

  /** Every resolved record ends in exactly one way. */
  lemma {:induction false} EndingsPartition(records: seq<Record>, results: seq<Delivery>)
    requires |records| == |results|
    ensures multiset(records) == multiset(Ending(records, results, Delivered))
              + multiset(Ending(records, results, DeliveryFailed)) + multiset(Ending(records, results, Cancelled))
  {
    if records == [] {
      NothingEnds(Delivered);
      NothingEnds(DeliveryFailed);
      NothingEnds(Cancelled);
    } else {
      hide Ending;
      var n := |records| - 1;
      EndingsPartition(records[..n], results[..n]);
      LastStep(records);
      EndingStep(records, results, Delivered);
      EndingStep(records, results, DeliveryFailed);
      EndingStep(records, results, Cancelled);
    }
  }

  lemma NothingEnds(d: Delivery)
    ensures Ending([], [], d) == []
  {
  }

  /** Every drained record is dropped, rejected or queued. */
  lemma {:induction false} OutcomesPartition(drained: seq<Drained>)
    ensures multiset(RecordsOf(drained)) == multiset(With(drained, SerializeError))
              + multiset(With(drained, Rejected)) + multiset(With(drained, Queued))
  {
    if drained != [] { OutcomesPartition(drained[..|drained| - 1]); }
  }

  lemma {:induction false} DrainedAppend(a: seq<Drained>, b: seq<Drained>, outcome: Enqueue)
    ensures RecordsOf(a + b) == RecordsOf(a) + RecordsOf(b)
    ensures With(a + b, outcome) == With(a, outcome) + With(b, outcome)
  {
    if b == [] {
      assert a + b == a;
    } else {
      DrainedAppend(a, b[..|b| - 1], outcome);
      assert (a + b)[..|a + b| - 1] == a + b[..|b| - 1];
    }
  }

  /** Every queued record is in flight or has ended. */
  predicate Balanced(drained: seq<Drained>, tasks: seq<seq<Record>>, delivered: seq<Record>, failed: seq<Record>,
                     cancelled: seq<Record>)
  {
    multiset(With(drained, Queued)) == InFlight(tasks) + multiset(delivered) + multiset(failed) + multiset(cancelled)
  }

  /** Delivery tasks after a flush: one more only when something was queued. */
  function Spawned(tasks: seq<seq<Record>>, futures: seq<Record>): seq<seq<Record>> {
    if futures == [] then tasks else tasks + [futures]
  }

  lemma FlushBalances(drained: seq<Drained>, done: seq<Drained>, tasks: seq<seq<Record>>, delivered: seq<Record>,
                      failed: seq<Record>, cancelled: seq<Record>)
    requires Balanced(drained, tasks, delivered, failed, cancelled)
    ensures Balanced(drained + done, Spawned(tasks, With(done, Queued)), delivered, failed, cancelled)
  {
    hide With, InFlight;
    DrainedAppend(drained, done, Queued);
    InFlightAppend(tasks, With(done, Queued));
  }

  lemma ResolveBalances(drained: seq<Drained>, tasks: seq<seq<Record>>, delivered: seq<Record>, failed: seq<Record>,
                        cancelled: seq<Record>, i: nat, results: seq<Delivery>)
    requires Balanced(drained, tasks, delivered, failed, cancelled) && i < |tasks| && |results| == |tasks[i]|
    ensures Balanced(drained, tasks[..i] + tasks[i + 1..], delivered + Ending(tasks[i], results, Delivered),
                     failed + Ending(tasks[i], results, DeliveryFailed),
                     cancelled + Ending(tasks[i], results, Cancelled))
  {
    hide With, InFlight, Ending;
    InFlightRemove(tasks, i);
    EndingsPartition(tasks[i], results);
  }

  class KafkaProducer {
    const batchSize: nat
    const health: DeliveryHealth
    var batch: seq<Record>
    /** Records of each detached delivery task still pending. */
    var tasks: seq<seq<Record>>
    ghost var received: seq<Record>
    ghost var drained: seq<Drained>
    ghost var delivered: seq<Record>
    ghost var failed: seq<Record>
    ghost var cancelled: seq<Record>

    /** The accounting, which also holds between a push and the flush it triggers. */
    ghost predicate Accounted()
      reads this, health
    {
      && health.Valid()
      && received == RecordsOf(drained) + batch
      && Balanced(drained, tasks, delivered, failed, cancelled)
      && health.kafkaSent == |delivered|
      && health.kafkaFailed == |With(drained, Rejected)| + |failed|
    }

    ghost predicate Valid()
      reads this, health
    {
      Accounted() && |batch| < (if batchSize > 1 then batchSize else 1)
    }

    constructor (batchSize: nat, health: DeliveryHealth, now: int)
      requires health.Valid() && health.trace == []
      modifies health
      ensures Valid() && this.batchSize == batchSize && this.health == health
      ensures received == [] && batch == [] && tasks == []
      ensures health.seed == now && health.trace == []
    {
      this.batchSize, this.health := batchSize, health;
      batch, tasks, received, drained, delivered, failed, cancelled := [], [], [], [], [], [], [];
      new;
      health.SeedDeliveryClock(now);
    }

    /** The select loop. */
    method Run(inputs: seq<Input>)
      requires Valid()
      modifies this, health
      ensures Valid() && received == old(received) + Arrived(inputs)
      ensures old(drained) <= drained
    {
      hide Accounted, Drain, FlushEvents, ResolveEvents, Ending;
      for i := 0 to |inputs|
        invariant Valid() && received == old(received) + Arrived(inputs[..i])
        invariant old(drained) <= drained
      {
        assert inputs[..i + 1][..i] == inputs[..i];
        match inputs[i]
        case Arrives(record, outcome, clock) => OnRecord(record, outcome, clock);
        case Ticks(outcome, clock) => OnTick(outcome, clock);
        case Resolves(task, results, clock) =>
          if task < |tasks| && |results| == |tasks[task]| {
            ResolveTask(task, results, clock);
          }
      }
      assert inputs[..|inputs|] == inputs;
    }

    /** The receive branch of the select. `outcome` tells what the client answers, and `clock` the
        time, at each position of a flush. */
    method OnRecord(record: Record, outcome: nat -> Enqueue, clock: nat -> int)
      requires Valid()
      modifies this, health
      ensures Valid() && received == old(received) + [record]
      ensures delivered == old(delivered) && failed == old(failed) && cancelled == old(cancelled)
      ensures if |old(batch)| + 1 >= batchSize
              then batch == [] && drained == old(drained) + Drain(old(batch) + [record], outcome)
              else batch == old(batch) + [record] && drained == old(drained)
      ensures health.seed == old(health.seed)
      ensures health.trace == old(health.trace)
                + if |old(batch)| + 1 >= batchSize then FlushEvents(old(batch) + [record], outcome, clock) else []
    {
      hide Balanced, RecordsOf, With, Drain, FlushEvents;
      batch := batch + [record];
      received := received + [record];
      assert Accounted();
      if |batch| >= batchSize {
        Flush(outcome, clock);
      }
    }

    /** The timer branch of the select. */
    method OnTick(outcome: nat -> Enqueue, clock: nat -> int)
      requires Valid()
      modifies this, health
      ensures Valid() && received == old(received) && batch == []
      ensures delivered == old(delivered) && failed == old(failed) && cancelled == old(cancelled)
      ensures drained == old(drained) + Drain(old(batch), outcome)
      ensures health.seed == old(health.seed)
      ensures health.trace == old(health.trace) + FlushEvents(old(batch), outcome, clock)
    {
      hide Balanced, RecordsOf, With;
      if |batch| != 0 {
        Flush(outcome, clock);
      }
    }

    /** Enqueues the whole buffer in order and hands the queued records to one detached task. */
    method Flush(outcome: nat -> Enqueue, clock: nat -> int)
      requires Accounted()
      modifies this, health
      ensures Accounted() && batch == []
      ensures received == old(received) && delivered == old(delivered) && failed == old(failed)
          && cancelled == old(cancelled)
      ensures drained == old(drained) + Drain(old(batch), outcome)
      ensures tasks == Spawned(old(tasks), With(Drain(old(batch), outcome), Queued))
      ensures health.seed == old(health.seed)
      ensures health.trace == old(health.trace) + FlushEvents(old(batch), outcome, clock)
    {
      hide Balanced, RecordsOf, With, Drain, FlushEvents;
      var records := batch;
      batch := [];
      var futures := EnqueueAll(records, outcome, clock);
      ghost var done := Drain(records, outcome);
      RecordsOfDrain(records, outcome);
      DrainedAppend(drained, done, Rejected);
      FlushBalances(drained, done, tasks, delivered, failed, cancelled);
      drained := drained + done;
      if |futures| != 0 {
        tasks := tasks + [futures];
      }
    }

    /** The drain loop of a flush. */
    method EnqueueAll(records: seq<Record>, outcome: nat -> Enqueue, clock: nat -> int) returns (futures: seq<Record>)
      requires health.Valid()
      modifies health
      ensures health.Valid() && health.seed == old(health.seed)
      ensures futures == With(Drain(records, outcome), Queued)
      ensures health.trace == old(health.trace) + FlushEvents(records, outcome, clock)
      ensures health.kafkaSent == old(health.kafkaSent)
      ensures health.kafkaFailed == old(health.kafkaFailed) + |With(Drain(records, outcome), Rejected)|
    {
      hide LastSuccess, LastAttempt, Successes, Failures, With, Drain, FlushEvents;
      futures := [];
      NothingDrained(outcome, clock);
      for i := 0 to |records|
        invariant health.Valid() && health.seed == old(health.seed)
        invariant futures == With(Drain(records[..i], outcome), Queued)
        invariant health.trace == old(health.trace) + FlushEvents(records[..i], outcome, clock)
        invariant health.kafkaSent == old(health.kafkaSent)
        invariant health.kafkaFailed == old(health.kafkaFailed) + |With(Drain(records[..i], outcome), Rejected)|
      {
        DrainStep(records, outcome, clock, i);
        var answer := outcome(i);
        if answer == SerializeError {
          continue;
        }
        health.RecordAttempt(clock(i));
        if answer == Queued {
          futures := futures + [records[i]];
        } else {
          health.RecordFailure(clock(i));
          var _ := health.ShouldLogKafkaError(clock(i));
        }
      }
      assert records[..|records|] == records;
    }

    /** A detached task resolves: once all its deliveries are known, they are recorded one after
        the other. */
    method ResolveTask(i: nat, results: seq<Delivery>, clock: nat -> int)
      requires Valid() && i < |tasks| && |results| == |tasks[i]|
      modifies this, health
      ensures Valid() && received == old(received) && drained == old(drained) && batch == old(batch)
      ensures tasks == old(tasks)[..i] + old(tasks)[i + 1..]
      ensures delivered == old(delivered) + Ending(old(tasks)[i], results, Delivered)
      ensures failed == old(failed) + Ending(old(tasks)[i], results, DeliveryFailed)
      ensures cancelled == old(cancelled) + Ending(old(tasks)[i], results, Cancelled)
      ensures health.seed == old(health.seed)
      ensures health.trace == old(health.trace) + ResolveEvents(results, clock)
    {
      hide Balanced, RecordsOf, With, Ending;
      var records := tasks[i];
      ResolveBalances(drained, tasks, delivered, failed, cancelled, i, results);
      RecordResults(records, results, clock);
      tasks := tasks[..i] + tasks[i + 1..];
      delivered := delivered + Ending(records, results, Delivered);
      failed := failed + Ending(records, results, DeliveryFailed);
      cancelled := cancelled + Ending(records, results, Cancelled);
    }

    /** The loop over the joined delivery results. */
    method RecordResults(ghost records: seq<Record>, results: seq<Delivery>, clock: nat -> int)
      requires health.Valid() && |records| == |results|
      modifies health
      ensures health.Valid() && health.seed == old(health.seed)
      ensures health.trace == old(health.trace) + ResolveEvents(results, clock)
      ensures health.kafkaSent == old(health.kafkaSent) + |Ending(records, results, Delivered)|
      ensures health.kafkaFailed == old(health.kafkaFailed) + |Ending(records, results, DeliveryFailed)|
    {
      hide LastSuccess, LastAttempt, Successes, Failures, Ending, ResolveEvents;
      NothingResolved(clock);
      for j := 0 to |results|
        invariant health.Valid() && health.seed == old(health.seed)
        invariant health.trace == old(health.trace) + ResolveEvents(results[..j], clock)
        invariant health.kafkaSent == old(health.kafkaSent) + |Ending(records[..j], results[..j], Delivered)|
        invariant health.kafkaFailed == old(health.kafkaFailed) + |Ending(records[..j], results[..j], DeliveryFailed)|
      {
        ResolveStep(records, results, clock, j);
        match results[j] {
          case Delivered => health.RecordSuccess(clock(j));
          case DeliveryFailed =>
            health.RecordFailure(clock(j));
            var _ := health.ShouldLogKafkaError(clock(j));
          case Cancelled =>
        }
      }
      assert records[..|records|] == records && results[..|results|] == results;
    }
  }

  lemma NothingDrained(outcome: nat -> Enqueue, clock: nat -> int)
    ensures With(Drain([], outcome), Queued) == [] == With(Drain([], outcome), Rejected)
    ensures FlushEvents([], outcome, clock) == []
  {
  }

  lemma NothingResolved(clock: nat -> int)
    ensures ResolveEvents([], clock) == []
    ensures forall d :: Ending([], [], d) == []
  {
  }

  lemma DrainStep(records: seq<Record>, outcome: nat -> Enqueue, clock: nat -> int, i: nat)
    requires i < |records|
    ensures var d, o := Drain(records[..i], outcome), outcome(i);
            && With(Drain(records[..i + 1], outcome), Queued)
                == With(d, Queued) + (if o == Queued then [records[i]] else [])
            && With(Drain(records[..i + 1], outcome), Rejected)
                == With(d, Rejected) + (if o == Rejected then [records[i]] else [])
            && FlushEvents(records[..i + 1], outcome, clock)
               == FlushEvents(records[..i], outcome, clock) + EnqueueEvents(o, clock(i))
  {
    assert records[..i + 1][..i] == records[..i];
    var next := Drain(records[..i + 1], outcome);
    assert next[..|next| - 1] == Drain(records[..i], outcome);
  }

  lemma ResolveStep(records: seq<Record>, results: seq<Delivery>, clock: nat -> int, j: nat)
    requires j < |records| == |results|
    ensures forall d :: Ending(records[..j + 1], results[..j + 1], d)
                     == Ending(records[..j], results[..j], d) + if results[j] == d then [records[j]] else []
    ensures ResolveEvents(results[..j + 1], clock)
        == ResolveEvents(results[..j], clock) + DeliveryEvents(results[j], clock(j))
  {
    assert records[..j + 1][..j] == records[..j] && results[..j + 1][..j] == results[..j];
  }

  function DeliveryEvents(d: Delivery, now: int): seq<Event> {
    match d
    case Delivered => [Success(now)]
    case DeliveryFailed => [Failure(now)]
    case Cancelled => []
  }

  /** What a resolved task records on the health clock. */
  function ResolveEvents(results: seq<Delivery>, clock: nat -> int): seq<Event> {
    if results == [] then []
    else ResolveEvents(results[..|results| - 1], clock) + DeliveryEvents(results[|results| - 1], clock(|results| - 1))
  }

  function EnqueueEvents(o: Enqueue, now: int): seq<Event> {
    match o
    case SerializeError => []
    case Rejected => [Attempt(now), Failure(now)]
    case Queued => [Attempt(now)]
  }

  /** A buffer drained in order, each record with its outcome. */
  function Drain(records: seq<Record>, outcome: nat -> Enqueue): seq<Drained> {
    if records == [] then []
    else
      var n := |records| - 1;
      Drain(records[..n], outcome) + [Drained(records[n], outcome(n))]
  }

  lemma {:induction false} RecordsOfDrain(records: seq<Record>, outcome: nat -> Enqueue)
    ensures RecordsOf(Drain(records, outcome)) == records
  {
    if records != [] {
      var n := |records| - 1;
      RecordsOfDrain(records[..n], outcome);
      var d := Drain(records, outcome);
      assert d[..|d| - 1] == Drain(records[..n], outcome);
    }
  }

  /** What a flush records on the health clock: one attempt per serialised record, and a failure
      right after it when the client rejects the record. */
  function FlushEvents(records: seq<Record>, outcome: nat -> Enqueue, clock: nat -> int): seq<Event> {
    if records == [] then []
    else
      var n := |records| - 1;
      FlushEvents(records[..n], outcome, clock) + EnqueueEvents(outcome(n), clock(n))
  }

  /** In every reachable state the received records split into those buffered, dropped at
      serialisation, rejected, in flight, delivered, failed and cancelled; the counters count the
      delivered and the rejected or failed ones. */
  lemma Conservation(p: KafkaProducer)
    requires p.Valid()
    ensures multiset(p.received) == multiset(p.batch) + multiset(With(p.drained, SerializeError))
              + multiset(With(p.drained, Rejected)) + InFlight(p.tasks)
              + multiset(p.delivered) + multiset(p.failed) + multiset(p.cancelled)
    ensures p.health.kafkaSent == |p.delivered|
    ensures p.health.kafkaFailed == |With(p.drained, Rejected)| + |p.failed|
  {
    OutcomesPartition(p.drained);
  }

  /** Enqueueing is first in, first out: the drained records are a prefix of the received ones. */
  lemma FifoPrefix(p: KafkaProducer)
    requires p.Valid()
    ensures RecordsOf(p.drained) <= p.received && p.received[|RecordsOf(p.drained)|..] == p.batch
    ensures |p.received| - |RecordsOf(p.drained)| < (if p.batchSize > 1 then p.batchSize else 1)
  {
  }

  // ----- what a flush does, spelled out -----

  /** Every record is drained once, in order, with the answer it got. */
  lemma {:induction false} DrainIs(records: seq<Record>, outcome: nat -> Enqueue)
    ensures |Drain(records, outcome)| == |records|
    ensures forall i :: 0 <= i < |records| ==> Drain(records, outcome)[i] == Drained(records[i], outcome(i))
  {
    if records != [] { DrainIs(records[..|records| - 1], outcome); }
  }

  /** A flush attempts exactly the records that could be serialised, when they are reached, and fails
      exactly the rejected ones. */
  lemma {:induction false} FlushEventsAre(records: seq<Record>, outcome: nat -> Enqueue, clock: nat -> int, e: Event)
    ensures e in FlushEvents(records, outcome, clock) <==>
              exists i: nat :: i < |records| &&
                ((e == Attempt(clock(i)) && outcome(i) != SerializeError) ||
                 (e == Failure(clock(i)) && outcome(i) == Rejected))
  {
    if records != [] {
      var n := |records| - 1;
      FlushEventsAre(records[..n], outcome, clock, e);
      var before, last := FlushEvents(records[..n], outcome, clock), EnqueueEvents(outcome(n), clock(n));
      assert FlushEvents(records, outcome, clock) == before + last;
      assert e in last <==> (e == Attempt(clock(n)) && outcome(n) != SerializeError) ||
                            (e == Failure(clock(n)) && outcome(n) == Rejected);
    }
  }

  /** One attempt per serialised record, one failure per rejected one. */
  lemma {:induction false} FlushCounts(records: seq<Record>, outcome: nat -> Enqueue, clock: nat -> int)
    ensures var f := FlushEvents(records, outcome, clock);
            && Successes(f) == 0 && Failures(f) == |With(Drain(records, outcome), Rejected)|
            && |f| == |records| - |With(Drain(records, outcome), SerializeError)|
                      + |With(Drain(records, outcome), Rejected)|
  {
    if records != [] {
      var n := |records| - 1;
      FlushCounts(records[..n], outcome, clock);
      DrainLast(records, outcome);
      var before, last := FlushEvents(records[..n], outcome, clock), EnqueueEvents(outcome(n), clock(n));
      CountsAppend(before, last);
      assert FlushEvents(records, outcome, clock) == before + last;
      LastCounts(outcome(n), clock(n));
    }
  }

  lemma LastCounts(o: Enqueue, now: int)
    ensures var e := EnqueueEvents(o, now);
            && Successes(e) == 0 && Failures(e) == if o == Rejected then 1 else 0
  {
    if o != SerializeError {
      EventCounts([], Attempt(now));
      EventCounts([Attempt(now)], Failure(now));
      assert [] + [Attempt(now)] == [Attempt(now)];
      assert [Attempt(now)] + [Failure(now)] == [Attempt(now), Failure(now)];
    }
  }

  lemma EventCounts(trace: seq<Event>, e: Event)
    ensures Successes(trace + [e]) == Successes(trace) + if e.Success? then 1 else 0
    ensures Failures(trace + [e]) == Failures(trace) + if e.Failure? then 1 else 0
  {
    assert (trace + [e])[..|trace|] == trace;
  }

  lemma {:induction false} CountsAppend(a: seq<Event>, b: seq<Event>)
    ensures Successes(a + b) == Successes(a) + Successes(b) && Failures(a + b) == Failures(a) + Failures(b)
  {
    if b == [] {
      assert a + b == a;
    } else {
      CountsAppend(a, b[..|b| - 1]);
      assert (a + b)[..|a + b| - 1] == a + b[..|b| - 1];
    }
  }

  lemma DrainLast(records: seq<Record>, outcome: nat -> Enqueue)
    requires records != []
    ensures var n := |records| - 1;
            forall o :: With(Drain(records, outcome), o) ==
                        With(Drain(records[..n], outcome), o) + if outcome(n) == o then [records[n]] else []
  {
    var d := Drain(records, outcome);
    assert d[..|d| - 1] == Drain(records[..|records| - 1], outcome);
  }

  /** The records with one outcome are those that met it, in order: `at` gives their places. */
  lemma {:induction false} WithIs(drained: seq<Drained>, outcome: Enqueue) returns (at: seq<nat>)
    ensures |at| == |With(drained, outcome)|
    ensures forall k :: 0 <= k < |at| ==>
              at[k] < |drained| && drained[at[k]] == Drained(With(drained, outcome)[k], outcome)
    ensures forall k, l :: 0 <= k < l < |at| ==> at[k] < at[l]
    ensures forall i :: 0 <= i < |drained| && drained[i].outcome == outcome ==> i in at
  {
    at := [];
    if drained != [] {
      var n := |drained| - 1;
      at := WithIs(drained[..n], outcome);
      if drained[n].outcome == outcome { at := at + [n]; }
    }
  }
}
