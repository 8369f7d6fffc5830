/** Delivery health of the WebSocket collector (health.rs): the delivery clock, the wedge decision
    behind the liveness probe, and what it does over whole runs. Times are epoch milliseconds. */
module Health {

  datatype Event = Attempt(time: int) | Success(time: int) | Failure(time: int)

  /** Wedged: sends were attempted since the last success, and that success is too old. */
  predicate LivenessWedged(now: int, lastSuccess: int, lastAttempt: int, staleness: int) {
    var stale := now - lastSuccess > staleness;
    var attempting := lastAttempt > lastSuccess;
    stale && attempting
  }

  // ----- the clock as a function of what happened -----

  function LastSuccess(seed: int, trace: seq<Event>): int {
    if trace == [] then seed
    else if trace[|trace| - 1].Success? then trace[|trace| - 1].time
    else LastSuccess(seed, trace[..|trace| - 1])
  }

  function LastAttempt(seed: int, trace: seq<Event>): int {
    if trace == [] then seed
    else if trace[|trace| - 1].Attempt? then trace[|trace| - 1].time
    else LastAttempt(seed, trace[..|trace| - 1])
  }

  function Successes(trace: seq<Event>): nat {
    if trace == [] then 0 else Successes(trace[..|trace| - 1]) + if trace[|trace| - 1].Success? then 1 else 0
  }

  function Failures(trace: seq<Event>): nat {
    if trace == [] then 0 else Failures(trace[..|trace| - 1]) + if trace[|trace| - 1].Failure? then 1 else 0
  }

  const LOG_INTERVAL := 10_000

  /** The process-wide atomics, with the history they summarise. */
  class DeliveryHealth {
    var lastSuccessMs: int
    var lastAttemptMs: int
    var lastErrorLogMs: int
    var kafkaSent: nat
    var kafkaFailed: nat
    ghost var seed: int
    ghost var trace: seq<Event>

    ghost predicate Valid()
      reads this
    {
      && lastSuccessMs == LastSuccess(seed, trace)
      && lastAttemptMs == LastAttempt(seed, trace)
      && kafkaSent == Successes(trace)
      && kafkaFailed == Failures(trace)
    }

    constructor ()
      ensures Valid() && seed == 0 && trace == []
    {
      lastSuccessMs, lastAttemptMs, lastErrorLogMs, kafkaSent, kafkaFailed := 0, 0, 0, 0, 0;
      seed, trace := 0, [];
    }

    /** At start-up, before any send is counted. */
    method SeedDeliveryClock(now: int)
      requires Valid() && trace == []
      modifies this
      ensures Valid() && seed == now && trace == []
      ensures lastSuccessMs == lastAttemptMs == now
    {
      lastSuccessMs := now;
      lastAttemptMs := now;
      seed := now;
    }

    method RecordAttempt(now: int)
      requires Valid()
      modifies this`lastAttemptMs, this`trace
      ensures Valid() && trace == old(trace) + [Attempt(now)]
    {
      lastAttemptMs := now;
      trace := trace + [Attempt(now)];
    }

    method RecordSuccess(now: int)
      requires Valid()
      modifies this`lastSuccessMs, this`kafkaSent, this`trace
      ensures Valid() && trace == old(trace) + [Success(now)]
      ensures kafkaSent == old(kafkaSent) + 1
    {
      lastSuccessMs := now;
      kafkaSent := kafkaSent + 1;
      trace := trace + [Success(now)];
    }

    method RecordFailure(now: int)
      requires Valid()
      modifies this`kafkaFailed, this`trace
      ensures Valid() && trace == old(trace) + [Failure(now)]
      ensures kafkaFailed == old(kafkaFailed) + 1
    {
      kafkaFailed := kafkaFailed + 1;
      trace := trace + [Failure(now)];
    }

    /** At most one error line per ten seconds. */
    method ShouldLogKafkaError(now: int) returns (log: bool)
      requires Valid()
      modifies this`lastErrorLogMs
      ensures Valid()
      ensures (log, lastErrorLogMs) == LogDecision(old(lastErrorLogMs), now)
    {
      var last := lastErrorLogMs;
      if now - last >= LOG_INTERVAL {
        lastErrorLogMs := now;
        log := true;
      } else {
        log := false;
      }
    }

    /** The /live probe: true when the pod is reported healthy. */
    method Live(now: int, staleness: int) returns (healthy: bool)
      requires Valid()
      ensures healthy <==> !Wedged(seed, trace, now, staleness)
    {
      var lastSuccess := lastSuccessMs;
      var lastAttempt := lastAttemptMs;
      healthy := !LivenessWedged(now, lastSuccess, lastAttempt, staleness);
    }
  }

  predicate Wedged(seed: int, trace: seq<Event>, now: int, staleness: int) {
    LivenessWedged(now, LastSuccess(seed, trace), LastAttempt(seed, trace), staleness)
  }

  // ----- runs -----

  /** The clock never runs backwards, and the probe comes last. */
  predicate Monotone(seed: int, trace: seq<Event>, now: int) {
    && (forall i :: 0 <= i < |trace| ==> seed <= trace[i].time <= now)
    && (forall i, j :: 0 <= i < j < |trace| ==> trace[i].time <= trace[j].time)
    && seed <= now
  }

  /** No attempt comes more than `gap` after the previous one, counting the seed as one. */
  predicate AttemptsWithin(seed: int, trace: seq<Event>, gap: int) {
    forall j :: 0 <= j < |trace| && trace[j].Attempt? ==> trace[j].time - LastAttempt(seed, trace[..j]) <= gap
  }

  /** Every attempt more than `delay` old has been followed, within `delay`, by a success. */
  predicate SuccessesWithin(trace: seq<Event>, now: int, delay: int) {
    forall j :: 0 <= j < |trace| && trace[j].Attempt? && trace[j].time + delay < now ==>
      exists k :: j < k < |trace| && trace[k].Success? && trace[k].time <= trace[j].time + delay
  }

  /** Where the last success stands: every later event is something else. */
  lemma {:induction false} LastSuccessIndex(seed: int, trace: seq<Event>) returns (s: int)
    ensures -1 <= s < |trace| && (s >= 0 ==> trace[s].Success?)
    ensures LastSuccess(seed, trace) == if s < 0 then seed else trace[s].time
    ensures forall i :: s < i < |trace| ==> !trace[i].Success?
  {
    if trace == [] || trace[|trace| - 1].Success? {
      s := |trace| - 1;
    } else {
      var n := |trace| - 1;
      s := LastSuccessIndex(seed, trace[..n]);
      assert forall i :: 0 <= i < n ==> trace[..n][i] == trace[i];
    }
  }

  lemma {:induction false} LastAttemptAtMost(seed: int, trace: seq<Event>, bound: int)
    requires seed <= bound
    requires forall i :: 0 <= i < |trace| && trace[i].Attempt? ==> trace[i].time <= bound
    ensures LastAttempt(seed, trace) <= bound
  {
    if trace != [] { LastAttemptAtMost(seed, trace[..|trace| - 1], bound); }
  }

  /** No false alarm: with a monotone clock, attempts at most `gap` apart and each followed by a
      success within `delay`, no probe finds the producer wedged while gap + delay fits in the
      staleness threshold. */
  lemma NoFalseAlarm(seed: int, trace: seq<Event>, now: int, gap: int, delay: int, staleness: int)
    requires Monotone(seed, trace, now) && AttemptsWithin(seed, trace, gap) && SuccessesWithin(trace, now, delay)
    requires gap + delay <= staleness
    ensures !Wedged(seed, trace, now, staleness)
  {
    var s := LastSuccessIndex(seed, trace);
    var last := LastSuccess(seed, trace);
    var j := 0;
    while j < |trace| && !(trace[j].Attempt? && trace[j].time > last)
      invariant 0 <= j <= |trace|
      invariant forall i :: 0 <= i < j && trace[i].Attempt? ==> trace[i].time <= last
    {
      j := j + 1;
    }
    if j == |trace| {
      LastAttemptAtMost(seed, trace, last);
    } else {
      LastAttemptAtMost(seed, trace[..j], last);
      assert trace[j].time <= last + gap;
      assert s < j;
      assert !(trace[j].time + delay < now);
    }
  }

  /** The bound is the exact one: gap + delay must fit in the staleness threshold. */
  lemma NoFalseAlarmExactly(gap: int, delay: int, staleness: int)
    requires gap >= 1 && delay >= 0
    ensures (forall seed, trace, now ::
               Monotone(seed, trace, now) && AttemptsWithin(seed, trace, gap) && SuccessesWithin(trace, now, delay) ==>
                 !Wedged(seed, trace, now, staleness))
            <==> gap + delay <= staleness
  {
    if gap + delay <= staleness {
      forall seed, trace, now | Monotone(seed, trace, now) && AttemptsWithin(seed, trace, gap)
          && SuccessesWithin(trace, now, delay)
        ensures !Wedged(seed, trace, now, staleness)
      {
        NoFalseAlarm(seed, trace, now, gap, delay, staleness);
      }
    } else {
      var trace, now := [Attempt(gap)], gap + delay;
      assert trace[..0] == [];
      assert Monotone(0, trace, now) && AttemptsWithin(0, trace, gap) && SuccessesWithin(trace, now, delay);
      assert LastSuccess(0, trace) == 0 && LastAttempt(0, trace) == gap;
      assert Wedged(0, trace, now, staleness);
    }
  }

  /** The first attempt after an idle period longer than the threshold is reported wedged at once,
      before its delivery had any time to complete. */
  lemma AttemptAfterIdleIsWedged(seed: int, trace: seq<Event>, t: int, staleness: int)
    requires staleness >= 0 && t - LastSuccess(seed, trace) > staleness
    ensures Wedged(seed, trace + [Attempt(t)], t, staleness)
  {
    assert (trace + [Attempt(t)])[..|trace|] == trace;
  }

  /** Once wedged, a producer stays wedged until the next recorded success. */
  lemma {:induction false} StaysWedged(seed: int, trace: seq<Event>, now: int, more: seq<Event>, later: int,
                                       staleness: int)
    requires Wedged(seed, trace, now, staleness)
    requires Monotone(seed, trace + more, later) && now <= later
    requires forall i :: 0 <= i < |more| ==> !more[i].Success?
    ensures Wedged(seed, trace + more, later, staleness)
  {
    if more == [] {
      assert trace + more == trace;
    } else {
      var n := |more| - 1;
      var all, shorter := trace + more, trace + more[..n];
      assert all[..|all| - 1] == shorter && all[|all| - 1] == more[n];
      assert forall i :: 0 <= i < |shorter| ==> shorter[i] == all[i];
      StaysWedged(seed, trace, now, more[..n], later, staleness);
      AttemptIsPast(seed, shorter, all[|all| - 1].time);
    }
  }

  lemma {:induction false} AttemptIsPast(seed: int, trace: seq<Event>, t: int)
    requires seed <= t && forall i :: 0 <= i < |trace| ==> trace[i].time <= t
    ensures LastAttempt(seed, trace) <= t
  {
    LastAttemptAtMost(seed, trace, t);
  }

  /** A success recorded now clears the wedge. */
  lemma SuccessClears(seed: int, trace: seq<Event>, now: int, staleness: int)
    requires staleness >= 0 && Monotone(seed, trace, now)
    ensures !Wedged(seed, trace + [Success(now)], now, staleness)
  {
    assert (trace + [Success(now)])[..|trace|] == trace;
  }

  // ----- the error-log throttle -----

  function LogDecision(last: int, now: int): (bool, int) {
    if now - last >= LOG_INTERVAL then (true, now) else (false, last)
  }

  /** The times at which a sequence of calls logs. */
  function Logged(last: int, calls: seq<int>): seq<int>
    decreases |calls|
  {
    if calls == [] then []
    else
      var (log, next) := LogDecision(last, calls[0]);
      (if log then [calls[0]] else []) + Logged(next, calls[1..])
  }

  /** Logged times are at least ten seconds apart, whatever the clock does in between. */
  lemma {:induction false} LogsAreApart(last: int, calls: seq<int>)
    ensures Logged(last, calls) != [] ==> Logged(last, calls)[0] - last >= LOG_INTERVAL
    ensures forall i :: 0 <= i < |Logged(last, calls)| - 1 ==>
              Logged(last, calls)[i + 1] - Logged(last, calls)[i] >= LOG_INTERVAL
    decreases |calls|
  {
    if calls != [] {
      var (log, next) := LogDecision(last, calls[0]);
      LogsAreApart(next, calls[1..]);
      var rest := Logged(next, calls[1..]);
      if log {
        forall i | 0 <= i < |rest| ensures ([calls[0]] + rest)[i + 1] - ([calls[0]] + rest)[i] >= LOG_INTERVAL {
          if i > 0 { assert rest[(i - 1) + 1] - rest[i - 1] >= LOG_INTERVAL; }
        }
      } else {
        assert [] + rest == rest;
      }
    }
  }

  /** And no call goes unlogged unless a logged one came less than ten seconds before it. */
  lemma {:induction false} SilenceIsShort(last: int, calls: seq<int>, i: nat)
    requires i < |calls|
    ensures || calls[i] in Logged(last, calls)
            || calls[i] - last < 10_000
            || exists t :: t in Logged(last, calls) && calls[i] - t < 10_000
    decreases |calls|
  {
    var (log, next) := LogDecision(last, calls[0]);
    var rest := Logged(next, calls[1..]);
    if i > 0 {
      SilenceIsShort(next, calls[1..], i - 1);
      assert forall t :: t in rest ==> t in Logged(last, calls);
      if log { assert calls[0] in Logged(last, calls); }
    }
  }

  // ----- the probe, spelled out -----

  /** With a monotone clock a probe alarms exactly when some attempt is later than the start and every
      success, and the start and every success are older than the threshold. */
  lemma {:induction false} WedgedMeans(seed: int, trace: seq<Event>, now: int, staleness: int)
    requires Monotone(seed, trace, now)
    ensures Wedged(seed, trace, now, staleness) <==>
            && now - seed > staleness
            && (forall j :: 0 <= j < |trace| && trace[j].Success? ==> now - trace[j].time > staleness)
            && (exists i :: 0 <= i < |trace| && trace[i].Attempt? && trace[i].time > seed
                            && forall j :: 0 <= j < |trace| && trace[j].Success? ==> trace[j].time < trace[i].time)
  {
    var s := LastSuccessIndex(seed, trace);
    var a := LastAttemptIndex(seed, trace);
    var since, tried := LastSuccess(seed, trace), LastAttempt(seed, trace);
    assert forall j :: 0 <= j < |trace| && trace[j].Success? ==> trace[j].time <= since;
    assert forall i :: 0 <= i < |trace| && trace[i].Attempt? ==> trace[i].time <= tried;
    if tried > since { assert trace[a].Attempt? && trace[a].time > seed; }
  }

  lemma {:induction false} LastAttemptIndex(seed: int, trace: seq<Event>) returns (a: int)
    ensures -1 <= a < |trace| && (a >= 0 ==> trace[a].Attempt?)
    ensures LastAttempt(seed, trace) == if a < 0 then seed else trace[a].time
    ensures forall i :: a < i < |trace| ==> !trace[i].Attempt?
  {
    if trace == [] || trace[|trace| - 1].Attempt? {
      a := |trace| - 1;
    } else {
      var n := |trace| - 1;
      a := LastAttemptIndex(seed, trace[..n]);
      assert forall i :: 0 <= i < n ==> trace[..n][i] == trace[i];
    }
  }
}
