/** What one drift check of the retraining job does to the cluster: when it starts jobs, for whom, and
    when it starts none. */
module RetrainingChecks {
  import opened Retraining

  // ----- keys -----

  /** A symbol's key is its letters in lower case without dashes, in order. */
  lemma {:induction false} KeyOfConcat(a: string, b: string)
    ensures SymbolKey(a + b) == SymbolKey(a) + SymbolKey(b)
  {
    if a == [] {
      assert a + b == b;
    } else {
      assert (a + b)[1..] == a[1..] + b;
      KeyOfConcat(a[1..], b);
    }
  }

  lemma KeyOfLetter(c: char)
    ensures SymbolKey([c]) == if c == '-' then "" else if 'A' <= c <= 'Z' then [c - 'A' + 'a'] else [c]
  {
    assert [c][1..] == [];
  }

  // ----- no drift -----

  lemma {:induction false} NoneAtLeast(psis: seq<real>, threshold: real)
    ensures AtLeast(psis, threshold) == [] <==> forall i :: 0 <= i < |psis| ==> psis[i] < threshold
  {
    if psis != [] {
      var n := |psis| - 1;
      NoneAtLeast(psis[..n], threshold);
      assert forall i :: 0 <= i < n ==> psis[..n][i] == psis[i];
    }
  }

  /** A check whose drift values all lie below the threshold leaves the cluster as it was. */
  lemma QuietBelowThreshold(c: Cluster, cfg: Config, psis: seq<real>, listed: bool, delay: nat -> nat,
                            outcome: nat -> CreateOutcome)
    requires forall i :: 0 <= i < |psis| ==> psis[i] < cfg.threshold
    ensures RetrainRun(c, cfg, psis, listed, delay, outcome) == c
  {
    NoneAtLeast(psis, cfg.threshold);
  }

  // ----- drift -----

  /** A job of the key that the listing shows as younger than the cooldown. */
  predicate HasYoungJob(c: Cluster, cfg: Config, key: string) {
    exists i :: 0 <= i < |c.created| && i in c.alive && c.created[i].key == key
                && c.now - Recorded(c.created[i]) < cfg.cooldown * 1000
  }

  lemma RecentAreYoung(c: Cluster, cfg: Config, key: string)
    ensures key in RecentSymbols(c, cfg.Cooldown()) <==> HasYoungJob(c, cfg, key)
  {
    hide Recorded;
  }

  /** What the creation loop has done when it reaches symbol i: one job for each earlier symbol
      without a young one, and no other. */
  ghost predicate Progress(before: Cluster, c: Cluster, cfg: Config, i: nat)
    requires i <= |cfg.symbols|
  {
    && before.created <= c.created && before.now <= c.now
    && (forall k :: k in c.alive <==> k in before.alive || |before.created| <= k < |c.created|)
    && (forall k :: |before.created| <= k < |c.created| ==> StartedFor(before, c, cfg, i, k))
    && (forall k, l :: |before.created| <= k < l < |c.created| ==> c.created[k].key != c.created[l].key)
    && (forall m :: 0 <= m < i ==> Served(before, c, cfg, m))
  }

  /** Job k was started now, for one of the first i symbols, whose key has no young job. */
  ghost predicate StartedFor(before: Cluster, c: Cluster, cfg: Config, i: nat, k: nat)
    requires i <= |cfg.symbols| && k < |c.created|
  {
    && before.now <= c.created[k].at <= c.now && !HasYoungJob(before, cfg, c.created[k].key)
    && exists m :: 0 <= m < i && c.created[k].key == SymbolKey(cfg.symbols[m])
  }

  /** Symbol m has a young job or got one now. */
  ghost predicate Served(before: Cluster, c: Cluster, cfg: Config, m: nat)
    requires m < |cfg.symbols|
  {
    HasYoungJob(before, cfg, SymbolKey(cfg.symbols[m]))
    || exists k :: |before.created| <= k < |c.created| && c.created[k].key == SymbolKey(cfg.symbols[m])
  }

  lemma NameIsFree(before: Cluster, c: Cluster, cfg: Config, i: nat, now: int)
    requires i < |cfg.symbols| && DistinctKeys(cfg.symbols) && cfg.cooldown >= 1
    requires Progress(before, c, cfg, i) && now >= c.now && !HasYoungJob(before, cfg, SymbolKey(cfg.symbols[i]))
    ensures !c.(now := now).NameTaken(SymbolKey(cfg.symbols[i]))
  {
    hide SymbolKey, WholeSeconds;
    var key := SymbolKey(cfg.symbols[i]);
    forall k | |before.created| <= k < |c.created| ensures c.created[k].key != key {
      assert StartedFor(before, c, cfg, i, k);
    }
    forall k | 0 <= k < |before.created| && k in c.alive && c.created[k].key == key
      ensures Recorded(c.created[k]) != WholeSeconds(now)
    {
      assert before.created[k] == c.created[k];
      RecordedBounds(Created(key, now));
    }
  }

  lemma SkipProgress(before: Cluster, c: Cluster, cfg: Config, i: nat)
    requires i < |cfg.symbols| && Progress(before, c, cfg, i) && HasYoungJob(before, cfg, SymbolKey(cfg.symbols[i]))
    ensures Progress(before, c, cfg, i + 1)
  {
    hide SymbolKey, HasYoungJob;
    var next := i + 1;
    forall k | |before.created| <= k < |c.created| ensures StartedFor(before, c, cfg, next, k) {
      assert StartedFor(before, c, cfg, i, k);
    }
  }

  lemma CreateProgress(before: Cluster, c: Cluster, cfg: Config, i: nat, delay: nat)
    requires i < |cfg.symbols| && DistinctKeys(cfg.symbols) && cfg.cooldown >= 1
    requires Progress(before, c, cfg, i) && !HasYoungJob(before, cfg, SymbolKey(cfg.symbols[i]))
    ensures var a := CreateOne(c, cfg.symbols[i], delay, Accepted);
            !a.raised && Progress(before, a.cluster, cfg, i + 1)
  {
    hide SymbolKey, HasYoungJob;
    var key, n, next := SymbolKey(cfg.symbols[i]), |c.created|, i + 1;
    NameIsFree(before, c, cfg, i, c.now + delay);
    var t := CreateOne(c, cfg.symbols[i], delay, Accepted).cluster;
    assert t.created == c.created + [Created(key, c.now + delay)];
    forall k | |before.created| <= k < |t.created| ensures StartedFor(before, t, cfg, next, k) {
      if k < n {
        assert StartedFor(before, c, cfg, i, k);
      }
    }
    forall m | 0 <= m < i + 1 ensures Served(before, t, cfg, m) {
      if m < i {
        assert Served(before, c, cfg, m);
        if !HasYoungJob(before, cfg, SymbolKey(cfg.symbols[m])) {
          var k :| |before.created| <= k < |c.created| && c.created[k].key == SymbolKey(cfg.symbols[m]);
          assert t.created[k] == c.created[k];
        }
      } else {
        assert t.created[n].key == key;
      }
    }
    forall k | |before.created| <= k < n ensures t.created[k].key != key {
      assert StartedFor(before, c, cfg, i, k);
    }
  }

  lemma {:induction false} LoopProgress(before: Cluster, c: Cluster, cfg: Config, i: nat, delay: nat -> nat,
                                        outcome: nat -> CreateOutcome)
    requires i <= |cfg.symbols| && DistinctKeys(cfg.symbols) && cfg.cooldown >= 1 && Progress(before, c, cfg, i)
    requires forall n :: outcome(n) == Accepted
    ensures var recent := RecentSymbols(before, cfg.Cooldown());
            Progress(before, CreateLoop(c, cfg.symbols, recent, i, delay, outcome), cfg, |cfg.symbols|)
    decreases |cfg.symbols| - i
  {
    hide SymbolKey, RecentSymbols, HasYoungJob, CreateOne, Progress, DistinctKeys;
    if i < |cfg.symbols| {
      RecentAreYoung(before, cfg, SymbolKey(cfg.symbols[i]));
      if HasYoungJob(before, cfg, SymbolKey(cfg.symbols[i])) {
        SkipProgress(before, c, cfg, i);
        LoopProgress(before, c, cfg, i + 1, delay, outcome);
      } else {
        CreateProgress(before, c, cfg, i, delay(i));
        LoopProgress(before, CreateOne(c, cfg.symbols[i], delay(i), Accepted).cluster, cfg, i + 1, delay, outcome);
      }
    }
  }

  /** A job of the key numbered from `from` on. */
  predicate NewJob(c: Cluster, from: nat, k: nat, key: string) {
    from <= k < |c.created| && c.created[k].key == key
  }

  /** A check with some drift value at or above the threshold, a successful listing and accepted
      creates keeps every earlier job and starts exactly one job for each configured key without a
      listed job younger than the cooldown, and none for any other key. */
  lemma DriftStartsJobs(c: Cluster, cfg: Config, psis: seq<real>, p: nat, delay: nat -> nat,
                        outcome: nat -> CreateOutcome)
    requires p < |psis| && psis[p] >= cfg.threshold
    requires DistinctKeys(cfg.symbols) && cfg.cooldown >= 1 && forall n :: outcome(n) == Accepted
    ensures var after, n := RetrainRun(c, cfg, psis, true, delay, outcome), |c.created|;
            && c.created <= after.created
            && (forall m :: 0 <= m < |cfg.symbols| ==>
                  var key := SymbolKey(cfg.symbols[m]);
                  (exists k :: NewJob(after, n, k, key)) <==> !HasYoungJob(c, cfg, key))
            && (forall k, l, key :: NewJob(after, n, k, key) && NewJob(after, n, l, key) ==> k == l)
            && (forall k :: n <= k < |after.created| ==>
                  && k in after.alive && c.now <= after.created[k].at <= after.now
                  && exists m :: 0 <= m < |cfg.symbols| && after.created[k].key == SymbolKey(cfg.symbols[m]))
  {
    hide SymbolKey, HasYoungJob, RecentSymbols, CreateLoop, DistinctKeys;
    NoneAtLeast(psis, cfg.threshold);
    LoopProgress(c, c, cfg, 0, delay, outcome);
    var after, n := RetrainRun(c, cfg, psis, true, delay, outcome), |c.created|;
    forall m | 0 <= m < |cfg.symbols|
      ensures var key := SymbolKey(cfg.symbols[m]);
              (exists k :: NewJob(after, n, k, key)) <==> !HasYoungJob(c, cfg, key)
    {
      var key := SymbolKey(cfg.symbols[m]);
      assert Served(c, after, cfg, m);
      if exists k :: n <= k < |after.created| && after.created[k].key == key {
        var k :| n <= k < |after.created| && after.created[k].key == key;
        assert NewJob(after, n, k, key) && StartedFor(c, after, cfg, |cfg.symbols|, k);
      }
    }
    forall k | n <= k < |after.created|
      ensures k in after.alive && c.now <= after.created[k].at <= after.now
      ensures exists m :: 0 <= m < |cfg.symbols| && after.created[k].key == SymbolKey(cfg.symbols[m])
    {
      assert StartedFor(c, after, cfg, |cfg.symbols|, k);
    }
  }

  // ----- a create call that raises -----

  /** The key of a symbol numbered from `from` to `to`. */
  ghost predicate Between(symbols: seq<string>, from: nat, to: nat, key: string) {
    exists m :: from <= m <= to && m < |symbols| && key == SymbolKey(symbols[m])
  }

  lemma {:induction false} LoopStops(c: Cluster, symbols: seq<string>, recent: set<string>, j: nat, i: nat,
                                     delay: nat -> nat, outcome: nat -> CreateOutcome)
    requires j <= i < |symbols| && SymbolKey(symbols[i]) !in recent && outcome(i) != Accepted
    ensures var after := CreateLoop(c, symbols, recent, j, delay, outcome);
            c.created <= after.created
            && forall k :: |c.created| <= k < |after.created| ==> Between(symbols, j, i, after.created[k].key)
    decreases i - j
  {
    hide SymbolKey;
    var after, next := CreateLoop(c, symbols, recent, j, delay, outcome), j + 1;
    if SymbolKey(symbols[j]) in recent {
      LoopStops(c, symbols, recent, next, i, delay, outcome);
      forall k | |c.created| <= k < |after.created| ensures Between(symbols, j, i, after.created[k].key) {
        assert Between(symbols, next, i, after.created[k].key);
      }
    } else {
      var a := CreateOne(c, symbols[j], delay(j), outcome(j));
      if j < i && !a.raised {
        LoopStops(a.cluster, symbols, recent, next, i, delay, outcome);
        forall k | |c.created| <= k < |after.created| ensures Between(symbols, j, i, after.created[k].key) {
          if k >= |a.cluster.created| { assert Between(symbols, next, i, after.created[k].key); }
        }
      }
    }
  }

  /** A create call that raises ends the check: no later symbol gets a job. */
  lemma RaiseEndsTheCheck(c: Cluster, cfg: Config, psis: seq<real>, delay: nat -> nat, outcome: nat -> CreateOutcome,
                          i: nat, m: nat, k: nat)
    requires i < m < |cfg.symbols| && DistinctKeys(cfg.symbols)
    requires outcome(i) != Accepted && !HasYoungJob(c, cfg, SymbolKey(cfg.symbols[i]))
    ensures !NewJob(RetrainRun(c, cfg, psis, true, delay, outcome), |c.created|, k, SymbolKey(cfg.symbols[m]))
  {
    hide SymbolKey, HasYoungJob, RecentSymbols, CreateLoop;
    RecentAreYoung(c, cfg, SymbolKey(cfg.symbols[i]));
    LoopStops(c, cfg.symbols, RecentSymbols(c, cfg.Cooldown()), 0, i, delay, outcome);
    var after := RetrainRun(c, cfg, psis, true, delay, outcome);
    if |c.created| <= k < |after.created| {
      assert Between(cfg.symbols, 0, i, after.created[k].key);
    }
  }
}
