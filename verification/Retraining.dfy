/** The drift-triggered retraining job (retraining/main.py) against a job cluster: the cooldown
    over any sequence of runs. Times are integer milliseconds; the cluster reports creation times
    in whole seconds, and job names carry the creation second. */
module Retraining {
  import opened Series

  const SECOND := 1000

  /** Cooldown and TTL in seconds; the source fixes the TTL at 3600. */
  datatype Config = Config(symbols: seq<string>, cooldown: int, ttl: nat, threshold: real)
  {
    /** Milliseconds. */
    function Cooldown(): int { cooldown * SECOND }
    function Ttl(): int { ttl * SECOND }
  }

  function Lower(c: char): char {
    if 'A' <= c <= 'Z' then (c as int + 32) as char else c
  }

  /** symbol.lower().replace("-", "") */
  function SymbolKey(symbol: string): string {
    if symbol == [] then []
    else if symbol[0] == '-' then SymbolKey(symbol[1..])
    else [Lower(symbol[0])] + SymbolKey(symbol[1..])
  }

  /** A job ever created, with its label and its creation instant. */
  datatype Created = Created(key: string, at: int)

  function WholeSeconds(t: int): int { t - t % SECOND }

  /** The creation timestamp the API reports. */
  function Recorded(j: Created): int { WholeSeconds(j.at) }

  /** Jobs are numbered in creation order; `alive` are the ones not yet removed. */
  datatype Cluster = Cluster(now: int, created: seq<Created>, alive: set<nat>, finished: map<nat, int>)
  {
    /** A job still there bears the name a job of this key created now would get. */
    predicate NameTaken(key: string) {
      exists i :: 0 <= i < |created| && i in alive && created[i].key == key && Recorded(created[i]) == WholeSeconds(now)
    }
  }

  const EMPTY := Cluster(0, [], {}, map[])

  /** How a create call ends when the name is free; Lost created the job but raised. */
  datatype CreateOutcome = Accepted | Refused | Lost

  datatype Attempt = Attempt(cluster: Cluster, raised: bool)

  // ----- one run -----

  function AtLeast(psis: seq<real>, threshold: real): (events: seq<real>) {
    if psis == [] then []
    else
      var before := AtLeast(psis[..|psis| - 1], threshold);
      if psis[|psis| - 1] >= threshold then before + [psis[|psis| - 1]] else before
  }

  /** Symbols of listed jobs younger than the cooldown. */
  function RecentSymbols(c: Cluster, cooldown: int): set<string> {
    set i | 0 <= i < |c.created| && i in c.alive && c.now - Recorded(c.created[i]) < cooldown :: c.created[i].key
  }

  /** One create call, `delay` after the previous step. */
  function CreateOne(c: Cluster, symbol: string, delay: nat, outcome: CreateOutcome): Attempt {
    var key := SymbolKey(symbol);
    var later := c.(now := c.now + delay);
    if outcome.Refused? || later.NameTaken(key) then Attempt(later, true)
    else
      Attempt(later.(created := c.created + [Created(key, later.now)], alive := c.alive + {|c.created|}), outcome.Lost?)
  }

  /** The creation loop over the symbols from number i on; it stops where a create call raises. */
  function CreateLoop(c: Cluster, symbols: seq<string>, recent: set<string>, i: nat, delay: nat -> nat,
                      outcome: nat -> CreateOutcome): Cluster
    requires i <= |symbols|
    decreases |symbols| - i
  {
    if i == |symbols| then c
    else if SymbolKey(symbols[i]) in recent then CreateLoop(c, symbols, recent, i + 1, delay, outcome)
    else
      var a := CreateOne(c, symbols[i], delay(i), outcome(i));
      if a.raised then a.cluster else CreateLoop(a.cluster, symbols, recent, i + 1, delay, outcome)
  }

  /** One run of the service: with a drift event, list, then create for the other symbols. A failed
      listing counts as no recent job. */
  function RetrainRun(c: Cluster, cfg: Config, psis: seq<real>, listed: bool, delay: nat -> nat,
                      outcome: nat -> CreateOutcome): Cluster
  {
    if AtLeast(psis, cfg.threshold) == [] then c
    else CreateLoop(c, cfg.symbols, if listed then RecentSymbols(c, cfg.Cooldown()) else {}, 0, delay, outcome)
  }

  lemma {:induction false} AtLeastAgain(psis: seq<real>, threshold: real)
    ensures AtLeast(AtLeast(psis, threshold), threshold) == AtLeast(psis, threshold)
  {
    if psis != [] {
      AtLeastAgain(psis[..|psis| - 1], threshold);
      var before, last := AtLeast(psis[..|psis| - 1], threshold), psis[|psis| - 1];
      if last >= threshold {
        assert (before + [last])[..|before|] == before;
      }
    }
  }

  /** The service against the cluster API. */
  class RetrainService {
    const config: Config
    var cluster: Cluster

    constructor (config: Config)
      ensures this.config == config && cluster == EMPTY
    {
      this.config, cluster := config, EMPTY;
    }

    /** `psis` are the values of the messages that parsed. */
    method CheckRecentDriftEvents(psis: seq<real>) returns (events: seq<real>)
      ensures events == AtLeast(psis, config.threshold)
    {
      events := [];
      for i := 0 to |psis|
        invariant events == AtLeast(psis[..i], config.threshold)
      {
        assert psis[..i + 1][..i] == psis[..i];
        if psis[i] >= config.threshold {
          events := events + [psis[i]];
        }
      }
      assert psis[..|psis|] == psis;
    }

    method CheckExistingRetrainJobs(listed: bool) returns (recent: set<string>)
      ensures recent == if listed then RecentSymbols(cluster, config.Cooldown()) else {}
    {
      recent := {};
      if !listed {
        return;
      }
      for i := 0 to |cluster.created|
        invariant recent ==
                  set k | 0 <= k < i && k in cluster.alive
                          && cluster.now - Recorded(cluster.created[k]) < config.Cooldown() :: cluster.created[k].key
      {
        if i in cluster.alive {
          var age := cluster.now - Recorded(cluster.created[i]);
          if age < config.Cooldown() {
            recent := recent + {cluster.created[i].key};
          }
        }
      }
    }

    method CreateRetrainJob(symbol: string, delay: nat, outcome: CreateOutcome) returns (raised: bool)
      modifies this`cluster
      ensures Attempt(cluster, raised) == CreateOne(old(cluster), symbol, delay, outcome)
    {
      cluster := cluster.(now := cluster.now + delay);
      if outcome.Refused? || cluster.NameTaken(SymbolKey(symbol)) {
        return true;
      }
      cluster := cluster.(created := cluster.created + [Created(SymbolKey(symbol), cluster.now)],
                          alive := cluster.alive + {|cluster.created|});
      raised := outcome.Lost?;
    }

    method CheckAndRetrain(psis: seq<real>, listed: bool, delay: nat -> nat, outcome: nat -> CreateOutcome)
      modifies this`cluster
      ensures cluster == RetrainRun(old(cluster), config, psis, listed, delay, outcome)
    {
      hide AtLeast, RecentSymbols, CreateOne, SymbolKey;
      var events := CheckRecentDriftEvents(psis);
      if events == [] {
        return;
      }
      var recent := CheckExistingRetrainJobs(listed);
      AtLeastAgain(psis, config.threshold);
      ghost var goal := CreateLoop(cluster, config.symbols, recent, 0, delay, outcome);
      for i := 0 to |config.symbols|
        invariant CreateLoop(cluster, config.symbols, recent, i, delay, outcome) == goal
      {
        if SymbolKey(config.symbols[i]) in recent {
          continue;
        }
        var relevant := CheckRecentDriftEvents(events);
        if relevant != [] {
          var raised := CreateRetrainJob(config.symbols[i], delay(i), outcome(i));
          if raised {
            return;
          }
        }
      }
    }
  }

  // ----- runs of the cluster -----

  datatype Step =
    | Pass(time: nat)
    | Finish(job: nat)
    | Remove(job: nat)
    | Check(psis: seq<real>, listed: bool, delay: nat -> nat, outcome: nat -> CreateOutcome)

  /** Time passes, jobs finish, finished ones are removed after their TTL, and the service runs. */
  function Next(c: Cluster, cfg: Config, s: Step): Cluster {
    match s
    case Pass(t) => c.(now := c.now + t)
    case Finish(i) => if i < |c.created| && i !in c.finished then c.(finished := c.finished[i := c.now]) else c
    case Remove(i) =>
      if i in c.alive && i in c.finished && c.finished[i] + cfg.Ttl() <= c.now then c.(alive := c.alive - {i}) else c
    case Check(psis, listed, delay, outcome) => RetrainRun(c, cfg, psis, listed, delay, outcome)
  }

  function Run(cfg: Config, steps: seq<Step>): Cluster {
    if steps == [] then EMPTY else Next(Run(cfg, steps[..|steps| - 1]), cfg, steps[|steps| - 1])
  }

  predicate DistinctKeys(symbols: seq<string>) {
    forall i, j :: 0 <= i < j < |symbols| ==> SymbolKey(symbols[i]) != SymbolKey(symbols[j])
  }

  /** Every run of the service that gets to the listing has it succeed. */
  predicate Reliable(steps: seq<Step>) {
    forall i :: 0 <= i < |steps| ==> steps[i].Check? ==> steps[i].listed
  }

  /** Any two jobs of one key carry creation timestamps at least the cooldown apart. */
  predicate Spaced(created: seq<Created>, cooldown: int) {
    forall i, j :: 0 <= i < j < |created| && created[i].key == created[j].key ==>
      Recorded(created[j]) - Recorded(created[i]) >= cooldown
  }

  /** Creation times are past, jobs finish after they start, and only jobs at least a TTL old are gone. */
  predicate Consistent(c: Cluster, ttl: int) {
    && (forall i :: 0 <= i < |c.created| ==> c.created[i].at <= c.now)
    && (forall i :: i in c.finished ==> i < |c.created| && c.created[i].at <= c.finished[i])
    && (forall i :: 0 <= i < |c.created| && i !in c.alive ==> c.now - c.created[i].at >= ttl)
  }

  lemma RecordedBounds(j: Created)
    ensures Recorded(j) <= j.at < Recorded(j) + SECOND
  {
  }

  /** Whole seconds added to an instant are added to its recorded time. */
  lemma RecordedLater(a: int, b: int, seconds: int)
    requires a + seconds * SECOND <= b || WholeSeconds(a) + seconds * SECOND <= b
    ensures WholeSeconds(a) + seconds * SECOND <= WholeSeconds(b)
  {
    var p, q := a / SECOND, b / SECOND;
    assert WholeSeconds(a) == p * SECOND && WholeSeconds(b) == q * SECOND;
    assert p + seconds <= q;
  }

  /** Different whole seconds are a second apart. */
  lemma OneSecondApart(a: int, b: int)
    requires a <= b && WholeSeconds(a) != WholeSeconds(b)
    ensures WholeSeconds(a) + SECOND <= WholeSeconds(b)
  {
    var p, q := a / SECOND, b / SECOND;
    assert WholeSeconds(a) == p * SECOND && WholeSeconds(b) == q * SECOND;
    assert p < q;
  }

  /** Every job of a key outside `recent` is at least the cooldown old at the listing. */
  predicate OldEnough(created: seq<Created>, recent: set<string>, since: int, cooldown: int) {
    forall i :: 0 <= i < |created| && created[i].key !in recent ==> since - Recorded(created[i]) >= cooldown
  }

  lemma ListingShowsRecent(c: Cluster, cfg: Config)
    requires Consistent(c, cfg.Ttl()) && cfg.Ttl() >= cfg.Cooldown()
    ensures OldEnough(c.created, RecentSymbols(c, cfg.Cooldown()), c.now, cfg.Cooldown())
  {
    hide Recorded;
    forall i | 0 <= i < |c.created| && c.created[i].key !in RecentSymbols(c, cfg.Cooldown())
      ensures c.now - Recorded(c.created[i]) >= cfg.Cooldown()
    {
      RecordedBounds(c.created[i]);
    }
  }

  /** The key of a symbol numbered below i. */
  ghost predicate Earlier(symbols: seq<string>, i: nat, key: string)
    requires i <= |symbols|
  {
    exists m :: 0 <= m < i && key == SymbolKey(symbols[m])
  }

  /** What holds when the loop reaches symbol i: `done` jobs existed at the listing, and jobs
      created since belong to earlier symbols of this run. A cooldown of at most a second needs
      neither. */
  ghost predicate InLoop(c: Cluster, cfg: Config, recent: set<string>, i: nat, done: nat, since: int)
    requires i <= |cfg.symbols|
  {
    && Consistent(c, cfg.Ttl()) && Spaced(c.created, cfg.Cooldown())
    && (cfg.cooldown <= 1
        || (&& done <= |c.created| && since <= c.now && OldEnough(c.created[..done], recent, since, cfg.Cooldown())
            && forall k :: done <= k < |c.created| ==> Earlier(cfg.symbols, i, c.created[k].key)))
  }

  /** Keys differ, or the cooldown is so short that the creation second in the name keeps jobs apart. */
  predicate KeptApart(cfg: Config) {
    cfg.ttl >= cfg.cooldown && (DistinctKeys(cfg.symbols) || cfg.cooldown <= 1)
  }

  lemma EarlierGrows(symbols: seq<string>, i: nat, key: string)
    requires i < |symbols| && (Earlier(symbols, i, key) || key == SymbolKey(symbols[i]))
    ensures Earlier(symbols, i + 1, key)
  {
    hide SymbolKey;
  }

  /** A free name of this key means the new job is far enough from job k. */
  lemma NewJobSpaced(c: Cluster, cfg: Config, recent: set<string>, i: nat, done: nat, since: int, now: int, k: nat)
    requires i < |cfg.symbols| && KeptApart(cfg) && SymbolKey(cfg.symbols[i]) !in recent
    requires InLoop(c, cfg, recent, i, done, since) && now >= c.now
    requires k < |c.created| && c.created[k].key == SymbolKey(cfg.symbols[i])
    requires !c.(now := now).NameTaken(SymbolKey(cfg.symbols[i]))
    ensures WholeSeconds(now) - Recorded(c.created[k]) >= cfg.Cooldown()
  {
    hide SymbolKey, WholeSeconds;
    if cfg.cooldown <= 1 {
      RecordedLater(c.created[k].at, now, 0);
      if k in c.alive {
        OneSecondApart(c.created[k].at, now);
      } else {
        RecordedLater(c.created[k].at, now, cfg.ttl);
      }
    } else if k < done {
      assert c.created[..done][k] == c.created[k];
      RecordedLater(c.created[k].at, now, cfg.cooldown);
    }
  }

  lemma CreateKeepsSpacing(c: Cluster, cfg: Config, recent: set<string>, i: nat, delay: nat, outcome: CreateOutcome,
                           done: nat, since: int)
    requires i < |cfg.symbols| && KeptApart(cfg) && SymbolKey(cfg.symbols[i]) !in recent
    requires InLoop(c, cfg, recent, i, done, since)
    ensures InLoop(CreateOne(c, cfg.symbols[i], delay, outcome).cluster, cfg, recent, i + 1, done, since)
  {
    hide SymbolKey, WholeSeconds, Earlier, KeptApart;
    var next := CreateOne(c, cfg.symbols[i], delay, outcome).cluster;
    var key, now := SymbolKey(cfg.symbols[i]), c.now + delay;
    if cfg.cooldown > 1 {
      assert next.created[..done] == c.created[..done];
      forall k | done <= k < |next.created| ensures Earlier(cfg.symbols, i + 1, next.created[k].key) {
        EarlierGrows(cfg.symbols, i, next.created[k].key);
      }
    }
    if next.created != c.created {
      forall k | 0 <= k < |c.created| && c.created[k].key == key
        ensures WholeSeconds(now) - Recorded(c.created[k]) >= cfg.Cooldown()
      {
        NewJobSpaced(c, cfg, recent, i, done, since, now, k);
      }
    }
  }

  /** The creation loop keeps the spacing. */
  lemma {:induction false} LoopKeepsSpacing(c: Cluster, cfg: Config, recent: set<string>, i: nat, delay: nat -> nat,
                                            outcome: nat -> CreateOutcome, done: nat, since: int)
    requires i <= |cfg.symbols| && KeptApart(cfg) && InLoop(c, cfg, recent, i, done, since)
    ensures var after := CreateLoop(c, cfg.symbols, recent, i, delay, outcome);
            Consistent(after, cfg.Ttl()) && Spaced(after.created, cfg.Cooldown())
    decreases |cfg.symbols| - i
  {
    hide SymbolKey, Recorded, KeptApart, Earlier, CreateOne;
    if i < |cfg.symbols| {
      if SymbolKey(cfg.symbols[i]) in recent {
        forall k | cfg.cooldown > 1 && done <= k < |c.created| ensures Earlier(cfg.symbols, i + 1, c.created[k].key) {
          EarlierGrows(cfg.symbols, i, c.created[k].key);
        }
        LoopKeepsSpacing(c, cfg, recent, i + 1, delay, outcome, done, since);
      } else {
        CreateKeepsSpacing(c, cfg, recent, i, delay(i), outcome(i), done, since);
        var a := CreateOne(c, cfg.symbols[i], delay(i), outcome(i));
        if !a.raised {
          LoopKeepsSpacing(a.cluster, cfg, recent, i + 1, delay, outcome, done, since);
        }
      }
    }
  }

  /** The cooldown holds over every run with successful listings, or with any listings when it is at
      most a second, even though finished jobs disappear. */
  lemma {:induction false} CooldownHolds(cfg: Config, steps: seq<Step>)
    requires KeptApart(cfg) && (Reliable(steps) || cfg.cooldown <= 1)
    ensures Consistent(Run(cfg, steps), cfg.Ttl()) && Spaced(Run(cfg, steps).created, cfg.Cooldown())
  {
    hide Recorded, DistinctKeys, RecentSymbols, CreateLoop, AtLeast;
    if steps != [] {
      var n := |steps| - 1;
      var c := Run(cfg, steps[..n]);
      CooldownHolds(cfg, steps[..n]);
      match steps[n]
      case Check(psis, listed, delay, outcome) =>
        var recent := if listed then RecentSymbols(c, cfg.Cooldown()) else {};
        ListingShowsRecent(c, cfg);
        assert c.created[..|c.created|] == c.created;
        LoopKeepsSpacing(c, cfg, recent, 0, delay, outcome, |c.created|, c.now);
      case _ =>
    }
  }

  // ----- exactly when the cooldown holds -----

  function NoDelay(n: nat): nat { 0 }

  function OnlyFirst(n: nat): CreateOutcome { if n == 0 then Accepted else Refused }

  lemma RunStep(cfg: Config, steps: seq<Step>, s: Step)
    ensures Run(cfg, steps + [s]) == Next(Run(cfg, steps), cfg, s)
  {
    assert (steps + [s])[..|steps|] == steps;
  }

  /** A run in which only the first create call succeeds. */
  function FirstCreated(cfg: Config, listed: bool): Step {
    Check([cfg.threshold], listed, NoDelay, OnlyFirst)
  }

  lemma CreatesFirst(c: Cluster, cfg: Config, listed: bool)
    requires cfg.symbols != [] && !c.NameTaken(SymbolKey(cfg.symbols[0]))
    requires !listed || RecentSymbols(c, cfg.Cooldown()) == {}
    ensures Next(c, cfg, FirstCreated(cfg, listed)) ==
            c.(created := c.created + [Created(SymbolKey(cfg.symbols[0]), c.now)], alive := c.alive + {|c.created|})
  {
    hide SymbolKey, RecentSymbols;
    var key := SymbolKey(cfg.symbols[0]);
    assert AtLeast([cfg.threshold], cfg.threshold) != [];
    assert c.(now := c.now + 0) == c;
    var a := CreateOne(c, cfg.symbols[0], 0, Accepted).cluster;
    assert a == c.(created := c.created + [Created(key, c.now)], alive := c.alive + {|c.created|});
    assert a.(now := a.now + 0) == a;
    assert CreateLoop(a, cfg.symbols, {}, 1, NoDelay, OnlyFirst) == a;
  }

  /** The cluster after a single job of the first symbol. */
  lemma CreatesFirstEver(cfg: Config)
    requires cfg.symbols != []
    ensures Next(EMPTY, cfg, FirstCreated(cfg, true)) == Cluster(0, [Created(SymbolKey(cfg.symbols[0]), 0)], {0}, map[])
  {
    hide SymbolKey, RetrainRun;
    CreatesFirst(EMPTY, cfg, true);
  }

  /** One job, finished at once and removed after its TTL. */
  lemma FirstJobGone(cfg: Config)
    requires cfg.symbols != []
    ensures Run(cfg, [FirstCreated(cfg, true), Finish(0), Pass(cfg.Ttl()), Remove(0)]) ==
            Cluster(cfg.Ttl(), [Created(SymbolKey(cfg.symbols[0]), 0)], {}, map[0 := 0])
  {
    hide SymbolKey, RetrainRun, Run, FirstCreated;
    var m, created := FirstCreated(cfg, true), [Created(SymbolKey(cfg.symbols[0]), 0)];
    CreatesFirstEver(cfg);
    RunNothing(cfg);
    RunStep(cfg, [], m);
    assert [] + [m] == [m];
    RunStep(cfg, [m], Finish(0));
    assert [m] + [Finish(0)] == [m, Finish(0)];
    assert Run(cfg, [m, Finish(0)]) == Cluster(0, created, {0}, map[0 := 0]);
    RunStep(cfg, [m, Finish(0)], Pass(cfg.Ttl()));
    assert [m, Finish(0)] + [Pass(cfg.Ttl())] == [m, Finish(0), Pass(cfg.Ttl())];
    RunStep(cfg, [m, Finish(0), Pass(cfg.Ttl())], Remove(0));
    assert [m, Finish(0), Pass(cfg.Ttl())] + [Remove(0)] == [m, Finish(0), Pass(cfg.Ttl()), Remove(0)];
  }

  /** With a TTL below the cooldown, a job that finishes at once is gone before the cooldown ends
      and the next run starts another. */
  lemma ShortTtlBreaksCooldown(cfg: Config) returns (steps: seq<Step>)
    requires cfg.symbols != [] && cfg.ttl < cfg.cooldown
    ensures Reliable(steps) && !Spaced(Run(cfg, steps).created, cfg.Cooldown())
  {
    hide SymbolKey, Next, Run;
    var m, key, t := FirstCreated(cfg, true), SymbolKey(cfg.symbols[0]), cfg.Ttl();
    var first := [m, Finish(0), Pass(t), Remove(0)];
    FirstJobGone(cfg);
    RunStep(cfg, first, m);
    var c := Cluster(t, [Created(key, 0)], {}, map[0 := 0]);
    CreatesFirst(c, cfg, true);
    steps := first + [m];
    CloseTogether(Created(key, 0), Created(key, t), cfg.Cooldown());
  }

  lemma CloseTogether(a: Created, b: Created, cooldown: int)
    requires a.key == b.key && a.at >= 0 && b.at < cooldown
    ensures !Spaced([a] + [b], cooldown)
  {
    assert ([a] + [b])[0] == a && ([a] + [b])[1] == b;
    RecordedBounds(a);
    RecordedBounds(b);
    assert Recorded(a) >= 0;
  }

  lemma RunNothing(cfg: Config)
    ensures Run(cfg, []) == EMPTY
  {
  }

  /** A listing that fails lets the next run create a second job one second later. */
  lemma FailedListingBreaksCooldown(cfg: Config)
    requires cfg.symbols != [] && cfg.cooldown > 1
    ensures var steps := [FirstCreated(cfg, true), Pass(SECOND), FirstCreated(cfg, false)];
            !Spaced(Run(cfg, steps).created, cfg.Cooldown())
  {
    hide SymbolKey, RetrainRun, Run, FirstCreated;
    var m, p, f, key := FirstCreated(cfg, true), Pass(SECOND), FirstCreated(cfg, false), SymbolKey(cfg.symbols[0]);
    CreatesFirstEver(cfg);
    RunNothing(cfg);
    RunStep(cfg, [], m);
    assert [] + [m] == [m];
    RunStep(cfg, [m], p);
    assert [m] + [p] == [m, p];
    RunStep(cfg, [m, p], f);
    assert [m, p] + [f] == [m, p, f];
    var c := Cluster(SECOND, [Created(key, 0)], {0}, map[]);
    assert Run(cfg, [m, p]) == c;
    CreatesFirst(c, cfg, false);
    CloseTogether(Created(key, 0), Created(key, SECOND), cfg.Cooldown());
  }

  lemma {:induction false} FirstRepeat(symbols: seq<string>) returns (i: nat, j: nat)
    requires !DistinctKeys(symbols)
    ensures i < j < |symbols| && SymbolKey(symbols[i]) == SymbolKey(symbols[j]) && DistinctKeys(symbols[..j])
  {
    hide SymbolKey;
    var n := |symbols| - 1;
    if DistinctKeys(symbols[..n]) {
      forall p, q | 0 <= p < q < n ensures SymbolKey(symbols[p]) != SymbolKey(symbols[q]) {
        assert symbols[..n][p] == symbols[p] && symbols[..n][q] == symbols[q];
      }
      i, j :| 0 <= i < j < |symbols| && SymbolKey(symbols[i]) == SymbolKey(symbols[j]);
    } else {
      i, j := FirstRepeat(symbols[..n]);
      assert symbols[..n][..j] == symbols[..j];
    }
  }

  function DelayAt(j: nat): nat -> nat { n => if n == j then SECOND else 0 }

  function AcceptThrough(j: nat): nat -> CreateOutcome { n => if n <= j then Accepted else Refused }

  /** The first n symbols have one job each, all created at 0. */
  function JobsAtZero(symbols: seq<string>, n: nat): seq<Created>
    requires n <= |symbols|
  {
    seq(n, k requires 0 <= k < n => Created(SymbolKey(symbols[k]), 0))
  }

  lemma {:induction false} CreatesThrough(c: Cluster, symbols: seq<string>, i: nat, j: nat)
    requires i <= j < |symbols| && DistinctKeys(symbols[..j])
    requires c.now == 0 && c.created == JobsAtZero(symbols, i)
    ensures CreateLoop(c, symbols, {}, i, DelayAt(j), AcceptThrough(j)).created ==
            JobsAtZero(symbols, j) + [Created(SymbolKey(symbols[j]), SECOND)]
    decreases j - i
  {
    hide SymbolKey;
    var a := CreateOne(c, symbols[i], DelayAt(j)(i), Accepted);
    if i < j {
      assert !a.raised by {
        forall k | 0 <= k < i ensures c.created[k].key != SymbolKey(symbols[i]) {
          assert symbols[..j][k] == symbols[k] && symbols[..j][i] == symbols[i];
        }
        assert !c.(now := 0).NameTaken(SymbolKey(symbols[i]));
      }
      assert a.cluster.created == JobsAtZero(symbols, i + 1);
      CreatesThrough(a.cluster, symbols, i + 1, j);
    } else {
      assert !a.raised by {
        assert !c.(now := SECOND).NameTaken(SymbolKey(symbols[i]));
      }
    }
  }

  /** Two symbols of one key get two jobs in a single run. */
  lemma RepeatedKeyBreaksCooldown(cfg: Config) returns (steps: seq<Step>)
    requires !DistinctKeys(cfg.symbols) && cfg.cooldown > 1
    ensures Reliable(steps) && !Spaced(Run(cfg, steps).created, cfg.Cooldown())
  {
    hide SymbolKey, DistinctKeys, CreateLoop, Run;
    var i, j := FirstRepeat(cfg.symbols);
    var m := Check([cfg.threshold], true, DelayAt(j), AcceptThrough(j));
    steps := [m];
    RunNothing(cfg);
    RunStep(cfg, [], m);
    assert [] + [m] == steps;
    assert AtLeast([cfg.threshold], cfg.threshold) != [];
    assert RecentSymbols(EMPTY, cfg.Cooldown()) == {};
    CreatesThrough(EMPTY, cfg.symbols, 0, j);
    var created := Run(cfg, steps).created;
    assert created[i] == Created(SymbolKey(cfg.symbols[i]), 0)
        && created[j] == Created(SymbolKey(cfg.symbols[j]), SECOND);
    assert !Spaced(created, cfg.Cooldown());
  }

  lemma {:induction false} NoSymbolsNoJobs(cfg: Config, steps: seq<Step>)
    requires cfg.symbols == []
    ensures Run(cfg, steps).created == []
  {
    if steps != [] { NoSymbolsNoJobs(cfg, steps[..|steps| - 1]); }
  }

  /** With successful listings, every run of the service keeps the cooldown exactly when no symbol is
      configured, or the TTL reaches the cooldown and either keys differ or the cooldown is at most
      a second. */
  lemma CooldownExactly(cfg: Config)
    ensures (forall steps :: Reliable(steps) ==> Spaced(Run(cfg, steps).created, cfg.Cooldown()))
            <==> cfg.symbols == [] || KeptApart(cfg)
  {
    hide Run, Spaced, Reliable, DistinctKeys;
    if cfg.symbols == [] || KeptApart(cfg) {
      forall steps | Reliable(steps) ensures Spaced(Run(cfg, steps).created, cfg.Cooldown()) {
        if cfg.symbols == [] {
          NoSymbolsNoJobs(cfg, steps);
          NothingSpaced(cfg.Cooldown());
        } else {
          CooldownHolds(cfg, steps);
        }
      }
    } else if cfg.ttl < cfg.cooldown {
      var steps := ShortTtlBreaksCooldown(cfg);
    } else {
      var steps := RepeatedKeyBreaksCooldown(cfg);
    }
  }

  /** When listings may fail, exactly when no symbol is configured, or the TTL reaches the cooldown
      and the cooldown is at most a second. */
  lemma CooldownWithFailingListings(cfg: Config)
    ensures (forall steps :: Spaced(Run(cfg, steps).created, cfg.Cooldown()))
            <==> cfg.symbols == [] || (cfg.ttl >= cfg.cooldown && cfg.cooldown <= 1)
  {
    hide Run, Spaced, DistinctKeys;
    if cfg.symbols == [] || (cfg.ttl >= cfg.cooldown && cfg.cooldown <= 1) {
      forall steps ensures Spaced(Run(cfg, steps).created, cfg.Cooldown()) {
        if cfg.symbols == [] {
          NoSymbolsNoJobs(cfg, steps);
          NothingSpaced(cfg.Cooldown());
        } else {
          CooldownHolds(cfg, steps);
        }
      }
    } else if cfg.ttl < cfg.cooldown {
      var steps := ShortTtlBreaksCooldown(cfg);
    } else {
      FailedListingBreaksCooldown(cfg);
    }
  }

  lemma NothingSpaced(cooldown: int)
    ensures Spaced([], cooldown)
  {
  }
}
