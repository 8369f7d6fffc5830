/** The predict handler (http.rs) over the two-tier cache.

    The class runs one request at a time in the source's form. The state machine below it
    interleaves any number of requests step by step with evictions, expiry, server failures and
    the passing of time, and proves transparency, staleness and counter laws over every run. */
module Gateway {
  import opened Series
  import opened CacheKey
  import opened Cache

  /** What the gateway runs against: the printer, the model, and the JSON codec. */
  datatype Env = Env(
    show: F64 -> string,
    infer: Request -> Option<(F64, F64)>,
    positive: F64 -> bool,
    encode: Response -> Option<string>,
    decode: string -> Option<Response>,
    memoryTtl: nat,
    redisTtl: nat)
  {
    /** Keys show injectively, and what was encoded decodes to itself or not at all. */
    ghost predicate Lawful() {
      && ShowsApart(show)
      && forall r :: encode(r).Some? ==> decode(encode(r).value) == None || decode(encode(r).value) == Some(r)
    }

    function KeyOf(req: Request): string {
      Key(req, show)
    }

    /** The answer of the handler without any cache; None is an inference error. */
    function Uncached(req: Request): Option<Response> {
      match infer(req)
      case None => None
      case Some((prediction, confidence)) =>
        Some(Response(req.symbol, prediction, confidence, if positive(prediction) then "UP" else "DOWN", false))
    }
  }

  datatype Answer = Ok(response: Response) | ServerError

  /** An answer is the uncached one, except for the `cached` flag. */
  predicate Faithful(env: Env, req: Request, a: Answer) {
    a.Ok? && env.Uncached(req) == Some(a.response.(cached := false))
  }

  /** What the answer says: the request's symbol, the pair the model infers for the request, and "UP"
      for a positive prediction and "DOWN" for any other. */
  predicate Answers(env: Env, req: Request, resp: Response) {
    && resp.symbol == req.symbol
    && env.infer(req) == Some((resp.prediction, resp.confidence))
    && (env.positive(resp.prediction) ==> resp.direction == "UP")
    && (!env.positive(resp.prediction) ==> resp.direction == "DOWN")
  }

  lemma UncachedAnswers(env: Env, req: Request)
    ensures env.Uncached(req).None? <==> env.infer(req).None?
    ensures env.Uncached(req).Some? ==> Answers(env, req, env.Uncached(req).value) && !env.Uncached(req).value.cached
  {
  }

  lemma FaithfulAnswers(env: Env, req: Request, a: Answer)
    requires Faithful(env, req, a)
    ensures Answers(env, req, a.response)
  {
    UncachedAnswers(env, req);
  }

  /** The tier holds this live value under the key. */
  predicate Live(store: Store, ttl: nat, now: int, key: string, value: string) {
    key in store && now - store[key].at < ttl && store[key].value == value
  }

  /** A get at this time would find the value: in memory, or in an answering Redis when memory has none. */
  predicate Gettable(env: Env, t: Tiers, key: string, now: int, reply: Reply, value: string) {
    || Live(t.memory, env.memoryTtl, now, key, value)
    || ((key in t.memory ==> now - t.memory[key].at >= env.memoryTtl)
        && reply.Answered? && Live(t.redis, env.redisTtl, now, key, value))
  }

  /** The value belongs under the key: it is the encoded uncached answer of every request with
      that key. */
  ghost predicate Belongs(env: Env, key: string, value: string) {
    forall req :: env.KeyOf(req) == key ==>
      env.Uncached(req).Some? && env.encode(env.Uncached(req).value) == Some(value)
  }

  ghost predicate AllBelong(env: Env, store: Store) {
    forall k :: k in store ==> Belongs(env, k, store[k].value)
  }

  lemma InsertedBelongs(env: Env, req: Request, value: string)
    requires env.Lawful() && env.Uncached(req).Some? && env.encode(env.Uncached(req).value) == Some(value)
    ensures Belongs(env, env.KeyOf(req), value)
  {
    forall other | env.KeyOf(other) == env.KeyOf(req) ensures other == req {
      KeyInjective(other, req, env.show);
    }
  }

  /** A stored value that decodes gives the uncached answer. */
  lemma DecodedIsFaithful(env: Env, req: Request, value: string)
    requires env.Lawful() && Belongs(env, env.KeyOf(req), value) && env.decode(value).Some?
    ensures Faithful(env, req, Ok(env.decode(value).value.(cached := true)))
  {
    assert env.encode(env.Uncached(req).value) == Some(value);
  }

  /** The contents of the two tiers. */
  datatype Tiers = Tiers(memory: Store, redis: Store)

  /** What a get finds, and the tiers after it: a Redis hit is promoted. */
  function Fetched(env: Env, t: Tiers, key: string, now: int, reply: Reply): (Option<string>, Tiers) {
    var m := Lookup(t.memory, env.memoryTtl, now, key);
    if m.Some? then (m, t)
    else
      var d := if reply.Answered? then Lookup(t.redis, env.redisTtl, now, key) else None;
      (d, if d.Some? then t.(memory := Insert(t.memory, key, d.value, now)) else t)
  }

  /** One whole request: a decodable cached value answers it; otherwise inference does, and its
      encoded result goes into both tiers. */
  function Handled(env: Env, t: Tiers, req: Request, now: int, reply: Reply, up: bool,
                   outcome: WriteOutcome): (Answer, Tiers)
  {
    var key := env.KeyOf(req);
    var (cached, after) := Fetched(env, t, key, now, reply);
    if cached.Some? && env.decode(cached.value).Some? then
      (Ok(env.decode(cached.value).value.(cached := true)), after)
    else if !up || env.Uncached(req).None? then (ServerError, after)
    else
      var resp := env.Uncached(req).value;
      match env.encode(resp)
      case None => (Ok(resp), after)
      case Some(json) =>
        (Ok(resp), Tiers(Insert(after.memory, key, json, now),
                         if outcome.NotStored? then after.redis else Insert(after.redis, key, json, now)))
  }

  /** A whole request over tiers true to their keys leaves them so and answers as the uncached handler. */
  lemma HandledIsFaithful(env: Env, t: Tiers, req: Request, now: int, reply: Reply, up: bool, outcome: WriteOutcome)
    requires env.Lawful() && AllBelong(env, t.memory) && AllBelong(env, t.redis)
    ensures var (answer, after) := Handled(env, t, req, now, reply, up, outcome);
            && AllBelong(env, after.memory) && AllBelong(env, after.redis)
            && (if answer.Ok? then Faithful(env, req, answer) else !up || env.Uncached(req).None?)
            && (if answer.Ok? then Answers(env, req, answer.response) else !up || env.infer(req).None?)
  {
    hide Belongs, Faithful, Answers;
    UncachedAnswers(env, req);
    var (cached, after) := Fetched(env, t, env.KeyOf(req), now, reply);
    if cached.Some? && env.decode(cached.value).Some? {
      DecodedIsFaithful(env, req, cached.value);
    } else if up && env.Uncached(req).Some? {
      var resp := env.Uncached(req).value;
      UncachedIsFaithful(env, req);
      if env.encode(resp).Some? { InsertedBelongs(env, req, env.encode(resp).value); }
    }
    var answer := Handled(env, t, req, now, reply, up, outcome).0;
    if answer.Ok? { FaithfulAnswers(env, req, answer); }
  }

  /** An answer is marked as cached exactly when a decodable value was to be had from a tier, and is
      then that value. */
  lemma CachedExactly(env: Env, t: Tiers, req: Request, now: int, reply: Reply, up: bool, outcome: WriteOutcome)
    ensures var (answer, after) := Handled(env, t, req, now, reply, up, outcome);
            && (answer.Ok? && answer.response.cached <==>
                  exists v :: Gettable(env, t, env.KeyOf(req), now, reply, v) && env.decode(v).Some?)
            && (forall v :: Gettable(env, t, env.KeyOf(req), now, reply, v) && env.decode(v).Some? ==>
                  answer == Ok(env.decode(v).value.(cached := true)))
  {
    hide Key;
    UncachedAnswers(env, req);
    FetchedExactly(env, t, env.KeyOf(req), now, reply);
    var (v, _) := Fetched(env, t, env.KeyOf(req), now, reply);
    if v.Some? { assert Gettable(env, t, env.KeyOf(req), now, reply, v.value); }
  }

  lemma FetchedExactly(env: Env, t: Tiers, key: string, now: int, reply: Reply)
    ensures var (v, _) := Fetched(env, t, key, now, reply);
            forall x :: Gettable(env, t, key, now, reply, x) <==> v == Some(x)
  {
  }

  /** A request repeated within the memory TTL is answered from the cache, whatever happens to Redis and
      the model. */
  lemma RepeatIsCached(env: Env, t: Tiers, req: Request, now: int, reply: Reply, outcome: WriteOutcome, later: int,
                       again: Reply, up: bool, last: WriteOutcome)
    requires env.Lawful() && Fetched(env, t, env.KeyOf(req), now, reply).0.None? && env.Uncached(req).Some?
    requires env.encode(env.Uncached(req).value).Some?
    requires env.decode(env.encode(env.Uncached(req).value).value).Some?
    requires 0 <= later - now < env.memoryTtl
    ensures var (answer, after) := Handled(env, t, req, now, reply, true, outcome);
            && answer == Ok(env.Uncached(req).value)
            && Handled(env, after, req, later, again, up, last).0 == Ok(env.Uncached(req).value.(cached := true))
  {
    hide Key;
  }

  lemma UncachedIsFaithful(env: Env, req: Request)
    requires env.Uncached(req).Some?
    ensures Faithful(env, req, Ok(env.Uncached(req).value))
  {
  }

  class AppState {
    const env: Env
    const cache: CacheLayer

    ghost predicate Valid()
      reads cache, cache.memory, cache.redis
    {
      && cache.Valid() && cache.memory.ttl == env.memoryTtl && cache.redis.ttl == env.redisTtl
      && AllBelong(env, cache.memory.entries) && AllBelong(env, cache.redis.entries)
    }

    function Stored(): Tiers
      reads cache.memory, cache.redis
    {
      Tiers(cache.memory.entries, cache.redis.entries)
    }

    constructor (env: Env)
      ensures this.env == env && fresh(cache) && fresh(cache.memory) && fresh(cache.redis) && Valid()
      ensures Stored() == Tiers(map[], map[])
    {
      this.env := env;
      cache := new CacheLayer(env.memoryTtl, env.redisTtl);
    }

    /** One request; `up` tells whether the inference call goes through. */
    method Predict(req: Request, now: int, reply: Reply, up: bool, outcome: WriteOutcome) returns (answer: Answer)
      requires env.Lawful() && Valid()
      modifies cache, cache.memory, cache.redis
      ensures Valid()
      ensures (answer, Stored()) == Handled(env, old(Stored()), req, now, reply, up, outcome)
      ensures if answer.Ok? then Faithful(env, req, answer) else !up || env.Uncached(req).None?
      ensures if answer.Ok? then Answers(env, req, answer.response) else !up || env.infer(req).None?
      ensures answer.Ok? && answer.response.cached <==>
                exists v :: Gettable(env, old(Stored()), env.KeyOf(req), now, reply, v) && env.decode(v).Some?
    {
      hide Belongs, AllBelong, Faithful, Lookup, Insert;
      HandledIsFaithful(env, Stored(), req, now, reply, up, outcome);
      CachedExactly(env, Stored(), req, now, reply, up, outcome);
      var key := env.KeyOf(req);
      var cached := cache.Get(key, now, reply);
      if cached.Some? {
        var resp := env.decode(cached.value);
        if resp.Some? {
          return Ok(resp.value.(cached := true));
        }
      }
      var inferred := if up then env.infer(req) else None;
      match inferred {
        case None => return ServerError;
        case Some((prediction, confidence)) =>
          var direction := if env.positive(prediction) then "UP" else "DOWN";
          var resp := Response(req.symbol, prediction, confidence, direction, false);
          var json := env.encode(resp);
          if json.Some? {
            var _ := cache.Set(key, json.value, now, outcome);
          }
          return Ok(resp);
      }
    }
  }

  // ----- interleaved requests -----

  /** Where a request stands between two of its awaits. A finished one tells which cached value, if any,
      it was answered from. */
  datatype Pc =
    | ReadMemory(req: Request)
    | ReadRedis(req: Request)
    | Promote(req: Request, value: string, readAt: int)
    | Got(req: Request, value: string)
    | Infer(req: Request)
    | WriteMemory(req: Request, response: Response, json: string)
    | WriteRedis(req: Request, response: Response, json: string)
    | Done(req: Request, answer: Answer, up: bool, source: Option<string>)

  datatype Write = Write(key: string, value: string, time: int)

  /** A value CacheLayer.get handed back, and when. */
  datatype Returned = Returned(key: string, value: string, time: int)

  datatype State = State(
    memory: Store,
    redis: Store,
    now: int,
    pending: map<nat, Pc>,
    memoryHits: nat,
    memoryMisses: nat,
    redisHits: nat,
    redisMisses: nat,
    gets: nat,
    writes: set<Write>,
    returned: seq<Returned>)

  const INITIAL := State(map[], map[], 0, map[], 0, 0, 0, 0, 0, {}, [])

  /** One atomic step of one request or of the environment. */
  datatype Step =
    | Arrive(id: nat, req: Request)
    | Read(id: nat, reply: Reply)
    | Compute(id: nat, up: bool)
    | Save(id: nat, outcome: WriteOutcome)
    | EvictMemory(victims: set<string>)
    | EvictRedis(victims: set<string>)
    | Pass(time: nat)

  /** memory.get */
  function MemoryRead(env: Env, s: State, id: nat, req: Request): State {
    var found := Lookup(s.memory, env.memoryTtl, s.now, env.KeyOf(req));
    if found.Some? then
      s.(pending := s.pending[id := Got(req, found.value)], gets := s.gets + 1, memoryHits := s.memoryHits + 1,
         returned := s.returned + [Returned(env.KeyOf(req), found.value, s.now)])
    else
      s.(pending := s.pending[id := ReadRedis(req)], gets := s.gets + 1, memoryMisses := s.memoryMisses + 1)
  }

  /** redis.get */
  function RedisRead(env: Env, s: State, id: nat, req: Request, reply: Reply): State {
    if !reply.Answered? then s.(pending := s.pending[id := Infer(req)])
    else
      var found := Lookup(s.redis, env.redisTtl, s.now, env.KeyOf(req));
      if found.Some? then s.(pending := s.pending[id := Promote(req, found.value, s.now)], redisHits := s.redisHits + 1)
      else s.(pending := s.pending[id := Infer(req)], redisMisses := s.redisMisses + 1)
  }

  /** memory.set of a value just read from Redis, which is then returned. */
  function PromoteStep(env: Env, s: State, id: nat, req: Request, value: string): State {
    s.(memory := Insert(s.memory, env.KeyOf(req), value, s.now),
       pending := s.pending[id := Got(req, value)],
       returned := s.returned + [Returned(env.KeyOf(req), value, s.now)])
  }

  /** Decoding of a cached value: an answer, or the uncached path. */
  function DecodeStep(env: Env, s: State, id: nat, req: Request, value: string): State {
    match env.decode(value)
    case Some(resp) => s.(pending := s.pending[id := Done(req, Ok(resp.(cached := true)), true, Some(value))])
    case None => s.(pending := s.pending[id := Infer(req)])
  }

  /** The inference call and the encoding of its result. */
  function InferStep(env: Env, s: State, id: nat, req: Request, up: bool): State {
    if !up || env.Uncached(req).None? then s.(pending := s.pending[id := Done(req, ServerError, up, None)])
    else
      var resp := env.Uncached(req).value;
      match env.encode(resp)
      case None => s.(pending := s.pending[id := Done(req, Ok(resp), up, None)])
      case Some(json) => s.(pending := s.pending[id := WriteMemory(req, resp, json)])
  }

  function SaveMemory(env: Env, s: State, id: nat, req: Request, resp: Response, json: string): State {
    s.(memory := Insert(s.memory, env.KeyOf(req), json, s.now),
       pending := s.pending[id := WriteRedis(req, resp, json)],
       writes := s.writes + {Write(env.KeyOf(req), json, s.now)})
  }

  function SaveRedis(env: Env, s: State, id: nat, req: Request, resp: Response, json: string,
                     outcome: WriteOutcome): State
  {
    var done := s.(pending := s.pending[id := Done(req, Ok(resp), true, None)]);
    if outcome.NotStored? then done
    else done.(redis := Insert(s.redis, env.KeyOf(req), json, s.now),
               writes := s.writes + {Write(env.KeyOf(req), json, s.now)})
  }

  /** The transition function; a step that does not fit the request's position changes nothing. */
  function Next(env: Env, s: State, step: Step): State {
    match step
    case Arrive(id, req) => if id in s.pending then s else s.(pending := s.pending[id := ReadMemory(req)])
    case Read(id, reply) =>
      if id !in s.pending then s
      else (match s.pending[id]
            case ReadMemory(req) => MemoryRead(env, s, id, req)
            case ReadRedis(req) => RedisRead(env, s, id, req, reply)
            case _ => s)
    case Compute(id, up) =>
      if id !in s.pending then s
      else (match s.pending[id]
            case Got(req, value) => DecodeStep(env, s, id, req, value)
            case Infer(req) => InferStep(env, s, id, req, up)
            case _ => s)
    case Save(id, outcome) =>
      if id !in s.pending then s
      else (match s.pending[id]
            case Promote(req, value, _) => PromoteStep(env, s, id, req, value)
            case WriteMemory(req, resp, json) => SaveMemory(env, s, id, req, resp, json)
            case WriteRedis(req, resp, json) => SaveRedis(env, s, id, req, resp, json, outcome)
            case _ => s)
    case EvictMemory(victims) => s.(memory := s.memory - victims)
    case EvictRedis(victims) => s.(redis := s.redis - victims)
    case Pass(time) => s.(now := s.now + time)
  }

  function Run(env: Env, steps: seq<Step>): State {
    if steps == [] then INITIAL
    else Next(env, Run(env, steps[..|steps| - 1]), steps[|steps| - 1])
  }

  /** Get the cached value of a new request, without interruption. */
  function Getting(env: Env, s: State, id: nat, req: Request, reply: Reply): State {
    var read := Next(env, Next(env, Next(env, s, Arrive(id, req)), Read(id, reply)), Read(id, reply));
    Next(env, read, Save(id, Stored))
  }

  /** Decode it or infer, without interruption. */
  function Computing(env: Env, s: State, id: nat, up: bool): State {
    Next(env, Next(env, s, Compute(id, up)), Compute(id, up))
  }

  /** Store what was inferred, without interruption. */
  function Saving(env: Env, s: State, id: nat, outcome: WriteOutcome): State {
    Next(env, Next(env, s, Save(id, outcome)), Save(id, outcome))
  }

  lemma GettingFetches(env: Env, s: State, id: nat, req: Request, reply: Reply)
    requires id !in s.pending
    ensures var t := Getting(env, s, id, req, reply);
            var (v, after) := Fetched(env, Tiers(s.memory, s.redis), env.KeyOf(req), s.now, reply);
            && t.now == s.now && Tiers(t.memory, t.redis) == after
            && id in t.pending && t.pending[id] == if v.Some? then Got(req, v.value) else Infer(req)
  {
  }

  /** Where two compute steps take a request that got `cached`. */
  function Computed(env: Env, req: Request, cached: Option<string>, up: bool): Pc {
    if cached.Some? && env.decode(cached.value).Some? then
      Done(req, Ok(env.decode(cached.value).value.(cached := true)), true, cached)
    else if !up || env.Uncached(req).None? then Done(req, ServerError, up, None)
    else
      var resp := env.Uncached(req).value;
      match env.encode(resp)
      case None => Done(req, Ok(resp), up, None)
      case Some(json) => WriteMemory(req, resp, json)
  }

  lemma ComputingAnswers(env: Env, s: State, id: nat, req: Request, cached: Option<string>, up: bool)
    requires id in s.pending && s.pending[id] == if cached.Some? then Got(req, cached.value) else Infer(req)
    ensures var t := Computing(env, s, id, up);
            && t.now == s.now && t.memory == s.memory && t.redis == s.redis
            && id in t.pending && t.pending[id] == Computed(env, req, cached, up)
  {
    var next := Next(env, s, Compute(id, up));
    if cached.None? {
      InferringAnswers(env, s, id, req, up);
      SettledStays(env, next, id, up);
    } else if env.decode(cached.value).None? {
      InferringAnswers(env, next, id, req, up);
    } else {
      SettledStays(env, next, id, up);
    }
  }

  lemma InferringAnswers(env: Env, s: State, id: nat, req: Request, up: bool)
    requires id in s.pending && s.pending[id] == Infer(req)
    ensures Next(env, s, Compute(id, up)) == s.(pending := s.pending[id := Computed(env, req, None, up)])
  {
  }

  lemma SettledStays(env: Env, s: State, id: nat, up: bool)
    requires id in s.pending && (s.pending[id].Done? || s.pending[id].WriteMemory?)
    ensures Next(env, s, Compute(id, up)) == s
  {
  }

  lemma SavingStores(env: Env, s: State, id: nat, outcome: WriteOutcome)
    requires id in s.pending && (s.pending[id].Done? || s.pending[id].WriteMemory?)
    ensures var t := Saving(env, s, id, outcome);
            id in t.pending &&
            match s.pending[id]
            case WriteMemory(req, resp, json) =>
              && t.memory == Insert(s.memory, env.KeyOf(req), json, s.now)
              && t.redis == (if outcome.NotStored? then s.redis else Insert(s.redis, env.KeyOf(req), json, s.now))
              && t.pending[id] == Done(req, Ok(resp), true, None)
            case _ => t == s
  {
  }

  /** The steps of a request that nothing interrupts do what the whole handler does. */
  lemma UninterruptedIsHandled(env: Env, s: State, id: nat, req: Request, reply: Reply, up: bool, outcome: WriteOutcome)
    requires id !in s.pending
    ensures var t := Saving(env, Computing(env, Getting(env, s, id, req, reply), id, up), id, outcome);
            var (answer, after) := Handled(env, Tiers(s.memory, s.redis), req, s.now, reply, up, outcome);
            && Tiers(t.memory, t.redis) == after
            && id in t.pending && t.pending[id].Done? && t.pending[id].req == req && t.pending[id].answer == answer
  {
    hide Fetched, Getting, Computing, Saving, Insert;
    var (cached, after) := Fetched(env, Tiers(s.memory, s.redis), env.KeyOf(req), s.now, reply);
    var g := Getting(env, s, id, req, reply);
    GettingFetches(env, s, id, req, reply);
    ComputingAnswers(env, g, id, req, cached, up);
    SavingStores(env, Computing(env, g, id, up), id, outcome);
  }

  // ----- transparency -----

  /** A request in progress holds only values and answers that belong to it. */
  ghost predicate Honest(env: Env, pc: Pc) {
    match pc
    case Promote(req, value, _) => Belongs(env, env.KeyOf(req), value)
    case Got(req, value) => Belongs(env, env.KeyOf(req), value)
    case WriteMemory(req, resp, json) => env.Uncached(req) == Some(resp) && env.encode(resp) == Some(json)
    case WriteRedis(req, resp, json) => env.Uncached(req) == Some(resp) && env.encode(resp) == Some(json)
    case Done(req, answer, up, _) => if answer.Ok? then Faithful(env, req, answer) else !up || env.Uncached(req).None?
    case _ => true
  }

  ghost predicate Transparent(env: Env, s: State) {
    && AllBelong(env, s.memory)
    && AllBelong(env, s.redis)
    && forall id :: id in s.pending ==> Honest(env, s.pending[id])
  }

  lemma TransparentNext(env: Env, s: State, step: Step)
    requires env.Lawful() && Transparent(env, s)
    ensures Transparent(env, Next(env, s, step))
  {
    hide Belongs, Key, DecodeStep, InferStep, SaveMemory, SaveRedis;
    match step
    case Save(id, outcome) =>
      if id in s.pending && (s.pending[id].WriteMemory? || s.pending[id].WriteRedis?) {
        TransparentSave(env, s, id, outcome);
      }
    case Compute(id, up) =>
      if id in s.pending && (s.pending[id].Got? || s.pending[id].Infer?) { TransparentCompute(env, s, id, up); }
    case _ =>
  }

  lemma TransparentSave(env: Env, s: State, id: nat, outcome: WriteOutcome)
    requires env.Lawful() && Transparent(env, s)
    requires id in s.pending && (s.pending[id].WriteMemory? || s.pending[id].WriteRedis?)
    ensures Transparent(env, Next(env, s, Save(id, outcome)))
  {
    hide Belongs, Key;
    InsertedBelongs(env, s.pending[id].req, s.pending[id].json);
  }

  lemma TransparentCompute(env: Env, s: State, id: nat, up: bool)
    requires env.Lawful() && Transparent(env, s)
    requires id in s.pending && (s.pending[id].Got? || s.pending[id].Infer?)
    ensures Transparent(env, Next(env, s, Compute(id, up)))
  {
    hide Belongs, Key;
    if s.pending[id].Got? && env.decode(s.pending[id].value).Some? {
      DecodedIsFaithful(env, s.pending[id].req, s.pending[id].value);
    }
  }

  lemma {:induction false} TransparentRun(env: Env, steps: seq<Step>)
    requires env.Lawful()
    ensures Transparent(env, Run(env, steps))
  {
    hide Next, Honest;
    if steps != [] {
      TransparentRun(env, steps[..|steps| - 1]);
      TransparentNext(env, Run(env, steps[..|steps| - 1]), steps[|steps| - 1]);
    }
  }

  /** Under every interleaving, a finished request was answered as the uncached handler would,
      except for the `cached` flag; a server error means the inference itself failed. */
  lemma CacheIsTransparent(env: Env, steps: seq<Step>, id: nat)
    requires env.Lawful()
    requires id in Run(env, steps).pending && Run(env, steps).pending[id].Done?
    ensures var done := Run(env, steps).pending[id];
            if done.answer.Ok? then Faithful(env, done.req, done.answer)
            else !done.up || env.Uncached(done.req).None?
  {
    TransparentRun(env, steps);
    assert Honest(env, Run(env, steps).pending[id]);
  }

  /** And it says what the model infers for the request. */
  lemma FinishedAnswers(env: Env, steps: seq<Step>, id: nat)
    requires env.Lawful()
    requires id in Run(env, steps).pending && Run(env, steps).pending[id].Done?
    ensures var done := Run(env, steps).pending[id];
            if done.answer.Ok? then Answers(env, done.req, done.answer.response)
            else !done.up || env.infer(done.req).None?
  {
    hide Run, Answers;
    CacheIsTransparent(env, steps, id);
    var done := Run(env, steps).pending[id];
    UncachedAnswers(env, done.req);
    if done.answer.Ok? { FaithfulAnswers(env, done.req, done.answer); }
  }

  // ----- the cached flag -----

  /** The layer handed this value back under the key. */
  ghost predicate WasReturned(s: State, key: string, value: string) {
    exists i :: 0 <= i < |s.returned| && s.returned[i].key == key && s.returned[i].value == value
  }

  /** What the flag of a request in progress or finished rests on. */
  ghost predicate Flagged(env: Env, s: State, pc: Pc) {
    match pc
    case Got(req, value) => WasReturned(s, env.KeyOf(req), value)
    case WriteMemory(_, resp, _) => !resp.cached
    case WriteRedis(_, resp, _) => !resp.cached
    case Done(req, answer, _, source) =>
      && (source.Some? ==> && WasReturned(s, env.KeyOf(req), source.value) && env.decode(source.value).Some?
                           && answer == Ok(env.decode(source.value).value.(cached := true)))
      && (source.None? && answer.Ok? ==> !answer.response.cached)
    case _ => true
  }

  ghost predicate AllFlagged(env: Env, s: State) {
    forall id :: id in s.pending ==> Flagged(env, s, s.pending[id])
  }

  /** Returns are only ever added. */
  lemma FlaggedStays(env: Env, s: State, t: State, pc: Pc)
    requires Flagged(env, s, pc) && s.returned <= t.returned
    ensures Flagged(env, t, pc)
  {
    hide Key;
    forall key, value | WasReturned(s, key, value) ensures WasReturned(t, key, value) {
      var i :| 0 <= i < |s.returned| && s.returned[i].key == key && s.returned[i].value == value;
      assert t.returned[i] == s.returned[i];
    }
  }

  lemma FlaggedNext(env: Env, s: State, step: Step)
    requires AllFlagged(env, s)
    ensures AllFlagged(env, Next(env, s, step))
  {
    hide Key, Flagged;
    var t := Next(env, s, step);
    ReturnedGrows(env, s, step);
    forall id | id in t.pending ensures Flagged(env, t, t.pending[id]) {
      if id in s.pending && t.pending[id] == s.pending[id] {
        FlaggedStays(env, s, t, s.pending[id]);
      } else {
        MovedFlagged(env, s, step, id);
      }
    }
  }

  lemma ReturnedGrows(env: Env, s: State, step: Step)
    ensures s.returned <= Next(env, s, step).returned
  {
    hide Key, Lookup;
  }

  lemma MovedFlagged(env: Env, s: State, step: Step, id: nat)
    requires AllFlagged(env, s) && id in Next(env, s, step).pending
    requires id !in s.pending || Next(env, s, step).pending[id] != s.pending[id]
    ensures Flagged(env, Next(env, s, step), Next(env, s, step).pending[id])
  {
    hide Key, MemoryRead, RedisRead, PromoteStep, DecodeStep, InferStep, SaveMemory, SaveRedis, WasReturned;
    if id in s.pending {
      assert Flagged(env, s, s.pending[id]);
      StepMoves(env, s, step, id);
      match step
      case Read(i, reply) => FlaggedRead(env, s, i, reply, id);
      case Compute(i, up) => FlaggedCompute(env, s, i, up, id);
      case Save(i, outcome) => FlaggedSave(env, s, i, outcome, id);
      case _ =>
    } else {
      ArrivesFirst(env, s, step, id);
    }
  }

  lemma ArrivesFirst(env: Env, s: State, step: Step, id: nat)
    requires id !in s.pending && id in Next(env, s, step).pending
    ensures Next(env, s, step).pending[id].ReadMemory?
  {
    hide Key, Lookup, Insert;
  }

  /** Only a read, compute or save moves a request that is there. */
  lemma StepMoves(env: Env, s: State, step: Step, id: nat)
    requires id in s.pending && Next(env, s, step).pending[id] != s.pending[id]
    ensures step.Read? || step.Compute? || step.Save?
  {
    hide MemoryRead, RedisRead, PromoteStep, DecodeStep, InferStep, SaveMemory, SaveRedis;
  }

  lemma FlaggedRead(env: Env, s: State, i: nat, reply: Reply, id: nat)
    requires id in s.pending && Next(env, s, Read(i, reply)).pending[id] != s.pending[id]
    ensures Flagged(env, Next(env, s, Read(i, reply)), Next(env, s, Read(i, reply)).pending[id])
  {
    hide Key, Lookup, Insert;
    LastReturned(env, Next(env, s, Read(i, reply)), id);
  }

  lemma LastReturned(env: Env, t: State, id: nat)
    requires id in t.pending
    ensures (&& t.pending[id].Got? && t.returned != []
             && t.returned[|t.returned| - 1].key == env.KeyOf(t.pending[id].req)
             && t.returned[|t.returned| - 1].value == t.pending[id].value) ==>
              Flagged(env, t, t.pending[id])
  {
    hide Key;
  }

  lemma FlaggedCompute(env: Env, s: State, i: nat, up: bool, id: nat)
    requires id in s.pending && Flagged(env, s, s.pending[id])
    requires Next(env, s, Compute(i, up)).pending[id] != s.pending[id]
    ensures Flagged(env, Next(env, s, Compute(i, up)), Next(env, s, Compute(i, up)).pending[id])
  {
    hide Key, WasReturned;
    var t := Next(env, s, Compute(i, up));
    UncachedAnswers(env, s.pending[id].req);
    FlaggedStays(env, s, t, s.pending[id]);
  }

  lemma FlaggedSave(env: Env, s: State, i: nat, outcome: WriteOutcome, id: nat)
    requires id in s.pending && Flagged(env, s, s.pending[id])
    requires Next(env, s, Save(i, outcome)).pending[id] != s.pending[id]
    ensures Flagged(env, Next(env, s, Save(i, outcome)), Next(env, s, Save(i, outcome)).pending[id])
  {
    hide Key, Lookup, Insert;
    LastReturned(env, Next(env, s, Save(i, outcome)), id);
  }

  lemma {:induction false} FlaggedRun(env: Env, steps: seq<Step>)
    ensures AllFlagged(env, Run(env, steps))
  {
    hide Next, Flagged;
    if steps != [] {
      FlaggedRun(env, steps[..|steps| - 1]);
      FlaggedNext(env, Run(env, steps[..|steps| - 1]), steps[|steps| - 1]);
    }
  }

  /** In every interleaving a finished answer is marked as cached exactly when it is a decoded value
      that the cache layer handed back under the request's key. */
  lemma CachedFlagIsTrue(env: Env, steps: seq<Step>, id: nat)
    requires id in Run(env, steps).pending && Run(env, steps).pending[id].Done?
    ensures var s := Run(env, steps);
            var done := s.pending[id];
            && (done.answer.Ok? && done.answer.response.cached <==> done.source.Some?)
            && (done.source.Some? ==>
                  && WasReturned(s, env.KeyOf(done.req), done.source.value) && env.decode(done.source.value).Some?
                  && done.answer == Ok(env.decode(done.source.value).value.(cached := true)))
  {
    hide Run, Key, WasReturned;
    FlaggedRun(env, steps);
    assert Flagged(env, Run(env, steps), Run(env, steps).pending[id]);
  }

  // ----- staleness -----

  /** A write of this value under this key happened no later than t and at most `age` before it. */
  ghost predicate WrittenWithin(writes: set<Write>, key: string, value: string, t: int, age: int) {
    exists w :: w in writes && w.key == key && w.value == value && w.time <= t <= w.time + age
  }

  /** How old a value can be when Redis gives it out: a TTL is over when its age reaches it. */
  function ReadAge(env: Env): nat {
    if env.redisTtl >= 1 then env.redisTtl - 1 else 0
  }

  /** How old it can be when it enters memory, after being held for `hold`. */
  function PromotedAge(env: Env, hold: nat): nat {
    if env.redisTtl >= 1 then env.redisTtl - 1 + hold else 0
  }

  /** How old it can be when a get returns it. */
  function MaxAge(env: Env, hold: nat): nat {
    PromotedAge(env, hold) + if env.memoryTtl >= 1 then env.memoryTtl - 1 else 0
  }

  /** `hold` bounds how long a request keeps a value between its Redis read and its memory write. */
  ghost predicate Fresh(env: Env, s: State, hold: nat) {
    && (forall k :: k in s.redis ==> Write(k, s.redis[k].value, s.redis[k].at) in s.writes)
    && (forall k :: k in s.memory ==>
          s.memory[k].at <= s.now
              && WrittenWithin(s.writes, k, s.memory[k].value, s.memory[k].at, PromotedAge(env, hold)))
    && (forall id :: id in s.pending && s.pending[id].Promote? ==>
          && env.redisTtl >= 1 && s.pending[id].readAt <= s.now
          && WrittenWithin(s.writes, env.KeyOf(s.pending[id].req), s.pending[id].value, s.pending[id].readAt,
                           ReadAge(env)))
    && (forall w :: w in s.writes ==> w.time <= s.now)
    && (forall i :: 0 <= i < |s.returned| ==>
          WrittenWithin(s.writes, s.returned[i].key, s.returned[i].value, s.returned[i].time,
                        MaxAge(env, hold)))
  }

  /** The step promotes, if at all, no later than `hold` after the Redis read. */
  predicate PromptStep(s: State, step: Step, hold: nat) {
    step.Save? && step.id in s.pending && s.pending[step.id].Promote? ==> s.now - s.pending[step.id].readAt <= hold
  }

  ghost predicate Prompt(env: Env, steps: seq<Step>, hold: nat) {
    forall i :: 0 <= i < |steps| ==> PromptStep(Run(env, steps[..i]), steps[i], hold)
  }

  lemma WithinGrows(writes: set<Write>, more: set<Write>, key: string, value: string, t: int, age: int, later: int,
                    total: int)
    requires WrittenWithin(writes, key, value, t, age) && writes <= more
    requires t <= later && later - t <= total - age
    ensures WrittenWithin(more, key, value, later, total)
  {
    var w :| w in writes && w.key == key && w.value == value && w.time <= t <= w.time + age;
    assert w in more;
  }

  lemma KeepWrites(env: Env, s: State, more: set<Write>, hold: nat)
    requires Fresh(env, s, hold) && s.writes <= more && forall w :: w in more ==> w.time <= s.now
    ensures Fresh(env, s.(writes := more), hold)
  {
    forall k | k in s.memory ensures WrittenWithin(more, k, s.memory[k].value, s.memory[k].at, PromotedAge(env, hold)) {
      WithinGrows(s.writes, more, k, s.memory[k].value, s.memory[k].at, PromotedAge(env, hold), s.memory[k].at,
                  PromotedAge(env, hold));
    }
    forall id | id in s.pending && s.pending[id].Promote?
      ensures WrittenWithin(more, env.KeyOf(s.pending[id].req), s.pending[id].value, s.pending[id].readAt, ReadAge(env))
    {
      WithinGrows(s.writes, more, env.KeyOf(s.pending[id].req), s.pending[id].value, s.pending[id].readAt, ReadAge(env),
                  s.pending[id].readAt, ReadAge(env));
    }
    forall i | 0 <= i < |s.returned|
      ensures WrittenWithin(more, s.returned[i].key, s.returned[i].value, s.returned[i].time, MaxAge(env, hold))
    {
      var r, age := s.returned[i], MaxAge(env, hold);
      WithinGrows(s.writes, more, r.key, r.value, r.time, age, r.time, age);
    }
  }

  lemma FreshRead(env: Env, s: State, id: nat, reply: Reply, hold: nat)
    requires Fresh(env, s, hold) && id in s.pending && (s.pending[id].ReadMemory? || s.pending[id].ReadRedis?)
    ensures Fresh(env, Next(env, s, Read(id, reply)), hold)
  {
    hide WrittenWithin, Key;
    var req := s.pending[id].req;
    var key := env.KeyOf(req);
    if s.pending[id].ReadMemory? {
      if Lookup(s.memory, env.memoryTtl, s.now, key).Some? {
        var e := s.memory[key];
        WithinGrows(s.writes, s.writes, key, e.value, e.at, PromotedAge(env, hold), s.now, MaxAge(env, hold));
      }
    } else if Lookup(s.redis, env.redisTtl, s.now, key).Some? {
      var e := s.redis[key];
      JustWritten(s.writes, key, e.value, e.at);
      WithinGrows(s.writes, s.writes, key, e.value, e.at, 0, s.now, ReadAge(env));
    }
  }

  lemma JustWritten(writes: set<Write>, key: string, value: string, t: int)
    requires Write(key, value, t) in writes
    ensures WrittenWithin(writes, key, value, t, 0)
  {
    assert Write(key, value, t) in writes;
  }

  lemma FreshSave(env: Env, s: State, id: nat, outcome: WriteOutcome, hold: nat)
    requires Fresh(env, s, hold) && PromptStep(s, Save(id, outcome), hold) && id in s.pending
    ensures Fresh(env, Next(env, s, Save(id, outcome)), hold)
  {
    hide WrittenWithin, Key;
    match s.pending[id]
    case Promote(req, value, readAt) =>
      var key := env.KeyOf(req);
      WithinGrows(s.writes, s.writes, key, value, readAt, ReadAge(env), s.now, PromotedAge(env, hold));
      WithinGrows(s.writes, s.writes, key, value, s.now, PromotedAge(env, hold), s.now, MaxAge(env, hold));
    case WriteMemory(req, resp, json) =>
      var key := env.KeyOf(req);
      KeepWrites(env, s, s.writes + {Write(key, json, s.now)}, hold);
      JustWritten(s.writes + {Write(key, json, s.now)}, key, json, s.now);
      WithinGrows(s.writes + {Write(key, json, s.now)}, s.writes + {Write(key, json, s.now)}, key, json, s.now, 0,
                  s.now, PromotedAge(env, hold));
    case WriteRedis(req, resp, json) =>
      KeepWrites(env, s, s.writes + {Write(env.KeyOf(req), json, s.now)}, hold);
    case _ =>
  }

  lemma FreshNext(env: Env, s: State, step: Step, hold: nat)
    requires Fresh(env, s, hold) && PromptStep(s, step, hold)
    ensures Fresh(env, Next(env, s, step), hold)
  {
    hide WrittenWithin, Key;
    match step
    case Read(id, reply) =>
      if id in s.pending && (s.pending[id].ReadMemory? || s.pending[id].ReadRedis?) {
        FreshRead(env, s, id, reply, hold);
      }
    case Save(id, outcome) =>
      if id in s.pending { FreshSave(env, s, id, outcome, hold); }
    case _ =>
  }

  /** Every value the cache layer ever returns was written less than redis_ttl + memory_ttl earlier,
      plus the time a request holds a value between its Redis read and its promotion. */
  lemma {:induction false} StalenessBound(env: Env, steps: seq<Step>, hold: nat)
    requires Prompt(env, steps, hold)
    ensures Fresh(env, Run(env, steps), hold)
  {
    hide Next, WrittenWithin, Fresh, PromptStep;
    if steps == [] {
      FreshInitially(env, hold);
    } else {
      var n := |steps| - 1;
      forall i | 0 <= i < n ensures PromptStep(Run(env, steps[..n][..i]), steps[..n][i], hold) {
        assert steps[..n][..i] == steps[..i];
      }
      StalenessBound(env, steps[..n], hold);
      FreshNext(env, Run(env, steps[..n]), steps[n], hold);
    }
  }

  /** So for every returned value; with atomic gets, a request holding nothing in between, that is
      less than the sum of the two TTLs. */
  lemma ReturnedIsRecent(env: Env, steps: seq<Step>, hold: nat, i: nat)
    requires Prompt(env, steps, hold) && i < |Run(env, steps).returned|
    ensures var s := Run(env, steps);
            WrittenWithin(s.writes, s.returned[i].key, s.returned[i].value, s.returned[i].time,
                          MaxAge(env, hold))
  {
    hide Run, Prompt;
    StalenessBound(env, steps, hold);
  }

  lemma FreshInitially(env: Env, hold: nat)
    ensures Fresh(env, INITIAL, hold)
  {
  }

  // ----- the bound is reached -----

  /** A prompt run and the state it ends in. */
  ghost predicate Reaches(env: Env, steps: seq<Step>, s: State, hold: nat) {
    Prompt(env, steps, hold) && Run(env, steps) == s
  }

  lemma Extend(env: Env, steps: seq<Step>, s: State, step: Step, hold: nat) returns (more: seq<Step>, t: State)
    requires Reaches(env, steps, s, hold) && PromptStep(s, step, hold)
    ensures t == Next(env, s, step) && Reaches(env, more, t, hold)
  {
    hide Next, PromptStep;
    more, t := steps + [step], Next(env, s, step);
    assert more[..|steps|] == steps;
    forall i | 0 <= i < |more| ensures PromptStep(Run(env, more[..i]), more[i], hold) {
      if i < |steps| {
        assert more[..i] == steps[..i] && more[i] == steps[i];
      }
    }
  }

  /** The request's answer can be cached. */
  predicate Cacheable(env: Env, req: Request) {
    env.Uncached(req).Some? && env.encode(env.Uncached(req).value).Some?
  }

  function JsonOf(env: Env, req: Request): string
    requires Cacheable(env, req)
  {
    env.encode(env.Uncached(req).value).value
  }

  /** A state at a time, with the one value in the given tiers, the one write at 0 and some returns. */
  predicate Holding(env: Env, s: State, req: Request, now: int, memory: Store, returned: seq<Returned>, next: nat)
    requires Cacheable(env, req)
  {
    && s.now == now && s.memory == memory && s.redis == map[env.KeyOf(req) := Entry(JsonOf(env, req), 0)]
    && s.writes == {Write(env.KeyOf(req), JsonOf(env, req), 0)} && s.returned == returned
    && forall id :: id in s.pending ==> id < next
  }

  /** The first request stores its value in both tiers at time 0; memory then loses it. */
  lemma StoresOnce(env: Env, req: Request, hold: nat) returns (steps: seq<Step>, s: State)
    requires Cacheable(env, req)
    ensures Reaches(env, steps, s, hold) && Holding(env, s, req, 0, map[], [], 1)
  {
    hide Key, Reaches;
    var key, json := env.KeyOf(req), JsonOf(env, req);
    steps, s := [], INITIAL;
    assert Reaches(env, steps, s, hold) by { ReachesStart(env, hold); }
    steps, s := Extend(env, steps, s, Arrive(0, req), hold);
    steps, s := Extend(env, steps, s, Read(0, Answered), hold);
    steps, s := Extend(env, steps, s, Read(0, Answered), hold);
    assert s.pending == map[0 := Infer(req)];
    steps, s := Extend(env, steps, s, Compute(0, true), hold);
    assert s.pending == map[0 := WriteMemory(req, env.Uncached(req).value, json)];
    steps, s := Extend(env, steps, s, Save(0, Stored), hold);
    steps, s := Extend(env, steps, s, Save(0, Stored), hold);
    assert s.redis == map[key := Entry(json, 0)] && s.memory == map[key := Entry(json, 0)];
    steps, s := Extend(env, steps, s, EvictMemory({key}), hold);
  }

  lemma ReachesStart(env: Env, hold: nat)
    ensures Reaches(env, [], INITIAL, hold)
  {
  }

  /** A second one reads it from Redis at the last moment and promotes it after holding it. */
  lemma PromotesLate(env: Env, req: Request, hold: nat, before: seq<Step>, start: State)
    returns (steps: seq<Step>, s: State)
    requires Cacheable(env, req) && env.redisTtl >= 1
    requires Reaches(env, before, start, hold) && Holding(env, start, req, 0, map[], [], 1)
    ensures var t := env.redisTtl - 1 + hold;
            && Reaches(env, steps, s, hold)
            && Holding(env, s, req, t, map[env.KeyOf(req) := Entry(JsonOf(env, req), t)],
                       [Returned(env.KeyOf(req), JsonOf(env, req), t)], 2)
  {
    hide Key, Reaches;
    var key, json := env.KeyOf(req), JsonOf(env, req);
    steps, s := Extend(env, before, start, Pass(env.redisTtl - 1), hold);
    steps, s := Extend(env, steps, s, Arrive(1, req), hold);
    steps, s := Extend(env, steps, s, Read(1, Answered), hold);
    assert s.pending[1] == ReadRedis(req);
    steps, s := Extend(env, steps, s, Read(1, Answered), hold);
    assert s.pending[1] == Promote(req, json, env.redisTtl - 1);
    steps, s := Extend(env, steps, s, Pass(hold), hold);
    steps, s := Extend(env, steps, s, Save(1, Stored), hold);
  }

  /** A third one reads it from memory at the last moment. */
  lemma ReturnsLate(env: Env, req: Request, hold: nat, before: seq<Step>, start: State, at: int)
    returns (steps: seq<Step>, s: State)
    requires Cacheable(env, req) && env.memoryTtl >= 1
    requires Reaches(env, before, start, hold)
    requires Holding(env, start, req, at, map[env.KeyOf(req) := Entry(JsonOf(env, req), at)],
                     [Returned(env.KeyOf(req), JsonOf(env, req), at)], 2)
    ensures Reaches(env, steps, s, hold) && s.writes == {Write(env.KeyOf(req), JsonOf(env, req), 0)}
    ensures |s.returned| == 2 && s.returned[1] == Returned(env.KeyOf(req), JsonOf(env, req), at + env.memoryTtl - 1)
  {
    hide Key, Reaches;
    steps, s := Extend(env, before, start, Pass(env.memoryTtl - 1), hold);
    steps, s := Extend(env, steps, s, Arrive(2, req), hold);
    steps, s := Extend(env, steps, s, Read(2, Answered), hold);
  }

  /** Every returned value of every prompt run is at most `age` old. */
  ghost predicate NeverOlder(env: Env, hold: nat, age: int) {
    forall steps: seq<Step>, i: nat :: Prompt(env, steps, hold) && i < |Run(env, steps).returned| ==>
      var s := Run(env, steps);
      WrittenWithin(s.writes, s.returned[i].key, s.returned[i].value, s.returned[i].time, age)
  }

  /** With both TTLs positive and something to cache, the bound is the exact one. */
  lemma StalenessExactly(env: Env, req: Request, hold: nat, age: int)
    requires Cacheable(env, req) && env.redisTtl >= 1 && env.memoryTtl >= 1
    ensures NeverOlder(env, hold, age) <==> age >= env.redisTtl + env.memoryTtl + hold - 2
  {
    hide Run, Prompt, Key;
    if age >= MaxAge(env, hold) {
      forall steps: seq<Step>, i: nat | Prompt(env, steps, hold) && i < |Run(env, steps).returned|
        ensures var s := Run(env, steps);
                WrittenWithin(s.writes, s.returned[i].key, s.returned[i].value, s.returned[i].time, age)
      {
        ReturnedIsRecent(env, steps, hold, i);
        var s := Run(env, steps);
        var x := s.returned[i];
        WithinGrows(s.writes, s.writes, x.key, x.value, x.time, MaxAge(env, hold), x.time, age);
      }
    } else {
      var steps, s := StoresOnce(env, req, hold);
      steps, s := PromotesLate(env, req, hold, steps, s);
      steps, s := ReturnsLate(env, req, hold, steps, s, env.redisTtl - 1 + hold);
      assert Run(env, steps) == s;
      var x := s.returned[1];
      assert !WrittenWithin(s.writes, x.key, x.value, x.time, age);
    }
  }

  // ----- counters -----

  /** The requests about to read Redis. */
  function AtRedis(pending: map<nat, Pc>): set<nat> {
    set id | id in pending && pending[id].ReadRedis?
  }

  predicate Counted(s: State) {
    && s.memoryHits + s.memoryMisses == s.gets
    && s.redisHits + s.redisMisses + |AtRedis(s.pending)| <= s.memoryMisses
  }

  lemma AtRedisMoves(pending: map<nat, Pc>, id: nat, pc: Pc)
    ensures var before, after := AtRedis(pending), AtRedis(pending[id := pc]);
            && (pc.ReadRedis? && id !in before ==> |after| == |before| + 1)
            && (!pc.ReadRedis? && id in before ==> |after| == |before| - 1)
            && (!pc.ReadRedis? && id !in before ==> after == before)
    ensures id in AtRedis(pending) <==> id in pending && pending[id].ReadRedis?
  {
    var before, after := AtRedis(pending), AtRedis(pending[id := pc]);
    if pc.ReadRedis? {
      assert after == before + {id};
    } else {
      assert after == before - {id};
    }
  }

  lemma CountedNext(env: Env, s: State, step: Step)
    requires Counted(s)
    ensures Counted(Next(env, s, step))
  {
    hide Key, Lookup, Insert, AtRedis, RedisRead, MemoryRead;
    match step
    case Read(id, reply) =>
      if id in s.pending && s.pending[id].ReadMemory? { CountedMemoryRead(env, s, id); }
      if id in s.pending && s.pending[id].ReadRedis? { CountedRedisRead(env, s, id, reply); }
    case Arrive(id, req) => AtRedisMoves(s.pending, id, ReadMemory(req));
    case Compute(id, _) =>
      if id in s.pending { AtRedisMoves(s.pending, id, Next(env, s, step).pending[id]); }
    case Save(id, _) =>
      if id in s.pending { AtRedisMoves(s.pending, id, Next(env, s, step).pending[id]); }
    case _ =>
  }

  lemma CountedMemoryRead(env: Env, s: State, id: nat)
    requires Counted(s) && id in s.pending && s.pending[id].ReadMemory?
    ensures Counted(MemoryRead(env, s, id, s.pending[id].req))
  {
    hide Key, Lookup, AtRedis;
    AtRedisMoves(s.pending, id, MemoryRead(env, s, id, s.pending[id].req).pending[id]);
  }

  lemma CountedRedisRead(env: Env, s: State, id: nat, reply: Reply)
    requires Counted(s) && id in s.pending && s.pending[id].ReadRedis?
    ensures Counted(RedisRead(env, s, id, s.pending[id].req, reply))
  {
    hide Key, Lookup, AtRedis;
    AtRedisMoves(s.pending, id, RedisRead(env, s, id, s.pending[id].req, reply).pending[id]);
  }

  /** Over every run memory hits plus misses is the number of gets, and Redis hits plus misses is
      at most memory misses. */
  lemma {:induction false} CountersRun(env: Env, steps: seq<Step>)
    ensures Counted(Run(env, steps))
  {
    hide Next;
    if steps == [] {
      assert AtRedis(INITIAL.pending) == {};
    } else {
      CountersRun(env, steps[..|steps| - 1]);
      CountedNext(env, Run(env, steps[..|steps| - 1]), steps[|steps| - 1]);
    }
  }
}
