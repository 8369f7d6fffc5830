/** The two cache tiers (memory.rs, redis_cache.rs) and the layer over them (mod.rs).

    A tier is a map of entries stamped with their insertion time; expiry is decided at lookup.
    Evictions and server failures are environment actions. */
module Cache {
  import opened Series

  datatype Entry = Entry(value: string, at: int)

  type Store = map<string, Entry>

  /** The live value of a key, if any. */
  function Lookup(store: Store, ttl: nat, now: int, key: string): Option<string> {
    if key in store && now - store[key].at < ttl then Some(store[key].value) else None
  }

  function Insert(store: Store, key: string, value: string, now: int): Store {
    store[key := Entry(value, now)]
  }

  /** How the Redis server answers a read: normally, or not at all. */
  datatype Reply = Answered | ConnectionError | CommandError

  /** How a Redis write ends; a lost response still stored the value. */
  datatype WriteOutcome = Stored | NotStored | StoredButLost

  class MemoryCache {
    const ttl: nat
    var entries: Store
    var hits: nat
    var misses: nat

    constructor (ttl: nat)
      ensures this.ttl == ttl && entries == map[] && hits == 0 && misses == 0
    {
      this.ttl, entries, hits, misses := ttl, map[], 0, 0;
    }

    method Get(key: string, now: int) returns (r: Option<string>)
      modifies this`hits, this`misses
      ensures r == Lookup(entries, ttl, now, key)
      ensures hits == old(hits) + (if r.Some? then 1 else 0)
      ensures misses == old(misses) + (if r.Some? then 0 else 1)
    {
      r := Lookup(entries, ttl, now, key);
      match r {
        case Some(_) => hits := hits + 1;
        case None => misses := misses + 1;
      }
    }

    method Set(key: string, value: string, now: int)
      modifies this`entries
      ensures entries == Insert(old(entries), key, value, now)
    {
      entries := Insert(entries, key, value, now);
    }

    /** Capacity evictions, at any moment and of any keys. */
    method Evict(victims: set<string>)
      modifies this`entries
      ensures entries == old(entries) - victims
    {
      entries := entries - victims;
    }
  }

  class RedisCache {
    const ttl: nat
    var entries: Store
    var hits: nat
    var misses: nat

    constructor (ttl: nat)
      ensures this.ttl == ttl && entries == map[] && hits == 0 && misses == 0
    {
      this.ttl, entries, hits, misses := ttl, map[], 0, 0;
    }

    method Get(key: string, now: int, reply: Reply) returns (r: Option<string>)
      modifies this`hits, this`misses
      ensures r == if reply.Answered? then Lookup(entries, ttl, now, key) else None
      ensures hits == old(hits) + (if r.Some? then 1 else 0)
      ensures misses == old(misses) + (if reply.Answered? && r.None? then 1 else 0)
    {
      match reply {
        case Answered =>
          r := Lookup(entries, ttl, now, key);
          match r {
            case Some(_) => hits := hits + 1;
            case None => misses := misses + 1;
          }
        case ConnectionError => r := None;
        case CommandError => r := None;
      }
    }

    method Set(key: string, value: string, now: int, outcome: WriteOutcome) returns (ok: bool)
      modifies this`entries
      ensures ok == outcome.Stored?
      ensures entries == if outcome.NotStored? then old(entries) else Insert(old(entries), key, value, now)
    {
      if !outcome.NotStored? {
        entries := Insert(entries, key, value, now);
      }
      ok := outcome.Stored?;
    }
  }

  datatype CacheStats = CacheStats(memoryHits: nat, memoryMisses: nat, redisHits: nat, redisMisses: nat)

  class CacheLayer {
    const memory: MemoryCache
    const redis: RedisCache
    ghost var gets: nat

    /** Every get reads memory once, and Redis at most once per memory miss. */
    ghost predicate Valid()
      reads this, memory, redis
    {
      && memory.hits + memory.misses == gets
      && redis.hits + redis.misses <= memory.misses
    }

    constructor (memoryTtl: nat, redisTtl: nat)
      ensures Valid() && fresh(memory) && fresh(redis)
      ensures memory.ttl == memoryTtl && redis.ttl == redisTtl
      ensures memory.entries == map[] && redis.entries == map[]
    {
      memory := new MemoryCache(memoryTtl);
      redis := new RedisCache(redisTtl);
      gets := 0;
    }

    /** Memory first, then Redis; a Redis hit is promoted into memory under a fresh TTL. */
    method Get(key: string, now: int, reply: Reply) returns (r: Option<string>)
      requires Valid()
      modifies this`gets, memory, redis`hits, redis`misses
      ensures Valid() && gets == old(gets) + 1
      ensures var m := Lookup(old(memory.entries), memory.ttl, now, key);
              var d := if reply.Answered? then Lookup(redis.entries, redis.ttl, now, key) else None;
              && r == (if m.Some? then m else d)
              && memory.entries == (if m.None? && d.Some? then Insert(old(memory.entries), key, d.value, now)
                                    else old(memory.entries))
              && memory.hits == old(memory.hits) + (if m.Some? then 1 else 0)
              && memory.misses == old(memory.misses) + (if m.None? then 1 else 0)
              && redis.hits == old(redis.hits) + (if m.None? && d.Some? then 1 else 0)
              && redis.misses == old(redis.misses) + (if m.None? && d.None? && reply.Answered? then 1 else 0)
    {
      gets := gets + 1;
      r := memory.Get(key, now);
      if r.Some? {
        return;
      }
      r := redis.Get(key, now, reply);
      if r.Some? {
        memory.Set(key, r.value, now);
      }
    }

    /** Writes both tiers; the memory write cannot fail. */
    method Set(key: string, value: string, now: int, outcome: WriteOutcome) returns (ok: bool)
      requires Valid()
      modifies memory`entries, redis`entries
      ensures Valid()
      ensures ok == outcome.Stored?
      ensures memory.entries == Insert(old(memory.entries), key, value, now)
      ensures redis.entries == if outcome.NotStored? then old(redis.entries)
          else Insert(old(redis.entries), key, value, now)
    {
      memory.Set(key, value, now);
      ok := redis.Set(key, value, now, outcome);
    }

    method Stats() returns (s: CacheStats)
      requires Valid()
      ensures s.memoryHits + s.memoryMisses == gets
      ensures s.redisHits + s.redisMisses <= s.memoryMisses
      ensures s == CacheStats(memory.hits, memory.misses, redis.hits, redis.misses)
    {
      s := CacheStats(memory.hits, memory.misses, redis.hits, redis.misses);
    }
  }
}
