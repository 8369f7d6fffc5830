/** The deduplicating Bloom filter of dedup.rs: a bit array and a fixed list of index functions. */
module Bloom {

  /** A library filter: the number of bits and the k hash functions, any but fixed. */
  datatype Hashing = Hashing(size: nat, indexes: seq<string -> nat>) {
    ghost predicate Valid() {
      && indexes != []
      && forall k, s :: 0 <= k < |indexes| ==> indexes[k](s) < size
    }

    /** The bits a key owns. */
    function Bits(key: string): (r: set<nat>) {
      FirstBits(key, |indexes|)
    }

    function FirstBits(key: string, n: nat): set<nat>
      requires n <= |indexes|
    {
      set k | 0 <= k < n :: indexes[k](key)
    }
  }

  class BloomFilter {
    const hashing: Hashing
    const bits: array<bool>

    ghost predicate Valid()
      reads this
    {
      hashing.Valid() && bits.Length == hashing.size
    }

    /** The positions that are set. */
    ghost function Set(): (r: set<nat>)
      reads this, bits
    {
      set i: nat | i < bits.Length && bits[i]
    }

    constructor (hashing: Hashing)
      requires hashing.Valid()
      ensures Valid() && this.hashing == hashing && fresh(bits)
      ensures Set() == {}
    {
      this.hashing := hashing;
      bits := new bool[hashing.size](_ => false);
    }

    /** True when every bit of the key is set: possibly seen before. */
    method Check(key: string) returns (seen: bool)
      requires Valid()
      ensures seen <==> hashing.Bits(key) <= Set()
    {
      for k := 0 to |hashing.indexes|
        invariant forall j :: 0 <= j < k ==> bits[hashing.indexes[j](key)]
      {
        var i := hashing.indexes[k](key);
        if !bits[i] {
          assert i in hashing.Bits(key) && i !in Set();
          return false;
        }
      }
      return true;
    }

    method SetKey(key: string)
      requires Valid()
      modifies bits
      ensures Set() == old(Set()) + hashing.Bits(key)
    {
      for k := 0 to |hashing.indexes|
        invariant Set() == old(Set()) + hashing.FirstBits(key, k)
      {
        ghost var before := Set();
        var i := hashing.indexes[k](key);
        bits[i] := true;
        assert Set() == before + {i};
        assert hashing.FirstBits(key, k + 1) == hashing.FirstBits(key, k) + {i};
      }
    }
  }

  /** The filter behind its write lock: one check-and-set at a time. */
  class DedupFilter {
    const bloom: BloomFilter

    constructor (hashing: Hashing)
      requires hashing.Valid()
      ensures bloom.Valid() && bloom.hashing == hashing && fresh(bloom) && fresh(bloom.bits)
      ensures bloom.Set() == {}
    {
      bloom := new BloomFilter(hashing);
    }

    /** True when the key is new; it is then remembered. */
    method Check(key: string) returns (isNew: bool)
      requires bloom.Valid()
      modifies bloom.bits
      ensures (isNew, bloom.Set()) == CheckAndSet(bloom.hashing, old(bloom.Set()), key)
    {
      var seen := bloom.Check(key);
      if seen {
        isNew := false;
      } else {
        bloom.SetKey(key);
        isNew := true;
      }
    }
  }

  /** One check on the set of set bits: whether the key is new, and the bits afterwards. */
  function CheckAndSet(h: Hashing, bits: set<nat>, key: string): (bool, set<nat>) {
    if h.Bits(key) <= bits then (false, bits) else (true, bits + h.Bits(key))
  }

  // ----- against an exact set -----

  /** The bits after a sequence of checks; callers hold the lock, so any interleaving of
      concurrent callers is such a sequence. */
  function BitsAfter(h: Hashing, keys: seq<string>): set<nat> {
    if keys == [] then {}
    else CheckAndSet(h, BitsAfter(h, keys[..|keys| - 1]), keys[|keys| - 1]).1
  }

  /** Whether check number i answers "new". */
  predicate NewAt(h: Hashing, keys: seq<string>, i: nat)
    requires i < |keys|
  {
    CheckAndSet(h, BitsAfter(h, keys[..i]), keys[i]).0
  }

  /** Whether an exact set of seen keys would answer "new". */
  predicate ExactlyNewAt(keys: seq<string>, i: nat)
    requires i < |keys|
  {
    keys[i] !in keys[..i]
  }

  /** Every key ever checked keeps all its bits. */
  lemma {:induction false} SeenKeepsBits(h: Hashing, keys: seq<string>, i: nat)
    requires i < |keys|
    ensures h.Bits(keys[i]) <= BitsAfter(h, keys)
  {
    if i < |keys| - 1 { SeenKeepsBits(h, keys[..|keys| - 1], i); }
  }

  /** The filter is an under-approximation of the exact one: it answers "new" only for keys never
      seen, and misses one exactly on a false positive. */
  lemma BloomRefinesExact(h: Hashing, keys: seq<string>, i: nat)
    requires i < |keys|
    ensures NewAt(h, keys, i) <==> ExactlyNewAt(keys, i) && !(h.Bits(keys[i]) <= BitsAfter(h, keys[..i]))
  {
    if keys[i] in keys[..i] {
      var j :| 0 <= j < i && keys[..i][j] == keys[i];
      SeenKeepsBits(h, keys[..i], j);
    }
  }

  /** A key is reported new at most once over all callers. */
  lemma NewAtMostOnce(h: Hashing, keys: seq<string>, i: nat, j: nat)
    requires i < j < |keys| && keys[i] == keys[j]
    ensures !NewAt(h, keys, j)
  {
    assert keys[..j][i] == keys[j];
    BloomRefinesExact(h, keys, j);
  }
}
